// pipe.c: a ring of bytes between readers and writers. p->lock is held from
// the acquire of a call to its sleep or return, so each such stretch is one
// method here; `readers` and `writers` are the processes asleep in between.
module Pipe {
  import opened Blocks

  const PIPESIZE: nat := 512
  const MOD32: nat := 0x1_0000_0000

  /** How a stretch of pipewrite or piperead ends. */
  datatype Outcome = Done | Failed | Sleeps

  function Min(a: nat, b: nat): nat { if a < b then a else b }

  /** The ring holds the bytes accepted but not delivered, each in its slot. */
  ghost predicate Holds(ring: seq<byte>, accepted: seq<byte>, delivered: seq<byte>) {
    && |ring| == PIPESIZE && |delivered| <= |accepted| <= |delivered| + PIPESIZE
    && delivered == accepted[..|delivered|]
    && forall i {:trigger accepted[i]} :: |delivered| <= i < |accepted| ==> ring[i % PIPESIZE] == accepted[i]
  }

  lemma HoldsMore(ring: seq<byte>, accepted: seq<byte>, delivered: seq<byte>, b: byte)
    requires Holds(ring, accepted, delivered) && |accepted| < |delivered| + PIPESIZE
    ensures Holds(ring[|accepted| % PIPESIZE := b], accepted + [b], delivered)
  {
    var n := |accepted|;
    forall i | |delivered| <= i < n ensures i % PIPESIZE != n % PIPESIZE { SlotsDiffer(i, n); }
  }

  lemma HoldsLess(ring: seq<byte>, accepted: seq<byte>, delivered: seq<byte>)
    requires Holds(ring, accepted, delivered) && |delivered| < |accepted|
    ensures Holds(ring, accepted, delivered + [ring[|delivered| % PIPESIZE]])
    ensures ring[|delivered| % PIPESIZE] == accepted[|delivered|]
  {
    assert accepted[..|delivered| + 1] == accepted[..|delivered|] + [accepted[|delivered|]];
  }

  lemma SlotsDiffer(i: nat, n: nat)
    requires i < n < i + PIPESIZE
    ensures i % PIPESIZE != n % PIPESIZE
  {
  }

  /** 32-bit counters tell full and empty apart, and find the right slot, however often they have wrapped round. */
  lemma Counters(a: nat, d: nat)
    requires d <= a <= d + PIPESIZE
    ensures a % MOD32 == (d % MOD32 + PIPESIZE) % MOD32 <==> a == d + PIPESIZE
    ensures d % MOD32 == a % MOD32 <==> a == d
    ensures (a % MOD32) % PIPESIZE == a % PIPESIZE && (d % MOD32) % PIPESIZE == d % PIPESIZE
    ensures (a % MOD32 - d % MOD32) % MOD32 == a - d
  {
    SameSlot(a);
    SameSlot(d);
    Gap(a, d);
    Gap(d + PIPESIZE, a);
  }

  lemma SameSlot(a: nat)
    ensures (a % MOD32) % PIPESIZE == a % PIPESIZE
  {
    assert a == MOD32 * (a / MOD32) + a % MOD32;
    assert a == PIPESIZE * (0x80_0000 * (a / MOD32)) + a % MOD32;
    ModPlus(a % MOD32, 0x80_0000 * (a / MOD32));
  }

  lemma {:induction false} ModPlus(r: nat, q: nat)
    ensures (PIPESIZE * q + r) % PIPESIZE == r % PIPESIZE
  {
    if q > 0 {
      ModPlus(r, q - 1);
      assert PIPESIZE * q + r == (PIPESIZE * (q - 1) + r) + PIPESIZE;
    }
  }

  lemma Gap(a: nat, d: nat)
    requires d <= a <= d + PIPESIZE
    ensures (a % MOD32 - d % MOD32) % MOD32 == a - d
  {
  }

  class Pipe {
    const data: array<byte>
    var nread: nat
    var nwrite: nat
    var readopen: bool
    var writeopen: bool
    /** Processes asleep on &p->nread and on &p->nwrite. */
    var readers: set<nat>
    var writers: set<nat>
    /** All bytes writers have put in, and all that readers have taken out. */
    ghost var accepted: seq<byte>
    ghost var delivered: seq<byte>

    ghost predicate Valid()
      reads this, data
    {
      && data.Length == PIPESIZE && Holds(data[..], accepted, delivered)
      && nwrite == |accepted| % MOD32 && nread == |delivered| % MOD32
      && (!readopen ==> readers == {}) && (!writeopen ==> writers == {}) && WritersOk()
    }

    ghost predicate Empty()
      reads this
    {
      |accepted| == |delivered|
    }

    ghost predicate Full()
      reads this
    {
      |accepted| == |delivered| + PIPESIZE
    }

    /** Readers asleep wait on an empty pipe that may still fill. */
    ghost predicate ReadersOk()
      reads this
    {
      readers != {} ==> Empty() && writeopen
    }

    /** Writers asleep wait on a full pipe that may still drain. */
    ghost predicate WritersOk()
      reads this
    {
      writers != {} ==> Full() && readopen
    }

    /** First in, first out: what was delivered and what is buffered is what was accepted, in order. */
    lemma Fifo(k: nat)
      requires Valid() && k < (nwrite - nread) % MOD32
      ensures accepted == delivered + accepted[|delivered|..] && (nwrite - nread) % MOD32 == |accepted| - |delivered| <= PIPESIZE
      ensures data[(nread + k) % MOD32 % PIPESIZE] == accepted[|delivered| + k]
    {
      Counters(|accepted|, |delivered|);
      WrappedSlot(|delivered|, k);
      assert data[(|delivered| + k) % PIPESIZE] == data[..][(|delivered| + k) % PIPESIZE];
    }

    /** pipealloc's pipe. */
    constructor ()
      ensures Valid() && ReadersOk() && readopen && writeopen && accepted == [] && delivered == []
      ensures readers == {} && writers == {} && fresh(data)
    {
      data := new byte[PIPESIZE];
      nread, nwrite := 0, 0;
      readopen, writeopen := true, true;
      readers, writers := {}, {};
      accepted, delivered := [], [];
    }

    /**
     * pipewrite from byte i on, on entry or after a sleep, up to its next sleep or its return: the bytes that fit go
     * in; with all in, the readers are woken; with the pipe full, the call fails if nobody can read any more or the
     * process was killed, and sleeps otherwise. A reader that could go on stays asleep exactly when the call fails with
     * readers asleep: when a killed process had more than a pipeful left for readers waiting on an empty pipe. The
     * next stretch of any writer that does not fail puts that right.
     */
    method Write(p: nat, addr: seq<byte>, i: nat, killed: bool) returns (r: Outcome, j: nat)
      requires Valid() && writeopen && i <= |addr| && p !in readers && p !in writers
      modifies this, data
      ensures Valid() && delivered == old(delivered) && readopen == old(readopen) && writeopen
      ensures j == Min(|addr|, i + PIPESIZE - (|old(accepted)| - |old(delivered)|)) && i <= j <= |addr|
      ensures accepted == old(accepted) + addr[i..j]
      ensures r == if j == |addr| then Done else if killed || !readopen then Failed else Sleeps
      ensures r != Done ==> Full()
      ensures readers == (if r == Failed then old(readers) else {})
      ensures writers == (if r == Sleeps then old(writers) + {p} else old(writers))
      ensures ReadersOk() <==> !(r == Failed && old(readers) != {})
      ensures old(ReadersOk()) ==> (ReadersOk() <==> !(killed && old(readers) != {} && |addr| - i > PIPESIZE))
    {
      j := i;
      while j < |addr|
        invariant data.Length == PIPESIZE && i <= j <= |addr| && Holds(data[..], accepted, delivered) && nwrite == |accepted| % MOD32
        invariant accepted == old(accepted) + addr[i..j] && |accepted| <= |delivered| + PIPESIZE
        modifies `accepted, `nwrite, data
      {
        Counters(|accepted|, |delivered|);
        if nwrite == (nread + PIPESIZE) % MOD32 {
          break;
        }
        HoldsMore(data[..], accepted, delivered, addr[j]);
        ghost var ring := data[..];
        data[nwrite % PIPESIZE] := addr[j];
        assert data[..] == ring[|accepted| % PIPESIZE := addr[j]];
        CounterUp(|accepted|);
        nwrite := (nwrite + 1) % MOD32;
        accepted := accepted + [addr[j]];
        assert addr[i..j + 1] == addr[i..j] + [addr[j]];
        j := j + 1;
      }
      if j == |addr| {
        readers := {};
        return Done, j;
      }
      if !readopen || killed {
        return Failed, j;
      }
      readers := {};
      writers := writers + {p};
      return Sleeps, j;
    }

    /**
     * piperead, on entry or after a sleep, up to its next sleep or its return: with the pipe empty and writers left the
     * call fails if the process was killed and sleeps otherwise; else up to n bytes come out and writers are woken.
     */
    method Read(p: nat, n: nat, killed: bool) returns (r: Outcome, out: seq<byte>)
      requires Valid() && readopen && p !in readers && p !in writers
      modifies this
      ensures Valid() && accepted == old(accepted) && readopen && writeopen == old(writeopen) && (old(ReadersOk()) ==> ReadersOk())
      ensures delivered == old(delivered) + out
      ensures r == if old(Empty()) && writeopen then (if killed then Failed else Sleeps) else Done
      ensures |out| == (if r == Done then Min(n, |accepted| - |old(delivered)|) else 0)
      ensures readers == (if r == Sleeps then old(readers) + {p} else old(readers))
      ensures writers == (if r == Done then {} else old(writers))
    {
      out := [];
      Counters(|accepted|, |delivered|);
      if nread == nwrite && writeopen {
        if killed { return Failed, out; }
        readers := readers + {p};
        return Sleeps, out;
      }
      var i := 0;
      while i < n
        invariant i <= n && i == |out| && i <= |accepted| - |old(delivered)| && delivered == old(delivered) + out
        invariant data.Length == PIPESIZE && Holds(data[..], accepted, delivered) && nread == |delivered| % MOD32
        modifies `delivered, `nread
      {
        Counters(|accepted|, |delivered|);
        if nread == nwrite { break; }
        HoldsLess(data[..], accepted, delivered);
        var b := data[nread % PIPESIZE];
        CounterUp(|delivered|);
        nread := (nread + 1) % MOD32;
        out := out + [b];
        delivered := delivered + [b];
        i := i + 1;
      }
      writers := {};
      return Done, out;
    }

    /** pipeclose: the other side is woken; true when the pipe is freed. */
    method Close(writable: bool) returns (freed: bool)
      requires Valid() && (if writable then writeopen && writers == {} else readopen && readers == {})
      modifies this`readopen, this`writeopen, this`readers, this`writers
      ensures Valid() && readopen == (old(readopen) && writable) && writeopen == (old(writeopen) && !writable)
      ensures old(ReadersOk()) ==> ReadersOk()
      ensures readers == (if writable then {} else old(readers)) && writers == (if writable then old(writers) else {})
      ensures freed == (!readopen && !writeopen)
    {
      if writable {
        writeopen := false;
        readers := {};
      } else {
        readopen := false;
        writers := {};
      }
      freed := !readopen && !writeopen;
    }

    /** kill makes a sleeper runnable. */
    method Kill(p: nat)
      requires Valid()
      modifies this`readers, this`writers
      ensures Valid() && (old(ReadersOk()) ==> ReadersOk()) && readers == old(readers) - {p} && writers == old(writers) - {p}
    {
      readers := readers - {p};
      writers := writers - {p};
    }
  }

  lemma CounterUp(a: nat)
    ensures (a % MOD32 + 1) % MOD32 == (a + 1) % MOD32
  {
  }

  lemma WrappedSlot(d: nat, k: nat)
    ensures (d % MOD32 + k) % MOD32 % PIPESIZE == (d + k) % PIPESIZE
  {
    assert (d % MOD32 + k) % MOD32 == (d + k) % MOD32;
    SameSlot(d + k);
  }

  /**
   * A killed writer with 513 bytes for a sleeping reader fills the pipe and fails; the reader sleeps on beside a full
   * pipe.
   */
  method ReaderLeftAsleep(addr: seq<byte>) returns (q: Pipe)
    requires |addr| == PIPESIZE + 1
    ensures fresh(q) && q.Valid() && q.readers == {1} && q.accepted == addr[..PIPESIZE] && q.delivered == [] && !q.ReadersOk()
  {
    q := new Pipe();
    var r, out := q.Read(1, 1, false);
    var w, j := q.Write(2, addr, 0, true);
  }
}
