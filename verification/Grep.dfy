// grep.c's matcher, against what its patterns mean: which strings each item of
// a pattern stands for, and where in the text they must lie.
module Grep {

  /** A pattern's items: one character, or any number of them; `.` stands for any character. */
  datatype Item = One(c: char) | Star(c: char)

  /** Items in order, and whether a closing $ ties the match to the end of the text. */
  datatype Pattern = Pattern(items: seq<Item>, end: bool)

  /** A C string's contents: no NUL inside. */
  predicate CString(s: string) { forall i :: 0 <= i < |s| ==> s[i] != '\0' }

  /** The character at s + i, the terminating NUL included. */
  function At(s: string, i: nat): char
    requires i <= |s|
  {
    if i < |s| then s[i] else '\0'
  }

  /** A star binds before a $ does, and a $ is special at the very end only. */
  function Parse(re: string): Pattern {
    if re == "" then Pattern([], false)
    else if |re| > 1 && re[1] == '*' then var rest := Parse(re[2..]); rest.(items := [Star(re[0])] + rest.items)
    else if re == "$" then Pattern([], true)
    else var rest := Parse(re[1..]); rest.(items := [One(re[0])] + rest.items)
  }

  predicate Fits(c: char, x: char) { c == '.' || c == x }

  /** The strings an item stands for. */
  predicate Piece(item: Item, w: string) {
    match item
    case One(c) => |w| == 1 && Fits(c, w[0])
    case Star(c) => forall i :: 0 <= i < |w| ==> Fits(c, w[i])
  }

  function Concat(ws: seq<string>): string {
    if ws == [] then "" else ws[0] + Concat(ws[1..])
  }

  /** w is made of one piece for each item, in order. */
  ghost predicate Denotes(items: seq<Item>, w: string) {
    exists ws: seq<string> {:trigger Pieces(items, ws)} :: Pieces(items, ws) && Concat(ws) == w
  }

  ghost predicate Pieces(items: seq<Item>, ws: seq<string>) {
    |ws| == |items| && forall i :: 0 <= i < |ws| ==> Piece(items[i], ws[i])
  }

  /** The pattern occurs from i to j in the text. */
  ghost predicate Occurs(p: Pattern, text: string, i: nat, j: nat)
    requires i <= j <= |text|
  {
    Denotes(p.items, text[i..j]) && (p.end ==> j == |text|)
  }

  /** The pattern occurs from i on. */
  ghost predicate Here(p: Pattern, text: string, i: nat)
    requires i <= |text|
  {
    exists j: nat {:trigger Occurs(p, text, i, j)} :: i <= j <= |text| && Occurs(p, text, i, j)
  }

  /** What grep looks for: an occurrence of the pattern, at the start of the text if it opens with ^. */
  ghost predicate Matches(re: string, text: string) {
    if re != "" && re[0] == '^' then Here(Parse(re[1..]), text, 0)
    else exists i: nat {:trigger Here(Parse(re), text, i)} :: i <= |text| && Here(Parse(re), text, i)
  }

  // ----- what each form of pattern needs of the text

  lemma DenotesNone(w: string)
    ensures Denotes([], w) <==> w == ""
  {
    if w == "" { assert Pieces([], []) && Concat([]) == w; }
  }

  lemma DenotesFirst(item: Item, items: seq<Item>, w: string, k: nat)
    requires k <= |w| && Piece(item, w[..k]) && Denotes(items, w[k..])
    ensures Denotes([item] + items, w)
  {
    var ws: seq<string> :| Pieces(items, ws) && Concat(ws) == w[k..];
    var vs := [w[..k]] + ws;
    assert vs[1..] == ws;
    assert Pieces([item] + items, vs);
    assert Concat(vs) == w[..k] + w[k..] == w;
  }

  lemma DenotesSplit(item: Item, items: seq<Item>, w: string) returns (k: nat)
    requires Denotes([item] + items, w)
    ensures k <= |w| && Piece(item, w[..k]) && Denotes(items, w[k..])
  {
    var ws: seq<string> :| Pieces([item] + items, ws) && Concat(ws) == w;
    k := |ws[0]|;
    assert w[..k] == ws[0] && w[k..] == Concat(ws[1..]);
    assert ([item] + items)[1..] == items;
    assert Pieces(items, ws[1..]);
    assert ([item] + items)[0] == item;
  }

  lemma HereNothing(text: string, i: nat)
    requires i <= |text|
    ensures Here(Pattern([], false), text, i)
    ensures Here(Pattern([], true), text, i) <==> i == |text|
  {
    DenotesNone(text[i..i]);
    assert Occurs(Pattern([], false), text, i, i);
    if i == |text| { assert Occurs(Pattern([], true), text, i, i); }
    if Here(Pattern([], true), text, i) {
      var j: nat :| i <= j <= |text| && Occurs(Pattern([], true), text, i, j);
      DenotesNone(text[i..j]);
    }
  }

  /** An item first: a piece for it at i, and the rest of the pattern right behind. */
  lemma HereFirst(item: Item, p: Pattern, text: string, i: nat, k: nat)
    requires i <= k <= |text| && Piece(item, text[i..k]) && Here(p, text, k)
    ensures Here(p.(items := [item] + p.items), text, i)
  {
    var j: nat :| k <= j <= |text| && Occurs(p, text, k, j);
    assert text[i..j][..k - i] == text[i..k] && text[i..j][k - i..] == text[k..j];
    DenotesFirst(item, p.items, text[i..j], k - i);
    assert Occurs(p.(items := [item] + p.items), text, i, j);
  }

  lemma HereSplit(item: Item, p: Pattern, text: string, i: nat) returns (k: nat)
    requires i <= |text| && Here(p.(items := [item] + p.items), text, i)
    ensures i <= k <= |text| && Piece(item, text[i..k]) && Here(p, text, k)
  {
    var j: nat :| i <= j <= |text| && Occurs(p.(items := [item] + p.items), text, i, j);
    var m := DenotesSplit(item, p.items, text[i..j]);
    k := i + m;
    assert text[i..j][..m] == text[i..k] && text[i..j][m..] == text[k..j];
    assert Occurs(p, text, k, j);
  }

  lemma HereOne(c: char, p: Pattern, text: string, i: nat)
    requires i <= |text|
    ensures Here(p.(items := [One(c)] + p.items), text, i) <==> i < |text| && Fits(c, text[i]) && Here(p, text, i + 1)
  {
    if i < |text| && Fits(c, text[i]) && Here(p, text, i + 1) {
      assert text[i..i + 1] == [text[i]];
      HereFirst(One(c), p, text, i, i + 1);
    }
    if Here(p.(items := [One(c)] + p.items), text, i) {
      var k := HereSplit(One(c), p, text, i);
      assert text[i..k][0] == text[i];
    }
  }

  /** The characters from i up to k all fit. */
  predicate Run(c: char, text: string, i: nat, k: nat)
    requires k <= |text|
  {
    forall m :: i <= m < k ==> Fits(c, text[m])
  }

  lemma HereStar(c: char, p: Pattern, text: string, i: nat)
    requires i <= |text|
    ensures Here(p.(items := [Star(c)] + p.items), text, i) <==>
      exists k: nat {:trigger Here(p, text, k)} :: i <= k <= |text| && Run(c, text, i, k) && Here(p, text, k)
  {
    if k: nat :| i <= k <= |text| && Run(c, text, i, k) && Here(p, text, k) {
      HereFirst(Star(c), p, text, i, k);
    }
    if Here(p.(items := [Star(c)] + p.items), text, i) {
      var k := HereSplit(Star(c), p, text, i);
      forall m | i <= m < k ensures Fits(c, text[m]) {
        assert text[i..k][m - i] == text[m];
      }
    }
  }

  // ----- the matcher

  /** match: whether the pattern occurs in the text. */
  method Match(re: string, text: string) returns (found: bool)
    requires CString(re) && CString(text)
    ensures found <==> Matches(re, text)
  {
    assert re[0..] == re;
    if At(re, 0) == '^' {
      found := MatchHere(re, 1, text, 0);
      return;
    }
    var t := 0;
    while true
      invariant t <= |text| && forall i: nat :: i < t ==> !Here(Parse(re), text, i)
      decreases |text| - t
    {
      var here := MatchHere(re, 0, text, t);
      if here { return true; }
      if At(text, t) == '\0' { break; }
      t := t + 1;
    }
    return false;
  }

  /** matchhere: whether the pattern from re + r occurs at text + t. */
  method MatchHere(re: string, r: nat, text: string, t: nat) returns (found: bool)
    requires CString(re) && CString(text) && r <= |re| && t <= |text|
    ensures found <==> Here(Parse(re[r..]), text, t)
    decreases |re| - r, 0
  {
    var p := re[r..];
    HereNothing(text, t);
    if At(re, r) == '\0' { return true; }
    if At(re, r + 1) == '*' {
      assert p[1] == '*' && p[2..] == re[r + 2..];
      assert Parse(p) == Parse(p[2..]).(items := [Star(re[r])] + Parse(p[2..]).items);
      HereStar(re[r], Parse(p[2..]), text, t);
      found := MatchStar(re[r], re, r + 2, text, t);
      return;
    }
    if At(re, r) == '$' && At(re, r + 1) == '\0' {
      assert p == "$";
      return At(text, t) == '\0';
    }
    assert p[1..] == re[r + 1..];
    HereOne(re[r], Parse(p[1..]), text, t);
    if At(text, t) != '\0' && (re[r] == '.' || re[r] == At(text, t)) {
      found := MatchHere(re, r + 1, text, t + 1);
      return;
    }
    return false;
  }

  /** matchstar: whether some run of c, then the pattern from re + r, occurs at text + t. */
  method MatchStar(c: char, re: string, r: nat, text: string, t: nat) returns (found: bool)
    requires CString(re) && CString(text) && r <= |re| && t <= |text|
    ensures found <==>
      exists k: nat {:trigger Here(Parse(re[r..]), text, k)} :: t <= k <= |text| && Run(c, text, t, k) && Here(Parse(re[r..]), text, k)
    decreases |re| - r, 1
  {
    var u := t;
    while true
      invariant t <= u <= |text| && Run(c, text, t, u)
      invariant forall k: nat {:trigger Here(Parse(re[r..]), text, k)} :: t <= k < u ==> !Here(Parse(re[r..]), text, k)
      decreases |text| - u
    {
      var here := MatchHere(re, r, text, u);
      if here { return true; }
      if At(text, u) == '\0' { break; }
      var x := At(text, u);
      if !(x == c || c == '.') { break; }
      u := u + 1;
    }
    return false;
  }

  function Before(x: Item, p: Pattern): Pattern { p.(items := [x] + p.items) }

  /** One pattern behind another: a $ that would have closed the first is a literal one. */
  function Then(p: Pattern, q: Pattern): Pattern {
    Pattern(p.items + (if p.end then [One('$')] else []) + q.items, q.end)
  }

  lemma BeforeThen(x: Item, p: Pattern, q: Pattern)
    ensures Then(Before(x, p), q) == Before(x, Then(p, q)) && Then(Pattern([], false), q) == q
    ensures Then(Pattern([], true), q) == Before(One('$'), q)
  {
    var d := if p.end then [One('$')] else [];
    assert ([x] + p.items) + d + q.items == [x] + (p.items + d + q.items);
  }

  lemma ParseStar(c: char, re: string)
    ensures Parse([c, '*'] + re) == Before(Star(c), Parse(re))
  {
    assert ([c, '*'] + re)[2..] == re;
  }

  lemma ParseOne(c: char, re: string)
    requires (re == "" || re[0] != '*') && (c == '$' ==> re != "")
    ensures Parse([c] + re) == Before(One(c), Parse(re))
  {
    assert ([c] + re)[1..] == re;
  }

  /** A pattern can be cut anywhere but in front of a star: it is its parts one behind the other. */
  lemma {:induction false} ParseConcat(a: string, b: string)
    requires b != "" && b[0] != '*'
    ensures Parse(a + b) == Then(Parse(a), Parse(b))
  {
    hide Then, Before;
    if a == "" {
      assert a + b == b;
      BeforeThen(One('$'), Parse(a), Parse(b));
    } else if |a| > 1 && a[1] == '*' {
      assert a + b == [a[0], '*'] + (a[2..] + b) && a == [a[0], '*'] + a[2..];
      ParseStar(a[0], a[2..] + b);
      ParseStar(a[0], a[2..]);
      ParseConcat(a[2..], b);
      BeforeThen(Star(a[0]), Parse(a[2..]), Parse(b));
    } else {
      assert a + b == [a[0]] + (a[1..] + b) && a == [a[0]] + a[1..];
      assert (a[1..] + b)[0] != '*';
      ParseOne(a[0], a[1..] + b);
      ParseConcat(a[1..], b);
      BeforeThen(One(a[0]), Parse(a[1..]), Parse(b));
      if a == "$" { assert a[1..] == ""; } else { ParseOne(a[0], a[1..]); }
    }
  }

  /** A $ ties the match to the end of the text exactly if it is the pattern's last character. */
  lemma {:induction false} EndIff(re: string)
    ensures Parse(re).end <==> re != "" && re[|re| - 1] == '$'
  {
    if re != "" {
      EndIff(re[if |re| > 1 && re[1] == '*' then 2 else 1..]);
    }
  }

  /**
   * The corners of the order of tests, for any pattern around them: a character in front of a star is starred, whatever
   * it is ($ and ^ too); any other one stands for itself, an inner ^ and a $ with something behind it included; a star at
   * the start of the pattern is a character like any other.
   */
  lemma Corners(a: string, c: char, b: string)
    requires c == '*' ==> a == ""
    ensures Parse(a + ([c, '*'] + b)) == Then(Parse(a), Before(Star(c), Parse(b)))
    ensures (b == "" || b[0] != '*') && (c == '$' ==> b != "") ==>
      Parse(a + ([c] + b)) == Then(Parse(a), Before(One(c), Parse(b)))
    ensures c == '$' && b == "" ==> Parse(a + ([c] + b)) == Then(Parse(a), Pattern([], true))
  {
    hide Before;
    ParseStar(c, b);
    if (b == "" || b[0] != '*') && (c == '$' ==> b != "") { ParseOne(c, b); }
    if a == "" {
      assert a + ([c, '*'] + b) == [c, '*'] + b && a + ([c] + b) == [c] + b;
    } else {
      hide Parse, Then;
      ParseConcat(a, [c, '*'] + b);
      ParseConcat(a, [c] + b);
      DollarAlone();
    }
  }

  lemma DollarAlone()
    ensures Parse("$") == Pattern([], true) && ['$'] + "" == "$"
  {
  }
}
