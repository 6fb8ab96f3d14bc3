/** user/grep.c: the regular-expression matcher, and what its patterns mean. */
module Grep {
  import opened CStrings

  // ----- meaning

  datatype Item = One(c: char) | Star(c: char) | Final

  /** The items of the pattern from i on. A star belongs to the character before it; `$` is special only at the end. */
  function Parse(re: CString, i: nat): seq<Item>
    requires i <= |re|
    decreases |re| - i
  {
    if i == |re| then []
    else if At(re, i + 1) == '*' then [Star(re[i])] + Parse(re, i + 2)
    else if re[i] == '$' && i + 1 == |re| then [Final]
    else [One(re[i])] + Parse(re, i + 1)
  }

  predicate Fits(c: char, x: char) {
    c == '.' || x == c
  }

  /** text[p..q] is an instance of the item. */
  predicate Piece(it: Item, text: string, p: int, q: int) {
    && 0 <= p <= q <= |text|
    && match it
       case One(c) => q == p + 1 && Fits(c, text[p])
       case Star(c) => forall k :: p <= k < q ==> Fits(c, text[k])
       case Final => p == q == |text|
  }

  /** The cuts divide a stretch of the text into one piece per item. */
  ghost predicate Splits(items: seq<Item>, text: string, cuts: seq<int>) {
    |cuts| == |items| + 1 && 0 <= cuts[0] <= |text| && forall k :: 0 <= k < |items| ==> PieceAt(items, text, cuts, k)
  }

  predicate PieceAt(items: seq<Item>, text: string, cuts: seq<int>, k: int)
    requires |cuts| == |items| + 1 && 0 <= k < |items|
  {
    Piece(items[k], text, cuts[k], cuts[k + 1])
  }

  /** The pattern matches a stretch of the text that starts at p. */
  ghost predicate MatchesAt(items: seq<Item>, text: string, p: int) {
    exists cuts: seq<int> :: Splits(items, text, cuts) && cuts[0] == p
  }

  /** The pattern matches somewhere; with a leading `^`, at the start. */
  ghost predicate Matches(re: CString, text: CString) {
    if At(re, 0) == '^' then MatchesAt(Parse(re, 1), text, 0)
    else exists p :: 0 <= p <= |text| && MatchesAt(Parse(re, 0), text, p)
  }

  lemma MatchesEmpty(text: string, p: int)
    requires 0 <= p <= |text|
    ensures MatchesAt([], text, p)
  {
    assert Splits([], text, [p]);
  }

  lemma MatchesCons(it: Item, rest: seq<Item>, text: string, p: int, q: int)
    requires Piece(it, text, p, q) && MatchesAt(rest, text, q)
    ensures MatchesAt([it] + rest, text, p)
  {
    var cuts :| Splits(rest, text, cuts) && cuts[0] == q;
    var items, all := [it] + rest, [p] + cuts;
    forall k | 0 <= k < |items| ensures PieceAt(items, text, all, k) {
      assert k > 0 ==> PieceAt(rest, text, cuts, k - 1);
    }
    assert Splits(items, text, all);
  }

  lemma MatchesHead(it: Item, rest: seq<Item>, text: string, p: int) returns (q: int)
    requires MatchesAt([it] + rest, text, p)
    ensures Piece(it, text, p, q) && MatchesAt(rest, text, q)
  {
    var items := [it] + rest;
    var cuts :| Splits(items, text, cuts) && cuts[0] == p;
    assert PieceAt(items, text, cuts, 0);
    q := cuts[1];
    var tail := cuts[1..];
    forall k | 0 <= k < |rest| ensures PieceAt(rest, text, tail, k) { assert PieceAt(items, text, cuts, k + 1); }
    assert Splits(rest, text, tail);
  }

  // ----- the matcher

  method Match(re: CString, text: CString) returns (r: bool)
    ensures r <==> Matches(re, text)
  {
    if At(re, 0) == '^' {
      r := MatchHere(re, 1, text, 0);
      return;
    }
    var t := 0;
    while true
      invariant 0 <= t <= |text| && forall p :: 0 <= p < t ==> !MatchesAt(Parse(re, 0), text, p)
      decreases |text| - t
    {
      var here := MatchHere(re, 0, text, t);
      if here { return true; }
      t := t + 1;
      if At(text, t - 1) == '\0' { break; }
    }
    return false;
  }

  /** The pattern from i on, at exactly t. */
  method MatchHere(re: CString, i: nat, text: CString, t: nat) returns (r: bool)
    requires i <= |re| && t <= |text|
    ensures r <==> MatchesAt(Parse(re, i), text, t)
    decreases |re| - i, 0
  {
    if At(re, i) == '\0' {
      MatchesEmpty(text, t);
      return true;
    }
    if At(re, i + 1) == '*' {
      r := MatchStar(re[i], re, i + 2, text, t);
      return;
    }
    if At(re, i) == '$' && At(re, i + 1) == '\0' {
      r := At(text, t) == '\0';
      FinalMeans(text, t);
      return;
    }
    if At(text, t) != '\0' && (At(re, i) == '.' || At(re, i) == At(text, t)) {
      r := MatchHere(re, i + 1, text, t + 1);
      OneMeans(re[i], Parse(re, i + 1), text, t);
      return;
    }
    OneMeans(re[i], Parse(re, i + 1), text, t);
    return false;
  }

  lemma FinalMeans(text: string, t: nat)
    requires t <= |text|
    ensures MatchesAt([Final], text, t) <==> t == |text|
  {
    assert [Final] == [Final] + [];
    if t == |text| {
      MatchesEmpty(text, t);
      MatchesCons(Final, [], text, t, t);
    }
    if MatchesAt([Final] + [], text, t) { var q := MatchesHead(Final, [], text, t); }
  }

  lemma OneMeans(c: char, rest: seq<Item>, text: string, t: nat)
    requires t <= |text|
    ensures MatchesAt([One(c)] + rest, text, t) <==>
            t < |text| && (c == '.' || text[t] == c) && MatchesAt(rest, text, t + 1)
  {
    if t < |text| && Fits(c, text[t]) && MatchesAt(rest, text, t + 1) { MatchesCons(One(c), rest, text, t, t + 1); }
    if MatchesAt([One(c)] + rest, text, t) { var q := MatchesHead(One(c), rest, text, t); }
  }

  /** c* and then the pattern from i on, at exactly start. */
  method MatchStar(c: char, re: CString, i: nat, text: CString, start: nat) returns (r: bool)
    requires i <= |re| && start <= |text|
    ensures r <==> MatchesAt([Star(c)] + Parse(re, i), text, start)
    decreases |re| - i, 1
  {
    var t := start;
    while true
      invariant start <= t <= |text| && Piece(Star(c), text, start, t)
      invariant forall q :: start <= q < t ==> !MatchesAt(Parse(re, i), text, q)
      decreases |text| - t
    {
      var here := MatchHere(re, i, text, t);
      if here {
        MatchesCons(Star(c), Parse(re, i), text, start, t);
        return true;
      }
      if At(text, t) == '\0' || !(At(text, t) == c || c == '.') {
        StarFails(c, Parse(re, i), text, start, t);
        return false;
      }
      t := t + 1;
    }
  }

  lemma StarFails(c: char, rest: seq<Item>, text: string, start: nat, t: nat)
    requires start <= t <= |text| && (t == |text| || !Fits(c, text[t]))
    requires forall q :: start <= q <= t ==> !MatchesAt(rest, text, q)
    ensures !MatchesAt([Star(c)] + rest, text, start)
  {
    if MatchesAt([Star(c)] + rest, text, start) { var q := MatchesHead(Star(c), rest, text, start); }
  }

  lemma StarMeans(c: char, rest: seq<Item>, text: string, t: nat)
    ensures MatchesAt([Star(c)] + rest, text, t) <==>
            exists q :: && t <= q <= |text| && MatchesAt(rest, text, q)
                        && forall k :: t <= k < q ==> c == '.' || text[k] == c
  {
    if MatchesAt([Star(c)] + rest, text, t) { var q := MatchesHead(Star(c), rest, text, t); }
    if q :| t <= q <= |text| && MatchesAt(rest, text, q) && forall k :: t <= k < q ==> c == '.' || text[k] == c {
      MatchesCons(Star(c), rest, text, t, q);
    }
  }

  // ----- how patterns are written

  function Shown(items: seq<Item>): string {
    if items == [] then "" else
      (match items[0] case One(c) => [c] case Star(c) => [c, '*'] case Final => "$") + Shown(items[1..])
  }

  /** `$` at the end is no literal, and a literal has no star after it. */
  predicate Proper(items: seq<Item>) {
    items == [] ||
    (&& Proper(items[1..])
     && match items[0]
        case One(c) => !(c == '$' && |items| == 1) && !(|items| > 1 && items[1] in {One('*'), Star('*')})
        case Star(_) => true
        case Final => |items| == 1)
  }

  /** A pattern is read as the one proper list of items that is written like it. */
  lemma {:induction false} ParsedIsShown(re: CString, i: nat)
    requires i <= |re|
    ensures Shown(Parse(re, i)) == re[i..] && Proper(Parse(re, i))
    decreases |re| - i
  {
    var items := Parse(re, i);
    if i < |re| {
      var n := if At(re, i + 1) == '*' then i + 2 else i + 1;
      if !(re[i] == '$' && n == |re| == i + 1) {
        ParsedIsShown(re, n);
        assert items[1..] == Parse(re, n);
        assert re[i..] == re[i..n] + re[n..];
        if n == i + 1 && n < |re| { assert Shown(Parse(re, n))[0] == re[n]; }
      }
    }
  }

  lemma {:induction false} ShownOnce(a: seq<Item>, b: seq<Item>)
    requires Proper(a) && Proper(b) && Shown(a) == Shown(b)
    ensures a == b
  {
    if a != [] && b != [] {
      var x, y := Shown(a), Shown(b);
      FirstShown(a);
      FirstShown(b);
      assert a[0] == b[0];
      var n := if a[0].Star? then 2 else 1;
      assert x[n..] == Shown(a[1..]) && y[n..] == Shown(b[1..]);
      ShownOnce(a[1..], b[1..]);
      assert a == [a[0]] + a[1..] && b == [b[0]] + b[1..];
    } else {
      assert a != [] ==> |Shown(a)| > 0;
      assert b != [] ==> |Shown(b)| > 0;
    }
  }

  /** The first item can be told from the first two characters. */
  lemma FirstShown(a: seq<Item>)
    requires Proper(a) && a != []
    ensures var s := Shown(a);
            && |s| > 0
            && a[0] == (if |s| > 1 && s[1] == '*' then Star(s[0])
                        else if s == "$" then Final else One(s[0]))
  {
    var t := Shown(a[1..]);
    assert Shown(a) == (match a[0] case One(c) => [c] case Star(c) => [c, '*'] case Final => "$") + t;
    if |a| > 1 {
      assert a[1..][0] == a[1];
      assert |t| > 0 && t[0] == match a[1] case One(c) => c case Star(c) => c case Final => '$';
    } else {
      assert t == "";
      assert "$"[0] == '$';
      assert a[0].One? ==> Shown(a)[0] == a[0].c;
      assert a[0].Final? ==> Shown(a) == "$";
    }
  }

  // ----- plain words

  predicate Literal(w: string) {
    forall k :: 0 <= k < |w| ==> w[k] !in "^$.*\0"
  }

  /** One plain character. */
  lemma LiteralStep(re: CString, i: nat, text: string, p: nat)
    requires i < |re| && re[i] !in "^$.*\0" && At(re, i + 1) != '*' && p <= |text|
    ensures MatchesAt(Parse(re, i), text, p) <==>
            p < |text| && text[p] == re[i] && MatchesAt(Parse(re, i + 1), text, p + 1)
  {
    OneMeans(re[i], Parse(re, i + 1), text, p);
  }

  lemma {:induction false} LiteralAt(re: CString, i: nat, w: string, text: string, p: nat)
    requires i + |w| <= |re| && re[i..i + |w|] == w && Literal(w) && p <= |text|
    requires i + |w| == |re| || re[i + |w|] != '*'
    ensures MatchesAt(Parse(re, i), text, p) <==>
            p + |w| <= |text| && text[p..p + |w|] == w && MatchesAt(Parse(re, i + |w|), text, p + |w|)
    decreases |w|
  {
    hide MatchesAt, Parse;
    if w != "" {
      assert re[i] == re[i..i + |w|][0] == w[0];
      assert |w| > 1 ==> re[i + 1] == re[i..i + |w|][1] == w[1];
      LiteralStep(re, i, text, p);
      assert re[i + 1..i + |w|] == re[i..i + |w|][1..] == w[1..];
      if p < |text| {
        LiteralAt(re, i + 1, w[1..], text, p + 1);
        OccursNext(w, text, p);
      }
    }
  }

  lemma OccursNext(w: string, text: string, p: nat)
    requires w != "" && p < |text|
    ensures p + |w| <= |text| ==> (text[p..p + |w|] == w <==> text[p] == w[0] && text[p + 1..p + |w|] == w[1..])
  {
    if p + |w| <= |text| {
      assert text[p..p + |w|] == [text[p]] + text[p + 1..p + |w|];
      assert w == [w[0]] + w[1..];
    }
  }

  predicate Occurs(w: string, text: string, p: int) {
    0 <= p <= |text| - |w| && text[p..p + |w|] == w
  }

  /** A plain word matches the texts that contain it; after `^` those that begin with it, before `$` those that end
      with it, between the two itself. */
  lemma LiteralMeans(re: CString, w: string, text: CString)
    requires Literal(w)
    ensures re == w ==> (Matches(re, text) <==> exists p :: Occurs(w, text, p))
    ensures re == "^" + w ==> (Matches(re, text) <==> |w| <= |text| && text[..|w|] == w)
    ensures re == w + "$" ==> (Matches(re, text) <==> |w| <= |text| && text[|text| - |w|..] == w)
    ensures re == "^" + w + "$" ==> (Matches(re, text) <==> text == w)
  {
    if re == w { LiteralInside(re, text); }
    if re == "^" + w { LiteralFirst(re, w, text); }
    if re == w + "$" { LiteralLast(re, w, text); }
    if re == "^" + w + "$" { LiteralWhole(re, w, text); }
  }

  lemma LiteralInside(w: CString, text: CString)
    requires Literal(w)
    ensures Matches(w, text) <==> exists p :: Occurs(w, text, p)
  {
    assert w[0..0 + |w|] == w;
    forall p | 0 <= p <= |text|
      ensures MatchesAt(Parse(w, 0), text, p) <==> Occurs(w, text, p)
    {
      LiteralAt(w, 0, w, text, p);
      if p + |w| <= |text| { MatchesEmpty(text, p + |w|); }
    }
    hide MatchesAt, Parse;
  }

  lemma LiteralFirst(re: CString, w: string, text: CString)
    requires Literal(w) && re == "^" + w
    ensures Matches(re, text) <==> |w| <= |text| && text[..|w|] == w
  {
    assert re[1..1 + |w|] == w;
    LiteralAt(re, 1, w, text, 0);
    if |w| <= |text| { MatchesEmpty(text, |w|); }
    assert |w| <= |text| ==> text[0..0 + |w|] == text[..|w|];
  }

  /** A word and then `$`. */
  lemma LiteralEnd(re: CString, i: nat, w: string, text: string, p: nat)
    requires i <= |re| && re[i..] == w + "$" && Literal(w) && p <= |text|
    ensures MatchesAt(Parse(re, i), text, p) <==> text[p..] == w
  {
    var n := i + |w|;
    assert |re| == n + 1 && re[i..][|w|] == '$' && re[n] == '$';
    assert re[i..n] == re[i..][..|w|] == w;
    LiteralAt(re, i, w, text, p);
    assert Parse(re, n) == [Final];
    if p + |w| <= |text| {
      FinalMeans(text, p + |w|);
      assert text[p..p + |w|] == text[p..][..|w|];
    }
  }

  lemma LiteralLast(re: CString, w: string, text: CString)
    requires Literal(w) && re == w + "$"
    ensures Matches(re, text) <==> |w| <= |text| && text[|text| - |w|..] == w
  {
    assert re[0..] == re;
    forall p | 0 <= p <= |text| ensures MatchesAt(Parse(re, 0), text, p) <==> text[p..] == w {
      LiteralEnd(re, 0, w, text, p);
    }
    hide MatchesAt, Parse;
    if p :| 0 <= p <= |text| && text[p..] == w { assert p == |text| - |w|; }
  }

  lemma LiteralWhole(re: CString, w: string, text: CString)
    requires Literal(w) && re == "^" + w + "$"
    ensures Matches(re, text) <==> text == w
  {
    assert re[1..] == w + "$" && re[0] == '^';
    LiteralEnd(re, 1, w, text, 0);
    assert text[0..] == text;
  }
}
