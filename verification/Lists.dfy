/** Lists of indices. */
module Lists {

  ghost predicate Distinct(s: seq<nat>) {
    forall i, j :: 0 <= i < j < |s| ==> s[i] != s[j]
  }

  function Elems(s: seq<nat>): (r: set<nat>)
    ensures forall x :: x in r <==> x in s
  {
    set x | x in s
  }

  lemma {:induction false} ElemsSize(s: seq<nat>)
    ensures |Elems(s)| <= |s|
  {
    if s != [] {
      var last, rest := s[|s| - 1], s[..|s| - 1];
      ElemsSize(rest);
      assert s == rest + [last];
      assert Elems(s) == Elems(rest) + {last};
    }
  }

  /** Distinct members of a set are no more than its size. */
  lemma {:induction false} DistinctCount(s: seq<nat>, S: set<nat>, n: nat)
    requires n <= |s| && Distinct(s) && forall i :: 0 <= i < n ==> s[i] in S
    ensures n <= |S|
    decreases n
  {
    if n > 0 {
      DistinctCount(s, S - {s[n - 1]}, n - 1);
    }
  }
}
