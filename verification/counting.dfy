/** COUNT(*) over a filtered table, and the set of row positions it counts. */
module Counting {

  /** The number of elements of `s` that `keep` selects, counted from the
      last element back so that a prefix of `s` is counted by a prefix call. */
  function CountIf<T>(s: seq<T>, keep: T -> bool): (r: nat)
    ensures r <= |s|
    ensures r == 0 <==> forall k :: 0 <= k < |s| ==> !keep(s[k])
    decreases |s|
  {
    if s == [] then 0
    else CountIf(s[..|s| - 1], keep) + (if keep(s[|s| - 1]) then 1 else 0)
  }

  /** The positions of `s` whose element `keep` selects. */
  ghost function IndicesIf<T>(s: seq<T>, keep: T -> bool): set<int>
  {
    set k | 0 <= k < |s| && keep(s[k])
  }

  /** Counting agrees with the size of the set of selected positions. */
  lemma {:induction false} CountIfIsCard<T>(s: seq<T>, keep: T -> bool)
    ensures CountIf(s, keep) == |IndicesIf(s, keep)|
    decreases |s|
  {
    if s != [] {
      var n := |s| - 1;
      var prefix := s[..n];
      CountIfIsCard(prefix, keep);
      var extra := if keep(s[n]) then {n} else {};
      assert IndicesIf(s, keep) == IndicesIf(prefix, keep) + extra;
      assert IndicesIf(prefix, keep) !! extra;
    }
  }

  /** Some element of a non-empty set. */
  lemma Member<T>(s: set<T>) returns (x: T)
    requires s != {}
    ensures x in s
  {
    if forall y :: y !in s {
      assert false;
    }
    x :| x in s;
  }
}
