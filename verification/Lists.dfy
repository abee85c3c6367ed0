/**
  Lists without repetition.
 */
module Lists {
  ghost predicate Distinct<T>(s: seq<T>) {
    forall i, j | 0 <= i < j < |s| :: s[i] != s[j]
  }

  /** Distinct keys are no more than the map has. */
  lemma {:induction false} DistinctFits<K, V>(s: seq<K>, m: map<K, V>)
    requires Distinct(s) && forall x | x in s :: x in m
    ensures |s| <= |m|
  {
    if s != [] {
      var last, rest := s[|s| - 1], s[..|s| - 1];
      var m': map<K, V> := m - {last};
      assert m'.Keys == m.Keys - {last};
      assert |m'| == |m'.Keys| && |m| == |m.Keys|;
      DistinctFits(rest, m');
    }
  }
}
