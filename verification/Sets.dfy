/** Finite sets. */
module Sets {
  lemma {:induction false} SubsetIsSmaller<T>(a: set<T>, b: set<T>)
    requires a <= b
    ensures |a| <= |b|
    decreases |a|
  {
    if a != {} {
      var x :| x in a;
      SubsetIsSmaller(a - {x}, b - {x});
    }
  }

  /** A set has a subset of every size up to its own. */
  lemma {:induction false} SomeSubset<T>(s: set<T>, n: nat) returns (part: set<T>)
    requires n <= |s|
    ensures part <= s && |part| == n
    decreases |s|
  {
    part := s;
    if n < |s| {
      var x :| x in s;
      part := SomeSubset(s - {x}, n);
    }
  }
}
