/** What several parts of the model share. */
module Common {
  const TWO32: nat := 0x1_0000_0000

  datatype Option<+T> = None | Some(value: T)

  lemma SubsetSize<T>(A: set<T>, B: set<T>)
    requires A <= B
    ensures |A| <= |B|
  {
    assert B == A + (B - A);
  }

  lemma SomeMember<T>(S: set<T>) returns (b: T)
    requires S != {}
    ensures b in S
  {
    b :| b in S;
  }

  /** The numbers from a up to b. */
  function Between(a: nat, b: nat): (s: set<nat>)
    requires a <= b
    ensures |s| == b - a && forall k :: k in s <==> a <= k < b
  {
    if a == b then {} else Between(a, b - 1) + {b - 1}
  }
}
