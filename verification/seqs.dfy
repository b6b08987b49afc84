/** Facts about slices of sequences that the parcel and URL proofs lean on. */
module Seqs {
  /** A slice of a slice is a slice of the whole. */
  lemma SliceOfSlice<X>(p: seq<X>, a: nat, b: nat, i: nat, j: nat)
    requires a <= b <= |p| && i <= j <= b - a
    ensures p[a..b][i..j] == p[a + i..a + j]
  {
    assert |p[a..b][i..j]| == |p[a + i..a + j]|;
    forall k | 0 <= k < j - i
      ensures p[a..b][i..j][k] == p[a + i..a + j][k]
    {
    }
  }

  /** Where each part of a four-part concatenation sits. */
  lemma ConcatSlices<X>(a: seq<X>, b: seq<X>, c: seq<X>, d: seq<X>)
    ensures var p := a + b + c + d;
      p[..|a|] == a && p[|a|..|a| + |b|] == b && p[|a| + |b|..|a| + |b| + |c|] == c
      && p[|a| + |b| + |c|..] == d
  {
  }
}
