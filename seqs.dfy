/** Order-keeping selection from a sequence, shared by the keyword filter and the
    endpoint's position filter. */
module Seqs {
  /** `a` is obtained from `b` by deleting elements: the relative order is kept. */
  predicate Subsequence<T(==)>(a: seq<T>, b: seq<T>)
    decreases |b|
  {
    if b == [] then a == []
    else (a != [] && a[0] == b[0] && Subsequence(a[1..], b[1..])) || Subsequence(a, b[1..])
  }

  lemma SubsequenceCons<T>(a: seq<T>, b: seq<T>)
    requires a != [] && b != [] && a[0] == b[0] && Subsequence(a[1..], b[1..])
    ensures Subsequence(a, b)
  {
  }

  lemma SubsequenceSkip<T>(a: seq<T>, b: seq<T>)
    requires b != [] && Subsequence(a, b[1..])
    ensures Subsequence(a, b)
  {
  }

  /** A further element at the end of `b` may be kept or dropped. */
  lemma {:induction false} SubsequenceExtend<T>(a: seq<T>, b: seq<T>, x: T)
    requires Subsequence(a, b)
    ensures Subsequence(a, b + [x])
    ensures Subsequence(a + [x], b + [x])
    decreases |b|
  {
    if b == [] {
      assert a == [];
      assert Subsequence(a, (b + [x])[1..]);
      assert (a + [x])[1..] == [] && (b + [x])[1..] == [];
      SubsequenceSkip(a, b + [x]);
      SubsequenceCons(a + [x], b + [x]);
    } else {
      assert (b + [x])[1..] == b[1..] + [x];
      if a != [] && a[0] == b[0] && Subsequence(a[1..], b[1..]) {
        SubsequenceExtend(a[1..], b[1..], x);
        assert (a + [x])[1..] == a[1..] + [x];
        SubsequenceCons(a, b + [x]);
        SubsequenceCons(a + [x], b + [x]);
      } else {
        SubsequenceExtend(a, b[1..], x);
        SubsequenceSkip(a, b + [x]);
        SubsequenceSkip(a + [x], b + [x]);
      }
    }
  }
}
