/** Facts about appending to sequences that the loops building output lists step through. */
module Seqs {
  /** Appending in two steps is appending the two parts at once. */
  lemma Associate<T>(a: seq<T>, b: seq<T>, c: seq<T>)
    ensures (a + b) + c == a + (b + c)
  {
  }

  /** One more element of `b` appended after its first `j`. */
  lemma Snoc<T>(a: seq<T>, b: seq<T>, j: nat)
    requires j < |b|
    ensures (a + b[..j]) + [b[j]] == a + b[..j + 1]
  {
    assert b[..j + 1] == b[..j] + [b[j]];
  }

  /** A sequence built as `p + e`, then extended by `w`, is `p` followed by `e + w`. */
  lemma Regroup<T>(p: seq<T>, e: seq<T>, w: seq<T>, x: seq<T>, y: seq<T>, v: seq<T>)
    requires x == p + e && y == x + w && v == e + w
    ensures y == p + v
  {
    Associate(p, e, w);
  }
}
