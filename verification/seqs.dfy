/** Small facts about sequences, stated once so that larger proofs can cite them. */
module Seqs {

  lemma ConcatAssoc<T>(a: seq<T>, b: seq<T>, c: seq<T>)
    ensures a + (b + c) == (a + b) + c
  {
  }

  /** The head and tail of a concatenation whose first part is non-empty. */
  lemma AppendHeadTail<T>(a: seq<T>, b: seq<T>)
    requires a != []
    ensures a + b != [] && (a + b)[0] == a[0] && (a + b)[1..] == a[1..] + b
  {
  }

  /** A non-empty sequence is its head followed by its tail. */
  lemma HeadTail<T>(s: seq<T>)
    requires s != []
    ensures s == [s[0]] + s[1..]
    ensures forall x :: x in s <==> x == s[0] || x in s[1..]
  {
  }

  /** Each part of a three-part concatenation can be read back by position. */
  lemma Framed<T>(a: seq<T>, b: seq<T>, c: seq<T>)
    ensures |a + b + c| >= |a| + |c|
    ensures (a + b + c)[..|a|] == a
    ensures (a + b + c)[|a|..|a + b + c| - |c|] == b
    ensures (a + b + c)[|a + b + c| - |c|..] == c
  {
  }

  /** `[f(i, x) for i, x in enumerate(xs)]`. */
  function MapIndexed<A, B>(xs: seq<A>, f: (nat, A) -> B): (r: seq<B>)
    ensures |r| == |xs|
    ensures forall k :: 0 <= k < |xs| ==> r[k] == f(k, xs[k])
  {
    seq(|xs|, k requires 0 <= k < |xs| => f(k, xs[k]))
  }

  /** Mapping one more element appends its image, indexed after the others. */
  lemma MapIndexedSnoc<A, B>(xs: seq<A>, x: A, f: (nat, A) -> B)
    ensures MapIndexed(xs + [x], f) == MapIndexed(xs, f) + [f(|xs|, x)]
  {
    var all := MapIndexed(xs + [x], f);
    forall k | 0 <= k < |xs| ensures all[k] == f(k, xs[k]) {
      assert (xs + [x])[k] == xs[k];
    }
  }
}
