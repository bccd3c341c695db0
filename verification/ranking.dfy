/**
 * Ranking of the (document, score) pairs the vector store returns:
 * Python's stable `list.sort(key=score, reverse=True)` as an insertion sort,
 * and the `score >= threshold` filter, each with an independent specification.
 */
module Ranking {
  import opened Documents
  import opened Seqs

  /** One `(document, score)` pair from `similarity_search_with_relevance_scores`. */
  datatype Hit = Hit(doc: Doc, score: real)

  /** Scores never increase along `s`. */
  predicate SortedDesc(s: seq<Hit>) {
    forall i, j :: 0 <= i < j < |s| ==> s[i].score >= s[j].score
  }

  /** The pairs of `s` whose score is exactly `v`, in their order in `s`. */
  function Tier(s: seq<Hit>, v: real): (r: seq<Hit>)
  {
    if s == [] then []
    else (if s[0].score == v then [s[0]] else []) + Tier(s[1..], v)
  }

  lemma {:induction false} TierHeadMember(s: seq<Hit>, v: real)
    requires s != [] && s[0].score == v
    ensures Tier(s, v) != [] && Tier(s, v)[0] == s[0] && Tier(s, v)[1..] == Tier(s[1..], v)
  {
  }

  lemma {:induction false} TierSkipsHead(s: seq<Hit>, v: real)
    requires s != [] && s[0].score != v
    ensures Tier(s, v) == Tier(s[1..], v)
  {
    assert Tier(s, v) == [] + Tier(s[1..], v);
  }

  /** Every pair of a tier comes from `s`. */
  lemma {:induction false} TierMember(s: seq<Hit>, v: real, i: nat)
    requires i < |Tier(s, v)|
    ensures Tier(s, v)[i].score == v && Tier(s, v)[i] in s
  {
    if s[0].score == v {
      TierHeadMember(s, v);
      if i > 0 { TierMember(s[1..], v, i - 1); }
    } else {
      TierSkipsHead(s, v);
      TierMember(s[1..], v, i);
    }
  }

  /** In a sorted sequence, a non-empty tier cannot outrank the head. */
  lemma {:induction false} TierBelowHead(s: seq<Hit>, v: real)
    requires SortedDesc(s) && Tier(s, v) != []
    ensures s[0].score >= v
  {
    TierMember(s, v, 0);
  }

  /**
   * `output` is a stable descending sort of `input`: a permutation of it,
   * ordered by non-increasing score, in which pairs with equal scores keep
   * their relative order from `input`.
   */
  ghost predicate IsStableDescendingSort(input: seq<Hit>, output: seq<Hit>) {
    && multiset(output) == multiset(input)
    && SortedDesc(output)
    && forall v :: Tier(output, v) == Tier(input, v)
  }

  /** A pair that outranks every pair of a sorted sequence can go in front of it. */
  lemma ConsSorted(x: Hit, t: seq<Hit>)
    requires SortedDesc(t)
    requires forall y :: y in t ==> y.score <= x.score
    ensures SortedDesc([x] + t)
  {
    forall i, j | 0 <= i < j < |[x] + t| ensures ([x] + t)[i].score >= ([x] + t)[j].score {
      assert ([x] + t)[j] == t[j - 1];
      if i > 0 { assert ([x] + t)[i] == t[i - 1]; }
    }
  }

  /** Inserts `h` in front of the first pair whose score does not exceed its own. */
  function Insert(h: Hit, s: seq<Hit>): (r: seq<Hit>)
    ensures |r| == |s| + 1
    ensures forall x :: x in r <==> x == h || x in s
    ensures SortedDesc(s) ==> SortedDesc(r)
  {
    if s == [] || s[0].score <= h.score then
      assert SortedDesc(s) ==> SortedDesc([h] + s) by {
        if SortedDesc(s) { ConsSorted(h, s); }
      }
      [h] + s
    else
      var t := Insert(h, s[1..]);
      assert s == [s[0]] + s[1..];
      assert SortedDesc(s) ==> SortedDesc([s[0]] + t) by {
        if SortedDesc(s) {
          ConsSorted(s[0], t);
        }
      }
      [s[0]] + t
  }

  lemma InsertFront(h: Hit, s: seq<Hit>)
    requires s == [] || s[0].score <= h.score
    ensures Insert(h, s) == [h] + s
  {
  }

  lemma InsertBehind(h: Hit, x: Hit, s: seq<Hit>)
    requires h.score < x.score
    ensures Insert(h, [x] + s) == [x] + Insert(h, s)
  {
    assert ([x] + s)[1..] == s;
  }

  /** `list.sort(key=lambda x: x[1], reverse=True)`. */
  function SortDesc(s: seq<Hit>): (r: seq<Hit>)
    ensures SortedDesc(r)
    ensures |r| == |s|
    ensures forall x :: x in r <==> x in s
  {
    if s == [] then []
    else
      assert s == [s[0]] + s[1..];
      Insert(s[0], SortDesc(s[1..]))
  }

  /** Inserting adds exactly one occurrence of the new pair. */
  lemma {:induction false} InsertPermutes(h: Hit, s: seq<Hit>)
    ensures multiset(Insert(h, s)) == multiset(s) + multiset{h}
  {
    if s == [] || s[0].score <= h.score {
      InsertFront(h, s);
    } else {
      var rest := s[1..];
      assert s == [s[0]] + rest;
      InsertBehind(h, s[0], rest);
      InsertPermutes(h, rest);
    }
  }

  /** The sort is a permutation of its input. */
  lemma {:induction false} SortDescPermutes(s: seq<Hit>)
    ensures multiset(SortDesc(s)) == multiset(s)
  {
    if s != [] {
      assert s == [s[0]] + s[1..];
      SortDescPermutes(s[1..]);
      InsertPermutes(s[0], SortDesc(s[1..]));
    }
  }

  lemma {:induction false} TierInsert(h: Hit, s: seq<Hit>, v: real)
    requires SortedDesc(s)
    ensures Tier(Insert(h, s), v) == if h.score == v then [h] + Tier(s, v) else Tier(s, v)
  {
    if s == [] || s[0].score <= h.score {
      assert ([h] + s)[1..] == s;
    } else {
      TierInsert(h, s[1..], v);
      assert ([s[0]] + Insert(h, s[1..]))[1..] == Insert(h, s[1..]);
    }
  }

  /** Pairs with equal scores come out of the sort in the order they went in. */
  lemma {:induction false} SortStable(s: seq<Hit>, v: real)
    ensures Tier(SortDesc(s), v) == Tier(s, v)
  {
    if s != [] {
      SortStable(s[1..], v);
      TierInsert(s[0], SortDesc(s[1..]), v);
    }
  }

  lemma SortDescIsStableSort(s: seq<Hit>)
    ensures IsStableDescendingSort(s, SortDesc(s))
  {
    SortDescPermutes(s);
    forall v ensures Tier(SortDesc(s), v) == Tier(s, v) {
      SortStable(s, v);
    }
  }

  lemma {:induction false} SameTiersSame(a: seq<Hit>, b: seq<Hit>)
    requires SortedDesc(a) && SortedDesc(b)
    requires forall v :: Tier(a, v) == Tier(b, v)
    ensures a == b
    decreases |a| + |b|
  {
    if a == [] && b == [] {
    } else if a == [] {
      TierHeadMember(b, b[0].score);
    } else if b == [] {
      TierHeadMember(a, a[0].score);
    } else {
      var m := a[0].score;
      TierHeadMember(a, m);
      assert Tier(b, m) == Tier(a, m);
      TierBelowHead(b, m);
      var n := b[0].score;
      TierHeadMember(b, n);
      assert Tier(a, n) == Tier(b, n);
      TierBelowHead(a, n);
      assert m == n;
      TierHeadMember(b, m);
      forall v ensures Tier(a[1..], v) == Tier(b[1..], v) {
        assert Tier(a, v) == Tier(b, v);
        if v != m {
          TierSkipsHead(a, v);
          TierSkipsHead(b, v);
        }
      }
      SameTiersSame(a[1..], b[1..]);
      assert a == [a[0]] + a[1..];
      assert b == [b[0]] + b[1..];
    }
  }

  /** The specification admits exactly one output, so `SortDesc` is the only stable descending sort. */
  lemma StableSortUnique(input: seq<Hit>, output: seq<Hit>)
    requires IsStableDescendingSort(input, output)
    ensures output == SortDesc(input)
  {
    SortDescIsStableSort(input);
    SameTiersSame(output, SortDesc(input));
  }

  /** `[h for h in s if h.score >= threshold]`. */
  function Passing(s: seq<Hit>, threshold: real): (r: seq<Hit>)
    ensures |r| <= |s|
  {
    if s == [] then []
    else
      var t := Passing(s[1..], threshold);
      if s[0].score >= threshold then [s[0]] + t else t
  }

  /** The filter keeps exactly the pairs of `s` that meet the threshold. */
  lemma {:induction false} PassingMember(s: seq<Hit>, threshold: real, h: Hit)
    ensures h in Passing(s, threshold) <==> h in s && h.score >= threshold
  {
    if s != [] {
      HeadTail(s);
      PassingMember(s[1..], threshold, h);
    }
  }

  /** The filter keeps every passing pair as often as the input holds it, and drops every other pair entirely. */
  lemma {:induction false} PassingCounts(s: seq<Hit>, threshold: real, h: Hit)
    ensures multiset(Passing(s, threshold))[h] == if h.score >= threshold then multiset(s)[h] else 0
  {
    if s != [] {
      assert s == [s[0]] + s[1..];
      PassingCounts(s[1..], threshold, h);
    }
  }

  /** The filter keeps each passing score's pairs in their input order, and no pair of a failing score. */
  lemma {:induction false} PassingTier(s: seq<Hit>, threshold: real, v: real)
    ensures Tier(Passing(s, threshold), v) == if v >= threshold then Tier(s, v) else []
  {
    if s != [] {
      PassingTier(s[1..], threshold, v);
      PassingCons(s[0], s[1..], threshold);
      assert s == [s[0]] + s[1..];
      if s[0].score >= threshold {
        assert ([s[0]] + Passing(s[1..], threshold))[1..] == Passing(s[1..], threshold);
      }
    }
  }

  /** Filtering a sorted list leaves it sorted. */
  lemma {:induction false} PassingSorted(s: seq<Hit>, threshold: real)
    requires SortedDesc(s)
    ensures SortedDesc(Passing(s, threshold))
  {
    if s != [] && s[0].score >= threshold {
      var t := Passing(s[1..], threshold);
      PassingSorted(s[1..], threshold);
      forall x | x in t ensures x.score <= s[0].score {
        PassingMember(s[1..], threshold, x);
      }
      ConsSorted(s[0], t);
    } else if s != [] {
      PassingSorted(s[1..], threshold);
    }
  }

  lemma PassingCons(x: Hit, t: seq<Hit>, threshold: real)
    ensures Passing([x] + t, threshold) == (if x.score >= threshold then [x] else []) + Passing(t, threshold)
  {
    assert ([x] + t)[1..] == t;
  }

  lemma PassingInsertFront(h: Hit, s: seq<Hit>, threshold: real)
    requires SortedDesc(s) && (s == [] || s[0].score <= h.score)
    ensures Passing(Insert(h, s), threshold)
         == if h.score >= threshold then Insert(h, Passing(s, threshold)) else Passing(s, threshold)
  {
    var p := Passing(s, threshold);
    InsertFront(h, s);
    PassingCons(h, s, threshold);
    if h.score >= threshold {
      assert p == [] || p[0].score <= h.score by {
        if p != [] {
          PassingMember(s, threshold, p[0]);
        }
      }
      InsertFront(h, p);
    }
  }

  lemma {:induction false} PassingInsert(h: Hit, s: seq<Hit>, threshold: real)
    requires SortedDesc(s)
    ensures Passing(Insert(h, s), threshold)
         == if h.score >= threshold then Insert(h, Passing(s, threshold)) else Passing(s, threshold)
  {
    if s == [] || s[0].score <= h.score {
      PassingInsertFront(h, s, threshold);
    } else {
      var rest := s[1..];
      assert s == [s[0]] + rest;
      InsertBehind(h, s[0], rest);
      PassingInsert(h, rest, threshold);
      PassingCons(s[0], Insert(h, rest), threshold);
      PassingCons(s[0], rest, threshold);
      if s[0].score >= threshold && h.score >= threshold {
        InsertBehind(h, s[0], Passing(rest, threshold));
      }
    }
  }

  /** Filtering the sorted pairs equals sorting the pairs that pass the threshold. */
  lemma {:induction false} PassingSortCommute(s: seq<Hit>, threshold: real)
    ensures Passing(SortDesc(s), threshold) == SortDesc(Passing(s, threshold))
  {
    if s != [] {
      PassingSortCommute(s[1..], threshold);
      PassingInsert(s[0], SortDesc(s[1..]), threshold);
      if s[0].score >= threshold {
        var p := Passing(s, threshold);
        assert p == [s[0]] + Passing(s[1..], threshold);
        assert p[1..] == Passing(s[1..], threshold);
      }
    }
  }
}
