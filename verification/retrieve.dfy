/**
 * `get_relevant_documents` and `format_relevant_documents`: what happens to the
 * vector store's `(document, score)` pairs before the answer endpoint sees them.
 */
module Retrieve {
  import opened Wrappers
  import opened Text
  import opened Documents
  import opened Ranking
  import opened Seqs

  /** One pair after `doc.metadata["score"] = score`. */
  function Annotated(h: Hit): Hit {
    Hit(WithScore(h.doc, h.score), h.score)
  }

  /** The pair list after the loop that writes every score into its document's metadata. */
  function AnnotateScores(s: seq<Hit>): (r: seq<Hit>)
    ensures |r| == |s|
    ensures forall i :: 0 <= i < |s| ==> r[i] == Annotated(s[i])
  {
    if s == [] then [] else [Annotated(s[0])] + AnnotateScores(s[1..])
  }

  /**
   * After the loop every document carries its own pair's score under "score",
   * and no other metadata entry or question text has changed.
   */
  lemma AnnotateScoresWritesScore(s: seq<Hit>, i: nat)
    requires i < |s|
    ensures var r := AnnotateScores(s);
      && r[i].score == s[i].score
      && r[i].doc.pageContent == s[i].doc.pageContent
      && AttachedScore(r[i].doc) == Some(s[i].score)
      && r[i].doc.metadata.Keys == s[i].doc.metadata.Keys + {ScoreKey}
      && forall k :: k in s[i].doc.metadata && k != ScoreKey ==> r[i].doc.metadata[k] == s[i].doc.metadata[k]
  {
  }

  lemma {:induction false} AnnotateMember(s: seq<Hit>, h: Hit)
    ensures h in AnnotateScores(s) <==> exists i :: 0 <= i < |s| && h == Annotated(s[i])
  {
    if s != [] {
      AnnotateMember(s[1..], h);
      if h in AnnotateScores(s[1..]) {
        var i :| 0 <= i < |s[1..]| && h == Annotated(s[1..][i]);
        assert h == Annotated(s[i + 1]);
      }
      if exists i :: 0 <= i < |s| && h == Annotated(s[i]) {
        var i :| 0 <= i < |s| && h == Annotated(s[i]);
        if i > 0 { assert s[i] == s[1..][i - 1]; }
      }
    }
  }

  lemma AnnotateKeepsOrder(s: seq<Hit>)
    ensures SortedDesc(s) <==> SortedDesc(AnnotateScores(s))
  {
  }

  lemma AnnotateCons(x: Hit, t: seq<Hit>)
    ensures AnnotateScores([x] + t) == [Annotated(x)] + AnnotateScores(t)
  {
    assert ([x] + t)[1..] == t;
  }

  lemma {:induction false} AnnotateInsert(h: Hit, s: seq<Hit>)
    ensures AnnotateScores(Insert(h, s)) == Insert(Annotated(h), AnnotateScores(s))
  {
    if s == [] || s[0].score <= h.score {
      InsertFront(h, s);
      AnnotateCons(h, s);
      InsertFront(Annotated(h), AnnotateScores(s));
    } else {
      var rest := s[1..];
      calc {
        AnnotateScores(Insert(h, s));
        { assert s == [s[0]] + rest; InsertBehind(h, s[0], rest); }
        AnnotateScores([s[0]] + Insert(h, rest));
        { AnnotateCons(s[0], Insert(h, rest)); }
        [Annotated(s[0])] + AnnotateScores(Insert(h, rest));
        { AnnotateInsert(h, rest); }
        [Annotated(s[0])] + Insert(Annotated(h), AnnotateScores(rest));
        { InsertBehind(Annotated(h), Annotated(s[0]), AnnotateScores(rest)); }
        Insert(Annotated(h), [Annotated(s[0])] + AnnotateScores(rest));
        { AnnotateCons(s[0], rest); assert s == [s[0]] + rest; }
        Insert(Annotated(h), AnnotateScores(s));
      }
    }
  }

  /** Writing scores into metadata commutes with sorting by score. */
  lemma {:induction false} AnnotateSortCommute(s: seq<Hit>)
    ensures AnnotateScores(SortDesc(s)) == SortDesc(AnnotateScores(s))
  {
    if s != [] {
      AnnotateSortCommute(s[1..]);
      AnnotateInsert(s[0], SortDesc(s[1..]));
    }
  }

  /** The first pair: annotating then filtering, and filtering then annotating, both keep it exactly when it passes. */
  lemma AnnotatePassingHead(s: seq<Hit>, threshold: real)
    requires s != []
    ensures s[0].score >= threshold ==>
      && Passing(AnnotateScores(s), threshold) == [Annotated(s[0])] + Passing(AnnotateScores(s[1..]), threshold)
      && AnnotateScores(Passing(s, threshold)) == [Annotated(s[0])] + AnnotateScores(Passing(s[1..], threshold))
    ensures s[0].score < threshold ==>
      && Passing(AnnotateScores(s), threshold) == Passing(AnnotateScores(s[1..]), threshold)
      && AnnotateScores(Passing(s, threshold)) == AnnotateScores(Passing(s[1..], threshold))
  {
    var x, t := s[0], s[1..];
    assert s == [x] + t;
    AnnotateCons(x, t);
    PassingCons(Annotated(x), AnnotateScores(t), threshold);
    PassingCons(x, t, threshold);
    if x.score >= threshold {
      AnnotateCons(x, Passing(t, threshold));
    } else {
      assert [] + Passing(AnnotateScores(t), threshold) == Passing(AnnotateScores(t), threshold);
      assert [] + Passing(t, threshold) == Passing(t, threshold);
    }
  }

  /** Writing scores into metadata commutes with the threshold filter. */
  lemma {:induction false} AnnotatePassingCommute(s: seq<Hit>, threshold: real)
    ensures Passing(AnnotateScores(s), threshold) == AnnotateScores(Passing(s, threshold))
  {
    if s != [] {
      AnnotatePassingCommute(s[1..], threshold);
      AnnotatePassingHead(s, threshold);
    }
  }

  /** The store's pair list once sorted and annotated (lines 26 and 29-30). */
  function AnnotatedStoreList(hits: seq<Hit>): seq<Hit> {
    AnnotateScores(SortDesc(hits))
  }

  /**
   * Every pair the store returned, including the ones the threshold will drop,
   * ends up with its score in its document's metadata.
   */
  lemma StoreListCarriesScores(hits: seq<Hit>)
    ensures multiset(AnnotatedStoreList(hits)) == multiset(AnnotateScores(hits))
    ensures SortedDesc(AnnotatedStoreList(hits))
  {
    AnnotateSortCommute(hits);
    SortDescPermutes(AnnotateScores(hits));
  }

  /** The pairs `get_relevant_documents` keeps, in the order it returns them. */
  function RankedHits(hits: seq<Hit>, threshold: real): (r: seq<Hit>)
    ensures |r| <= |hits|
  {
    Passing(AnnotatedStoreList(hits), threshold)
  }

  /**
   * The kept pairs are exactly the stable descending sort of the annotated
   * pairs that meet the threshold: sorted, complete, and tie-stable.
   */
  lemma RankedHitsIsStableSort(hits: seq<Hit>, threshold: real)
    ensures IsStableDescendingSort(AnnotateScores(Passing(hits, threshold)), RankedHits(hits, threshold))
  {
    AnnotatePassingCommute(SortDesc(hits), threshold);
    PassingSortCommute(hits, threshold);
    AnnotateSortCommute(Passing(hits, threshold));
    SortDescIsStableSort(AnnotateScores(Passing(hits, threshold)));
  }

  lemma RankedHitsSound(hits: seq<Hit>, threshold: real, h: Hit)
    requires h in RankedHits(hits, threshold)
    ensures exists i :: 0 <= i < |hits| && hits[i].score >= threshold && h == Annotated(hits[i])
  {
    var sorted := SortDesc(hits);
    PassingMember(AnnotateScores(sorted), threshold, h);
    AnnotateMember(sorted, h);
    var j :| 0 <= j < |sorted| && h == Annotated(sorted[j]);
    assert sorted[j] in sorted;
    var i :| 0 <= i < |hits| && hits[i] == sorted[j];
  }

  lemma RankedHitsComplete(hits: seq<Hit>, threshold: real, i: nat)
    requires i < |hits| && hits[i].score >= threshold
    ensures Annotated(hits[i]) in RankedHits(hits, threshold)
  {
    var sorted := SortDesc(hits);
    assert hits[i] in hits;
    var j :| 0 <= j < |sorted| && sorted[j] == hits[i];
    AnnotateMember(sorted, Annotated(hits[i]));
    PassingMember(AnnotateScores(sorted), threshold, Annotated(hits[i]));
  }

  lemma RankedHitsMember(hits: seq<Hit>, threshold: real, h: Hit)
    ensures h in RankedHits(hits, threshold)
        <==> exists i :: 0 <= i < |hits| && hits[i].score >= threshold && h == Annotated(hits[i])
  {
    if h in RankedHits(hits, threshold) {
      RankedHitsSound(hits, threshold, h);
    }
    if exists i :: 0 <= i < |hits| && hits[i].score >= threshold && h == Annotated(hits[i]) {
      var i :| 0 <= i < |hits| && hits[i].score >= threshold && h == Annotated(hits[i]);
      RankedHitsComplete(hits, threshold, i);
    }
  }

  /** The documents of the pairs, in order: the `doc` half of `for doc, score in ...`. */
  function Docs(s: seq<Hit>): (r: seq<Doc>)
    ensures |r| == |s| && forall i :: 0 <= i < |s| ==> r[i] == s[i].doc
  {
    seq(|s|, i requires 0 <= i < |s| => s[i].doc)
  }

  /** Writing scores keeps each equal-score group's pairs in order. */
  lemma {:induction false} AnnotateTier(s: seq<Hit>, v: real)
    ensures Tier(AnnotateScores(s), v) == AnnotateScores(Tier(s, v))
  {
    if s != [] {
      AnnotateTier(s[1..], v);
      assert s == [s[0]] + s[1..];
      AnnotateCons(s[0], s[1..]);
      var a := AnnotateScores(s);
      assert a[0] == Annotated(s[0]) && a[1..] == AnnotateScores(s[1..]);
      if s[0].score == v {
        AnnotateCons(s[0], Tier(s[1..], v));
      } else {
        assert Tier(s, v) == Tier(s[1..], v);
        assert Tier(a, v) == [] + Tier(a[1..], v);
      }
    }
  }

  /**
   * Documents with equal scores come back in the order the store returned
   * them, and those below the threshold not at all.
   */
  lemma RankedHitsTier(hits: seq<Hit>, threshold: real, v: real)
    ensures Tier(RankedHits(hits, threshold), v) == if v >= threshold then AnnotateScores(Tier(hits, v)) else []
  {
    PassingTier(AnnotatedStoreList(hits), threshold, v);
    AnnotateTier(SortDesc(hits), v);
    SortStable(hits, v);
  }

  lemma RankedHitsFacts(hits: seq<Hit>, threshold: real)
    ensures |RankedHits(hits, threshold)| <= |hits|
    ensures SortedDesc(RankedHits(hits, threshold))
    ensures forall h :: h in RankedHits(hits, threshold) ==>
      h.score >= threshold && AttachedScore(h.doc) == Some(h.score)
  {
    StoreListCarriesScores(hits);
    PassingSorted(AnnotatedStoreList(hits), threshold);
    forall h | h in RankedHits(hits, threshold)
      ensures h.score >= threshold && AttachedScore(h.doc) == Some(h.score)
    {
      RankedHitsMember(hits, threshold, h);
    }
  }

  lemma RankedDocsMember(hits: seq<Hit>, threshold: real)
    ensures forall i :: 0 <= i < |hits| && hits[i].score >= threshold ==>
      WithScore(hits[i].doc, hits[i].score) in Docs(RankedHits(hits, threshold))
    ensures forall d :: d in Docs(RankedHits(hits, threshold)) ==>
      exists i :: 0 <= i < |hits| && hits[i].score >= threshold && d == WithScore(hits[i].doc, hits[i].score)
  {
    var ranked := RankedHits(hits, threshold);
    var docs := Docs(ranked);
    forall i | 0 <= i < |hits| && hits[i].score >= threshold
      ensures WithScore(hits[i].doc, hits[i].score) in docs
    {
      RankedHitsMember(hits, threshold, Annotated(hits[i]));
      var j :| 0 <= j < |ranked| && ranked[j] == Annotated(hits[i]);
      assert docs[j] == WithScore(hits[i].doc, hits[i].score);
    }
    forall d | d in docs
      ensures exists i :: 0 <= i < |hits| && hits[i].score >= threshold && d == WithScore(hits[i].doc, hits[i].score)
    {
      var j :| 0 <= j < |docs| && docs[j] == d;
      RankedHitsMember(hits, threshold, ranked[j]);
    }
  }

  /** Each kept document carries its pair's score, and those scores never increase. */
  lemma RankedDocsScores(hits: seq<Hit>, threshold: real)
    ensures var r := Docs(RankedHits(hits, threshold));
      && (forall i :: 0 <= i < |r| ==> AttachedScore(r[i]).Some? && AttachedScore(r[i]).value >= threshold)
      && (forall i, j :: 0 <= i < j < |r| ==> AttachedScore(r[i]).value >= AttachedScore(r[j]).value)
  {
    var ranked := RankedHits(hits, threshold);
    RankedHitsFacts(hits, threshold);
    forall i | 0 <= i < |ranked|
      ensures AttachedScore(ranked[i].doc) == Some(ranked[i].score) && ranked[i].score >= threshold
    {
      assert ranked[i] in ranked;
    }
  }

  /** Nothing is kept exactly when every pair scores below the threshold. */
  lemma RankedDocsEmpty(hits: seq<Hit>, threshold: real)
    ensures Docs(RankedHits(hits, threshold)) == [] <==> forall i :: 0 <= i < |hits| ==> hits[i].score < threshold
  {
    var docs := Docs(RankedHits(hits, threshold));
    RankedDocsMember(hits, threshold);
    if docs != [] {
      assert docs[0] in docs;
    }
  }

  /**
   * `get_relevant_documents(query, vector_store, threshold)` given the pairs
   * `hits` the store returned for the query.
   */
  function GetRelevantDocuments(hits: seq<Hit>, threshold: real): (r: seq<Doc>)
    ensures |r| <= |hits|
    ensures forall i :: 0 <= i < |r| ==> AttachedScore(r[i]).Some? && AttachedScore(r[i]).value >= threshold
    ensures forall i, j :: 0 <= i < j < |r| ==> AttachedScore(r[i]).value >= AttachedScore(r[j]).value
    ensures forall i :: 0 <= i < |hits| && hits[i].score >= threshold ==> WithScore(hits[i].doc, hits[i].score) in r
    ensures forall d :: d in r ==>
      exists i :: 0 <= i < |hits| && hits[i].score >= threshold && d == WithScore(hits[i].doc, hits[i].score)
    ensures r == [] <==> forall i :: 0 <= i < |hits| ==> hits[i].score < threshold
  {
    RankedHitsFacts(hits, threshold);
    RankedDocsScores(hits, threshold);
    RankedDocsMember(hits, threshold);
    RankedDocsEmpty(hits, threshold);
    Docs(RankedHits(hits, threshold))
  }

  /** How a number stored in metadata prints: Python's `str(float)`, left abstract. */
  type NumberFormat = real -> string

  /** How a metadata value prints inside an f-string. */
  function Shown(v: MetaValue, show: NumberFormat): string {
    match v
    case Text(t) => t
    case Number(x) => show(x)
  }

  /** `f"{metadata.get(key, default)}"`. */
  function Field(md: Metadata, key: string, default: string, show: NumberFormat): (r: string)
    ensures key !in md ==> r == default
    ensures key in md && md[key].Text? ==> r == md[key].text
    ensures key in md && md[key].Number? ==> r == show(md[key].value)
  {
    if key !in md then default else Shown(md[key], show)
  }

  const BlockHeader: string := "\U{1F4D6} **Document "
  const AfterNumber: string := "**:\n"
  const QuestionLabel: string := "\U{1F539} **Question**: "
  const AnswerLabel: string := "\U{1F4A1} **Réponse**: "
  const SourceLabel: string := "\U{1F4DA} **Source**: "
  const FocusAreaLabel: string := "\U{2695}\U{FE0F} **Domaine médical**: "
  const ScoreLabel: string := "\U{1F4CA} **Score de similarité**: "
  const AnswerDefault: string := "Non disponible"
  const SourceDefault: string := "Inconnue"
  const FocusAreaDefault: string := "Non spécifié"
  const ScoreDefault: string := "N/A"
  /** The line that closes every block. */
  const BlockEnd: string := "-----"

  /** One field line of a block: the label, then the stored value or, for a missing key, the default. */
  function FieldLine(caption: string, md: Metadata, key: string, default: string, show: NumberFormat): (r: string)
    ensures key !in md ==> r == caption + default + "\n"
    ensures key in md ==> r == caption + Shown(md[key], show) + "\n"
  {
    caption + Field(md, key, default, show) + "\n"
  }

  /** The answer, source, focus-area and score lines of a block, with their defaults. */
  function BlockFields(d: Doc, show: NumberFormat): (r: string)
    ensures StartsWith(r, AnswerLabel)
    ensures r != [] && r[|r| - 1] == '\n'
  {
    FieldLine(AnswerLabel, d.metadata, AnswerKey, AnswerDefault, show)
    + FieldLine(SourceLabel, d.metadata, SourceKey, SourceDefault, show)
    + FieldLine(FocusAreaLabel, d.metadata, FocusAreaKey, FocusAreaDefault, show)
    + FieldLine(ScoreLabel, d.metadata, ScoreKey, ScoreDefault, show)
  }

  /** A document with none of the four fields shows every default. */
  lemma BlockFieldsAllMissing(d: Doc, show: NumberFormat)
    requires AnswerKey !in d.metadata && SourceKey !in d.metadata
    requires FocusAreaKey !in d.metadata && ScoreKey !in d.metadata
    ensures BlockFields(d, show)
         == "\U{1F4A1} **Réponse**: " + "Non disponible" + "\n"
          + "\U{1F4DA} **Source**: " + "Inconnue" + "\n"
          + "\U{2695}\U{FE0F} **Domaine médical**: " + "Non spécifié" + "\n"
          + "\U{1F4CA} **Score de similarité**: " + "N/A" + "\n"
  {
  }

  /**
   * The part of a block after its header line: the question's line, the four
   * field lines, and the closing separator.
   */
  function BlockTail(d: Doc, show: NumberFormat): (r: string)
    ensures StartsWith(r, QuestionLabel + d.pageContent + "\n")
    ensures |r| >= |BlockEnd| && r[|r| - |BlockEnd|..] == BlockEnd
  {
    var question := QuestionLabel + d.pageContent + "\n";
    Framed(question, BlockFields(d, show), BlockEnd);
    question + BlockFields(d, show) + BlockEnd
  }

  /** Between the question's line and the separator, a block's tail holds exactly its four field lines. */
  lemma BlockTailFields(d: Doc, show: NumberFormat)
    ensures var question := QuestionLabel + d.pageContent + "\n";
      var r := BlockTail(d, show);
      && |r| == |question| + |BlockFields(d, show)| + |BlockEnd|
      && r[|question|..|r| - |BlockEnd|] == BlockFields(d, show)
  {
    Framed(QuestionLabel + d.pageContent + "\n", BlockFields(d, show), BlockEnd);
  }

  /** One document's block, numbered `n`. */
  function FormatBlock(n: nat, d: Doc, show: NumberFormat): (r: string)
    ensures StartsWith(r, BlockHeader + NatToString(n) + AfterNumber)
    ensures |r| >= |BlockEnd| && r[|r| - |BlockEnd|..] == BlockEnd
  {
    BlockHeader + NatToString(n) + AfterNumber + BlockTail(d, show)
  }

  /** A block is the header line of its number followed by its tail, and the number reads back from it. */
  lemma FormatBlockNumbered(n: nat, d: Doc, show: NumberFormat)
    ensures StartsWith(FormatBlock(n, d, show), BlockHeader + NatToString(n) + AfterNumber)
    ensures FormatBlock(n, d, show)[|BlockHeader + NatToString(n) + AfterNumber|..] == BlockTail(d, show)
    ensures ParseBlockNumber(FormatBlock(n, d, show)) == Some(n)
  {
    BlockNumberRoundTrip(n, BlockTail(d, show));
  }

  /** Reads the document number back from the header of a block. */
  function ParseBlockNumber(b: string): Option<nat> {
    if StartsWith(b, BlockHeader) then
      var rest := b[|BlockHeader|..];
      var ds := TakeDigits(rest);
      if ds != [] && StartsWith(rest[|ds|..], AfterNumber) then Some(ParseNat(ds)) else None
    else None
  }

  lemma BlockNumberRoundTrip(n: nat, tail: string)
    ensures var b := BlockHeader + NatToString(n) + AfterNumber + tail;
      StartsWith(b, BlockHeader + NatToString(n) + AfterNumber) && ParseBlockNumber(b) == Some(n)
  {
    var ds := NatToString(n);
    var b := BlockHeader + ds + AfterNumber + tail;
    assert b[..|BlockHeader|] == BlockHeader;
    var rest := b[|BlockHeader|..];
    assert rest == ds + (AfterNumber + tail);
    TakeDigitsPrefix(ds, AfterNumber + tail);
    assert rest[|ds|..] == AfterNumber + tail;
    ParseNatToString(n);
  }

  /** The blocks of `docs`, numbered from 1 in input order. */
  function Blocks(docs: seq<Doc>, show: NumberFormat): (r: seq<string>)
    ensures |r| == |docs|
    ensures forall k :: 0 <= k < |docs| ==> r[k] == FormatBlock(k + 1, docs[k], show)
  {
    var block := (k: nat, d: Doc) => FormatBlock(k + 1, d, show);
    var r := MapIndexed(docs, block);
    assert forall k :: 0 <= k < |docs| ==> r[k] == block(k, docs[k]);
    r
  }

  /** The `k`-th block carries the number `k + 1` (`enumerate(documents, start=1)`). */
  lemma BlocksNumbered(docs: seq<Doc>, show: NumberFormat, k: nat)
    requires k < |docs|
    ensures ParseBlockNumber(Blocks(docs, show)[k]) == Some(k + 1)
    ensures Blocks(docs, show)[k] != []
  {
    var b := Blocks(docs, show)[k];
    assert b == BlockHeader + NatToString(k + 1) + AfterNumber + BlockTail(docs[k], show);
    BlockNumberRoundTrip(k + 1, BlockTail(docs[k], show));
    assert |b| >= |BlockHeader| > 0;
  }

  /** `format_relevant_documents(documents)`. */
  function FormatRelevantDocuments(docs: seq<Doc>, show: NumberFormat): (r: string)
    ensures r == [] <==> docs == []
  {
    var blocks := Blocks(docs, show);
    assert docs != [] ==> Join(blocks, "\n") != [] by {
      if docs != [] {
        forall k | 0 <= k < |blocks| ensures blocks[k] != [] {
          BlocksNumbered(docs, show, k);
        }
        FormatNonEmpty(blocks);
      }
    }
    Join(blocks, "\n")
  }

  lemma {:induction false} FormatNonEmpty(blocks: seq<string>)
    requires blocks != [] && forall k :: 0 <= k < |blocks| ==> blocks[k] != []
    ensures Join(blocks, "\n") != []
  {
  }

  lemma BlocksSnoc(docs: seq<Doc>, d: Doc, show: NumberFormat)
    ensures Blocks(docs + [d], show) == Blocks(docs, show) + [FormatBlock(|docs| + 1, d, show)]
  {
    MapIndexedSnoc(docs, d, (k: nat, d: Doc) => FormatBlock(k + 1, d, show));
  }

  /** Formatting one more document appends a newline and its block, numbered after the others. */
  lemma FormatAppend(docs: seq<Doc>, d: Doc, show: NumberFormat)
    requires docs != []
    ensures FormatRelevantDocuments(docs + [d], show)
         == FormatRelevantDocuments(docs, show) + "\n" + FormatBlock(|docs| + 1, d, show)
  {
    BlocksSnoc(docs, d, show);
    JoinSnoc(Blocks(docs, show), "\n", FormatBlock(|docs| + 1, d, show));
  }
}
