/**
 * A retrieved question/answer record: LangChain's `Document`, with the
 * question in `pageContent` and everything else in the `metadata` dict.
 */
module Documents {
  import opened Wrappers

  /** A metadata value: the store writes strings, retrieval writes a float score. */
  datatype MetaValue = Text(text: string) | Number(value: real)

  type Metadata = map<string, MetaValue>

  datatype Doc = Doc(pageContent: string, metadata: Metadata)

  const AnswerKey: string := "answer"
  const SourceKey: string := "source"
  const FocusAreaKey: string := "focus_area"
  const ScoreKey: string := "score"

  /** `metadata.get(key, default)`. */
  function Get(md: Metadata, key: string, default: MetaValue): (v: MetaValue)
    ensures key in md ==> v == md[key]
    ensures key !in md ==> v == default
  {
    if key in md then md[key] else default
  }

  /** The similarity score retrieval attached to `d`, if it is a number. */
  function AttachedScore(d: Doc): (r: Option<real>)
    ensures r.Some? <==> ScoreKey in d.metadata && d.metadata[ScoreKey].Number?
    ensures r.Some? ==> d.metadata[ScoreKey] == Number(r.value)
  {
    if ScoreKey in d.metadata && d.metadata[ScoreKey].Number? then Some(d.metadata[ScoreKey].value) else None
  }

  /** `doc.metadata["score"] = score`: the document with its score recorded and nothing else changed. */
  function WithScore(d: Doc, score: real): (r: Doc)
    ensures r.pageContent == d.pageContent
    ensures r.metadata.Keys == d.metadata.Keys + {ScoreKey}
    ensures AttachedScore(r) == Some(score)
    ensures forall k :: k in d.metadata && k != ScoreKey ==> r.metadata[k] == d.metadata[k]
  {
    d.(metadata := d.metadata[ScoreKey := Number(score)])
  }
}
