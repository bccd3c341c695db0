# AstraMed retrieval and answer core, in Dafny

This project models the deterministic part of AstraMed's `/answer` serving
path: what happens to the question/answer documents the vector store returns
before (and instead of) the language-model call.

* **Ranking and filtering** (`get_relevant_documents`). The store's
  `(document, score)` pairs are sorted by descending score with Python's stable
  sort. Each score is written into its document's `metadata["score"]`. Only the
  documents whose score is at least `similarity_threshold` are kept.
* **Rendering** (`format_relevant_documents`). The documents become numbered
  text blocks joined by newlines. Missing metadata fields get fixed defaults.
* **Answer assembly** (the body of `answer`). With no documents the endpoint
  returns the "no source" body. Otherwise it projects at most three documents
  into `answers` entries with defaults. It newline-joins their messages,
  leaving out the `"Réponse non disponible."` placeholder. If that text is
  blank after `strip()`, it returns a fixed fallback. Only otherwise does it
  call the language model, exactly once.

Modules, one per concern:

| file | module | models |
|---|---|---|
| wrappers.dfy | `Wrappers` | `Option`, `Result` (raised exceptions become `Failure`) |
| seqs.dfy | `Seqs` | small sequence facts (associativity, head and tail) that the other proofs cite |
| text.dfy | `Text` | `"sep".join`, `str.strip`, `str(n)` and the parsers that invert them |
| documents.dfy | `Documents` | LangChain `Document` with a metadata dict, `dict.get`, the score write |
| ranking.dfy | `Ranking` | the stable descending sort (insertion sort plus its specification) and the threshold filter |
| retrieve.dfy | `Retrieve` | `get_relevant_documents`, `format_relevant_documents` |
| api.dfy | `Api` | the `/answer` endpoint's decision logic, prompt, and response |

The vector store and the language model are inputs. The store's answer to
`similarity_search_with_relevance_scores(query, k=3)` is the `hits` sequence.
The model is a total function `Llm = (temperature, prompt) -> Option<reply>`,
where `None` stands for a raised exception. "The model is called at most once"
is stated as: `LlmPrompts` lists at most one prompt, and the response depends on
the model only through its reply to that prompt (`AnswerDependsOnlyOnPrompt`).

Metadata values are modelled as `Text` or `Number`. Python exceptions
that the endpoint would turn into an HTTP 500 are `Failure` values:

* `ScoreNotNumeric`: `f"{'N/A':.4f}"` raises when a document has no numeric
  score. `HandleAnswer` proves this never happens after retrieval, because
  retrieval writes a numeric score into every document it returns.
* `MessageNotText`: `"\n".join` raises on a non-string `answer` value.
* `LlmFailed`: `llm.invoke` raised.

Points of the code that the model follows literally:

* The "no source" body is `{"message": ..., "answers": []}` (api.py:72). It
  carries no `type` field, although app.py:110 reads one.
* `generated_response` is the model's reply exactly as returned
  (api.py:105-110); nothing is appended to it.
* The fallback fires whenever the joined text is blank after `strip()`
  (api.py:89). That includes all-placeholder answers, and also answers that
  are only whitespace.
* At most three candidates come from the store's `k=3` and from `documents[:3]`.
  Nothing in `get_relevant_documents` truncates by itself.

`api.py` is stored with CRLF line endings. Python's tokenizer turns these into
`\n` inside the triple-quoted prompt, so the model's prompt uses `\n`.

## Model

| member | source | states |
|---|---|---|
| Text.Join | retrieve.py:59 | Joining no parts gives the empty string and joining one part gives that part unchanged |
| Text.JoinSnoc | retrieve.py:59 | Joining one more part appends the separator and that part, so a join lists its parts in order |
| Text.JoinBlank | api.py:87-89 | With a whitespace separator, the join is whitespace-only exactly when every part is |
| Text.StripLeft | api.py:89 | The result is a suffix of the input, everything removed is whitespace, and the result does not start with whitespace |
| Text.StripRight | api.py:89 | The result is a prefix of the input, everything removed is whitespace, and the result does not end with whitespace |
| Text.StripLeftBlank | api.py:89 | Stripping leading whitespace leaves a whitespace-only result exactly when the input was whitespace-only |
| Text.StripEmptyIffBlank | api.py:89 | `not s.strip()` holds exactly when every character of `s` is Python whitespace |
| Text.Strip | api.py:89 | `s.strip()` is no longer than `s` and neither starts nor ends with Python whitespace |
| Text.StripKeepsMiddle | api.py:89 | `s.strip()` is a contiguous piece of `s`, and everything cut from either side of it is whitespace |
| Text.NatToString | retrieve.py:50 | `str(n)` is a non-empty string of decimal digits with no leading zero |
| Text.ParseNatToString | retrieve.py:50 | Parsing `str(n)` back gives `n`, so block numbers are readable and unambiguous |
| Documents.Get | api.py:77-81 | `metadata.get(key, default)` is the stored value when the key is present and the default otherwise |
| Documents.WithScore | retrieve.py:30 | Writing the score adds or replaces only the "score" entry, with that number; the question text and all other metadata are unchanged |
| Ranking.Insert | retrieve.py:26 | Inserting makes the list one longer with the same members plus the new pair, and inserting into a score-sorted list keeps it sorted |
| Ranking.InsertPermutes | retrieve.py:26 | Inserting adds exactly one occurrence of the new pair and changes no other multiplicity |
| Ranking.SortDesc | retrieve.py:26 | The sort returns a list ordered by non-increasing score, as long as its input and with the same members |
| Ranking.SortDescPermutes | retrieve.py:26 | The sort's result is a permutation of its input: every pair occurs as often as in the input |
| Ranking.SortStable | retrieve.py:26 | Pairs with equal scores come out in the order the store returned them |
| Ranking.SortDescIsStableSort | retrieve.py:26 | The sort meets the full stable-descending-sort specification: permutation, sorted, ties kept in order |
| Ranking.StableSortUnique | retrieve.py:26 | Any list meeting that specification equals the sort's result, so the specification pins the order down completely |
| Ranking.Passing | retrieve.py:33 | The filter never makes the list longer |
| Ranking.PassingMember | retrieve.py:33 | A pair is kept exactly when it is in the input and its score is >= threshold |
| Ranking.PassingCounts | retrieve.py:33 | The filter keeps each passing pair exactly as many times as the input holds it and drops every other pair entirely, so duplicates from the store survive |
| Ranking.PassingTier | retrieve.py:33 | The filter keeps the pairs of each passing score in their input order, and no pair of a score below the threshold |
| Ranking.PassingSorted | retrieve.py:33 | Filtering a score-sorted list leaves it sorted |
| Ranking.PassingSortCommute | retrieve.py:26-33 | Filtering the sorted list equals sorting the pairs that pass the threshold |
| Retrieve.AnnotateScores | retrieve.py:29-30 | The loop keeps every pair in its position and gives pair i its own score in metadata |
| Retrieve.AnnotateScoresWritesScore | retrieve.py:29-30 | After the loop, each document's "score" is its own pair's score, and no other metadata entry, key or question text changed |
| Retrieve.StoreListCarriesScores | retrieve.py:26-30 | Every pair the store returned carries its score afterwards, filtered-out ones included, and the list stays sorted |
| Retrieve.AnnotateSortCommute | retrieve.py:26-30 | Writing scores into metadata and sorting by score can be done in either order |
| Retrieve.AnnotatePassingCommute | retrieve.py:29-33 | Writing scores into metadata and filtering by threshold can be done in either order |
| Retrieve.AnnotateTier | retrieve.py:29-30 | Writing scores into metadata keeps the pairs of each score in order |
| Retrieve.RankedHits | retrieve.py:26-33 | The kept pairs are never more than the store returned |
| Retrieve.RankedHitsIsStableSort | retrieve.py:21-35 | The kept pairs are exactly the stable descending sort of the annotated pairs that meet the threshold |
| Retrieve.RankedHitsTier | retrieve.py:26-33 | The kept pairs of each passing score are that score's store pairs, annotated, in the order the store returned them; no pair of a score below the threshold is kept |
| Retrieve.RankedHitsSound | retrieve.py:26-33 | Every kept pair is the annotated form of a store pair whose score meets the threshold |
| Retrieve.RankedHitsComplete | retrieve.py:26-33 | Every store pair whose score meets the threshold is kept, annotated with its score |
| Retrieve.RankedHitsMember | retrieve.py:26-33 | A pair is kept if and only if it is an annotated store pair whose score meets the threshold |
| Retrieve.Docs | retrieve.py:33 | The returned documents are the documents of the kept pairs, one for one and in order |
| Retrieve.RankedHitsFacts | retrieve.py:26-35 | The kept pairs are sorted, are no more than the store returned, and each carries its own score >= threshold in metadata |
| Retrieve.RankedDocsMember | retrieve.py:33 | Every store document meeting the threshold is returned, with its score attached, and every returned document is such a document |
| Retrieve.RankedDocsScores | retrieve.py:29-35 | Each returned document carries a score >= threshold in its metadata, and those scores never increase along the result |
| Retrieve.RankedDocsEmpty | retrieve.py:33-35 | Nothing is returned exactly when every store score is below the threshold |
| Retrieve.GetRelevantDocuments | retrieve.py:7-35 | Returned documents number at most the store's results, carry scores >= threshold in non-increasing order, include every qualifying document and nothing else, and the result is empty exactly when no score meets the threshold |
| Retrieve.Field | retrieve.py:52-55 | A field is the default when the key is missing, the string itself when it is a string, and the number's rendering when it is a number |
| Retrieve.FieldLine | retrieve.py:52-55 | A field line is its label followed by the stored value, or by the default when the key is missing, and a newline |
| Retrieve.BlockFields | retrieve.py:52-55 | The field lines open with the answer label and end with a line break |
| Retrieve.BlockFieldsAllMissing | retrieve.py:52-55 | A document with none of the four keys shows the defaults "Non disponible", "Inconnue", "Non spécifié" and "N/A" |
| Retrieve.BlockTail | retrieve.py:51-56 | After its header line, a block opens with the question's line and closes with the `-----` separator |
| Retrieve.BlockTailFields | retrieve.py:51-56 | Between the question's line and the separator, the tail holds exactly the answer, source, focus-area and score lines |
| Retrieve.FormatBlock | retrieve.py:49-57 | A block opens with the header line of its number and closes with the `-----` separator |
| Retrieve.FormatBlockNumbered | retrieve.py:49-57 | A block is the header line of its number followed by its tail, and that number can be read back from it |
| Retrieve.BlockNumberRoundTrip | retrieve.py:50 | Reading the number back from any block header gives the number written |
| Retrieve.Blocks | retrieve.py:47-58 | `formatted_docs` has one block per document, and block k is the block of document k numbered k+1 |
| Retrieve.BlocksNumbered | retrieve.py:48-58 | Block k is non-empty and numbered k+1, so blocks are numbered from 1 in input order |
| Retrieve.FormatRelevantDocuments | retrieve.py:37-59 | The rendering is empty exactly when there are no documents |
| Retrieve.BlocksSnoc | retrieve.py:48-57 | One more document adds one block at the end, numbered after the others, and leaves the earlier blocks unchanged |
| Retrieve.FormatAppend | retrieve.py:47-59 | Rendering one more document appends a newline and that document's block, numbered after the others |
| Api.Project | api.py:76-82 | An entry takes the document's answer, source and focus area, defaulting to "Réponse non disponible.", "Inconnue" and "Non spécifié"; its score is the attached number, and a missing or non-numeric score raises |
| Api.ProjectAll | api.py:75-84 | Entries correspond one-to-one and in order to the documents; the projection raises exactly when some document lacks a numeric score |
| Api.TopAnswers | api.py:75-84 | `answers` has min(3, number of documents) entries, entry i projecting document i |
| Api.KeptMessages | api.py:87 | A failed join is always the type error of a non-string message |
| Api.KeptMessagesSucceeds | api.py:87 | The join raises a type error exactly when some message is not a string |
| Api.KeptMessagesContents | api.py:87 | The model's input lines are no more than the entries, include every message except the placeholder, never the placeholder, and each comes from some entry |
| Api.KeptMessagesAppend | api.py:87 | The kept messages keep the entries' order: those of a concatenation are those of the first part followed by those of the second |
| Api.PlaceholdersKeepNothing | api.py:87 | When every message is the placeholder, nothing is kept |
| Api.Concatenated | api.py:87 | The join succeeds exactly when every message is a string, and otherwise raises the type error |
| Api.ConcatenatedBlank | api.py:87-89 | The joined text is blank after `strip()` exactly when every kept message is whitespace-only |
| Api.Prompt | api.py:97-102 | The prompt adds only its fixed text, holds the concatenated answers verbatim right after its heading line, and the language verbatim just before its closing text |
| Api.PromptRoundTrip | api.py:97-102 | The prompt contains the concatenated answers and the requested language, which can be read back out of it |
| Api.ParsePromptSound | api.py:97-102 | Any text that parses as a prompt is the prompt for what it parses to |
| Api.Decide | api.py:71-102 | No documents means the "no source" response; a projection error or a non-string message raises exactly when it occurs; otherwise a blank join means the fallback (exactly when every kept message is blank), and a non-blank join means a prompt built from the join and the language |
| Api.LlmPrompts | api.py:95-105 | At most one model call per request, none without documents, exactly one when the decision is to synthesize, and that one is the prompt built from the top-3 join and the language |
| Api.Answer | api.py:66-111 | The response is "no source" exactly when there are no documents; a projection error, a non-string message or a failing model call raises exactly when it occurs; a blank join returns the fallback with the top-3 entries and no model call; otherwise the model's reply to the single prompt is returned with the top-3 entries |
| Api.AnswerDependsOnlyOnPrompt | api.py:95-105 | Two models that agree on the listed prompt give the same response, so no other model call affects it |
| Api.AllPlaceholdersFallBack | api.py:87-93 | When every top-3 answer is missing or the placeholder, the fallback text is returned with the projected answers and no model call |
| Api.RetrievedAnswersProject | api.py:69-84 | Documents out of retrieval always carry a numeric score, so projecting them never raises |
| Api.RetrievedAnswersRanked | api.py:69-84 | Retrieved documents project into entries with scores >= threshold in non-increasing order, at most min(3, store results) |
| Api.HandleAnswer | api.py:66-111 | End to end: "no source" exactly when no store score meets the threshold, never a score-format error, a non-string message or failing model call raises exactly when it occurs, otherwise the model's reply or, with no prompt, the fallback is returned with the top-3 retrieved entries |
| Api.HandleAnswerRanked | api.py:69-84 | The answers of a response are at most min(3, store results), meet the request's threshold, and are in non-increasing score order |

## Left out

- The vector-store query (retrieve.py:21-23) is the `hits` input. The store's promise to return at most `k=3` pairs is not enforced: the results hold for any number of pairs, and `answers` is bounded by `documents[:3]`.
- Constructing and invoking the model (api.py:95, api.py:105) is the `Llm` function input. Network errors and timeouts appear only as `None`.
- Api.Entry keeps the similarity score as a number. The `:.4f` string formatting (api.py:81) is floating-point formatting and is not modelled.
- Retrieve.Field renders numbers with a caller-supplied `NumberFormat`, because Python's `str(float)` is not modelled.
- The default `similarity_threshold=0.5` of `get_relevant_documents` (retrieve.py:8) is not modelled separately: api.py:69 always passes the request's threshold, so the threshold is always an argument.
- Scores are Dafny `real`s. NaN and infinities, which Python floats allow and which change how the sort orders them, are not modelled.
- Documents are values. If the store returned the same document object twice, Python would overwrite its score with the later pair's score; the model does not capture that aliasing.
- Metadata values other than strings and numbers (for example `None` or lists) are not modelled.
- Logging `print` calls, the exception-to-HTTP-500 wrapper (api.py:113-115) and module start-up (api.py:13-29) are I/O or framework code.
- The `/feedback` and `/` endpoints only print and return constants.
- app.py (Streamlit UI), ingest.py (database and embedding set-up), eval.py and utils_eval.py (offline evaluation over embeddings and randomness) are not part of this model.
- The `question` and `session_id` request fields only reach the store query and logging.
- An agent router, an output parser and a medical disclaimer suffix do not appear in the modelled files.
