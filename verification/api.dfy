/**
 * The body of the `/answer` endpoint: the no-source short-circuit, the top-3
 * projection with its defaults, the sentinel-excluding concatenation, the
 * blank-text fallback, and the single language-model call.
 */
module Api {
  import opened Wrappers
  import opened Seqs
  import opened Text
  import opened Documents
  import opened Ranking
  import opened Retrieve

  /** At most this many documents become entries of `answers`. */
  const MaxAnswers: nat := 3

  const NoSourceMessage: string := "Aucune source pertinente trouvée."
  /** Placeholder message of a document without an "answer"; it never reaches the model. */
  const MissingAnswer: string := "Réponse non disponible."
  const UnknownSource: string := "Inconnue"
  const UnspecifiedFocusArea: string := "Non spécifié"
  /** `score` default; formatting it with `:.4f` raises. */
  const MissingScore: string := "N/A"
  const FallbackResponse: string := "Impossible de générer une réponse reformulée à partir des sources disponibles."

  /** The `/answer` request body. */
  datatype Request = Request(
    question: string,
    temperature: real,
    language: string,
    similarityThreshold: real,
    sessionId: string)

  /** One element of `answers`: `{message, metadata: {source, focus_area, similarity_score}}`. */
  datatype Entry = Entry(message: MetaValue, source: MetaValue, focusArea: MetaValue, similarityScore: real)

  /** The two JSON bodies `/answer` returns. */
  datatype Response =
    | NoSource  // {"message": NoSourceMessage, "answers": []}
    | Answered(answers: seq<Entry>, generatedResponse: string)

  /** The exceptions the endpoint turns into an HTTP 500. */
  datatype Error =
    | ScoreNotNumeric  // `:.4f` applied to the "N/A" default or to a string score
    | MessageNotText   // "\n".join over a message that is not a string
    | LlmFailed        // `llm.invoke` raised

  /** The language model: (temperature, prompt) to the reply's `content`, `None` when the call raises. */
  type Llm = (real, string) -> Option<string>

  function Min(a: nat, b: nat): nat {
    if a <= b then a else b
  }

  /** The `answers` entry built from one document. */
  function Project(d: Doc): (r: Result<Entry, Error>)
    ensures r.Success? <==> AttachedScore(d).Some?
    ensures r.Success? ==> r.value.similarityScore == AttachedScore(d).value
    ensures r.Success? && AnswerKey in d.metadata ==> r.value.message == d.metadata[AnswerKey]
    ensures r.Success? && AnswerKey !in d.metadata ==> r.value.message == Text(MissingAnswer)
    ensures r.Success? && SourceKey in d.metadata ==> r.value.source == d.metadata[SourceKey]
    ensures r.Success? && SourceKey !in d.metadata ==> r.value.source == Text(UnknownSource)
    ensures r.Success? && FocusAreaKey in d.metadata ==> r.value.focusArea == d.metadata[FocusAreaKey]
    ensures r.Success? && FocusAreaKey !in d.metadata ==> r.value.focusArea == Text(UnspecifiedFocusArea)
  {
    var message := Get(d.metadata, AnswerKey, Text(MissingAnswer));
    var source := Get(d.metadata, SourceKey, Text(UnknownSource));
    var focusArea := Get(d.metadata, FocusAreaKey, Text(UnspecifiedFocusArea));
    match Get(d.metadata, ScoreKey, Text(MissingScore))
    case Number(x) => Success(Entry(message, source, focusArea, x))
    case Text(_) => Failure(ScoreNotNumeric)
  }

  /** Projects every document in order, stopping at the first that raises. */
  function ProjectAll(docs: seq<Doc>): (r: Result<seq<Entry>, Error>)
    ensures r.Success? <==> forall i :: 0 <= i < |docs| ==> AttachedScore(docs[i]).Some?
    ensures r.Success? ==> |r.value| == |docs|
    ensures r.Success? ==> forall i :: 0 <= i < |docs| ==> Project(docs[i]) == Success(r.value[i])
    ensures r.Failure? ==> r.error == ScoreNotNumeric
  {
    if docs == [] then Success([])
    else match Project(docs[0])
      case Failure(e) => Failure(e)
      case Success(entry) =>
        match ProjectAll(docs[1..])
        case Failure(e) => Failure(e)
        case Success(rest) =>
          assert forall i :: 1 <= i < |docs| ==> docs[i] == docs[1..][i - 1];
          Success([entry] + rest)
  }

  /** `top_3_responses`: the entries of `documents[:3]`. */
  function TopAnswers(docs: seq<Doc>): (r: Result<seq<Entry>, Error>)
    ensures r.Success? <==> forall i :: 0 <= i < Min(MaxAnswers, |docs|) ==> AttachedScore(docs[i]).Some?
    ensures r.Success? ==> |r.value| == Min(MaxAnswers, |docs|)
    ensures r.Success? ==> forall i :: 0 <= i < |r.value| ==> Project(docs[i]) == Success(r.value[i])
    ensures r.Failure? ==> r.error == ScoreNotNumeric
  {
    ProjectAll(docs[..Min(MaxAnswers, |docs|)])
  }

  /** The messages that go to the model: every message except the placeholder, which must all be strings. */
  function KeptMessages(entries: seq<Entry>): (r: Result<seq<string>, Error>)
    ensures r.Failure? ==> r.error == MessageNotText
  {
    if entries == [] then Success([])
    else
      var message := entries[0].message;
      match KeptMessages(entries[1..])
      case Failure(e) => Failure(e)
      case Success(rest) =>
        assert forall i :: 1 <= i < |entries| ==> entries[i] == entries[1..][i - 1];
        if message == Text(MissingAnswer) then Success(rest)
        else if message.Text? then Success([message.text] + rest)
        else Failure(MessageNotText)
  }

  /** The join succeeds exactly when every message is a string. */
  lemma {:induction false} KeptMessagesSucceeds(entries: seq<Entry>)
    ensures KeptMessages(entries).Success? <==> forall i :: 0 <= i < |entries| ==> entries[i].message.Text?
  {
    if entries != [] {
      var t := entries[1..];
      KeptMessagesSucceeds(t);
      forall i | 0 <= i < |t| ensures t[i] == entries[i + 1] {
      }
      if KeptMessages(entries).Success? {
        forall i | 0 <= i < |entries| ensures entries[i].message.Text? {
          if i > 0 {
            assert entries[i] == t[i - 1];
          }
        }
      }
    }
  }

  /** What one more entry in front contributes to the kept messages. */
  function KeptHead(e: Entry): seq<string>
    requires e.message.Text?
  {
    if e.message == Text(MissingAnswer) then [] else [e.message.text]
  }

  /** The first entry's contribution comes first, followed by the rest's kept messages. */
  lemma KeptUnfold(entries: seq<Entry>)
    requires entries != [] && entries[0].message.Text? && KeptMessages(entries[1..]).Success?
    ensures KeptMessages(entries) == Success(KeptHead(entries[0]) + KeptMessages(entries[1..]).value)
  {
    var rest := KeptMessages(entries[1..]).value;
    if entries[0].message == Text(MissingAnswer) {
      assert KeptHead(entries[0]) + rest == rest;
    }
  }

  /**
   * The kept messages are every message except the placeholder, and each of
   * them is the message of some entry.
   */
  lemma {:induction false} KeptMessagesContents(entries: seq<Entry>)
    requires KeptMessages(entries).Success?
    ensures var kept := KeptMessages(entries).value;
      && |kept| <= |entries|
      && (forall j :: 0 <= j < |kept| ==> kept[j] != MissingAnswer)
      && (forall i :: 0 <= i < |entries| && entries[i].message.Text? && entries[i].message.text != MissingAnswer ==>
            entries[i].message.text in kept)
      && (forall m :: m in kept ==> exists i :: 0 <= i < |entries| && entries[i].message == Text(m))
  {
    if entries != [] {
      var e := entries[0];
      var t := entries[1..];
      KeptTail(entries);
      KeptMessagesContents(t);
      KeptUnfold(entries);
      var kept := KeptMessages(entries).value;
      var rest := KeptMessages(t).value;
      assert kept == KeptHead(e) + rest;
      forall j | 0 <= j < |kept| ensures kept[j] != MissingAnswer {
        if j >= |KeptHead(e)| {
          assert kept[j] == rest[j - |KeptHead(e)|];
        }
      }
      forall i | 0 <= i < |entries| && entries[i].message.Text? && entries[i].message.text != MissingAnswer
        ensures entries[i].message.text in kept
      {
        if i > 0 {
          assert entries[i] == t[i - 1];
        }
      }
      forall m | m in kept ensures exists i :: 0 <= i < |entries| && entries[i].message == Text(m) {
        if m in rest {
          var i :| 0 <= i < |t| && t[i].message == Text(m);
          assert entries[i + 1] == t[i];
        } else {
          assert entries[0].message == Text(m);
        }
      }
    }
  }

  lemma KeptTail(entries: seq<Entry>)
    requires entries != [] && KeptMessages(entries).Success?
    ensures entries[0].message.Text? && KeptMessages(entries[1..]).Success?
  {
  }

  lemma KeptAppendStep(a: seq<Entry>, b: seq<Entry>)
    requires a != [] && a[0].message.Text?
    requires KeptMessages(a[1..]).Success? && KeptMessages(b).Success?
    requires KeptMessages(a[1..] + b) == Success(KeptMessages(a[1..]).value + KeptMessages(b).value)
    ensures KeptMessages(a + b) == Success(KeptMessages(a).value + KeptMessages(b).value)
  {
    AppendHeadTail(a, b);
    KeptUnfold(a);
    KeptUnfold(a + b);
    ConcatAssoc(KeptHead(a[0]), KeptMessages(a[1..]).value, KeptMessages(b).value);
  }

  /** The kept messages of two runs of entries are the kept messages of the first, then of the second. */
  lemma {:induction false} KeptMessagesAppend(a: seq<Entry>, b: seq<Entry>)
    requires KeptMessages(a).Success? && KeptMessages(b).Success?
    ensures KeptMessages(a + b) == Success(KeptMessages(a).value + KeptMessages(b).value)
  {
    if a == [] {
      assert a + b == b;
      assert KeptMessages(a).value + KeptMessages(b).value == KeptMessages(b).value;
    } else {
      KeptTail(a);
      KeptMessagesAppend(a[1..], b);
      KeptAppendStep(a, b);
    }
  }

  /** Entries whose messages are all the placeholder contribute nothing to the model's input. */
  lemma {:induction false} PlaceholdersKeepNothing(entries: seq<Entry>)
    requires forall i :: 0 <= i < |entries| ==> entries[i].message == Text(MissingAnswer)
    ensures KeptMessages(entries) == Success([])
  {
    if entries != [] {
      PlaceholdersKeepNothing(entries[1..]);
    }
  }

  /** `concatenated_answers`. */
  function Concatenated(entries: seq<Entry>): (r: Result<string, Error>)
    ensures r.Failure? ==> r.error == MessageNotText
    ensures r.Success? <==> forall i :: 0 <= i < |entries| ==> entries[i].message.Text?
  {
    KeptMessagesSucceeds(entries);
    match KeptMessages(entries)
    case Failure(e) => Failure(e)
    case Success(kept) => Success(Join(kept, "\n"))
  }

  /**
   * `not concatenated_answers.strip()` holds exactly when every kept message is
   * whitespace only (no kept message at all included).
   */
  lemma ConcatenatedBlank(entries: seq<Entry>)
    requires KeptMessages(entries).Success?
    ensures Strip(Concatenated(entries).value) == []
        <==> forall j :: 0 <= j < |KeptMessages(entries).value| ==> IsBlank(KeptMessages(entries).value[j])
  {
    var kept := KeptMessages(entries).value;
    StripEmptyIffBlank(Join(kept, "\n"));
    assert IsSpace('\n');
    JoinBlank(kept, "\n");
  }

  /**
   * The synthesis prompt's fixed text, indentation included. `PromptIntro` is
   * written as a concatenation of short pieces so that the verifier can see it
   * holds no line break.
   */
  const PromptHead: string := "\n        Voici trois réponses médicales pertinentes :\n        "
  const PromptTail: string := ", en synthétisant ces informations.\n        "
  const PromptIntro: string := "        " + "Reformule" + " une" + " réponse" + " unique" + " et" + " cohérente" + " en "

  lemma PromptIntroOneLine()
    ensures '\n' !in PromptIntro
  {
    assert '\n' !in "        " && '\n' !in "Reformule" && '\n' !in " une" && '\n' !in " réponse";
    assert '\n' !in " unique" && '\n' !in " et" && '\n' !in " cohérente" && '\n' !in " en ";
  }

  /** The synthesis prompt built from the concatenated answers and the requested language. */
  function Prompt(concatenated: string, language: string): (r: string)
    ensures |r| == |PromptHead| + |concatenated| + 2 + |PromptIntro| + |language| + |PromptTail|
    ensures r[|PromptHead|..|PromptHead| + |concatenated|] == concatenated
    ensures r[|r| - |PromptTail| - |language|..|r| - |PromptTail|] == language
  {
    Fill(PromptHead, PromptIntro, PromptTail, concatenated, language)
  }

  /** A two-slot template: `head`, first slot, a blank line, `intro`, second slot, `tail`. */
  function Fill(head: string, intro: string, tail: string, first: string, second: string): string {
    head + first + "\n\n" + intro + second + tail
  }

  /** Recovers the concatenated answers and the language from a prompt. */
  function ParsePrompt(p: string): Option<(string, string)> {
    Unfill(PromptHead, PromptIntro, PromptTail, p)
  }

  /** Reads the two slots back out of a filled template. */
  function Unfill(head: string, intro: string, tail: string, p: string): Option<(string, string)> {
    if |p| >= |head| + |tail| && StartsWith(p, head) && p[|p| - |tail|..] == tail
    then SplitAtLastBreak(p[|head|..|p| - |tail|], intro)
    else None
  }

  /**
   * Splits `body` into the text before and after `"\n\n" + intro`, taking the
   * occurrence whose second line break is the last one in `body`.
   */
  function SplitAtLastBreak(body: string, intro: string): Option<(string, string)> {
    match LastIndexOf(body, '\n')
    case None => None
    case Some(k) =>
      if 1 <= k && k + 1 + |intro| <= |body| && body[k - 1..k + 1 + |intro|] == "\n\n" + intro
      then Some((body[..k - 1], body[k + 1 + |intro|..]))
      else None
  }

  lemma SplitAtLastBreakRoundTrip(before: string, intro: string, after: string)
    requires '\n' !in intro && '\n' !in after
    ensures SplitAtLastBreak(before + "\n\n" + intro + after, intro) == Some((before, after))
  {
    var body := before + "\n\n" + intro + after;
    var n := |before| + 1;
    assert body[n] == '\n';
    forall j | n < j < |body| ensures body[j] != '\n' {
      if j < n + 1 + |intro| {
        assert body[j] == intro[j - n - 1];
      } else {
        assert body[j] == after[j - n - 1 - |intro|];
      }
    }
    assert LastIndexOf(body, '\n') == Some(n);
    assert body[n - 1..n + 1 + |intro|] == "\n\n" + intro;
    assert body[..n - 1] == before;
    assert body[n + 1 + |intro|..] == after;
  }

  lemma SplitAtLastBreakSound(body: string, intro: string)
    requires SplitAtLastBreak(body, intro).Some?
    ensures SplitAtLastBreak(body, intro).value.0 + "\n\n" + intro + SplitAtLastBreak(body, intro).value.1 == body
  {
    var k := LastIndexOf(body, '\n').value;
    var e := k + 1 + |intro|;
    var before, middle, after := body[..k - 1], body[k - 1..e], body[e..];
    assert middle == "\n\n" + intro;
    assert SplitAtLastBreak(body, intro).value == (before, after);
    assert body == before + middle + after;
  }

  lemma UnfillFill(head: string, intro: string, tail: string, first: string, second: string)
    requires '\n' !in intro && '\n' !in second
    ensures Unfill(head, intro, tail, Fill(head, intro, tail, first, second)) == Some((first, second))
  {
    var body := first + "\n\n" + intro + second;
    var p := Fill(head, intro, tail, first, second);
    assert p == head + body + tail;
    assert p[..|head|] == head;
    assert p[|p| - |tail|..] == tail;
    assert p[|head|..|p| - |tail|] == body;
    SplitAtLastBreakRoundTrip(first, intro, second);
  }

  lemma FillUnfill(head: string, intro: string, tail: string, p: string)
    requires Unfill(head, intro, tail, p).Some?
    ensures Fill(head, intro, tail, Unfill(head, intro, tail, p).value.0, Unfill(head, intro, tail, p).value.1) == p
  {
    var body := p[|head|..|p| - |tail|];
    assert p == p[..|head|] + body + p[|p| - |tail|..];
    SplitAtLastBreakSound(body, intro);
  }

  /** The prompt carries the concatenated answers and, when it is one line, the language. */
  lemma PromptRoundTrip(concatenated: string, language: string)
    requires '\n' !in language
    ensures ParsePrompt(Prompt(concatenated, language)) == Some((concatenated, language))
  {
    PromptIntroOneLine();
    UnfillFill(PromptHead, PromptIntro, PromptTail, concatenated, language);
  }

  /** Whatever parses is a prompt for what it parses to. */
  lemma ParsePromptSound(p: string)
    requires ParsePrompt(p).Some?
    ensures Prompt(ParsePrompt(p).value.0, ParsePrompt(p).value.1) == p
  {
    FillUnfill(PromptHead, PromptIntro, PromptTail, p);
  }

  /** What the endpoint does once retrieval is done, before any model call. */
  datatype Step =
    | ReturnNoSource
    | ReturnFallback(answers: seq<Entry>)
    | Synthesize(answers: seq<Entry>, prompt: string)

  /** The decision part of `answer`, given the retrieved documents. */
  function Decide(docs: seq<Doc>, language: string): (r: Result<Step, Error>)
    ensures r == Success(ReturnNoSource) <==> docs == []
    ensures r.Success? && !r.value.ReturnNoSource? ==> TopAnswers(docs) == Success(r.value.answers)
    ensures r == Failure(ScoreNotNumeric) <==> docs != [] && TopAnswers(docs).Failure?
    ensures r == Failure(MessageNotText) <==>
      docs != [] && TopAnswers(docs).Success? && KeptMessages(TopAnswers(docs).value).Failure?
    ensures r.Failure? ==> r.error != LlmFailed
    ensures r.Success? && r.value.Synthesize? ==>
      Concatenated(r.value.answers).Success? && r.value.prompt == Prompt(Concatenated(r.value.answers).value, language)
    ensures r.Success? && r.value.ReturnFallback? <==>
      && docs != []
      && TopAnswers(docs).Success?
      && KeptMessages(TopAnswers(docs).value).Success?
      && forall j :: 0 <= j < |KeptMessages(TopAnswers(docs).value).value| ==>
           IsBlank(KeptMessages(TopAnswers(docs).value).value[j])
  {
    if docs == [] then Success(ReturnNoSource)
    else
      match TopAnswers(docs)
      case Failure(e) => Failure(e)
      case Success(answers) =>
        match Concatenated(answers)
        case Failure(e) => Failure(e)
        case Success(concatenated) =>
          ConcatenatedBlank(answers);
          if Strip(concatenated) == [] then Success(ReturnFallback(answers))
          else Success(Synthesize(answers, Prompt(concatenated, language)))
  }

  /** The prompts `answer` sends to the model for these documents. */
  function LlmPrompts(docs: seq<Doc>, language: string): (r: seq<string>)
    ensures |r| <= 1
    ensures docs == [] ==> r == []
    ensures r != [] <==> Decide(docs, language).Success? && Decide(docs, language).value.Synthesize?
    ensures r != [] ==>
      && TopAnswers(docs).Success?
      && Concatenated(TopAnswers(docs).value).Success?
      && r == [Prompt(Concatenated(TopAnswers(docs).value).value, language)]
  {
    match Decide(docs, language)
    case Success(Synthesize(_, prompt)) => [prompt]
    case _ => []
  }

  /** `answer(user_input)` after retrieval returned `docs`. */
  function Answer(docs: seq<Doc>, language: string, temperature: real, llm: Llm): (r: Result<Response, Error>)
    ensures r == Success(NoSource) <==> docs == []
    ensures r.Success? && r.value.Answered? ==>
      TopAnswers(docs) == Success(r.value.answers) && |r.value.answers| == Min(MaxAnswers, |docs|)
    ensures r.Success? && r.value.Answered? ==>
      || (LlmPrompts(docs, language) == [] && r.value.generatedResponse == FallbackResponse)
      || (|LlmPrompts(docs, language)| == 1
          && llm(temperature, LlmPrompts(docs, language)[0]) == Some(r.value.generatedResponse))
    ensures r == Failure(ScoreNotNumeric) <==> docs != [] && TopAnswers(docs).Failure?
    ensures r == Failure(MessageNotText) <==>
      docs != [] && TopAnswers(docs).Success? && KeptMessages(TopAnswers(docs).value).Failure?
    ensures r == Failure(LlmFailed) <==>
      |LlmPrompts(docs, language)| == 1 && llm(temperature, LlmPrompts(docs, language)[0]) == None
    ensures |LlmPrompts(docs, language)| == 1 && llm(temperature, LlmPrompts(docs, language)[0]).Some? ==>
      r == Success(Answered(TopAnswers(docs).value, llm(temperature, LlmPrompts(docs, language)[0]).value))
    ensures docs != [] && TopAnswers(docs).Success? && KeptMessages(TopAnswers(docs).value).Success?
            && LlmPrompts(docs, language) == [] ==>
      r == Success(Answered(TopAnswers(docs).value, FallbackResponse))
  {
    match Decide(docs, language)
    case Failure(e) => Failure(e)
    case Success(ReturnNoSource) => Success(NoSource)
    case Success(ReturnFallback(answers)) => Success(Answered(answers, FallbackResponse))
    case Success(Synthesize(answers, prompt)) =>
      match llm(temperature, prompt)
      case None => Failure(LlmFailed)
      case Some(text) => Success(Answered(answers, text))
  }

  /**
   * The model is consulted at most once, and only on the prompt `LlmPrompts`
   * names: two models that agree there give the same response.
   */
  lemma AnswerDependsOnlyOnPrompt(docs: seq<Doc>, language: string, temperature: real, llm1: Llm, llm2: Llm)
    requires forall p :: p in LlmPrompts(docs, language) ==> llm1(temperature, p) == llm2(temperature, p)
    ensures Answer(docs, language, temperature, llm1) == Answer(docs, language, temperature, llm2)
  {
    match Decide(docs, language)
    case Success(Synthesize(_, prompt)) =>
      assert prompt in LlmPrompts(docs, language);
    case _ =>
  }

  /** When every answer in the top three is the placeholder, the fixed fallback is returned without a model call. */
  lemma AllPlaceholdersFallBack(docs: seq<Doc>, language: string, temperature: real, llm: Llm)
    requires docs != []
    requires forall i :: 0 <= i < Min(MaxAnswers, |docs|) ==>
      AttachedScore(docs[i]).Some? && Get(docs[i].metadata, AnswerKey, Text(MissingAnswer)) == Text(MissingAnswer)
    ensures LlmPrompts(docs, language) == []
    ensures Answer(docs, language, temperature, llm) == Success(Answered(TopAnswers(docs).value, FallbackResponse))
  {
    var answers := TopAnswers(docs).value;
    assert forall i :: 0 <= i < |answers| ==> answers[i].message == Text(MissingAnswer);
    PlaceholdersKeepNothing(answers);
    assert Strip([]) == [];
    assert Decide(docs, language) == Success(ReturnFallback(answers));
  }

  /** Documents out of retrieval always carry a numeric score, so their projection never raises. */
  lemma RetrievedAnswersProject(hits: seq<Hit>, threshold: real)
    ensures TopAnswers(GetRelevantDocuments(hits, threshold)).Success?
  {
  }

  /** The projected retrieved answers are bounded, meet the threshold, and are ranked. */
  lemma RetrievedAnswersRanked(hits: seq<Hit>, threshold: real)
    ensures TopAnswers(GetRelevantDocuments(hits, threshold)).Success?
    ensures var answers := TopAnswers(GetRelevantDocuments(hits, threshold)).value;
      && |answers| <= Min(MaxAnswers, |hits|)
      && (forall i :: 0 <= i < |answers| ==> answers[i].similarityScore >= threshold)
      && (forall i, j :: 0 <= i < j < |answers| ==> answers[i].similarityScore >= answers[j].similarityScore)
  {
    var docs := GetRelevantDocuments(hits, threshold);
    var answers := TopAnswers(docs).value;
    forall i | 0 <= i < |answers| ensures answers[i].similarityScore == AttachedScore(docs[i]).value {
      assert Project(docs[i]) == Success(answers[i]);
    }
  }

  /** `answer` on a request whose question made the store return `hits`. */
  function HandleAnswer(req: Request, hits: seq<Hit>, llm: Llm): (r: Result<Response, Error>)
    ensures r == Success(NoSource) <==> forall i :: 0 <= i < |hits| ==> hits[i].score < req.similarityThreshold
    ensures r != Failure(ScoreNotNumeric)
    ensures r.Success? && r.value.Answered? ==>
      r.value.answers == TopAnswers(GetRelevantDocuments(hits, req.similarityThreshold)).value
    ensures var docs := GetRelevantDocuments(hits, req.similarityThreshold);
      r == Failure(MessageNotText) <==> TopAnswers(docs).Success? && KeptMessages(TopAnswers(docs).value).Failure?
    ensures var prompts := LlmPrompts(GetRelevantDocuments(hits, req.similarityThreshold), req.language);
      r == Failure(LlmFailed) <==> |prompts| == 1 && llm(req.temperature, prompts[0]) == None
    ensures var prompts := LlmPrompts(GetRelevantDocuments(hits, req.similarityThreshold), req.language);
      |prompts| == 1 && llm(req.temperature, prompts[0]).Some? ==>
        r.Success? && r.value.Answered? && r.value.generatedResponse == llm(req.temperature, prompts[0]).value
    ensures var docs := GetRelevantDocuments(hits, req.similarityThreshold);
      docs != [] && TopAnswers(docs).Success? && KeptMessages(TopAnswers(docs).value).Success?
      && LlmPrompts(docs, req.language) == [] ==>
        r == Success(Answered(TopAnswers(docs).value, FallbackResponse))
  {
    var docs := GetRelevantDocuments(hits, req.similarityThreshold);
    RetrievedAnswersProject(hits, req.similarityThreshold);
    Answer(docs, req.language, req.temperature, llm)
  }

  /** The answers of a response are bounded, meet the request's threshold, and are ranked. */
  lemma HandleAnswerRanked(req: Request, hits: seq<Hit>, llm: Llm)
    ensures var r := HandleAnswer(req, hits, llm);
      r.Success? && r.value.Answered? ==>
        && |r.value.answers| <= Min(MaxAnswers, |hits|)
        && (forall i :: 0 <= i < |r.value.answers| ==> r.value.answers[i].similarityScore >= req.similarityThreshold)
        && (forall i, j :: 0 <= i < j < |r.value.answers| ==>
              r.value.answers[i].similarityScore >= r.value.answers[j].similarityScore)
  {
    RetrievedAnswersRanked(hits, req.similarityThreshold);
  }
}
