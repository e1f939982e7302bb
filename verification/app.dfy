/**
 The question-answering page: the prompt template, and one press of the
 "Search & Answer" button. The vector store and the text generator are not
 modelled; the store's answer to the query is an input, the generator is an
 arbitrary function from prompt to text, and the calls made to either are
 returned as a log next to what the page shows.
 */
module App {
  import opened Text
  import opened Ingest

  datatype Option<T> = None | Some(value: T)

  /** The bounds and default of the "Top K" slider. */
  const MinTopK: int := 2
  const MaxTopK: int := 10
  type TopK = k: int | MinTopK <= k <= MaxTopK witness 4
  const DefaultTopK: TopK := 4

  /** The generation budget passed as `max_new_tokens`. */
  const MaxNewTokens: int := 256

  /** The pieces of the prompt template, in order around the two slots. */
  const Instruction: string :=
    "Answer the question using ONLY the context below. "
    + "If the answer is not in the context, say you don't know.\n\n"
  const ContextLabel: string := "Context:\n"
  const QuestionLabel: string := "\n\nQuestion: "
  const AnswerCue: string := "\nAnswer:"

  /** The warning shown when the store returns no documents. */
  const NoResultsWarning: string :=
    "No results. Did you run `python ingest.py` after adding files to docs/?"

  /** `make_prompt(context, question)`: the template with the two slots
      filled in; it adds a fixed number of characters around them. */
  function MakePrompt(context: string, question: string): (prompt: string)
    ensures |prompt| == |Instruction| + |ContextLabel| + |context| + |QuestionLabel| + |question| + |AnswerCue|
  {
    Instruction + ContextLabel + context + QuestionLabel + question + AnswerCue
  }

  /** The prompt starts with the fixed instruction and ends with the answer
      cue; in between, the context and then the question stand verbatim,
      separated by the question label. */
  lemma {:induction false} PromptLayout(context: string, question: string)
    ensures var prompt := MakePrompt(context, question);
      && prompt[..|Instruction|] == Instruction
      && prompt[|prompt| - |AnswerCue|..] == AnswerCue
      && prompt[ContextStart() .. ContextStart() + |context|] == context
      && prompt[ContextStart() + |context| .. ContextStart() + |context| + |QuestionLabel|] == QuestionLabel
      && prompt[ContextStart() + |context| + |QuestionLabel| .. |prompt| - |AnswerCue|] == question
  {
    var head := Instruction + ContextLabel;
    var prompt := MakePrompt(context, question);
    Slots(head, context, QuestionLabel, question, AnswerCue);
    assert prompt[..|Instruction|] == prompt[..|head|][..|Instruction|];
  }

  /** The five parts of a concatenation can be read back by position. */
  lemma {:induction false} Slots<T>(p: seq<T>, x: seq<T>, m: seq<T>, y: seq<T>, a: seq<T>)
    ensures var s := p + x + m + y + a;
      && s[..|p|] == p
      && s[|p|..|p| + |x|] == x
      && s[|p| + |x|..|p| + |x| + |m|] == m
      && s[|p| + |x| + |m|..|s| - |a|] == y
      && s[|s| - |a|..] == a
  {
  }

  /** Where the context slot begins in every prompt. */
  function ContextStart(): nat {
    |Instruction| + |ContextLabel|
  }

  /** Reading the two slots back out of a prompt, given how long the context
      was. */
  function PromptParts(prompt: string, contextLength: nat): (parts: Option<(string, string)>)
  {
    var q := ContextStart() + contextLength + |QuestionLabel|;
    if q + |AnswerCue| <= |prompt| then
      Some((prompt[ContextStart()..ContextStart() + contextLength], prompt[q..|prompt| - |AnswerCue|]))
    else
      None
  }

  /** The template loses nothing: knowing the context's length, both slots
      come back out unchanged. */
  lemma {:induction false} PromptRoundTrip(context: string, question: string)
    ensures PromptParts(MakePrompt(context, question), |context|) == Some((context, question))
  {
    PromptLayout(context, question);
  }

  /** Without that length the prompt is ambiguous: the question label is not
      escaped, so a context that contains it reads like a different
      context/question pair. */
  lemma {:induction false} PromptAmbiguous()
    ensures MakePrompt("a" + QuestionLabel + "b", "c") == MakePrompt("a", "b" + QuestionLabel + "c")
  {
  }

  /** `"\n\n".join(docs)`: the retrieved texts in ranked order. */
  function Context(docs: seq<string>): (context: string)
    ensures |docs| == 1 ==> context == docs[0]
  {
    Join("\n\n", docs)
  }

  /** `m.get("source", "unknown")`. */
  function SourceOf(m: Meta): string {
    if "source" in m then m["source"] else "unknown"
  }

  /** The sources list: one line per retrieved metadata, in order, with
      duplicates kept. */
  function Sources(metas: seq<Meta>): (sources: seq<string>)
    ensures |sources| == |metas|
    ensures forall i :: 0 <= i < |metas| ==>
      sources[i] == (if "source" in metas[i] then metas[i]["source"] else "unknown")
  {
    if |metas| == 0 then [] else [SourceOf(metas[0])] + Sources(metas[1..])
  }

  /** The part of the store's reply the page reads: the `documents` and
      `metadatas` entries, each a list with one inner list per query text,
      or absent. */
  datatype QueryResult = QueryResult(documents: Option<seq<seq<string>>>, metadatas: Option<seq<seq<Meta>>>)

  /** `res.get(key, [[]])[0]`: a missing key reads as one empty list; a
      present but empty outer list raises `IndexError`, shown as `None`. */
  function FirstList<T>(entry: Option<seq<seq<T>>>): (first: Option<seq<T>>)
    ensures entry.None? ==> first == Some([])
    ensures first.None? <==> entry == Some([])
    ensures entry.Some? && first.Some? ==> [first.value] == entry.value[..1]
  {
    match entry
    case None => Some([])
    case Some(lists) => if |lists| == 0 then None else Some(lists[0])
  }

  /** A call to one of the two collaborators. */
  datatype Call =
    | Retrieve(query: string, nResults: TopK)
    | Generate(prompt: string, maxNewTokens: int)

  /** What the page shows after one rerun. */
  datatype Reply =
    | Idle
    | NoResults(warning: string)
    | Answered(answer: string, sources: seq<string>)
    | IndexError

  datatype Turn = Turn(calls: seq<Call>, reply: Reply)

  /** One rerun of the page: `pressed` is the button's state, `query` the text
      box, `topK` the slider, `result` what the store returns for
      `(query, topK)`, and `generate` the text the generator produces for a
      prompt. */
  function Answer(pressed: bool, query: string, topK: TopK, result: QueryResult,
                  generate: string -> string): (turn: Turn)
    ensures turn.calls == [] <==> !pressed || Blank(query)
    ensures turn.reply.Idle? <==> !pressed || Blank(query)
    ensures turn.calls != [] ==> turn.calls[0] == Retrieve(query, topK)
    ensures turn.reply.NoResults? ==> turn.reply.warning == NoResultsWarning
    ensures |turn.calls| <= 2
    ensures |turn.calls| == 2 <==> turn.reply.Answered?
    ensures turn.reply.Answered? ==>
      && turn.calls[1].Generate?
      && turn.calls[1].maxNewTokens == MaxNewTokens
      && turn.reply.answer == generate(turn.calls[1].prompt)
  {
    StripEmptyIffBlank(query);
    if !pressed || Strip(query) == "" then
      Turn([], Idle)
    else
      var calls := [Retrieve(query, topK)];
      match (FirstList(result.documents), FirstList(result.metadatas))
      case (None, _) => Turn(calls, IndexError)
      case (Some(_), None) => Turn(calls, IndexError)
      case (Some(docs), Some(metas)) =>
        if |docs| == 0 then
          Turn(calls, NoResults(NoResultsWarning))
        else
          var prompt := MakePrompt(Context(docs), query);
          Turn(calls + [Generate(prompt, MaxNewTokens)], Answered(generate(prompt), Sources(metas)))
  }

  /** When the store returns documents, the generator is asked exactly once,
      with the prompt built from those documents in rank order and the
      question, and the sources list the returned metadata. */
  lemma {:induction false} AnsweredFromRetrieved(query: string, topK: TopK, docs: seq<string>, metas: seq<Meta>,
                                                generate: string -> string)
    requires !Blank(query) && |docs| > 0
    ensures Answer(true, query, topK, QueryResult(Some([docs]), Some([metas])), generate) ==
      Turn([Retrieve(query, topK), Generate(MakePrompt(Context(docs), query), MaxNewTokens)],
           Answered(generate(MakePrompt(Context(docs), query)), Sources(metas)))
  {
  }

  /** No documents, whether the store sent an empty list or left the key out:
      only the warning, and the generator is never called. */
  lemma {:induction false} EmptyRetrievalSkipsGenerator(query: string, topK: TopK, result: QueryResult,
                                                        generate: string -> string)
    requires !Blank(query)
    requires result.documents == None || result.documents == Some([[]])
    requires result.metadatas != Some([])
    ensures Answer(true, query, topK, result, generate) ==
      Turn([Retrieve(query, topK)], NoResults(NoResultsWarning))
  {
  }

  /** A pressed, non-blank query ends in `IndexError` exactly when the store
      sent `documents` or `metadatas` as an empty outer list; a missing key
      never raises. */
  lemma {:induction false} IndexErrorWhen(query: string, topK: TopK, result: QueryResult,
                                          generate: string -> string)
    requires !Blank(query)
    ensures Answer(true, query, topK, result, generate).reply.IndexError? <==>
      result.documents == Some([]) || result.metadatas == Some([])
  {
  }

  /** `s` is the source named by one of the documents' metadata. */
  ghost predicate NamedSource(metas: seq<Meta>, s: string) {
    exists d :: 0 <= d < |metas| && "source" in metas[d] && metas[d]["source"] == s
  }

  /** When every ingested document's metadata names its source, every source
      the page lists for metadata the store got from ingestion is the source
      of one of the ingested documents. */
  lemma {:induction false} SourcesAreIngested(texts: seq<string>, metas: seq<Meta>, retrieved: seq<Meta>)
    requires forall d :: 0 <= d < |metas| ==> "source" in metas[d]
    requires forall i :: 0 <= i < |retrieved| ==> Stored(Records(Documents(texts, metas), 0), retrieved[i])
    ensures forall i :: 0 <= i < |retrieved| ==> NamedSource(metas, Sources(retrieved)[i])
  {
    var docs := Documents(texts, metas);
    forall i | 0 <= i < |retrieved|
      ensures NamedSource(metas, Sources(retrieved)[i])
    {
      var d := StoredOwner(docs, retrieved[i]);
      assert retrieved[i] == metas[d];
    }
  }
}
