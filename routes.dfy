/**
 * The `/ask` endpoint: validate the question, answer it through the retrieval pipeline and return
 * the answer with up to three sources for the user interface.
 */
module Routes {
  import opened Wrappers
  import opened PyStr
  import opened RagService

  /** One source shown with an answer. */
  datatype Source = Source(title: string, url: string)

  /** The response body: exactly the keys `answer` and `sources`. */
  datatype AskResponse = AskResponse(answer: string, sources: seq<Source>)

  datatype HttpError = HttpError(status: nat, detail: string)

  const QueryRequired: HttpError := HttpError(400, "Query text is required.")

  /** What the web framework answers when the handler raises an unexpected exception. */
  const InternalError: HttpError := HttpError(500, "Internal Server Error")

  /** How many sources are shown at most. */
  const MaxSources: nat := 3

  /** `not req.text or not req.text.strip()`: the question is empty or whitespace only. */
  predicate BlankQuestion(text: string): (b: bool)
    ensures b <==> AllSpace(text)
  {
    BlankIffSpace(text);
    Strip(text) == ""
  }

  /** The source shown for a match: its title or "Untitled", and its source or "#". Unlike the
      context block there is no fallback from the title to the source. */
  function SourceOf(m: Match): (s: Source)
    ensures Truthy(MetaOf(m).title) ==> s.title == MetaOf(m).title.value
    ensures !Truthy(MetaOf(m).title) ==> s.title == "Untitled"
    ensures Truthy(MetaOf(m).source) ==> s.url == MetaOf(m).source.value
    ensures !Truthy(MetaOf(m).source) ==> s.url == "#"
  {
    var md := MetaOf(m);
    Source(OrElse(md.title, "Untitled"), OrElse(md.source, "#"))
  }

  /** How many of `n` matches are shown. */
  function Shown(n: nat): nat {
    if n < MaxSources then n else MaxSources
  }

  /** The sources of `matches[:3]`: source `i` comes from match `i`. */
  function Sources(matches: seq<Match>): (ss: seq<Source>)
    ensures |ss| <= MaxSources && |ss| <= |matches|
    ensures |ss| == MaxSources || |ss| == |matches|
    ensures forall i :: 0 <= i < |ss| ==> ss[i] == SourceOf(matches[i])
  {
    seq(Shown(|matches|), i requires 0 <= i < Shown(|matches|) => SourceOf(matches[i]))
  }

  /** The loop of `ask` that builds the source list. */
  method ExtractSources(matches: seq<Match>) returns (sources: seq<Source>)
    ensures sources == Sources(matches)
  {
    var top := matches[..Shown(|matches|)];
    sources := [];
    for i := 0 to |top|
      invariant |sources| == i
      invariant forall j :: 0 <= j < i ==> sources[j] == SourceOf(top[j])
    {
      var md := if top[i].metadata.Some? then top[i].metadata.value else Meta(None, None, None);
      sources := sources + [Source(OrElse(md.title, "Untitled"), OrElse(md.source, "#"))];
    }
  }

  /** `ask(req)` as the endpoint evidently intends it: a blank question is rejected, any other is
      answered with the matches its answer was built from. */
  function Ask(text: string, settings: Settings, clients: Clients): (r: Result<AskResponse, HttpError>)
    ensures BlankQuestion(text) <==> r == Failure(QueryRequired)
    ensures !BlankQuestion(text) ==>
      var (answer, matches) := RagAnswer(text, settings, clients);
      r == Success(AskResponse(answer, Sources(matches)))
  {
    if BlankQuestion(text) then Failure(QueryRequired)
    else
      var (answer, matches) := RagAnswer(text, settings, clients);
      Success(AskResponse(answer, Sources(matches)))
  }

  /** `ask(req)` as written: `rag_answer` returns a pair, and subscripting that pair with
      "matches" raises a `TypeError`, which the framework turns into a 500 response. */
  function AskAsWritten(text: string, settings: Settings, clients: Clients): (r: Result<AskResponse, HttpError>)
    ensures BlankQuestion(text) ==> r == Failure(QueryRequired)
    ensures !BlankQuestion(text) ==> r == Failure(InternalError)
  {
    if BlankQuestion(text) then Failure(QueryRequired)
    else
      var result := RagAnswer(text, settings, clients);
      Failure(InternalError)
  }

  /** A blank question is rejected before any service is asked: the outcome is the same whatever
      the services would answer. */
  lemma BlankAsksNoService(text: string, settings: Settings, c1: Clients, c2: Clients)
    requires BlankQuestion(text)
    ensures Ask(text, settings, c1) == Ask(text, settings, c2) == Failure(QueryRequired)
  {
  }

  /** A real question: the endpoint as written fails with a 500 where the intended one answers. */
  lemma AsWrittenFailsOnQuestion(settings: Settings, clients: Clients)
    ensures AskAsWritten("What is RAG?", settings, clients) == Failure(InternalError)
    ensures Ask("What is RAG?", settings, clients).Success?
  {
    assert !IsSpace("What is RAG?"[0]);
  }

  /** A match with a source but no title is shown as "Untitled" with its source as link, while the
      context block titles it with its source. */
  lemma UntitledSourceDiffers(id: string, score: Option<real>, src: string, text: Option<string>)
    requires src != ""
    ensures var m := Match(id, score, Some(Meta(None, Some(src), text)));
      && SourceOf(m) == Source("Untitled", src)
      && TitleOf(MetaOf(m)) == src
  {
  }
}
