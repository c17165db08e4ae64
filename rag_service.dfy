/**
 * Retrieval post-processing and prompt building of the question-answering path. The embedding
 * model, the vector-index query and the chat model are hosted services; they are the three
 * functions of `Clients`.
 */
module RagService {
  import opened Wrappers
  import opened PyStr
  import opened Seqs

  /** The metadata stored with a vector; each field may be absent. */
  datatype Meta = Meta(title: Option<string>, source: Option<string>, text: Option<string>)

  /** One match of an index query. `score` is absent when the match has no "score" key;
      `metadata` is absent when the key is missing, `None` or an empty dictionary. */
  datatype Match = Match(id: string, score: Option<real>, metadata: Option<Meta>)

  /** `RETRIEVAL_TOP_K` and `RETRIEVAL_MIN_SCORE`. */
  datatype Settings = Settings(topK: int, minScore: real)

  /** The values used when the environment sets neither. */
  const Defaults: Settings := Settings(5, 0.0)

  datatype Message = Message(role: string, content: string)

  type Embedding = seq<real>

  /** The hosted services: the query embedding, the index query (its "matches" field, absent or
      `None` as `None`) and the chat completion. */
  datatype Clients = Clients(
    embed: string -> Embedding,
    query: (Embedding, int) -> Option<seq<Match>>,
    complete: seq<Message> -> string)

  // ---------------------------------------------------------------------------------------------
  // retrieve

  /** `top_k or settings.TOP_K`: a missing `top_k` and 0 both fall back to the setting. */
  function EffectiveK(topK: Option<int>, settings: Settings): (k: int)
    ensures topK.Some? && topK.value != 0 ==> k == topK.value
    ensures topK.None? || topK.value == 0 ==> k == settings.topK
  {
    if topK.Some? && topK.value != 0 then topK.value else settings.topK
  }

  /** `float(m.get("score", 0))`. */
  function ScoreOf(m: Match): (r: real)
    ensures m.score.None? ==> r == 0.0
    ensures m.score.Some? ==> r == m.score.value
  {
    if m.score.Some? then m.score.value else 0.0
  }

  function MeetsScore(minScore: real): Match -> bool {
    m => ScoreOf(m) >= minScore
  }

  /** The score filter of `retrieve`: applied only when the minimum is positive. */
  function FilterByScore(matches: seq<Match>, minScore: real): (r: seq<Match>)
    ensures minScore <= 0.0 ==> r == matches
    ensures 0.0 < minScore ==> forall m :: m in r <==> m in matches && ScoreOf(m) >= minScore
  {
    if minScore > 0.0 then Filter(matches, MeetsScore(minScore)) else matches
  }

  /** `res.get("matches", []) or []`. */
  function MatchesOf(res: Option<seq<Match>>): (r: seq<Match>)
    ensures res.None? ==> r == []
    ensures res.Some? ==> r == res.value
  {
    if res.Some? then res.value else []
  }

  /** `retrieve(query, top_k)`: the index is queried with the query's embedding and the effective
      k, and its matches are filtered by score. */
  function Retrieve(query: string, topK: Option<int>, settings: Settings, clients: Clients): (r: seq<Match>)
    ensures var found := MatchesOf(clients.query(clients.embed(query), EffectiveK(topK, settings)));
      && IsSubseq(r, found)
      && (settings.minScore <= 0.0 ==> r == found)
      && (forall m :: m in r ==> settings.minScore <= 0.0 || ScoreOf(m) >= settings.minScore)
      && forall m :: m in found && ScoreOf(m) >= settings.minScore ==> m in r
  {
    var found := MatchesOf(clients.query(clients.embed(query), EffectiveK(topK, settings)));
    ScoreFilterKeepsOrder(found, settings.minScore);
    FilterByScore(found, settings.minScore)
  }

  /** The filter only deletes matches: the kept ones stay in the index's order. */
  lemma ScoreFilterKeepsOrder(matches: seq<Match>, minScore: real)
    ensures IsSubseq(FilterByScore(matches, minScore), matches)
  {
    if minScore > 0.0 {
      FilterIsSubseq(matches, MeetsScore(minScore));
    } else {
      SubseqRefl(matches);
    }
  }

  /** The result keeps each match as often as the index returned it when it meets the minimum,
      and not at all otherwise; with no positive minimum everything is kept. */
  lemma RetrieveCounts(query: string, topK: Option<int>, settings: Settings, clients: Clients, m: Match)
    ensures var found := MatchesOf(clients.query(clients.embed(query), EffectiveK(topK, settings)));
      multiset(Retrieve(query, topK, settings, clients))[m]
        == if settings.minScore <= 0.0 || ScoreOf(m) >= settings.minScore then multiset(found)[m] else 0
  {
    var found := MatchesOf(clients.query(clients.embed(query), EffectiveK(topK, settings)));
    if settings.minScore > 0.0 {
      FilterCount(found, MeetsScore(settings.minScore), m);
    }
  }

  /** With the default settings, `retrieve(query)` asks the index for 5 matches and returns all
      of them: the default minimum score filters nothing. */
  lemma DefaultsKeepAll(query: string, clients: Clients)
    ensures Retrieve(query, None, Defaults, clients) == MatchesOf(clients.query(clients.embed(query), 5))
  {
  }

  /** A query whose index response has no matches retrieves nothing. */
  lemma NoMatchesRetrievesNothing(query: string, topK: Option<int>, settings: Settings, clients: Clients)
    requires clients.query(clients.embed(query), EffectiveK(topK, settings)).None?
    ensures Retrieve(query, topK, settings, clients) == []
  {
  }

  /** Three matches scored 0.91, 0.85 and 0.40 with a minimum of 0.5: the first two are kept, in
      that order. */
  lemma ScoreThreshold(a: Meta, b: Meta, c: Meta)
    ensures var ms := [Match("a", Some(0.91), Some(a)), Match("b", Some(0.85), Some(b)),
                       Match("c", Some(0.40), Some(c))];
      FilterByScore(ms, 0.5) == ms[..2]
  {
    var ms := [Match("a", Some(0.91), Some(a)), Match("b", Some(0.85), Some(b)),
               Match("c", Some(0.40), Some(c))];
    var p := MeetsScore(0.5);
    assert Filter(ms[2..], p) == [] by {
      assert ms[2..][1..] == [];
    }
    assert Filter(ms[1..], p) == [ms[1]] + Filter(ms[2..], p);
    assert Filter(ms, p) == [ms[0]] + Filter(ms[1..], p);
  }

  // ---------------------------------------------------------------------------------------------
  // _build_context

  /** Python's `a or b` for an optional string: `None` and "" are both falsy. */
  predicate Truthy(o: Option<string>) {
    o.Some? && o.value != ""
  }

  function OrElse(o: Option<string>, fallback: string): (r: string)
    ensures Truthy(o) ==> r == o.value
    ensures !Truthy(o) ==> r == fallback
  {
    if Truthy(o) then o.value else fallback
  }

  /** `m.get("metadata", {}) or {}`. */
  function MetaOf(m: Match): (md: Meta)
    ensures m.metadata.None? ==> md == Meta(None, None, None)
    ensures m.metadata.Some? ==> md == m.metadata.value
  {
    if m.metadata.Some? then m.metadata.value else Meta(None, None, None)
  }

  /** The title shown for a match: its title, else its source, else "Untitled"; never empty. */
  function TitleOf(md: Meta): (t: string)
    ensures t != ""
    ensures Truthy(md.title) ==> t == md.title.value
    ensures !Truthy(md.title) && Truthy(md.source) ==> t == md.source.value
    ensures !Truthy(md.title) && !Truthy(md.source) ==> t == "Untitled"
  {
    OrElse(md.title, OrElse(md.source, "Untitled"))
  }

  function TextOf(md: Meta): string {
    OrElse(md.text, "")
  }

  /** The context block of one match. */
  function Part(m: Match): (p: string)
    ensures var t := TitleOf(MetaOf(m));
      && |p| == |t| + 3 + |TextOf(MetaOf(m))|
      && p[..|t| + 3] == "[" + t + "]\n"
      && p[|t| + 3..] == TextOf(MetaOf(m))
  {
    var t := TitleOf(MetaOf(m));
    assert ("[" + t + "]\n" + TextOf(MetaOf(m)))[..|t| + 3] == "[" + t + "]\n";
    "[" + t + "]\n" + TextOf(MetaOf(m))
  }

  const Divider: string := "\n\n---\n\n"

  function Parts(matches: seq<Match>): (ps: seq<string>)
    ensures |ps| == |matches| && forall i :: 0 <= i < |matches| ==> ps[i] == Part(matches[i])
  {
    seq(|matches|, i requires 0 <= i < |matches| => Part(matches[i]))
  }

  /** The context string: one part per match, in match order, separated by the divider. */
  function Context(matches: seq<Match>): (r: string)
    ensures matches == [] ==> r == ""
    ensures |matches| == 1 ==> r == Part(matches[0])
  {
    Join(Divider, Parts(matches))
  }

  lemma PartsSnoc(matches: seq<Match>, i: nat)
    requires i < |matches|
    ensures Parts(matches[..i + 1]) == Parts(matches[..i]) + [Part(matches[i])]
  {
  }

  /** `_build_context(matches)`. */
  method BuildContext(matches: seq<Match>) returns (context: string)
    ensures context == Context(matches)
  {
    var parts: seq<string> := [];
    for i := 0 to |matches|
      invariant parts == Parts(matches[..i])
    {
      PartsSnoc(matches, i);
      var md := if matches[i].metadata.Some? then matches[i].metadata.value else Meta(None, None, None);
      var title := OrElse(md.title, OrElse(md.source, "Untitled"));
      var text := OrElse(md.text, "");
      parts := parts + ["[" + title + "]\n" + text];
    }
    TakeAll(matches);
    context := Join(Divider, parts);
  }

  /** The context of the first `i + 1` matches is that of the first `i`, a divider and the part of
      match `i`, and it is a prefix of the whole context: the parts appear in match order. */
  lemma {:induction false} ContextInOrder(matches: seq<Match>, i: nat)
    requires i < |matches|
    ensures Context(matches[..i + 1]) == (if i == 0 then "" else Context(matches[..i]) + Divider) + Part(matches[i])
    ensures Context(matches[..i + 1]) <= Context(matches)
    decreases |matches| - i
  {
    PartsSnoc(matches, i);
    if i == 0 {
      assert Context(matches[..1]) == Part(matches[0]);
    } else {
      JoinSnoc(Divider, Parts(matches[..i]), Part(matches[i]));
    }
    if i + 1 < |matches| {
      ContextInOrder(matches, i + 1);
      assert Context(matches[..i + 2]) == Context(matches[..i + 1]) + Divider + Part(matches[i + 1]);
    } else {
      assert matches[..i + 1] == matches;
    }
  }

  // ---------------------------------------------------------------------------------------------
  // answer_from_context

  const System: string :=
    "You are a precise assistant for Haseeb\U{2019}s RAG system. "
    + "Answer strictly from the provided context. If the answer is not in context, say "
    + "\"I don't have enough information in the knowledge base to answer that.\" "
    + "Cite brief file titles inline in parentheses when helpful."

  const ContextHead: string := "Context:\n"
  const QuestionHead: string := "\n\nQuestion: "
  const Instruction: string := "\nAnswer clearly and concisely."

  function UserContent(context: string, query: string): (u: string)
    ensures ContextHead <= u
    ensures |u| == |ContextHead| + |context| + |QuestionHead| + |query| + |Instruction|
    ensures u[|u| - |Instruction|..] == Instruction
  {
    ContextHead + context + QuestionHead + query + Instruction
  }

  /** The two messages sent: the fixed system message, then the user message. */
  function Messages(query: string, matches: seq<Match>): (ms: seq<Message>)
    ensures |ms| == 2 && ms[0] == Message("system", System) && ms[1].role == "user"
    ensures ms[1] == Message("user", UserContent(Context(matches), query))
  {
    [Message("system", System), Message("user", UserContent(Context(matches), query))]
  }

  /** The user message splits back into its pieces: the context right after the head, the query
      right before the closing instruction. */
  lemma UserContentParts(context: string, query: string)
    ensures var u, c := UserContent(context, query), |ContextHead| + |context|;
      && |u| == |ContextHead| + |context| + |QuestionHead| + |query| + |Instruction|
      && u[..|ContextHead|] == ContextHead
      && u[|ContextHead|..c] == context
      && u[c..c + |QuestionHead|] == QuestionHead
      && u[c + |QuestionHead|..|u| - |Instruction|] == query
      && u[|u| - |Instruction|..] == Instruction
  {
    var u, c := UserContent(context, query), |ContextHead| + |context|;
    assert u == ContextHead + context + QuestionHead + query + Instruction;
    assert u[..|ContextHead|] == ContextHead;
    assert u[|ContextHead|..c] == context;
    assert u[c..c + |QuestionHead|] == QuestionHead;
    assert u[c + |QuestionHead|..|u| - |Instruction|] == query;
    assert u[|u| - |Instruction|..] == Instruction;
  }

  /** For one context, different questions give different user messages. */
  lemma UserContentDeterminesQuery(context: string, q1: string, q2: string)
    requires UserContent(context, q1) == UserContent(context, q2)
    ensures q1 == q2
  {
    UserContentParts(context, q1);
    UserContentParts(context, q2);
  }

  /** `answer_from_context(query, matches)`: the stripped reply to the two messages. */
  function AnswerFromContext(query: string, matches: seq<Match>, clients: Clients): (a: string)
    ensures a == [] || (!IsSpace(a[0]) && !IsSpace(a[|a| - 1]))
    ensures a == Strip(clients.complete(Messages(query, matches)))
  {
    Strip(clients.complete(Messages(query, matches)))
  }

  /** The answer is already stripped: stripping it again changes nothing. */
  lemma AnswerIsStripped(query: string, matches: seq<Match>, clients: Clients)
    ensures Strip(AnswerFromContext(query, matches, clients)) == AnswerFromContext(query, matches, clients)
  {
    StripIdempotent(clients.complete(Messages(query, matches)));
  }

  /** The completion is asked about exactly the retrieved context and the question: both can be
      read back from the user message at fixed places, and matches with the same context yield
      the same answer. */
  lemma AnswerUsesContextAndQuestion(query: string, matches: seq<Match>, others: seq<Match>, clients: Clients)
    ensures var u, c := Messages(query, matches)[1].content, |ContextHead| + |Context(matches)|;
      && u[|ContextHead|..c] == Context(matches)
      && u[c + |QuestionHead|..|u| - |Instruction|] == query
    ensures Context(others) == Context(matches) ==>
      AnswerFromContext(query, others, clients) == AnswerFromContext(query, matches, clients)
  {
    UserContentParts(Context(matches), query);
  }

  /** `rag_answer(query)`: the answer and exactly the matches it was built from. */
  function RagAnswer(query: string, settings: Settings, clients: Clients): (r: (string, seq<Match>))
    ensures r.1 == Retrieve(query, None, settings, clients)
    ensures r.0 == AnswerFromContext(query, r.1, clients)
  {
    var matches := Retrieve(query, None, settings, clients);
    (AnswerFromContext(query, matches, clients), matches)
  }
}
