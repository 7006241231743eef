/**
 * The research graph: the researcher, writer and critique nodes, the routing
 * function that follows the critique, and the graph itself run as an explicit
 * loop.
 *
 * The language model, the JSON decoding of its replies and the web search are
 * foreign calls. They are parameters here: functions from their input (and,
 * for the calls that the loop may repeat, the index of the node invocation)
 * to whatever the call produced, so repeated calls may answer differently.
 */
module Graph {
  import opened Wrappers
  import opened AgentTypes
  import opened Decimal

  /** Above this revision number the critique approves without looking. */
  const RevisionCap := 1

  const Approve := "APPROVE"
  const ResearchMore := "RESEARCH_MORE"
  const Rewrite := "REWRITE"

  const Apology := "Sorry, I could not find any relevant information to write a report."
  const MaxRevisionsCritique := "Max revisions reached. Auto-approved."
  const NoDraftCritique := "No draft found."
  const NoCritiqueProvided := "No critique provided."

  /** The nodes of the graph; End is LangGraph's terminal. */
  datatype Node = Researcher | Writer | Critique | End

  /** One search hit; None marks a key the search provider left out. */
  datatype RawResult = RawResult(
    title: Option<string>,
    url: Option<string>,
    content: Option<string>,
    publishedDate: Option<string>,
    author: Option<string>)

  /** What one search call produced: it raised, returned something other than a list, or returned a list. */
  datatype SearchOutcome = Raised | NotAList | Results(results: seq<RawResult>)

  /** The two query-generation prompts: broad queries for the task, or targeted ones for a critique. */
  datatype QueryPrompt = Broad(task: string) | Targeted(task: string, critique: string)

  /** The critique reply once decoded: either key may be missing. */
  datatype Review = Review(critique: Option<string>, action: Option<string>)

  /**
   * The foreign calls. `decodeQueries` and `decodeReview` stand for fence
   * stripping plus `json.loads`. For `decodeQueries`, None means `json.loads`
   * raised; otherwise it gives the queries the loop then iterates over. For
   * `decodeReview`, None means `json.loads` raised or the reply is not an
   * object, so reading its keys raised.
   */
  datatype Oracles = Oracles(
    queryText: (nat, QueryPrompt) -> string,
    decodeQueries: string -> Option<seq<string>>,
    search: (nat, string) -> SearchOutcome,
    draftText: (nat, string, string) -> string,
    reviewText: (nat, string) -> string,
    decodeReview: string -> Option<Review>)

  function Min(a: int, b: int): int { if a <= b then a else b }

  function Max(a: int, b: int): int { if a >= b then a else b }

  // ---------------------------------------------------------------------------
  // Researcher
  // ---------------------------------------------------------------------------

  /** A truthy critique asks for targeted queries; a missing or empty one for broad queries. */
  function QueryPromptFor(s: AgentState): (p: QueryPrompt)
    ensures p.task == s.task
    ensures p.Targeted? <==> s.critique.Some? && s.critique.value != ""
    ensures p.Targeted? ==> p.critique == s.critique.value
  {
    if s.critique.Some? && s.critique.value != "" then Targeted(s.task, s.critique.value) else Broad(s.task)
  }

  /** The queries to run: the decoded list, or the task alone when decoding failed. */
  function Queries(decoded: Option<seq<string>>, task: string): (qs: seq<string>)
    ensures decoded.None? ==> qs == [task]
    ensures decoded.Some? ==> qs == decoded.value
  {
    match decoded
    case Some(list) => list
    case None => [task]
  }

  /** The year of a result: the first four characters of its date, or "n.d." without one. */
  function Year(publishedDate: Option<string>): (y: string)
    ensures publishedDate.None? || publishedDate == Some("") ==> y == "n.d."
    ensures publishedDate.Some? && publishedDate.value != "" ==>
      |y| <= 4 && y <= publishedDate.value && (|y| == 4 || y == publishedDate.value)
  {
    match publishedDate
    case None => "n.d."
    case Some(d) => if d == "" then "n.d." else d[..Min(4, |d|)]
  }

  /** One evidence record from one search hit, every missing key replaced by its default. */
  function Normalise(r: RawResult): (e: Evidence)
    ensures e.year == Year(r.publishedDate)
    ensures r.title.None? ==> e.title == "Unknown Title"
    ensures r.title.Some? ==> e.title == r.title.value
    ensures r.author.None? ==> e.author == "Unknown"
    ensures r.author.Some? ==> e.author == r.author.value
    ensures r.url.None? ==> e.source == "Unknown Source"
    ensures r.url.Some? ==> e.source == r.url.value
    ensures r.content.None? ==> e.content == ""
    ensures r.content.Some? ==> e.content == r.content.value
  {
    Evidence(
      r.title.GetOr("Unknown Title"),
      Year(r.publishedDate),
      r.author.GetOr("Unknown"),
      r.url.GetOr("Unknown Source"),
      r.content.GetOr(""))
  }

  function NormaliseAll(rs: seq<RawResult>): seq<Evidence> {
    seq(|rs|, i requires 0 <= i < |rs| => Normalise(rs[i]))
  }

  /** What one query contributes: one record per hit, in order; nothing when the call failed. */
  function FromOutcome(o: SearchOutcome): (es: seq<Evidence>)
    ensures !o.Results? ==> es == []
    ensures o.Results? ==> |es| == |o.results|
    ensures o.Results? ==> forall i :: 0 <= i < |es| ==> es[i] == Normalise(o.results[i])
  {
    match o
    case Results(rs) => NormaliseAll(rs)
    case _ => []
  }

  /** Everything a list of queries contributes, query by query. */
  function Collected(qs: seq<string>, search: string -> SearchOutcome): seq<Evidence>
    decreases |qs|
  {
    if qs == [] then [] else Collected(qs[..|qs| - 1], search) + FromOutcome(search(qs[|qs| - 1]))
  }

  /** The number of hits a search returned as a list. */
  function HitCount(o: SearchOutcome): nat {
    if o.Results? then |o.results| else 0
  }

  function TotalHits(qs: seq<string>, search: string -> SearchOutcome): nat
    decreases |qs|
  {
    if qs == [] then 0 else TotalHits(qs[..|qs| - 1], search) + HitCount(search(qs[|qs| - 1]))
  }

  /** The queries the researcher runs for a state. */
  function PlannedQueries(s: AgentState, queryText: QueryPrompt -> string, decodeQueries: string -> Option<seq<string>>): seq<string> {
    Queries(decodeQueries(queryText(QueryPromptFor(s))), s.task)
  }

  /**
   * The researcher: asks for queries, runs each, and returns the normalised
   * hits of every query whose search returned a list, in query order.
   */
  method ResearcherNode(
    state: AgentState,
    queryText: QueryPrompt -> string,
    decodeQueries: string -> Option<seq<string>>,
    search: string -> SearchOutcome)
    returns (u: Update)
    ensures u.content == Some(Collected(PlannedQueries(state, queryText, decodeQueries), search))
    ensures u.draft.None? && u.critique.None? && u.revisionNumber.None? && u.lastAction.None?
  {
    var response := queryText(QueryPromptFor(state));
    var queries := Queries(decodeQueries(response), state.task);
    var clean: seq<Evidence> := [];
    var i := 0;
    while i < |queries|
      invariant 0 <= i <= |queries|
      invariant clean == Collected(queries[..i], search)
    {
      var q := queries[i];
      var outcome := search(q);
      if outcome.Results? {
        var rs := outcome.results;
        var j := 0;
        while j < |rs|
          invariant 0 <= j <= |rs|
          invariant clean == Collected(queries[..i], search) + NormaliseAll(rs[..j])
        {
          assert NormaliseAll(rs[..j + 1]) == NormaliseAll(rs[..j]) + [Normalise(rs[j])];
          clean := clean + [Normalise(rs[j])];
          j := j + 1;
        }
        assert rs[..j] == rs;
      }
      assert queries[..i + 1][..i] == queries[..i];
      i := i + 1;
    }
    assert queries[..i] == queries;
    u := Update(Some(clean), None, None, None, None);
  }

  /** The hits of a list of queries are the hits of its two halves, one after the other. */
  lemma {:induction false} CollectedAppend(a: seq<string>, b: seq<string>, search: string -> SearchOutcome)
    ensures Collected(a + b, search) == Collected(a, search) + Collected(b, search)
    decreases |b|
  {
    if b == [] {
      assert a + b == a;
    } else {
      var b', last := b[..|b| - 1], FromOutcome(search(b[|b| - 1]));
      assert (a + b)[..|a + b| - 1] == a + b';
      assert (a + b)[|a + b| - 1] == b[|b| - 1];
      calc {
        Collected(a + b, search);
        Collected(a + b', search) + last;
        { CollectedAppend(a, b', search); }
        Collected(a, search) + Collected(b', search) + last;
        Collected(a, search) + (Collected(b', search) + last);
        Collected(a, search) + Collected(b, search);
      }
    }
  }

  /** A single query contributes exactly its own hits. */
  lemma CollectedOne(q: string, search: string -> SearchOutcome)
    ensures Collected([q], search) == FromOutcome(search(q))
  {
  }

  /** A query whose search raised or returned no list adds nothing, and the other queries are unaffected. */
  lemma {:induction false} FailedQueryIsIsolated(qs: seq<string>, k: nat, search: string -> SearchOutcome)
    requires k < |qs| && !search(qs[k]).Results?
    ensures Collected(qs, search) == Collected(qs[..k] + qs[k + 1..], search)
  {
    var before, failed, after := qs[..k], [qs[k]], qs[k + 1..];
    assert qs == before + (failed + after);
    CollectedOne(qs[k], search);
    calc {
      Collected(qs, search);
      { CollectedAppend(before, failed + after, search); }
      Collected(before, search) + Collected(failed + after, search);
      { CollectedAppend(failed, after, search); }
      Collected(before, search) + ([] + Collected(after, search));
      { assert [] + Collected(after, search) == Collected(after, search); }
      Collected(before, search) + Collected(after, search);
      { CollectedAppend(before, after, search); }
      Collected(before + after, search);
    }
  }

  /** The researcher returns exactly one record per hit across all its queries. */
  lemma {:induction false} CollectedCountsHits(qs: seq<string>, search: string -> SearchOutcome)
    ensures |Collected(qs, search)| == TotalHits(qs, search)
    decreases |qs|
  {
    if qs != [] {
      CollectedCountsHits(qs[..|qs| - 1], search);
    }
  }

  /** When the query list cannot be decoded, the task itself is the one query searched. */
  lemma DecodeFailureSearchesTask(s: AgentState, queryText: QueryPrompt -> string, decodeQueries: string -> Option<seq<string>>, search: string -> SearchOutcome)
    requires decodeQueries(queryText(QueryPromptFor(s))).None?
    ensures Collected(PlannedQueries(s, queryText, decodeQueries), search) == FromOutcome(search(s.task))
  {
  }

  // ---------------------------------------------------------------------------
  // Writer
  // ---------------------------------------------------------------------------

  /** The note for the evidence record numbered `n`: label, title, year, source and content. */
  function Block(n: nat, e: Evidence): string {
    "[" + NatToString(n) + "] " + e.title + " (" + e.year + ")\nSource: " + e.source + "\nContent: " + e.content + "\n\n"
  }

  /** The numbered notes for all evidence, numbering from 1. */
  function Context(es: seq<Evidence>): string
    decreases |es|
  {
    if es == [] then "" else Context(es[..|es| - 1]) + Block(|es|, es[|es| - 1])
  }

  /** The notes for the first records are a prefix of the notes for all of them: adding evidence never renumbers. */
  lemma {:induction false} ContextExtends(es: seq<Evidence>, i: nat)
    requires i <= |es|
    ensures Context(es[..i]) <= Context(es)
    decreases |es| - i
  {
    if i < |es| {
      var es' := es[..|es| - 1];
      ContextExtends(es', i);
      assert es'[..i] == es[..i];
      assert es[..|es|] == es;
    } else {
      assert es[..i] == es;
    }
  }

  /** The notes of non-empty evidence open with the label of its first record. */
  lemma ContextStartsAtOne(es: seq<Evidence>)
    requires es != []
    ensures Block(1, es[0]) <= Context(es)
  {
  }

  /**
   * The writer: with no evidence, the fixed apology; otherwise the model's
   * report on the task from the numbered notes. Either way the revision
   * number goes up by exactly one.
   */
  method WriterNode(state: AgentState, draftText: (string, string) -> string) returns (u: Update)
    ensures u.revisionNumber == Some(RevisionOf(state) + 1)
    ensures state.content == [] ==> u.draft == Some(Apology)
    ensures state.content != [] ==> u.draft == Some(draftText(state.task, Context(state.content)))
    ensures u.content.None? && u.critique.None? && u.lastAction.None?
  {
    var contextString := "";
    if state.content == [] {
      return Update(None, Some(Apology), None, Some(RevisionOf(state) + 1), None);
    }
    var i := 0;
    while i < |state.content|
      invariant 0 <= i <= |state.content|
      invariant contextString == Context(state.content[..i])
    {
      assert state.content[..i + 1][..i] == state.content[..i];
      contextString := contextString + Block(i + 1, state.content[i]);
      i := i + 1;
    }
    assert state.content[..i] == state.content;
    var response := draftText(state.task, contextString);
    u := Update(None, Some(response), None, Some(RevisionOf(state) + 1), None);
  }

  // ---------------------------------------------------------------------------
  // Critique and routing
  // ---------------------------------------------------------------------------

  /** `not state.get("draft")`: no draft yet, or an empty one. */
  predicate DraftMissing(s: AgentState) {
    s.draft.None? || s.draft.value == ""
  }

  /**
   * The critique: past the cap it approves; with no draft it asks for a
   * rewrite; otherwise it decodes the model's verdict, keeping the raw reply
   * as the critique and asking for a rewrite when that fails.
   */
  function CritiqueNode(state: AgentState, reviewText: string -> string, decodeReview: string -> Option<Review>): (u: Update)
    ensures u.content.None? && u.draft.None? && u.revisionNumber.None?
    ensures RevisionOf(state) > RevisionCap ==>
      u.critique == Some(MaxRevisionsCritique) && u.lastAction == Some(Approve)
    ensures RevisionOf(state) <= RevisionCap && DraftMissing(state) ==>
      u.critique == Some(NoDraftCritique) && u.lastAction == Some(Rewrite)
    ensures RevisionOf(state) <= RevisionCap && !DraftMissing(state) && decodeReview(reviewText(state.draft.value)).None? ==>
      u.critique == Some(reviewText(state.draft.value)) && u.lastAction == Some(Rewrite)
    ensures RevisionOf(state) <= RevisionCap && !DraftMissing(state) && decodeReview(reviewText(state.draft.value)).Some? ==>
      var review := decodeReview(reviewText(state.draft.value)).value;
      && (review.critique.None? ==> u.critique == Some(NoCritiqueProvided))
      && (review.critique.Some? ==> u.critique == review.critique)
      && (review.action.None? ==> u.lastAction == Some(Rewrite))
      && (review.action.Some? ==> u.lastAction == review.action)
  {
    if RevisionOf(state) > RevisionCap then
      Update(None, None, Some(MaxRevisionsCritique), None, Some(Approve))
    else if DraftMissing(state) then
      Update(None, None, Some(NoDraftCritique), None, Some(Rewrite))
    else
      var response := reviewText(state.draft.value);
      match decodeReview(response)
      case Some(review) =>
        Update(None, None, Some(review.critique.GetOr(NoCritiqueProvided)), None, Some(review.action.GetOr(Rewrite)))
      case None =>
        Update(None, None, Some(response), None, Some(Rewrite))
  }

  /** Past the cap the critique's result does not depend on the model at all. */
  lemma CapIgnoresModel(
    s: AgentState,
    reviewText1: string -> string, decodeReview1: string -> Option<Review>,
    reviewText2: string -> string, decodeReview2: string -> Option<Review>)
    requires RevisionOf(s) > RevisionCap
    ensures CritiqueNode(s, reviewText1, decodeReview1) == CritiqueNode(s, reviewText2, decodeReview2)
  {
  }

  /** Below the cap, a missing draft is judged without the model too. */
  lemma MissingDraftIgnoresModel(
    s: AgentState,
    reviewText1: string -> string, decodeReview1: string -> Option<Review>,
    reviewText2: string -> string, decodeReview2: string -> Option<Review>)
    requires RevisionOf(s) <= RevisionCap && DraftMissing(s)
    ensures CritiqueNode(s, reviewText1, decodeReview1) == CritiqueNode(s, reviewText2, decodeReview2)
  {
  }

  /** The node after the critique: End on APPROVE, the researcher on RESEARCH_MORE, else the writer. */
  function ShouldContinue(s: AgentState): (n: Node)
    ensures n != Critique
    ensures n == End <==> s.lastAction == Some(Approve)
    ensures n == Researcher <==> s.lastAction == Some(ResearchMore)
    ensures n == Writer <==> s.lastAction != Some(Approve) && s.lastAction != Some(ResearchMore)
  {
    var lastAction := s.lastAction.GetOr(Rewrite);
    if lastAction == Approve then End
    else if lastAction == ResearchMore then Researcher
    else Writer
  }

  // ---------------------------------------------------------------------------
  // The graph
  // ---------------------------------------------------------------------------

  /** The edges of the graph: researcher to writer, writer to critique, critique to the routed node. */
  predicate IsEdge(from: Node, to: Node) {
    || (from == Researcher && to == Writer)
    || (from == Writer && to == Critique)
    || (from == Critique && to != Critique)
  }

  /**
   * The most node invocations that can remain from `n` when the revision
   * number is `rev`, whatever the model answers.
   */
  function StepsToEnd(n: Node, rev: int): nat {
    var fromWriter := if rev >= RevisionCap then 2 else 2 + 3 * (RevisionCap - rev);
    match n
    case End => 0
    case Critique => if rev > RevisionCap then 1 else 2 + fromWriter
    case Writer => fromWriter
    case Researcher => 1 + fromWriter
  }

  /**
   * Runs the graph from the researcher until the router reaches End, and
   * returns the final state, the nodes in the order they ran and how many
   * times the writer and the critique ran.
   */
  method Run(init: AgentState, env: Oracles) returns (final: AgentState, trace: seq<Node>, writes: nat, critiques: nat)
    ensures final.task == init.task
    ensures |final.content| >= |init.content| && final.content[..|init.content|] == init.content
    ensures final.lastAction == Some(Approve)
    ensures RevisionOf(final) == RevisionOf(init) + writes
    ensures writes >= 1 && critiques == writes
    ensures RevisionOf(final) <= Max(RevisionOf(init) + 1, RevisionCap + 1)
    ensures 1 <= |trace| <= StepsToEnd(Researcher, RevisionOf(init))
    ensures trace[0] == Researcher && trace[|trace| - 1] == Critique
    ensures forall i :: 0 <= i < |trace| - 1 ==> IsEdge(trace[i], trace[i + 1])
    ensures RevisionOf(init) == 0 ==> |trace| <= 6 && writes <= 2
  {
    ghost var rev0 := RevisionOf(init);
    var state := init;
    var node := Researcher;
    trace, writes, critiques := [], 0, 0;
    while node != End
      invariant state.task == init.task
      invariant |state.content| >= |init.content| && state.content[..|init.content|] == init.content
      invariant RevisionOf(state) == rev0 + writes
      invariant node == Critique ==> critiques + 1 == writes
      invariant node != Critique ==> critiques == writes
      invariant node == End ==> state.lastAction == Some(Approve) && writes >= 1
      invariant node == Researcher || node == Writer ==> RevisionOf(state) == rev0 || RevisionOf(state) <= RevisionCap
      invariant RevisionOf(state) <= Max(rev0 + 1, RevisionCap + 1)
      invariant |trace| + StepsToEnd(node, RevisionOf(state)) <= StepsToEnd(Researcher, rev0)
      invariant trace == [] ==> node == Researcher
      invariant trace != [] ==> trace[0] == Researcher && IsEdge(trace[|trace| - 1], node)
      invariant forall i :: 0 <= i < |trace| - 1 ==> IsEdge(trace[i], trace[i + 1])
      decreases StepsToEnd(node, RevisionOf(state))
    {
      trace := trace + [node];
      var call := |trace|;
      if node == Researcher {
        var u := ResearcherNode(state, p => env.queryText(call, p), env.decodeQueries, q => env.search(call, q));
        state := Merge(state, u);
        node := Writer;
      } else if node == Writer {
        var u := WriterNode(state, (task, context) => env.draftText(call, task, context));
        state := Merge(state, u);
        writes := writes + 1;
        node := Critique;
      } else {
        var u := CritiqueNode(state, draft => env.reviewText(call, draft), env.decodeReview);
        state := Merge(state, u);
        critiques := critiques + 1;
        node := ShouldContinue(state);
      }
    }
    final := state;
  }
}
