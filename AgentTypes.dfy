/**
 * The state threaded through the research graph and the rule by which a
 * node's partial output is merged into it.
 *
 * `content` is declared with the `operator.add` reducer, so every update to it
 * is appended to what is there; the other fields have no reducer, so a value a
 * node returns replaces the old one. `task` is supplied once by the caller and
 * no node ever returns it.
 */
module AgentTypes {
  import opened Wrappers

  /** One normalised search result, as the researcher builds it. */
  datatype Evidence = Evidence(title: string, year: string, author: string, source: string, content: string)

  /**
   * The graph state. Fields the nodes read with `state.get(...)` are optional
   * (None: the key has not been set yet); `content` starts out as the empty list.
   */
  datatype AgentState = AgentState(
    task: string,
    content: seq<Evidence>,
    draft: Option<string>,
    critique: Option<string>,
    revisionNumber: Option<int>,
    lastAction: Option<string>)

  /** The dictionary a node returns: None for every key it leaves out. */
  datatype Update = Update(
    content: Option<seq<Evidence>>,
    draft: Option<string>,
    critique: Option<string>,
    revisionNumber: Option<int>,
    lastAction: Option<string>)

  /** `state.get("revision_number", 0)`. */
  function RevisionOf(s: AgentState): int {
    s.revisionNumber.GetOr(0)
  }

  /** Merges one node's output into the state. */
  function Merge(s: AgentState, u: Update): (r: AgentState)
    ensures r.task == s.task
    ensures |r.content| >= |s.content| && r.content[..|s.content|] == s.content
    ensures u.content.Some? ==> r.content[|s.content|..] == u.content.value
    ensures u.content.None? ==> r.content == s.content
    ensures u.draft.Some? ==> r.draft == u.draft
    ensures u.draft.None? ==> r.draft == s.draft
    ensures u.critique.Some? ==> r.critique == u.critique
    ensures u.critique.None? ==> r.critique == s.critique
    ensures u.revisionNumber.Some? ==> r.revisionNumber == u.revisionNumber
    ensures u.revisionNumber.None? ==> r.revisionNumber == s.revisionNumber
    ensures u.lastAction.Some? ==> r.lastAction == u.lastAction
    ensures u.lastAction.None? ==> r.lastAction == s.lastAction
  {
    AgentState(
      s.task,
      s.content + u.content.GetOr([]),
      if u.draft.Some? then u.draft else s.draft,
      if u.critique.Some? then u.critique else s.critique,
      if u.revisionNumber.Some? then u.revisionNumber else s.revisionNumber,
      if u.lastAction.Some? then u.lastAction else s.lastAction)
  }

  /** Merges a run's updates one after the other. */
  function MergeAll(s: AgentState, us: seq<Update>): AgentState
    decreases |us|
  {
    if us == [] then s else MergeAll(Merge(s, us[0]), us[1..])
  }

  /** Everything the updates add to `content`, in order. */
  function AddedContent(us: seq<Update>): seq<Evidence>
    decreases |us|
  {
    if us == [] then [] else us[0].content.GetOr([]) + AddedContent(us[1..])
  }

  /**
   * Across any run, `task` is untouched and `content` is the initial list
   * followed by every node's contribution: nothing is ever overwritten or lost.
   */
  lemma {:induction false} MergeAllAccumulates(s: AgentState, us: seq<Update>)
    ensures MergeAll(s, us).task == s.task
    ensures MergeAll(s, us).content == s.content + AddedContent(us)
    decreases |us|
  {
    if us != [] {
      MergeAllAccumulates(Merge(s, us[0]), us[1..]);
      assert s.content + us[0].content.GetOr([]) + AddedContent(us[1..])
          == s.content + (us[0].content.GetOr([]) + AddedContent(us[1..]));
    }
  }

  /** The length of `content` never decreases across a run. */
  lemma {:induction false} MergeAllContentGrows(s: AgentState, us: seq<Update>)
    ensures |MergeAll(s, us).content| >= |s.content|
    ensures MergeAll(s, us).content[..|s.content|] == s.content
  {
    MergeAllAccumulates(s, us);
  }

  /**
   * Two content updates, e.g. two researcher runs, leave `content` longer by
   * exactly the sum of their lengths.
   */
  lemma TwoResearchRunsAddUp(s: AgentState, xs: seq<Evidence>, ys: seq<Evidence>)
    ensures |MergeAll(s, [Update(Some(xs), None, None, None, None), Update(Some(ys), None, None, None, None)]).content|
         == |s.content| + |xs| + |ys|
  {
    var us := [Update(Some(xs), None, None, None, None), Update(Some(ys), None, None, None, None)];
    MergeAllAccumulates(s, us);
    assert AddedContent(us[1..][1..]) == [];
  }

  /** Updates that leave out `draft` leave it as it was. */
  lemma {:induction false} DraftKept(s: AgentState, us: seq<Update>)
    requires forall j :: 0 <= j < |us| ==> us[j].draft.None?
    ensures MergeAll(s, us).draft == s.draft
    decreases |us|
  {
    if us != [] {
      DraftKept(Merge(s, us[0]), us[1..]);
    }
  }

  /**
   * A field without a reducer holds what the last update that set it
   * returned, however many later updates leave it out.
   */
  lemma {:induction false} LastWriteWins(s: AgentState, us: seq<Update>, k: nat, d: string)
    requires k < |us| && us[k].draft == Some(d)
    requires forall j :: k < j < |us| ==> us[j].draft.None?
    ensures MergeAll(s, us).draft == Some(d)
    decreases |us|
  {
    if k == 0 {
      DraftKept(Merge(s, us[0]), us[1..]);
    } else {
      LastWriteWins(Merge(s, us[0]), us[1..], k - 1, d);
    }
  }
}
