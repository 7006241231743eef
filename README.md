# Research agent orchestration, modelled in Dafny

This project models the core of an autonomous research agent. The agent turns a
free-text task into a report by running a small graph of nodes:

- the **researcher** asks a language model for search queries, runs each query
  through a web search, and normalises every hit into an evidence record;
- the **writer** numbers the evidence into notes and asks the model for a report;
- the **critique** node approves, asks for a rewrite, or asks for more research;
- **should_continue** routes from the critique to the researcher, the writer, or the end.

Each node returns a partial state. The graph merges it into the shared state:
`content` (the evidence) is appended to and every other field is replaced. The
graph is a LangGraph `StateGraph`; here it is an explicit loop (`Graph.Run`).
The model proves that the loop ends with `APPROVE` whenever no foreign call
raises. Starting from revision 0, it runs at most six nodes and at most two
writer passes.

The second part is the saved-session history: newest record first, at most 50
records, and deletion by id.

Modules, one per source file:

- `Wrappers`: the `Option` type, used for dictionary keys that may be absent.
- `AgentTypes` (`app/agent_types.py`): evidence records, the state, node
  updates, and the merge rule.
- `Decimal`: decimal rendering of the writer's `[i]` labels (Python `str` on an int).
- `Graph` (`app/graph.py`): the three nodes, the router, and the loop.
- `History` (`app/history.py`): the history file as a class whose methods
  update the stored list.

Foreign calls are function parameters: the language model, the JSON decoding of
its replies, and the search. A model call made by the loop also receives the
index of the node invocation, so repeated calls may give different answers.
Decoding is a function returning `Option`. For the query reply, `None` means
`json.loads` raised. For the critique reply, it means `json.loads` raised or the
decoded value has no `.get` (it is not an object).

Facts about the code that shape the model:

- The revision cap is the constant 1 (app/graph.py:118).
- The search provider is created with `max_results=3` (app/graph.py:16).
- The researcher has one search provider and two prompts: broad queries, or
  queries targeted at the critique (app/graph.py:27-43).
- The writer's notes hold the title, year, source and content of each record,
  without the author (app/graph.py:93).
- The history is a JSON file, read and rewritten by `app/history.py`.

## Model

| member | source | states |
|---|---|---|
| `AgentTypes.Merge` | app/agent_types.py:8-14 | merging a node's output keeps `task`, appends its `content` after the old list, replaces each other field it returns, and leaves the fields it omits unchanged |
| `AgentTypes.MergeAllAccumulates` | app/agent_types.py:9-10 | over any sequence of node outputs, `task` is unchanged and `content` is the initial list followed by every output's content in order |
| `AgentTypes.MergeAllContentGrows` | app/agent_types.py:10 | `content` never gets shorter, and the old list stays a prefix of it |
| `AgentTypes.TwoResearchRunsAddUp` | app/agent_types.py:10 | two researcher outputs grow `content` by exactly the sum of their lengths |
| `AgentTypes.DraftKept` | app/agent_types.py:11 | updates that leave out `draft` (such as the critique's) leave it unchanged |
| `AgentTypes.LastWriteWins` | app/agent_types.py:11-14 | a field without a reducer (here `draft`) holds the value of the last update that set it, whatever updates that leave it out come after |
| `Decimal.NatToString` | app/graph.py:92-93 | a citation label is a non-empty string of decimal digits with no leading zero |
| `Decimal.ParseNatToString` | app/graph.py:92-93 | reading a label back as a number gives the number it was made from |
| `Decimal.NatToStringInjective` | app/graph.py:92-93 | different evidence positions get different labels |
| `Graph.QueryPromptFor` | app/graph.py:24-43 | a non-empty critique selects the targeted prompt that carries that critique; a missing or empty one selects the broad prompt |
| `Graph.Queries` | app/graph.py:46-51 | the decoded query list is used as it is; when decoding fails, the single query is the task |
| `Graph.Year` | app/graph.py:63-64 | the year is "n.d." for a missing or empty date; otherwise it is the longest prefix of the date of at most 4 characters |
| `Graph.Normalise` | app/graph.py:62-72 | every key of an evidence record is filled: the hit's own value, or "Unknown Title", "Unknown", "Unknown Source", "" when it is missing |
| `Graph.FromOutcome` | app/graph.py:58-72 | a search that returned a list gives one record per hit, in order; one that raised or gave no list gives nothing |
| `Graph.ResearcherNode` | app/graph.py:19-77 | the researcher returns only `content`, which is the concatenation over the planned queries, in order, of each query's normalised hits |
| `Graph.CollectedAppend` | app/graph.py:55-74 | the hits of a query list are the hits of its first part followed by those of the rest |
| `Graph.CollectedOne` | app/graph.py:57-72 | a single query contributes exactly its own normalised hits |
| `Graph.FailedQueryIsIsolated` | app/graph.py:57-74 | a query whose search raised or gave no list changes nothing: the result equals the result with that query removed |
| `Graph.CollectedCountsHits` | app/graph.py:57-72 | the researcher returns exactly as many records as the successful searches returned hits |
| `Graph.DecodeFailureSearchesTask` | app/graph.py:45-51 | when the query reply cannot be decoded, the researcher's output is the hits of a search for the task itself |
| `Graph.ContextExtends` | app/graph.py:92-93 | the notes for the first records are a prefix of the notes for all of them, so earlier notes keep their numbers |
| `Graph.ContextStartsAtOne` | app/graph.py:92 | numbering starts at 1: the notes open with the note labelled 1 for the first record |
| `Graph.WriterNode` | app/graph.py:79-109 | the revision number becomes the old one (default 0) plus exactly 1. With no evidence the draft is the fixed apology; otherwise it is the model's report from the task and the numbered notes. No other field is returned |
| `Graph.CritiqueNode` | app/graph.py:111-163 | above revision 1 it approves with "Max revisions reached. Auto-approved.". Otherwise, with no draft, it asks for REWRITE with "No draft found.". Otherwise the decoded verdict is used, with "No critique provided." and REWRITE for missing keys. If decoding fails, the critique is the raw reply and the action is REWRITE |
| `Graph.CapIgnoresModel` | app/graph.py:117-123 | above the cap the critique's output is the same whatever the model and decoder answer |
| `Graph.MissingDraftIgnoresModel` | app/graph.py:125-129 | at or below the cap, a missing or empty draft is judged the same whatever the model answers |
| `Graph.ShouldContinue` | app/graph.py:165-181 | the router gives End exactly for APPROVE and the researcher exactly for RESEARCH_MORE. Every other action goes to the writer, including a missing one (which defaults to REWRITE). It never routes to the critique |
| `Graph.Run` | app/graph.py:183-202 | the loop starts at the researcher and follows only the graph's edges. It ends after a critique with last action APPROVE. `task` is unchanged and the old `content` stays a prefix. The revision number rises by the number of writer passes; there is at least one pass, each followed by one critique. The number of node runs is bounded: at most 6, and at most 2 writer passes, from revision 0 |
| `History.NewRecord` | app/history.py:21-29 | the saved record carries the given id, timestamp and task. A missing `draft`, `content`, `search_mode` or `citation_style` becomes "", [], "Unknown" or "Unknown" |
| `History.Prepend` | app/history.py:31-36 | after a save the new record is first and the old records follow in their order. The list is cut to 50, keeping the newest |
| `History.Without` | app/history.py:43 | after a delete no record has the id; only records of the old history remain, and there are no more of them than before |
| `History.WithoutAppend` | app/history.py:43 | deleting from a concatenation deletes from each part, so the order of the survivors is kept |
| `History.WithoutAbsent` | app/history.py:43 | deleting an id that no record has leaves the history unchanged |
| `History.WithoutKeeps` | app/history.py:43 | every record with another id survives, in its place: the survivors before it stay before it and those after it stay after it |
| `History.DeleteUndoesSave` | app/history.py:17-45 | deleting the id of a record that was just saved with a fresh id gives back the earlier history, cut to make room |
| `History.HistoryFile.Load` | app/history.py:8-15 | a missing or unreadable file loads as the empty history; otherwise loading gives the stored list |
| `History.HistoryFile.SaveToHistory` | app/history.py:17-39 | the stored history becomes the loaded one with the new record prepended and cut to 50 |
| `History.HistoryFile.DeleteHistoryItem` | app/history.py:41-45 | the stored history becomes the loaded one without the records carrying the id |

## Left out

- Language-model and search calls (app/graph.py:45, 59, 104, 149) are function parameters. The fixed wording of the prompts is not modelled: the query model gets the task and, if present, the critique; the writer model gets the task and the numbered notes; the critique model gets the draft.
- Code-fence stripping and `json.loads` (app/graph.py:47-48, 152-153) are a decoding function that returns `Option`; JSON is not parsed.
- A decoded query reply that is not a list (a dict or a string, which Python would iterate by key or by character) is not told apart: the decoder returns the sequence of queries the loop visits.
- JSON `null` values are not modelled: an absent key and a key holding `null` are both `None`. In Python, `get` would return `None` for the second case and not the default.
- Search hits are records of optional strings, so normalising one cannot raise. The case where a malformed hit raises part-way through a query, after earlier hits of that query were appended, is not modelled.
- Within one researcher run, a search answer depends only on the query text.
- `max_results=3` (app/graph.py:16) configures the search provider; the modelled search may return any number of hits.
- `print` logging is left out, and so is `should_continue`'s read of `revision_number`, which only feeds a log line.
- An exception from a model call aborts the run: no node catches one from its `llm.invoke` (the researcher's at app/graph.py:45, the writer's at app/graph.py:104, the critique's at app/graph.py:149). The modelled calls are total functions, so this is not modelled.
- A query reply that decodes to JSON that cannot be iterated (a number, `true`/`false` or `null`) makes `for q in queries` (app/graph.py:57) raise outside the per-query `try`, which aborts the researcher and the run. The query decoder cannot return such a value, so this is not modelled.
- Graph.Run: its promise that the run ends with APPROVE holds for runs in which no foreign call raises an uncaught exception, as described in the two lines above; a run that aborts ends with an exception instead.
- LangGraph's own step limit is not modelled. The proved bound (at most 6 node runs from a fresh state) is below its default limit.
- `ResearchResult` in app/agent_types.py:4-6 declares only `source` and `content`. The model's evidence record has all five keys that the researcher writes.
- In app/history.py, the file writes, `json.dump` formatting, `os.path.exists`, `uuid4` and `datetime.now` are left out. The file's contents are the field `stored`, and the id and timestamp are parameters.
- app/database.py (SQLite storage) and app/main.py (Streamlit page) are not part of this model.
