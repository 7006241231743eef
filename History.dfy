/**
 * The saved-session history: a list of records kept newest first, capped at
 * fifty, from which a record can be deleted by id.
 *
 * The JSON file is the field `stored` of a `HistoryFile`: None when the file
 * is missing or cannot be read, which loading turns into the empty list.
 * Record ids and timestamps come from `uuid4` and the clock, so they are
 * parameters.
 */
module History {
  import opened Wrappers
  import opened AgentTypes

  /** The most records the history keeps. */
  const MaxRecords := 50

  datatype Record = Record(
    id: string,
    timestamp: string,
    task: string,
    draft: string,
    content: seq<Evidence>,
    searchMode: string,
    citationStyle: string)

  /** The keys of the final graph state a save reads; None: the key is absent. */
  datatype FinalState = FinalState(
    draft: Option<string>,
    content: Option<seq<Evidence>>,
    searchMode: Option<string>,
    citationStyle: Option<string>)

  /** The record saved for a finished session, absent keys replaced by their defaults. */
  function NewRecord(id: string, timestamp: string, task: string, fs: FinalState): (r: Record)
    ensures r.id == id && r.timestamp == timestamp && r.task == task
    ensures fs.draft.None? ==> r.draft == ""
    ensures fs.draft.Some? ==> r.draft == fs.draft.value
    ensures fs.content.None? ==> r.content == []
    ensures fs.content.Some? ==> r.content == fs.content.value
    ensures fs.searchMode.None? ==> r.searchMode == "Unknown"
    ensures fs.searchMode.Some? ==> r.searchMode == fs.searchMode.value
    ensures fs.citationStyle.None? ==> r.citationStyle == "Unknown"
    ensures fs.citationStyle.Some? ==> r.citationStyle == fs.citationStyle.value
  {
    Record(
      id,
      timestamp,
      task,
      fs.draft.GetOr(""),
      fs.content.GetOr([]),
      fs.searchMode.GetOr("Unknown"),
      fs.citationStyle.GetOr("Unknown"))
  }

  /**
   * The history after adding `rec`: the new record first, then the old ones in
   * their order, cut to the newest fifty.
   */
  function Prepend(history: seq<Record>, rec: Record): (r: seq<Record>)
    ensures |r| == if |history| < MaxRecords then |history| + 1 else MaxRecords
    ensures r[0] == rec
    ensures r[1..] == history[..|r| - 1]
  {
    var h := [rec] + history;
    if |h| > MaxRecords then h[..MaxRecords] else h
  }

  /** The history without the records whose id is `id`, the others in their order. */
  function Without(history: seq<Record>, id: string): (r: seq<Record>)
    ensures |r| <= |history|
    ensures forall i :: 0 <= i < |r| ==> r[i].id != id
    ensures forall x :: x in r ==> x in history
    decreases |history|
  {
    if history == [] then []
    else
      var last := history[|history| - 1];
      Without(history[..|history| - 1], id) + (if last.id == id then [] else [last])
  }

  /** Filtering a concatenation filters each part. */
  lemma {:induction false} WithoutAppend(a: seq<Record>, b: seq<Record>, id: string)
    ensures Without(a + b, id) == Without(a, id) + Without(b, id)
    decreases |b|
  {
    if b == [] {
      assert a + b == a;
    } else {
      var b', last := b[..|b| - 1], b[|b| - 1];
      assert (a + b)[..|a + b| - 1] == a + b';
      assert (a + b)[|a + b| - 1] == last;
      var tail := if last.id == id then [] else [last];
      calc {
        Without(a + b, id);
        Without(a + b', id) + tail;
        { WithoutAppend(a, b', id); }
        Without(a, id) + Without(b', id) + tail;
        Without(a, id) + (Without(b', id) + tail);
        Without(a, id) + Without(b, id);
      }
    }
  }

  /** Deleting an id no record has leaves the history as it was. */
  lemma {:induction false} WithoutAbsent(history: seq<Record>, id: string)
    requires forall i :: 0 <= i < |history| ==> history[i].id != id
    ensures Without(history, id) == history
    decreases |history|
  {
    if history != [] {
      var front := history[..|history| - 1];
      WithoutAbsent(front, id);
      assert front + [history[|history| - 1]] == history;
    }
  }

  /**
   * Every record with another id survives, with exactly the survivors among
   * the records before it in front of it and those after it behind it.
   */
  lemma WithoutKeeps(history: seq<Record>, id: string, i: nat)
    requires i < |history| && history[i].id != id
    ensures Without(history, id) == Without(history[..i], id) + [history[i]] + Without(history[i + 1..], id)
  {
    var kept := [history[i]];
    assert Without(kept, id) == kept by {
      assert kept[..0] == [];
    }
    assert history == history[..i] + (kept + history[i + 1..]);
    WithoutAppend(history[..i], kept + history[i + 1..], id);
    WithoutAppend(kept, history[i + 1..], id);
  }

  /** Deleting the id of a record that was just saved gives back the earlier history, cut to make room. */
  lemma DeleteUndoesSave(history: seq<Record>, rec: Record)
    requires forall i :: 0 <= i < |history| ==> history[i].id != rec.id
    ensures Without(Prepend(history, rec), rec.id) == history[..|Prepend(history, rec)| - 1]
  {
    var r := Prepend(history, rec);
    assert r == [rec] + r[1..];
    WithoutAppend([rec], r[1..], rec.id);
    assert Without([rec], rec.id) == [] by {
      assert [rec][..0] == [];
    }
    WithoutAbsent(r[1..], rec.id);
  }

  /** The history file. */
  class HistoryFile {
    /** The parsed file contents; None when the file is missing or unreadable. */
    var stored: Option<seq<Record>>

    constructor (contents: Option<seq<Record>>)
      ensures stored == contents
    {
      stored := contents;
    }

    /** The history as loading reads it: a missing or unreadable file is an empty history. */
    function Load(): (h: seq<Record>)
      reads this
      ensures stored.None? ==> h == []
      ensures stored.Some? ==> h == stored.value
    {
      stored.GetOr([])
    }

    /** Saves a finished session as the newest record and rewrites the file. */
    method SaveToHistory(task: string, finalState: FinalState, id: string, timestamp: string)
      modifies this
      ensures stored == Some(Prepend(old(Load()), NewRecord(id, timestamp, task, finalState)))
      ensures Load()[0] == NewRecord(id, timestamp, task, finalState)
      ensures |Load()| <= MaxRecords && Load()[1..] == old(Load())[..|Load()| - 1]
    {
      var history := Load();
      var record := NewRecord(id, timestamp, task, finalState);
      history := [record] + history;
      if |history| > MaxRecords {
        history := history[..MaxRecords];
      }
      stored := Some(history);
    }

    /** Removes every record with the given id and rewrites the file. */
    method DeleteHistoryItem(itemId: string)
      modifies this
      ensures stored == Some(Without(old(Load()), itemId))
      ensures forall i :: 0 <= i < |Load()| ==> Load()[i].id != itemId
    {
      var history := Load();
      history := Without(history, itemId);
      stored := Some(history);
    }
  }
}
