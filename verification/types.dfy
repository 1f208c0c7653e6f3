/**
 * The data records shared by every component: the four-field analysis returned by
 * the external service, the history entry built from it, and the two wrappers the
 * model uses at the boundary of the external calls.
 */
module Types {

  /** A nullable value: a TypeScript `null` is `None` here. */
  datatype Option<+T> = None | Some(value: T)

  /**
   * How an awaited external call settled: it resolved with a value, or it
   * rejected. A rejection carries the thrown `Error`'s message, or `None` when
   * the thrown value was not an `Error` at all.
   */
  datatype Outcome<+R> = Success(value: R) | Failure(message: Option<string>)

  /** The structured analysis of one complaint. */
  datatype AnalysisResult = AnalysisResult(
    summary: seq<string>,
    department: string,
    analysis: string,
    solutions: seq<string>)

  /** One completed analysis, as kept in the session history. */
  datatype HistoryItem = HistoryItem(
    id: int,
    complaintText: string,
    analysisResult: AnalysisResult,
    timestamp: string)

  /** The ids present in a history. */
  function Ids(history: seq<HistoryItem>): set<int>
  {
    set item | item in history :: item.id
  }

  /** No two entries of the history share an id. */
  predicate UniqueIds(history: seq<HistoryItem>)
  {
    forall i, j :: 0 <= i < j < |history| ==> history[i].id != history[j].id
  }

  /**
   * The text a `catch` block shows for a rejection:
   * `err instanceof Error ? err.message : fallback`.
   */
  function ErrorText(message: Option<string>, fallback: string): (r: string)
    ensures message.Some? ==> r == message.value
    ensures message.None? ==> r == fallback
  {
    match message
    case Some(m) => m
    case None => fallback
  }

  /**
   * `history.find(item => item.id === id)`: the FIRST entry carrying `id`, or
   * `None` (`find`'s `undefined`) when there is none.
   */
  function Find(history: seq<HistoryItem>, id: int): (r: Option<HistoryItem>)
    ensures r.Some? <==> id in Ids(history)
    ensures r.Some? ==> r.value.id == id && r.value in history
  {
    if |history| == 0 then None
    else if history[0].id == id then Some(history[0])
    else
      assert forall item :: item in history[1..] ==> item in history;
      assert Ids(history) == {history[0].id} + Ids(history[1..]) by {
        assert history == [history[0]] + history[1..];
      }
      Find(history[1..], id)
  }

  /** An entry that precedes every other entry with its id is the one `Find` returns. */
  lemma {:induction false} FindFirst(history: seq<HistoryItem>, i: int)
    requires 0 <= i < |history|
    requires forall j :: 0 <= j < i ==> history[j].id != history[i].id
    ensures Find(history, history[i].id) == Some(history[i])
  {
    if i > 0 {
      FindFirst(history[1..], i - 1);
    }
  }

  /** With unique ids, looking up an entry's id finds exactly that entry. */
  lemma FindUnique(history: seq<HistoryItem>, i: int)
    requires UniqueIds(history)
    requires 0 <= i < |history|
    ensures Find(history, history[i].id) == Some(history[i])
  {
    FindFirst(history, i);
  }

  /** What `Find` returns is the entry at the first position carrying `id`. */
  lemma {:induction false} FindIsFirst(history: seq<HistoryItem>, id: int)
    ensures Find(history, id).Some? ==>
      exists i :: 0 <= i < |history| && history[i] == Find(history, id).value
        && forall j :: 0 <= j < i ==> history[j].id != id
  {
    if |history| > 0 && history[0].id != id && Find(history, id).Some? {
      FindIsFirst(history[1..], id);
      var i :| 0 <= i < |history[1..]| && history[1..][i] == Find(history, id).value
        && forall j :: 0 <= j < i ==> history[1..][j].id != id;
      assert history[i + 1] == Find(history, id).value;
      forall j | 0 <= j < i + 1
        ensures history[j].id != id
      {
        if j > 0 {
          assert history[j] == history[1..][j - 1];
        }
      }
    }
  }
}
