/**
 * The history panel: the empty-state notice, or one clickable row per history
 * entry, in history order, with the active entry's row highlighted.
 */
module HistoryPanel {
  import opened Types

  /** What one row shows, which id its click reports, and whether it is highlighted. */
  datatype Row = Row(id: int, department: string, complaintText: string, timestamp: string, highlighted: bool)

  datatype Panel = EmptyState | Rows(rows: seq<Row>)

  /** The row drawn for one entry: highlighted when `activeId === item.id`. */
  function RowOf(item: HistoryItem, activeId: Option<int>): (row: Row)
    ensures row.highlighted <==> activeId == Some(item.id)
    ensures row.id == item.id && row.complaintText == item.complaintText
    ensures row.department == item.analysisResult.department && row.timestamp == item.timestamp
  {
    Row(item.id, item.analysisResult.department, item.complaintText, item.timestamp,
        activeId.Some? && activeId.value == item.id)
  }

  /** `history.map(...)`: one row per entry, in the same order. */
  function RowsOf(history: seq<HistoryItem>, activeId: Option<int>): (rows: seq<Row>)
    ensures |rows| == |history|
    ensures forall i :: 0 <= i < |history| ==> rows[i] == RowOf(history[i], activeId)
  {
    if |history| == 0 then []
    else [RowOf(history[0], activeId)] + RowsOf(history[1..], activeId)
  }

  /** The panel: the empty-state notice for an empty history, the rows otherwise. */
  function Render(history: seq<HistoryItem>, activeId: Option<int>): (p: Panel)
    ensures p.EmptyState? <==> |history| == 0
    ensures p.Rows? ==> p.rows == RowsOf(history, activeId)
  {
    if |history| == 0 then EmptyState else Rows(RowsOf(history, activeId))
  }

  /** The id a row's click reports to `onSelectItem`. */
  function ClickedId(row: Row): int
  {
    row.id
  }

  /** The number of highlighted rows. */
  function HighlightCount(rows: seq<Row>): nat
  {
    if |rows| == 0 then 0
    else (if rows[0].highlighted then 1 else 0) + HighlightCount(rows[1..])
  }

  /** Rows with only the row at `k` highlighted count one highlight. */
  lemma {:induction false} CountSingle(rows: seq<Row>, k: int)
    requires 0 <= k < |rows| && rows[k].highlighted
    requires forall j :: 0 <= j < |rows| && j != k ==> !rows[j].highlighted
    ensures HighlightCount(rows) == 1
  {
    if k == 0 {
      CountNone(rows[1..]);
    } else {
      CountSingle(rows[1..], k - 1);
    }
  }

  /** Rows with nothing highlighted count no highlight. */
  lemma {:induction false} CountNone(rows: seq<Row>)
    requires forall j :: 0 <= j < |rows| ==> !rows[j].highlighted
    ensures HighlightCount(rows) == 0
  {
    if |rows| > 0 {
      CountNone(rows[1..]);
    }
  }

  /**
   * With unique ids and an active id present in the history, exactly one row is
   * highlighted, and it is the active entry's row; with no active id, none is.
   */
  lemma ExactlyOneHighlighted(history: seq<HistoryItem>, activeId: Option<int>)
    requires UniqueIds(history)
    requires activeId.None? || activeId.value in Ids(history)
    ensures activeId.Some? ==> HighlightCount(RowsOf(history, activeId)) == 1
    ensures activeId.None? ==> HighlightCount(RowsOf(history, activeId)) == 0
  {
    var rows := RowsOf(history, activeId);
    if activeId.Some? {
      var k :| 0 <= k < |history| && history[k].id == activeId.value;
      CountSingle(rows, k);
    } else {
      CountNone(rows);
    }
  }

  /** A row is highlighted exactly when its click would report the active id. */
  lemma HighlightMatchesClick(history: seq<HistoryItem>, activeId: Option<int>, i: int)
    requires 0 <= i < |history|
    ensures RowsOf(history, activeId)[i].highlighted <==> activeId == Some(ClickedId(RowsOf(history, activeId)[i]))
    ensures ClickedId(RowsOf(history, activeId)[i]) == history[i].id
  {
  }
}
