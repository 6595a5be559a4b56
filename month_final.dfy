/**
  The end of a month run (orchestrate_month.py): the raw slice rows are merged
  keeping one row per `(rid, dest)`, and the merged data passes QA unless
  more than half of its `(origin, dest, hour, dow)` cells hold fewer than
  `qa_min_obs_per_cell` rows.
*/
module MonthFinal {
  import opened Common
  import opened Dedup
  import opened SliceTask

  /** The columns of a merged row that the check reads; `dow` is the weekday of its date. */
  datatype QaRow = QaRow(origin: string, dest: string, dow: int, gbttPta: string)

  /** A QA cell: route, planned hour and weekday. */
  datatype Cell = Cell(origin: string, dest: string, hour: int, dow: int)

  /** `drop_duplicates(subset=['rid', 'dest'])`. */
  function MergeRows(rows: seq<DelayRow>): (merged: seq<DelayRow>)
    ensures UniqueKeys(merged, (r: DelayRow) => (r.rid, r.dest))
    ensures forall rid, dest ::
              (exists i :: 0 <= i < |merged| && (merged[i].rid, merged[i].dest) == (rid, dest)) <==>
              (exists i :: 0 <= i < |rows| && (rows[i].rid, rows[i].dest) == (rid, dest))
  {
    var key := (r: DelayRow) => (r.rid, r.dest);
    var merged := DropDuplicates(rows, key);
    assert forall rid, dest :: HasKey(merged, key, (rid, dest)) <==> HasKey(rows, key, (rid, dest));
    merged
  }

  /** The cell of each row, or `None` when some `gbtt_pta` does not start with an integer (the check then raises). */
  function CellsOf(rows: seq<QaRow>): (cells: Option<seq<Cell>>)
    ensures cells.Some? <==> forall i :: 0 <= i < |rows| ==> PyInt(Prefix(rows[i].gbttPta, 2)).Some?
    ensures cells.Some? ==>
              |cells.value| == |rows| &&
              (forall i :: 0 <= i < |rows| ==>
                 cells.value[i] == Cell(rows[i].origin, rows[i].dest, PyInt(Prefix(rows[i].gbttPta, 2)).value, rows[i].dow))
    decreases |rows|
  {
    if rows == [] then Some([])
    else
      var row := rows[|rows| - 1];
      var front := CellsOf(rows[..|rows| - 1]);
      var hour := PyInt(Prefix(row.gbttPta, 2));
      if front.Some? && hour.Some? then Some(front.value + [Cell(row.origin, row.dest, hour.value, row.dow)])
      else None
  }

  /** The cells (groups) present in the data. */
  function Groups(cells: seq<Cell>): set<Cell> {
    set c | c in cells
  }

  /** The groups with fewer than `minObs` rows. */
  function Sparse(cells: seq<Cell>, minObs: int): (sparse: set<Cell>)
    ensures sparse <= Groups(cells)
  {
    set c | c in cells && multiset(cells)[c] < minObs
  }

  /** The gate: QA fails exactly when more than half of the groups are sparse. */
  predicate GatePasses(sparse: nat, total: nat) {
    !(2 * sparse > total)
  }

  /**
    `_run_qa_check`: a missing file, an empty dataset, or an hour that does not
    parse fails; otherwise the sparse-cell gate decides.
  */
  function QaPassed(data: Option<seq<QaRow>>, minObs: int): (passed: bool)
    ensures passed <==>
              data.Some? && |data.value| > 0 && CellsOf(data.value).Some? &&
              2 * |Sparse(CellsOf(data.value).value, minObs)| <= |Groups(CellsOf(data.value).value)|
  {
    if data.None? || |data.value| == 0 then false
    else
      match CellsOf(data.value)
      case None => false
      case Some(cells) => GatePasses(|Sparse(cells, minObs)|, |Groups(cells)|)
  }

  /** Exactly half of the groups sparse still passes; one more fails. */
  lemma HalfSparsePasses(n: nat)
    ensures GatePasses(n, 2 * n)
    ensures !GatePasses(n + 1, 2 * n + 1)
  {
  }

  /** With a threshold of at most one row every group is dense, so well-formed data passes. */
  lemma LowThresholdPasses(rows: seq<QaRow>, minObs: int)
    requires |rows| > 0 && CellsOf(rows).Some? && minObs <= 1
    ensures QaPassed(Some(rows), minObs)
  {
    var cells := CellsOf(rows).value;
    assert Sparse(cells, minObs) == {} by {
      forall c | c in cells ensures multiset(cells)[c] >= 1 {
      }
    }
  }

  /** With a threshold above the number of rows every group is sparse, so the check fails. */
  lemma HighThresholdFails(rows: seq<QaRow>, minObs: int)
    requires minObs > |rows|
    ensures !QaPassed(Some(rows), minObs)
  {
    if |rows| > 0 && CellsOf(rows).Some? {
      var cells := CellsOf(rows).value;
      assert Sparse(cells, minObs) == Groups(cells) by {
        forall c | c in cells ensures multiset(cells)[c] < minObs {
          assert multiset(cells)[c] <= |multiset(cells)| == |cells|;
        }
      }
      assert cells[0] in Groups(cells);
    }
  }
}
