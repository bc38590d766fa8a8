/** The status dashboard (`dashboard/dashboard.py`): the per-cell status
    table, the per-benchmark status table built from the patched benchmark
    documents, and the failure statistics per machine and per configuration. */
module Dashboard {

  import opened Results
  import opened Seqs
  import opened Json
  import opened StdevPatch
  import opened Catalog
  import opened Leaderboard
  import opened LexOrder
  import opened GroupStats

  /** The two values of the "Status" column. */
  datatype Status = Passed | Failed

  /** "✅" and "⛔️" (U+26D4 followed by the variation selector U+FE0F). */
  function Glyph(s: Status): string {
    match s
    case Passed => "\U{2705}"
    case Failed => "\U{26D4}\U{FE0F}"
  }

  /** The two marks differ, so comparing a row's mark with "⛔️" is the same
      as asking whether its status is the failed one. */
  lemma GlyphsDistinct(a: Status, b: Status)
    ensures Glyph(a) == Glyph(b) <==> a == b
  {
    assert Glyph(Passed)[0] != Glyph(Failed)[0];
  }

  // ---------------------------------------------------------------------
  // create_status_df

  /** One row of the hardware status table. */
  datatype StatusRow = StatusRow(backend: string, hardware: string, subset: string, machine: string, status: Status)

  /** The row of one cell, given whether its dataset repository exists. */
  function StatusRowFor(c: Cell, present: bool): (r: StatusRow)
    ensures r.backend == c.backend && r.hardware == c.hardware && r.subset == c.subset && r.machine == c.machine
    ensures r.status == Passed <==> present
  {
    StatusRow(c.backend, c.hardware, c.subset, c.machine, if present then Passed else Failed)
  }

  /** One cell: `repoExists` stands for the hub's `repo_exists` and is None
      when that raises. Nothing catches the exception, so it becomes the
      error of the whole table. */
  function StatusOne(c: Cell, repoExists: string -> Option<bool>): Result<seq<StatusRow>>
  {
    match repoExists(PerfRepoId(c))
    case None => Err("repo_exists failed for " + PerfRepoId(c))
    case Some(present) => Ok([StatusRowFor(c, present)])
  }

  /** The status rows of the given cells, in order, or the first error. */
  function StatusRows(cells: seq<Cell>, repoExists: string -> Option<bool>): Result<seq<StatusRow>>
  {
    if |cells| == 0 then Ok([])
    else Then(StatusRows(cells[..|cells| - 1], repoExists), StatusOne(cells[|cells| - 1], repoExists))
  }

  lemma {:induction false} StatusRowsAppend(a: seq<Cell>, b: seq<Cell>, repoExists: string -> Option<bool>)
    ensures StatusRows(a + b, repoExists) == Then(StatusRows(a, repoExists), StatusRows(b, repoExists))
  {
    if |b| == 0 {
      assert a + b == a;
      if StatusRows(a, repoExists).Ok? {
        assert StatusRows(a, repoExists).value + [] == StatusRows(a, repoExists).value;
      }
    } else {
      var b' := b[..|b| - 1];
      var ab := a + b;
      var last := StatusOne(b[|b| - 1], repoExists);
      assert ab[..|ab| - 1] == a + b';
      assert ab[|ab| - 1] == b[|b| - 1];
      assert StatusRows(ab, repoExists) == Then(StatusRows(a + b', repoExists), last);
      assert StatusRows(b, repoExists) == Then(StatusRows(b', repoExists), last);
      StatusRowsAppend(a, b', repoExists);
      ThenAssociative(StatusRows(a, repoExists), StatusRows(b', repoExists), last);
    }
  }

  lemma StatusRowsOne(c: Cell, repoExists: string -> Option<bool>)
    ensures StatusRows([c], repoExists) == StatusOne(c, repoExists)
  {
    assert [c][..0] == [];
    if StatusOne(c, repoExists).Ok? {
      assert [] + StatusOne(c, repoExists).value == StatusOne(c, repoExists).value;
    }
  }

  /** `repo_exists` answers for the repository of every cell. */
  predicate AllAnswered(cells: seq<Cell>, repoExists: string -> Option<bool>) {
    forall k :: 0 <= k < |cells| ==> repoExists(PerfRepoId(cells[k])).Some?
  }

  lemma AllAnsweredSnoc(cells: seq<Cell>, repoExists: string -> Option<bool>)
    requires |cells| > 0
    ensures AllAnswered(cells, repoExists) <==>
      AllAnswered(cells[..|cells| - 1], repoExists) && repoExists(PerfRepoId(cells[|cells| - 1])).Some?
  {
    assert forall k :: 0 <= k < |cells| - 1 ==> cells[..|cells| - 1][k] == cells[k];
  }

  /** The status table succeeds exactly when `repo_exists` answers for every
      cell; it then has one row per cell, in order, copying the cell's fields,
      passed exactly when the cell's repository exists. */
  lemma {:induction false} StatusRowsMeaning(cells: seq<Cell>, repoExists: string -> Option<bool>)
    ensures StatusRows(cells, repoExists).Ok? <==> AllAnswered(cells, repoExists)
    ensures StatusRows(cells, repoExists).Ok? ==> |StatusRows(cells, repoExists).value| == |cells|
    ensures StatusRows(cells, repoExists).Ok? ==> forall k :: 0 <= k < |cells| ==>
      var r := StatusRows(cells, repoExists).value[k];
      && r.backend == cells[k].backend && r.hardware == cells[k].hardware
      && r.subset == cells[k].subset && r.machine == cells[k].machine
      && (r.status == Passed <==> repoExists(PerfRepoId(cells[k])) == Some(true))
  {
    if |cells| > 0 {
      var init := cells[..|cells| - 1];
      var c := cells[|cells| - 1];
      AllAnsweredSnoc(cells, repoExists);
      StatusRowsMeaning(init, repoExists);
      if StatusRows(cells, repoExists).Ok? {
        var v := StatusRows(cells, repoExists).value;
        var w := StatusRows(init, repoExists).value;
        var present := repoExists(PerfRepoId(c)).value;
        assert v == w + [StatusRowFor(c, present)];
        forall k | 0 <= k < |cells|
          ensures v[k].backend == cells[k].backend && v[k].hardware == cells[k].hardware
          ensures v[k].subset == cells[k].subset && v[k].machine == cells[k].machine
          ensures v[k].status == Passed <==> repoExists(PerfRepoId(cells[k])) == Some(true)
        {
          if k < |init| {
            assert v[k] == w[k] && init[k] == cells[k];
          } else {
            assert k == |w| && cells[k] == c;
          }
        }
      }
    }
  }

  /** The innermost loop of `create_status_df`: one subset of one catalog
      entry, every backend in order, until `repo_exists` raises. */
  method StatusSubset(hc: HardwareConfig, subset: string, repoExists: string -> Option<bool>)
    returns (rows: Result<seq<StatusRow>>)
    ensures rows == StatusRows(RowCells(hc, subset, hc.backends), repoExists)
  {
    rows := Ok([]);
    var k := 0;
    while k < |hc.backends| && rows.Ok?
      invariant 0 <= k <= |hc.backends|
      invariant rows == StatusRows(RowCells(hc, subset, hc.backends[..k]), repoExists)
    {
      var cell := Cell(hc.backends[k], hc.hardware, subset, hc.machine);
      assert RowCells(hc, subset, hc.backends[..k + 1]) == RowCells(hc, subset, hc.backends[..k]) + [cell];
      StatusRowsOne(cell, repoExists);
      StatusRowsAppend(RowCells(hc, subset, hc.backends[..k]), [cell], repoExists);
      var answer := repoExists(PerfRepoId(cell));
      if answer.None? {
        rows := Err("repo_exists failed for " + PerfRepoId(cell));
      } else {
        var status := if answer.value then Passed else Failed;
        rows := Ok(rows.value + [StatusRow(hc.backends[k], hc.hardware, subset, hc.machine, status)]);
      }
      k := k + 1;
    }
    RowCellsSplit(hc, subset, hc.backends, k);
    StatusRowsAppend(RowCells(hc, subset, hc.backends[..k]), RowCells(hc, subset, hc.backends[k..]), repoExists);
    if rows.Ok? {
      assert rows.value + [] == rows.value;
    }
  }

  /** The middle loop of `create_status_df`: every subset of one catalog entry. */
  method StatusConfig(hc: HardwareConfig, repoExists: string -> Option<bool>) returns (rows: Result<seq<StatusRow>>)
    ensures rows == StatusRows(CellsFor(hc, hc.subsets), repoExists)
  {
    rows := Ok([]);
    var j := 0;
    while j < |hc.subsets| && rows.Ok?
      invariant 0 <= j <= |hc.subsets|
      invariant rows == StatusRows(CellsFor(hc, hc.subsets[..j]), repoExists)
    {
      var subset := hc.subsets[j];
      var block := StatusSubset(hc, subset, repoExists);
      assert CellsFor(hc, hc.subsets[..j + 1]) == CellsFor(hc, hc.subsets[..j]) + RowCells(hc, subset, hc.backends) by {
        assert hc.subsets[..j + 1] == hc.subsets[..j] + [subset];
        CellsForSnoc(hc, hc.subsets[..j], subset);
      }
      StatusRowsAppend(CellsFor(hc, hc.subsets[..j]), RowCells(hc, subset, hc.backends), repoExists);
      rows := Then(rows, block);
      j := j + 1;
    }
    assert hc.subsets[..j] + hc.subsets[j..] == hc.subsets;
    CellsForAppend(hc, hc.subsets[..j], hc.subsets[j..]);
    StatusRowsAppend(CellsFor(hc, hc.subsets[..j]), CellsFor(hc, hc.subsets[j..]), repoExists);
    if rows.Ok? {
      assert hc.subsets[j..] == [];
      assert rows.value + [] == rows.value;
    }
  }

  /** `create_status_df`: one row per catalog cell, in catalog order, whose
      status says whether that cell's dataset repository exists; the table
      fails as soon as `repo_exists` raises for one cell. */
  method CreateStatusDf(configs: seq<HardwareConfig>, repoExists: string -> Option<bool>)
    returns (table: Result<seq<StatusRow>>)
    ensures table.Ok? <==> AllAnswered(Cells(configs), repoExists)
    ensures table.Ok? ==> |table.value| == |Cells(configs)|
    ensures table.Ok? ==> forall k :: 0 <= k < |table.value| ==>
      var c := Cells(configs)[k];
      && table.value[k].backend == c.backend && table.value[k].hardware == c.hardware
      && table.value[k].subset == c.subset && table.value[k].machine == c.machine
      && (table.value[k].status == Passed <==> repoExists(PerfRepoId(c)) == Some(true))
  {
    table := Ok([]);
    var i := 0;
    while i < |configs| && table.Ok?
      invariant 0 <= i <= |configs|
      invariant table == StatusRows(Cells(configs[..i]), repoExists)
    {
      var hc := configs[i];
      var block := StatusConfig(hc, repoExists);
      assert Cells(configs[..i + 1]) == Cells(configs[..i]) + CellsFor(hc, hc.subsets) by {
        assert configs[..i + 1][..i] == configs[..i];
      }
      StatusRowsAppend(Cells(configs[..i]), CellsFor(hc, hc.subsets), repoExists);
      table := Then(table, block);
      i := i + 1;
    }
    assert configs[..i] + configs[i..] == configs;
    CellsAppend(configs[..i], configs[i..]);
    StatusRowsAppend(Cells(configs[..i]), Cells(configs[i..]), repoExists);
    if table.Ok? {
      assert configs[i..] == [];
      assert table.value + [] == table.value;
    }
    StatusRowsMeaning(Cells(configs), repoExists);
  }

  // ---------------------------------------------------------------------
  // create_benchmark_status_df

  const TracebackColumn: string := "report.traceback"
  const ModelColumn: string := "config.backend.model"
  const NameColumn: string := "config.name"

  /** `row["report.traceback"]` when the frame has that column, else "". */
  function TracebackOf(row: FlatRow): (t: Json)
    ensures HasKey(row, TracebackColumn) ==> (TracebackColumn, t) in row
    ensures !HasKey(row, TracebackColumn) ==> t == JStr("")
  {
    Lookup(row, TracebackColumn).GetOr(JStr(""))
  }

  /** One row of the benchmark status table. `fullData` is the row that
      `json.dumps(row.to_dict())` serialises. */
  datatype BenchmarkRow = BenchmarkRow(
    cell: Cell, status: Status, model: Json, experiment: Json, traceback: Json, fullData: FlatRow)

  /** A frame row carrying both columns the table reads unconditionally. */
  predicate Keyed(row: FlatRow) {
    HasKey(row, ModelColumn) && HasKey(row, NameColumn)
  }

  /** The table row built from one frame row of cell `c`. */
  function MakeRow(c: Cell, row: FlatRow): (r: BenchmarkRow)
    requires Keyed(row)
    ensures r.cell == c && r.fullData == row
    ensures (ModelColumn, r.model) in row && (NameColumn, r.experiment) in row
    ensures r.traceback == TracebackOf(row)
    ensures r.status == Passed <==> r.traceback == JStr("")
  {
    var t := TracebackOf(row);
    BenchmarkRow(c, if t == JStr("") then Passed else Failed,
                 Lookup(row, ModelColumn).value, Lookup(row, NameColumn).value, t, row)
  }

  /** Building one table row: `row["config.backend.model"]` is read before
      `row["config.name"]`, and a missing column raises `KeyError`. */
  function ToBenchmarkRow(c: Cell, row: FlatRow): (r: Result<BenchmarkRow>)
    ensures r.Ok? <==> Keyed(row)
    ensures r.Ok? ==> r.value == MakeRow(c, row)
    ensures !HasKey(row, ModelColumn) ==> r == Err("KeyError: " + ModelColumn)
    ensures HasKey(row, ModelColumn) && !HasKey(row, NameColumn) ==> r == Err("KeyError: " + NameColumn)
  {
    if !HasKey(row, ModelColumn) then Err("KeyError: " + ModelColumn)
    else if !HasKey(row, NameColumn) then Err("KeyError: " + NameColumn)
    else Ok(MakeRow(c, row))
  }

  /** One frame row as a list of at most one table row. */
  function One(c: Cell, row: FlatRow): (r: Result<seq<BenchmarkRow>>)
    ensures r.Ok? <==> Keyed(row)
    ensures r.Ok? ==> r.value == [MakeRow(c, row)]
  {
    var t := ToBenchmarkRow(c, row);
    if t.Ok? then Ok([t.value]) else Err(t.msg)
  }

  /** `for _, row in df.iterrows()`. */
  function FrameRows(c: Cell, frame: seq<FlatRow>): Result<seq<BenchmarkRow>>
  {
    if |frame| == 0 then Ok([])
    else
      Then(FrameRows(c, frame[..|frame| - 1]), One(c, frame[|frame| - 1]))
  }

  /** One benchmark document: the rows of its frame, or an error when
      loading it raised. */
  function FrameOf(c: Cell, frame: Option<seq<FlatRow>>): Result<seq<BenchmarkRow>>
  {
    match frame
    case None => Err("a benchmark of " + PerfRepoId(c) + " could not be loaded")
    case Some(rows) => FrameRows(c, rows)
  }

  /** `for file in glob(...)`: every benchmark document is patched first and
      then loaded by `toDataframe`, which stands for `json.load` followed by
      `Benchmark.from_json(file).to_dataframe()` and is None when either raises. */
  function DocRows(c: Cell, docs: seq<Json>, toDataframe: Json -> Option<seq<FlatRow>>): Result<seq<BenchmarkRow>>
  {
    if |docs| == 0 then Ok([])
    else Then(DocRows(c, docs[..|docs| - 1], toDataframe), FrameOf(c, toDataframe(Patch(docs[|docs| - 1]))))
  }

  /** What `snapshot_download` gives one cell: its benchmark documents, a
      `RepositoryNotFoundError` (caught: the cell is skipped), or any other
      error, which is not caught and ends the whole function. */
  datatype Download =
    | Found(docs: seq<Json>)
    | RepoNotFound
    | DownloadFailed(msg: string)

  /** One cell: a repository that is not found is skipped; one that is found
      contributes the rows of all its documents, possibly none. */
  function CellRows(c: Cell, d: Download, toDataframe: Json -> Option<seq<FlatRow>>): Result<seq<BenchmarkRow>>
  {
    match d
    case Found(docs) => DocRows(c, docs, toDataframe)
    case RepoNotFound => Ok([])
    case DownloadFailed(msg) => Err(msg)
  }

  /** `create_benchmark_status_df` over the catalog's cells; `snapshot` stands
      for `snapshot_download` plus the glob. */
  function BenchmarkStatus(cells: seq<Cell>, snapshot: Cell -> Download, toDataframe: Json -> Option<seq<FlatRow>>)
    : Result<seq<BenchmarkRow>>
  {
    if |cells| == 0 then Ok([])
    else
      var c := cells[|cells| - 1];
      Then(BenchmarkStatus(cells[..|cells| - 1], snapshot, toDataframe), CellRows(c, snapshot(c), toDataframe))
  }

  function CreateBenchmarkStatusDf(configs: seq<HardwareConfig>, snapshot: Cell -> Download,
                                   toDataframe: Json -> Option<seq<FlatRow>>): Result<seq<BenchmarkRow>>
  {
    BenchmarkStatus(Cells(configs), snapshot, toDataframe)
  }

  // The flat reference: every (cell, frame row) pair the loops visit, in order.

  function Tagged(c: Cell, frame: seq<FlatRow>): (r: seq<(Cell, FlatRow)>)
    ensures |r| == |frame|
    ensures forall k :: 0 <= k < |r| ==> r[k] == (c, frame[k])
  {
    seq(|frame|, k requires 0 <= k < |frame| => (c, frame[k]))
  }

  /** The documents a download yields: none unless the repository was found. */
  function FoundDocs(d: Download): seq<Json> {
    if d.Found? then d.docs else []
  }

  function DocSource(c: Cell, docs: seq<Json>, toDataframe: Json -> Option<seq<FlatRow>>): seq<(Cell, FlatRow)>
  {
    if |docs| == 0 then []
    else DocSource(c, docs[..|docs| - 1], toDataframe) + Tagged(c, toDataframe(Patch(docs[|docs| - 1])).GetOr([]))
  }

  /** The frame rows of all found cells, each tagged with its cell. */
  function SourceRows(cells: seq<Cell>, snapshot: Cell -> Download, toDataframe: Json -> Option<seq<FlatRow>>)
    : seq<(Cell, FlatRow)>
  {
    if |cells| == 0 then []
    else
      var c := cells[|cells| - 1];
      SourceRows(cells[..|cells| - 1], snapshot, toDataframe) + DocSource(c, FoundDocs(snapshot(c)), toDataframe)
  }

  /** A cell's download did not fail other than by a missing repository, and
      every document it yields loads. */
  predicate CellLoads(d: Download, toDataframe: Json -> Option<seq<FlatRow>>) {
    !d.DownloadFailed? && AllLoad(FoundDocs(d), toDataframe)
  }

  predicate AllCellsLoad(cells: seq<Cell>, snapshot: Cell -> Download, toDataframe: Json -> Option<seq<FlatRow>>) {
    forall k :: 0 <= k < |cells| ==> CellLoads(snapshot(cells[k]), toDataframe)
  }

  lemma AllCellsLoadSnoc(cells: seq<Cell>, snapshot: Cell -> Download, toDataframe: Json -> Option<seq<FlatRow>>)
    requires |cells| > 0
    ensures AllCellsLoad(cells, snapshot, toDataframe) <==>
      AllCellsLoad(cells[..|cells| - 1], snapshot, toDataframe) && CellLoads(snapshot(cells[|cells| - 1]), toDataframe)
  {
    assert forall k :: 0 <= k < |cells| - 1 ==> cells[..|cells| - 1][k] == cells[k];
  }

  /** Converting a flat list of tagged rows. */
  function RowsOf(src: seq<(Cell, FlatRow)>): (r: Result<seq<BenchmarkRow>>)
  {
    if |src| == 0 then Ok([])
    else
      Then(RowsOf(src[..|src| - 1]), One(src[|src| - 1].0, src[|src| - 1].1))
  }

  lemma {:induction false} RowsOfAppend(a: seq<(Cell, FlatRow)>, b: seq<(Cell, FlatRow)>)
    ensures RowsOf(a + b) == Then(RowsOf(a), RowsOf(b))
  {
    if |b| == 0 {
      assert a + b == a;
      if RowsOf(a).Ok? {
        assert RowsOf(a).value + [] == RowsOf(a).value;
      }
    } else {
      var b' := b[..|b| - 1];
      var ab := a + b;
      var last := One(b[|b| - 1].0, b[|b| - 1].1);
      assert ab[..|ab| - 1] == a + b';
      assert ab[|ab| - 1] == b[|b| - 1];
      assert RowsOf(ab) == Then(RowsOf(a + b'), last);
      assert RowsOf(b) == Then(RowsOf(b'), last);
      RowsOfAppend(a, b');
      ThenAssociative(RowsOf(a), RowsOf(b'), One(b[|b| - 1].0, b[|b| - 1].1));
    }
  }

  /** The meaning of the flat conversion: it succeeds exactly when every row
      has both columns, and then yields one table row per frame row. */
  predicate AllKeyed(src: seq<(Cell, FlatRow)>) {
    forall k :: 0 <= k < |src| ==> Keyed(src[k].1)
  }

  /** Every row of a list is keyed iff every row of its prefix is and its
      last row is. */
  lemma AllKeyedSnoc(src: seq<(Cell, FlatRow)>)
    requires |src| > 0
    ensures AllKeyed(src) <==> AllKeyed(src[..|src| - 1]) && Keyed(src[|src| - 1].1)
  {
    assert forall k :: 0 <= k < |src| - 1 ==> src[..|src| - 1][k] == src[k];
  }

  lemma {:induction false} RowsOfOk(src: seq<(Cell, FlatRow)>)
    ensures RowsOf(src).Ok? <==> AllKeyed(src)
  {
    if |src| > 0 {
      var init := src[..|src| - 1];
      var last := src[|src| - 1];
      assert RowsOf(src).Ok? <==> RowsOf(init).Ok? && Keyed(last.1);
      RowsOfOk(init);
      AllKeyedSnoc(src);
    }
  }

  lemma {:induction false} RowsOfValues(src: seq<(Cell, FlatRow)>)
    requires RowsOf(src).Ok?
    ensures forall k :: 0 <= k < |src| ==> Keyed(src[k].1)
    ensures |RowsOf(src).value| == |src|
    ensures forall k :: 0 <= k < |src| ==> RowsOf(src).value[k] == MakeRow(src[k].0, src[k].1)
  {
    RowsOfOk(src);
    if |src| > 0 {
      var init := src[..|src| - 1];
      var last := src[|src| - 1];
      assert RowsOf(init).Ok? && Keyed(last.1);
      RowsOfValues(init);
      var v := RowsOf(src).value;
      var w := RowsOf(init).value;
      assert v == w + [MakeRow(last.0, last.1)];
      forall k | 0 <= k < |src| ensures v[k] == MakeRow(src[k].0, src[k].1) {
        if k < |init| {
          assert v[k] == w[k] && init[k] == src[k];
        } else {
          assert k == |w| && src[k] == last;
        }
      }
    }
  }

  lemma {:induction false} FrameRowsFlat(c: Cell, frame: seq<FlatRow>)
    ensures FrameRows(c, frame) == RowsOf(Tagged(c, frame))
  {
    if |frame| > 0 {
      assert Tagged(c, frame)[..|frame| - 1] == Tagged(c, frame[..|frame| - 1]);
      FrameRowsFlat(c, frame[..|frame| - 1]);
    }
  }

  /** Once every document loads, the documents' rows are the flat rows;
      otherwise the conversion fails. */
  lemma {:induction false} DocRowsFlat(c: Cell, docs: seq<Json>, toDataframe: Json -> Option<seq<FlatRow>>)
    ensures AllLoad(docs, toDataframe) ==> DocRows(c, docs, toDataframe) == RowsOf(DocSource(c, docs, toDataframe))
    ensures !AllLoad(docs, toDataframe) ==> DocRows(c, docs, toDataframe).Err?
  {
    if |docs| > 0 {
      var init := docs[..|docs| - 1];
      var frame := toDataframe(Patch(docs[|docs| - 1]));
      AllLoadSnoc(docs, toDataframe);
      DocRowsFlat(c, init, toDataframe);
      if AllLoad(docs, toDataframe) {
        FrameRowsFlat(c, frame.value);
        RowsOfAppend(DocSource(c, init, toDataframe), Tagged(c, frame.value));
      }
    }
  }

  lemma {:induction false} BenchmarkStatusFlat(cells: seq<Cell>, snapshot: Cell -> Download,
                                               toDataframe: Json -> Option<seq<FlatRow>>)
    ensures AllCellsLoad(cells, snapshot, toDataframe) ==>
      BenchmarkStatus(cells, snapshot, toDataframe) == RowsOf(SourceRows(cells, snapshot, toDataframe))
    ensures !AllCellsLoad(cells, snapshot, toDataframe) ==> BenchmarkStatus(cells, snapshot, toDataframe).Err?
  {
    if |cells| > 0 {
      var init := cells[..|cells| - 1];
      var c := cells[|cells| - 1];
      var docs := FoundDocs(snapshot(c));
      AllCellsLoadSnoc(cells, snapshot, toDataframe);
      BenchmarkStatusFlat(init, snapshot, toDataframe);
      DocRowsFlat(c, docs, toDataframe);
      if AllCellsLoad(cells, snapshot, toDataframe) {
        assert CellRows(c, snapshot(c), toDataframe) == DocRows(c, docs, toDataframe);
        RowsOfAppend(SourceRows(init, snapshot, toDataframe), DocSource(c, docs, toDataframe));
      }
    }
  }

  /** The benchmark status table succeeds exactly when no download fails
      other than by a missing repository, every document of a found cell
      loads, and every frame row has a model and an experiment name; it then
      holds the table row `MakeRow` builds from each frame row, in visiting
      order: cell, model, experiment, traceback, full data, and a status that
      is passed exactly when the traceback is empty. */
  lemma {:induction false} CreateBenchmarkStatusDfMeaning(configs: seq<HardwareConfig>, snapshot: Cell -> Download,
                                                          toDataframe: Json -> Option<seq<FlatRow>>)
    ensures var r := CreateBenchmarkStatusDf(configs, snapshot, toDataframe);
      var src := SourceRows(Cells(configs), snapshot, toDataframe);
      && (r.Ok? <==> AllCellsLoad(Cells(configs), snapshot, toDataframe) && AllKeyed(src))
      && (r.Ok? ==> |r.value| == |src|)
      && (r.Ok? ==> forall k :: 0 <= k < |src| ==>
            && r.value[k] == MakeRow(src[k].0, src[k].1)
            && (r.value[k].status == Passed <==> TracebackOf(src[k].1) == JStr("")))
  {
    var src := SourceRows(Cells(configs), snapshot, toDataframe);
    BenchmarkStatusFlat(Cells(configs), snapshot, toDataframe);
    RowsOfOk(src);
    if CreateBenchmarkStatusDf(configs, snapshot, toDataframe).Ok? {
      RowsOfValues(src);
    }
  }

  /** Only found cells contribute rows, and those come from patched documents. */
  lemma {:induction false} SourceRowsFromFoundCells(cells: seq<Cell>, snapshot: Cell -> Download,
                                                    toDataframe: Json -> Option<seq<FlatRow>>, k: nat)
    requires k < |SourceRows(cells, snapshot, toDataframe)|
    ensures var p := SourceRows(cells, snapshot, toDataframe)[k];
      && p.0 in cells && snapshot(p.0).Found?
      && exists d :: d in snapshot(p.0).docs && p.1 in toDataframe(Patch(d)).GetOr([])
  {
    var init := cells[..|cells| - 1];
    var c := cells[|cells| - 1];
    var head := SourceRows(init, snapshot, toDataframe);
    if k < |head| {
      SourceRowsFromFoundCells(init, snapshot, toDataframe, k);
    } else {
      DocSourceFrom(c, FoundDocs(snapshot(c)), toDataframe, k - |head|);
    }
  }

  lemma {:induction false} DocSourceFrom(c: Cell, docs: seq<Json>, toDataframe: Json -> Option<seq<FlatRow>>, k: nat)
    requires k < |DocSource(c, docs, toDataframe)|
    ensures DocSource(c, docs, toDataframe)[k].0 == c
    ensures exists d :: d in docs && DocSource(c, docs, toDataframe)[k].1 in toDataframe(Patch(d)).GetOr([])
  {
    var init := docs[..|docs| - 1];
    var head := DocSource(c, init, toDataframe);
    if k < |head| {
      DocSourceFrom(c, init, toDataframe, k);
      var d :| d in init && head[k].1 in toDataframe(Patch(d)).GetOr([]);
      assert d in docs;
    } else {
      var d := docs[|docs| - 1];
      assert DocSource(c, docs, toDataframe)[k].1 == toDataframe(Patch(d)).GetOr([])[k - |head|];
    }
  }

  // ---------------------------------------------------------------------
  // compute_machine_stats and compute_config_stats

  /** `((Total - Failed) / Total * 100)`, before rounding to two decimals. */
  function SuccessRate(total: nat, failed: nat): (r: real)
    requires 1 <= total && failed <= total
    ensures 0.0 <= r <= 100.0
    ensures r == 100.0 <==> failed == 0
    ensures r == 0.0 <==> failed == total
  {
    (total - failed) as real / total as real * 100.0
  }

  /** One line of a statistics table. */
  datatype StatLine = StatLine(group: Group, successRate: real)

  function MachineKey(r: BenchmarkRow): seq<string> {
    [r.cell.machine]
  }

  function ConfigKey(r: BenchmarkRow): seq<string> {
    [r.cell.backend, r.cell.hardware, r.cell.subset, r.cell.machine]
  }

  function MachineObs(rows: seq<BenchmarkRow>): (obs: seq<Observation>)
    ensures |obs| == |rows|
  {
    seq(|rows|, k requires 0 <= k < |rows| => Observation(MachineKey(rows[k]), rows[k].status == Failed))
  }

  function ConfigObs(rows: seq<BenchmarkRow>): (obs: seq<Observation>)
    ensures |obs| == |rows|
  {
    seq(|rows|, k requires 0 <= k < |rows| => Observation(ConfigKey(rows[k]), rows[k].status == Failed))
  }

  function Lines(gs: seq<Group>): (r: seq<StatLine>)
    requires Bounded(gs)
    ensures |r| == |gs|
    ensures forall k :: 0 <= k < |gs| ==> r[k].group == gs[k] && r[k].successRate == SuccessRate(gs[k].total, gs[k].failed)
  {
    seq(|gs|, k requires 0 <= k < |gs| => StatLine(gs[k], SuccessRate(gs[k].total, gs[k].failed)))
  }

  function GroupsOf(lines: seq<StatLine>): seq<Group> {
    seq(|lines|, k requires 0 <= k < |lines| => lines[k].group)
  }

  /** groupby-count-agg-reset_index-rate over the given observations,
      grouped by the columns `keyColumns`. An empty table has no columns, so
      grouping it raises `KeyError` naming the first grouping column. */
  function Stats(keyColumns: seq<string>, obs: seq<Observation>): (r: Result<seq<StatLine>>)
    requires |keyColumns| > 0
    ensures r.Err? <==> |obs| == 0
    ensures r.Err? ==> r.msg == "KeyError: " + keyColumns[0]
    ensures r.Ok? ==> GroupsOf(r.value) == Tally(obs)
    ensures r.Ok? ==> forall k :: 0 <= k < |r.value| ==>
      1 <= r.value[k].group.total && r.value[k].group.failed <= r.value[k].group.total &&
      r.value[k].successRate == SuccessRate(r.value[k].group.total, r.value[k].group.failed)
  {
    if |obs| == 0 then Err("KeyError: " + keyColumns[0])
    else
      var gs := Tally(obs);
      TallyInvariant(obs, []);
      var lines := Lines(gs);
      assert GroupsOf(lines) == gs;
      Ok(lines)
  }

  /** `compute_machine_stats`: grouped by machine. */
  function MachineStats(rows: seq<BenchmarkRow>): (r: Result<seq<StatLine>>)
    ensures r.Err? <==> |rows| == 0
    ensures r.Err? ==> r.msg == "KeyError: Machine"
  {
    Stats(["Machine"], MachineObs(rows))
  }

  /** `compute_config_stats`: grouped by backend, hardware, subset and
      machine, so an empty table fails on the first of them. */
  function ConfigStats(rows: seq<BenchmarkRow>): (r: Result<seq<StatLine>>)
    ensures r.Err? <==> |rows| == 0
    ensures r.Err? ==> r.msg == "KeyError: Backend"
  {
    Stats(["Backend", "Hardware", "Subset", "Machine"], ConfigObs(rows))
  }

  /** Every statistics table: one line per distinct key, in ascending key
      order; each line counts exactly the rows and the failed rows of its key,
      has at least one row and a rate within [0, 100]; every row's key has a
      line; the totals add up to the number of rows. */
  lemma StatsMeaning(keyColumns: seq<string>, obs: seq<Observation>)
    requires |keyColumns| > 0 && |obs| > 0
    ensures var lines := Stats(keyColumns, obs).value;
      && Sorted(GroupsOf(lines))
      && (forall k :: 0 <= k < |lines| ==>
            && lines[k].group.total == CountKey(obs, lines[k].group.key)
            && lines[k].group.failed == CountFailed(obs, lines[k].group.key)
            && 1 <= lines[k].group.total
            && 0.0 <= lines[k].successRate <= 100.0)
      && (forall i :: 0 <= i < |obs| ==> exists g :: g in GroupsOf(lines) && g.key == obs[i].key)
      && SumTotals(GroupsOf(lines)) == |obs|
  {
    var gs := Tally(obs);
    TallyInvariant(obs, []);
    forall k | 0 <= k < |gs|
      ensures gs[k].total == CountKey(obs, gs[k].key) && gs[k].failed == CountFailed(obs, gs[k].key)
    {
      TallyInvariant(obs, gs[k].key);
      TotalOfSorted(gs, k);
    }
    forall i | 0 <= i < |obs| ensures exists g :: g in gs && g.key == obs[i].key {
      TallyCovers(obs, i);
    }
  }

  /** Rows of machine `m` counted through the configuration keys are the
      rows counted through the machine keys. */
  lemma {:induction false} MachineCountsAgree(rows: seq<BenchmarkRow>, m: string)
    ensures CountMachine(ConfigObs(rows), m) == CountKey(MachineObs(rows), [m])
  {
    if |rows| > 0 {
      var init := rows[..|rows| - 1];
      assert ConfigObs(rows)[..|rows| - 1] == ConfigObs(init);
      assert MachineObs(rows)[..|rows| - 1] == MachineObs(init);
      MachineCountsAgree(init, m);
    }
  }

  /** A machine line counts the rows of its one machine. */
  lemma MachineLineCounts(rows: seq<BenchmarkRow>, i: nat)
    requires |rows| > 0 && i < |MachineStats(rows).value|
    ensures var line := MachineStats(rows).value[i];
      |line.group.key| == 1 && line.group.total == CountKey(MachineObs(rows), line.group.key)
  {
    var mobs := MachineObs(rows);
    var gs := Tally(mobs);
    var line := MachineStats(rows).value[i];
    assert GroupsOf(MachineStats(rows).value)[i] == line.group;
    assert gs[i] == line.group;
    TallyInvariant(mobs, line.group.key);
    TotalOfSorted(gs, i);
    MachineKeyShape(rows, line.group.key);
  }

  /** The configuration lines of machine `m` add up to the rows of `m`. */
  lemma {:induction false} ConfigLinesOfMachine(rows: seq<BenchmarkRow>, m: string)
    requires |rows| > 0
    ensures MachineTotal(GroupsOf(ConfigStats(rows).value), m) == CountKey(MachineObs(rows), [m])
  {
    assert MachineOf([m]) == m;
    TallyInvariant(ConfigObs(rows), [m]);
    MachineCountsAgree(rows, m);
  }

  /** The two tables agree: for every machine line, the totals of the
      configuration lines of that machine add up to the machine's total. */
  lemma {:induction false} ConfigStatsRefineMachineStats(rows: seq<BenchmarkRow>, i: nat)
    requires |rows| > 0 && i < |MachineStats(rows).value|
    ensures var line := MachineStats(rows).value[i];
      && |line.group.key| == 1
      && MachineTotal(GroupsOf(ConfigStats(rows).value), line.group.key[0]) == line.group.total
  {
    MachineLineCounts(rows, i);
    var key := MachineStats(rows).value[i].group.key;
    assert key == [key[0]];
    ConfigLinesOfMachine(rows, key[0]);
  }

  /** Every machine key is a one-element key. */
  lemma MachineKeyShape(rows: seq<BenchmarkRow>, key: seq<string>)
    requires exists g :: g in Tally(MachineObs(rows)) && g.key == key
    ensures |key| == 1
  {
    var obs := MachineObs(rows);
    var g :| g in Tally(obs) && g.key == key;
    TallyKeysFrom(obs, g);
    var i :| 0 <= i < |obs| && obs[i].key == g.key;
    assert obs[i].key == MachineKey(rows[i]);
  }
}
