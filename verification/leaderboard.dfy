/** The leaderboard update (`llm_perf/update_llm_perf_leaderboard.py`): the
    names of the per-cell artifact namespaces and CSV files, the per-cell
    gathering step, and the enumeration of all cells, in which a failing cell
    is reported and skipped. */
module Leaderboard {

  import opened Results
  import opened Seqs
  import opened Json
  import opened StdevPatch
  import opened Catalog

  const MainRepoId: string := "optimum-benchmark/llm-perf-leaderboard"

  /** `PERF_REPO_ID` up to its first placeholder. */
  const PerfRepoPrefix: string := "optimum-benchmark/llm-perf-"
  /** `PERF_DF` up to its first placeholder, and after its last one. */
  const PerfDfPrefix: string := "perf-df-"
  const CsvSuffix: string := ".csv"

  /** "{backend}-{hardware}-{subset}-{machine}", the part both templates share. */
  function CellTag(c: Cell): string {
    c.backend + "-" + c.hardware + "-" + c.subset + "-" + c.machine
  }

  /** `PERF_REPO_ID.format(...)`: the dataset repository of one cell. */
  function PerfRepoId(c: Cell): string {
    PerfRepoPrefix + CellTag(c)
  }

  /** `PERF_DF.format(...)`: the CSV file one cell is uploaded as. */
  function PerfDf(c: Cell): string {
    PerfDfPrefix + CellTag(c) + CsvSuffix
  }

  /** Both names of a cell carry the same "{backend}-{hardware}-{subset}-{machine}"
      tag: the CSV name is the repository id with the "optimum-benchmark/llm-perf-"
      prefix replaced by "perf-df-" and ".csv" appended. */
  lemma CsvNameFromRepoId(c: Cell)
    ensures |PerfRepoPrefix| <= |PerfRepoId(c)|
    ensures PerfRepoId(c)[..|PerfRepoPrefix|] == "optimum-benchmark/llm-perf-"
    ensures PerfDf(c) == "perf-df-" + PerfRepoId(c)[|PerfRepoPrefix|..] + ".csv"
  {
    assert PerfRepoId(c)[|PerfRepoPrefix|..] == CellTag(c);
  }

  lemma PrefixCancel(p: string, x: string, y: string)
    ensures p + x == p + y <==> x == y
  {
    if p + x == p + y {
      assert x == (p + x)[|p|..];
      assert y == (p + y)[|p|..];
    }
  }

  lemma SuffixCancel(x: string, y: string, q: string)
    ensures x + q == y + q <==> x == y
  {
    if x + q == y + q {
      assert |x| == |y|;
      assert x == (x + q)[..|x|];
      assert y == (y + q)[..|y|];
    }
  }

  /** Two cells share a dataset repository exactly when they share a CSV name:
      no two namespaces are uploaded over the same file. */
  lemma RepoIdAndCsvAgree(c1: Cell, c2: Cell)
    ensures PerfRepoId(c1) == PerfRepoId(c2) <==> PerfDf(c1) == PerfDf(c2)
  {
    PrefixCancel(PerfRepoPrefix, CellTag(c1), CellTag(c2));
    PrefixCancel(PerfDfPrefix, CellTag(c1) + CsvSuffix, CellTag(c2) + CsvSuffix);
    SuffixCancel(CellTag(c1), CellTag(c2), CsvSuffix);
    assert PerfDf(c1) == PerfDfPrefix + (CellTag(c1) + CsvSuffix);
    assert PerfDf(c2) == PerfDfPrefix + (CellTag(c2) + CsvSuffix);
  }

  /** The tag joins the four names with "-", which the names may contain
      themselves, so two different cells can share one repository and one CSV
      name. */
  lemma PerfRepoIdNotInjective()
    ensures var c1 := Cell("a-b", "c", "s", "m");
      var c2 := Cell("a", "b-c", "s", "m");
      c1 != c2 && PerfRepoId(c1) == PerfRepoId(c2) && PerfDf(c1) == PerfDf(c2)
  {
    assert CellTag(Cell("a-b", "c", "s", "m")) == "a-b-c-s-m";
    assert CellTag(Cell("a", "b-c", "s", "m")) == "a-b-c-s-m";
  }

  /** Every document, once patched, loads as a frame: `load` stands for
      `Benchmark.from_json(file).to_dataframe()` and is None when that raises. */
  predicate AllLoad(docs: seq<Json>, load: Json -> Option<seq<FlatRow>>) {
    forall k :: 0 <= k < |docs| ==> load(Patch(docs[k])).Some?
  }

  lemma AllLoadSnoc(docs: seq<Json>, load: Json -> Option<seq<FlatRow>>)
    requires |docs| > 0
    ensures AllLoad(docs, load) <==> AllLoad(docs[..|docs| - 1], load) && load(Patch(docs[|docs| - 1])).Some?
  {
    assert forall k :: 0 <= k < |docs| - 1 ==> docs[..|docs| - 1][k] == docs[k];
  }

  /** The rows of the frames of the patched documents, document after
      document; None when loading one of them raises. */
  function Frames(docs: seq<Json>, load: Json -> Option<seq<FlatRow>>): (r: Option<seq<FlatRow>>)
    ensures r.Some? <==> AllLoad(docs, load)
  {
    if |docs| == 0 then Some([])
    else
      AllLoadSnoc(docs, load);
      var init := Frames(docs[..|docs| - 1], load);
      var last := load(Patch(docs[|docs| - 1]));
      if init.None? || last.None? then None else Some(init.value + last.value)
  }

  /** The rows of two runs of documents are those of the first run followed
      by those of the second: order and multiplicity are kept. */
  lemma {:induction false} FramesAppend(a: seq<Json>, b: seq<Json>, load: Json -> Option<seq<FlatRow>>)
    ensures Frames(a + b, load) ==
      if Frames(a, load).Some? && Frames(b, load).Some? then Some(Frames(a, load).value + Frames(b, load).value)
      else None
  {
    if |b| == 0 {
      assert a + b == a;
      if Frames(a, load).Some? {
        assert Frames(a, load).value + [] == Frames(a, load).value;
      }
    } else {
      var b' := b[..|b| - 1];
      var ab := a + b;
      var last := load(Patch(b[|b| - 1]));
      assert ab[..|ab| - 1] == a + b';
      assert ab[|ab| - 1] == b[|b| - 1];
      FramesAppend(a, b', load);
      if Frames(a, load).Some? && Frames(b, load).Some? {
        assert Frames(b, load).value == Frames(b', load).value + last.value;
        assert Frames(a, load).value + Frames(b', load).value + last.value ==
          Frames(a, load).value + (Frames(b', load).value + last.value);
      }
    }
  }

  /** One document contributes exactly the rows of its frame. */
  lemma FramesOne(d: Json, load: Json -> Option<seq<FlatRow>>)
    ensures Frames([d], load) == load(Patch(d))
  {
    assert [d][..0] == [];
    if load(Patch(d)).Some? {
      assert [] + load(Patch(d)).value == load(Patch(d)).value;
    }
  }

  /** The concatenated frame holds exactly the rows of the documents' frames. */
  lemma {:induction false} FramesMembers(docs: seq<Json>, load: Json -> Option<seq<FlatRow>>, row: FlatRow)
    requires AllLoad(docs, load)
    ensures row in Frames(docs, load).value <==>
      exists k :: 0 <= k < |docs| && row in load(Patch(docs[k])).GetOr([])
  {
    if |docs| > 0 {
      var init := docs[..|docs| - 1];
      var last := docs[|docs| - 1];
      AllLoadSnoc(docs, load);
      FramesMembers(init, load, row);
      assert Frames(docs, load).value == Frames(init, load).value + load(Patch(last)).value;
      if exists k :: 0 <= k < |init| && row in load(Patch(init[k])).GetOr([]) {
        var k :| 0 <= k < |init| && row in load(Patch(init[k])).GetOr([]);
        assert docs[k] == init[k];
      }
      if exists k :: 0 <= k < |docs| && row in load(Patch(docs[k])).GetOr([]) {
        var k :| 0 <= k < |docs| && row in load(Patch(docs[k])).GetOr([]);
        if k < |init| {
          assert init[k] == docs[k];
        }
      }
    }
  }

  // pd.concat aligns the frames on their columns.

  /** The column names of all rows, row after row. */
  function AllKeys(rows: seq<FlatRow>): seq<string> {
    if |rows| == 0 then [] else AllKeys(rows[..|rows| - 1]) + Keys(rows[|rows| - 1])
  }

  lemma {:induction false} AllKeysMembers(rows: seq<FlatRow>, c: string)
    ensures c in AllKeys(rows) <==> exists i :: 0 <= i < |rows| && HasKey(rows[i], c)
  {
    if |rows| > 0 {
      var init := rows[..|rows| - 1];
      var last := rows[|rows| - 1];
      AllKeysMembers(init, c);
      assert c in Keys(last) <==> HasKey(last, c) by {
        if HasKey(last, c) {
          var i :| 0 <= i < |last| && last[i].0 == c;
          assert Keys(last)[i] == c;
        }
      }
      if exists i :: 0 <= i < |init| && HasKey(init[i], c) {
        var i :| 0 <= i < |init| && HasKey(init[i], c);
        assert rows[i] == init[i];
      }
      if exists i :: 0 <= i < |rows| && HasKey(rows[i], c) {
        var i :| 0 <= i < |rows| && HasKey(rows[i], c);
        if i < |init| {
          assert init[i] == rows[i];
        }
      }
    }
  }

  /** The columns of the concatenated frame: the union of the frames'
      columns, in order of first appearance, since `pd.concat` does not sort
      them. */
  function Columns(rows: seq<FlatRow>): seq<string> {
    DedupFirst(AllKeys(rows))
  }

  /** A row re-indexed to `cols`: each column in that order, with the row's
      value, or NaN (`JNull`) when the row's frame lacked the column. */
  function Align(row: FlatRow, cols: seq<string>): FlatRow {
    seq(|cols|, k requires 0 <= k < |cols| => (cols[k], Lookup(row, cols[k]).GetOr(JNull)))
  }

  /** Reading an aligned row: a column of `cols` gives the row's own value or
      NaN; any other column is absent. */
  lemma AlignLookup(row: FlatRow, cols: seq<string>, c: string)
    requires Distinct(cols)
    ensures Keys(Align(row, cols)) == cols
    ensures Lookup(Align(row, cols), c) == if c in cols then Some(Lookup(row, c).GetOr(JNull)) else None
  {
    var t := Align(row, cols);
    if c in cols {
      var j :| 0 <= j < |cols| && cols[j] == c;
      assert t[j].0 == c;
      var r := Lookup(t, c);
      var i :| 0 <= i < |t| && t[i] == (c, r.value);
      assert cols[i] == cols[j];
    } else {
      assert !HasKey(t, c);
    }
  }

  /** `pd.concat(frames, ignore_index=True)` on the rows of all frames: every
      row, in order, re-indexed to the union of the columns. */
  function Concat(rows: seq<FlatRow>): seq<FlatRow> {
    var cols := Columns(rows);
    seq(|rows|, k requires 0 <= k < |rows| => Align(rows[k], cols))
  }

  /** The concatenated frame keeps every row in place; each row has exactly
      the columns that some frame has, without repeats and in the same order
      for all rows; it keeps its own values and holds NaN for the columns its
      frame lacked. */
  lemma ConcatMeaning(rows: seq<FlatRow>, k: nat, c: string)
    requires k < |rows|
    ensures |Concat(rows)| == |rows|
    ensures Keys(Concat(rows)[k]) == Columns(rows) && Distinct(Columns(rows))
    ensures HasKey(Concat(rows)[k], c) <==> exists i :: 0 <= i < |rows| && HasKey(rows[i], c)
    ensures HasKey(rows[k], c) ==> Lookup(Concat(rows)[k], c) == Lookup(rows[k], c)
    ensures !HasKey(rows[k], c) && HasKey(Concat(rows)[k], c) ==> Lookup(Concat(rows)[k], c) == Some(JNull)
  {
    var cols := Columns(rows);
    DedupFirstCorrect(AllKeys(rows));
    AllKeysMembers(rows, c);
    AlignLookup(rows[k], cols, c);
    if HasKey(rows[k], c) {
      assert c in AllKeys(rows);
    }
  }

  /** One `upload_file` call: `rows` is the CSV stored in the repository;
      `benchmarks` are the documents as patched on disk before loading. */
  datatype Upload = Upload(repoId: string, pathInRepo: string, benchmarks: seq<Json>, rows: seq<FlatRow>)

  /** `gather_benchmarks` for one cell. `snapshot` stands for the result of
      `snapshot_download` plus the glob: None when the download raises, else the
      `benchmark.json` documents found. Each document is patched, then loaded
      by `load`; `pd.concat` of no frames raises, so an empty snapshot fails
      too. `stored` says whether `to_csv`, `create_repo` and `upload_file`
      complete without raising. */
  function GatherBenchmarks(c: Cell, snapshot: Option<seq<Json>>, load: Json -> Option<seq<FlatRow>>, stored: bool)
    : (r: Result<Upload>)
    ensures r.Ok? <==> snapshot.Some? && |snapshot.value| > 0 && AllLoad(snapshot.value, load) && stored
    ensures r.Ok? ==>
      && r.value.repoId == MainRepoId
      && r.value.pathInRepo == PerfDf(c)
      && |r.value.benchmarks| == |snapshot.value|
      && (forall k :: 0 <= k < |r.value.benchmarks| ==>
            Mirrored(r.value.benchmarks[k]) && r.value.benchmarks[k] == Patch(snapshot.value[k]))
      && r.value.rows == Concat(Frames(snapshot.value, load).value)
  {
    match snapshot
    case None => Err("repository " + PerfRepoId(c) + " could not be downloaded")
    case Some(files) =>
      var frames := Frames(files, load);
      if frames.None? then Err("a benchmark of " + PerfRepoId(c) + " could not be loaded")
      else if |files| == 0 then Err("No objects to concatenate")
      else if !stored then Err(PerfDf(c) + " could not be uploaded to " + MainRepoId)
      else
        var patched := seq(|files|, k requires 0 <= k < |files| => Patch(files[k]));
        assert forall k :: 0 <= k < |patched| ==> Mirrored(patched[k]) by {
          forall k | 0 <= k < |patched| ensures Mirrored(patched[k]) {
            PatchMirrors(files[k]);
          }
        }
        Ok(Upload(MainRepoId, PerfDf(c), patched, Concat(frames.value)))
  }

  /** What the hub and the benchmark library answer: `fetch` is the snapshot
      of a cell's repository (None when `snapshot_download` raises), `load`
      loads one patched document, `store` says whether writing and uploading a
      cell's CSV completes, and `repoExists` is `repo_exists`, None when it
      raises. */
  datatype Hub = Hub(
    fetch: Cell -> Option<seq<Json>>,
    load: Json -> Option<seq<FlatRow>>,
    store: Cell -> bool,
    repoExists: string -> Option<bool>)

  /** Gathering the cell's benchmarks succeeds. */
  predicate Gathers(c: Cell, hub: Hub) {
    hub.fetch(c).Some? && |hub.fetch(c).value| > 0 && AllLoad(hub.fetch(c).value, hub.load) && hub.store(c)
  }

  /** What `update_perf_dfs` does for one cell: upload its CSV, or report it as
      not found together with whether `repo_exists` says the repository exists. */
  datatype CellReport =
    | Uploaded(upload: Upload)
    | NotFound(cell: Cell, repoId: string, existsRemotely: bool)

  /** Any exception `gather_benchmarks` raises is caught and the cell
      reported; an exception from `repo_exists`, called inside the handler,
      escapes. */
  function ReportFor(c: Cell, hub: Hub): (r: Result<CellReport>)
    ensures r.Ok? && r.value.Uploaded? <==> Gathers(c, hub)
    ensures r.Err? <==> !Gathers(c, hub) && hub.repoExists(PerfRepoId(c)).None?
    ensures r.Ok? && r.value.Uploaded? ==> r.value.upload.pathInRepo == PerfDf(c)
    ensures r.Ok? && r.value.NotFound? ==>
      && r.value.cell == c && r.value.repoId == PerfRepoId(c)
      && hub.repoExists(PerfRepoId(c)) == Some(r.value.existsRemotely)
  {
    match GatherBenchmarks(c, hub.fetch(c), hub.load, hub.store(c))
    case Ok(u) => Ok(Uploaded(u))
    case Err(_) =>
      match hub.repoExists(PerfRepoId(c))
      case None => Err("repo_exists failed for " + PerfRepoId(c))
      case Some(present) => Ok(NotFound(c, PerfRepoId(c), present))
  }

  /** What a run of `update_perf_dfs` leaves behind: the reports of the cells
      it got through, in order, and the error that ended it early, if any. */
  datatype Run = Run(log: seq<CellReport>, stopped: Option<string>)

  /** `r1` followed by `r2`; once a run has stopped, nothing more happens. */
  function Extend(r1: Run, r2: Run): Run {
    if r1.stopped.Some? then r1 else Run(r1.log + r2.log, r2.stopped)
  }

  lemma ExtendAssociative(x: Run, y: Run, z: Run)
    ensures Extend(Extend(x, y), z) == Extend(x, Extend(y, z))
  {
    if x.stopped.None? && y.stopped.None? {
      assert (x.log + y.log) + z.log == x.log + (y.log + z.log);
    }
  }

  /** One cell: its report, or the error that ends the run. */
  function Step(c: Cell, hub: Hub): Run {
    match ReportFor(c, hub)
    case Ok(report) => Run([report], None)
    case Err(msg) => Run([], Some(msg))
  }

  /** The run over the given cells, in order. */
  function RunCells(cells: seq<Cell>, hub: Hub): Run {
    if |cells| == 0 then Run([], None)
    else Extend(RunCells(cells[..|cells| - 1], hub), Step(cells[|cells| - 1], hub))
  }

  lemma {:induction false} RunCellsAppend(a: seq<Cell>, b: seq<Cell>, hub: Hub)
    ensures RunCells(a + b, hub) == Extend(RunCells(a, hub), RunCells(b, hub))
  {
    if |b| == 0 {
      assert a + b == a;
      assert RunCells(a, hub).log + [] == RunCells(a, hub).log;
    } else {
      var b' := b[..|b| - 1];
      var ab := a + b;
      var last := Step(b[|b| - 1], hub);
      assert ab[..|ab| - 1] == a + b';
      assert ab[|ab| - 1] == b[|b| - 1];
      assert RunCells(ab, hub) == Extend(RunCells(a + b', hub), last);
      assert RunCells(b, hub) == Extend(RunCells(b', hub), last);
      RunCellsAppend(a, b', hub);
      ExtendAssociative(RunCells(a, hub), RunCells(b', hub), last);
    }
  }

  lemma RunCellsOne(c: Cell, hub: Hub)
    ensures RunCells([c], hub) == Step(c, hub)
  {
    assert [c][..0] == [];
    assert [] + Step(c, hub).log == Step(c, hub).log;
  }

  /** A run reports the cells in order, each as `ReportFor` says, and stops at
      the first cell whose handler raises; it gets through every cell exactly
      when no handler raises. */
  lemma {:induction false} RunCellsMeaning(cells: seq<Cell>, hub: Hub)
    ensures var r := RunCells(cells, hub);
      && |r.log| <= |cells|
      && (forall k :: 0 <= k < |r.log| ==> ReportFor(cells[k], hub) == Ok(r.log[k]))
      && (r.stopped.None? ==> |r.log| == |cells|)
      && (r.stopped.Some? ==> |r.log| < |cells| && ReportFor(cells[|r.log|], hub) == Err(r.stopped.value))
      && (r.stopped.None? <==> forall k :: 0 <= k < |cells| ==> ReportFor(cells[k], hub).Ok?)
  {
    if |cells| > 0 {
      var init := cells[..|cells| - 1];
      var c := cells[|cells| - 1];
      var r0 := RunCells(init, hub);
      var r := RunCells(cells, hub);
      RunCellsMeaning(init, hub);
      assert forall k :: 0 <= k < |init| ==> init[k] == cells[k];
      if r0.stopped.None? {
        assert |r0.log| == |init|;
        forall k | 0 <= k < |r.log| ensures ReportFor(cells[k], hub) == Ok(r.log[k]) {
          if k < |init| {
            assert r.log[k] == r0.log[k];
          }
        }
      }
    }
  }

  /** Once a run has got through `a` it has nothing left to run when the
      loop ended because it stopped or because `b` is empty. */
  lemma RunCellsDone(a: seq<Cell>, b: seq<Cell>, hub: Hub)
    requires RunCells(a, hub).stopped.Some? || b == []
    ensures RunCells(a + b, hub) == RunCells(a, hub)
  {
    RunCellsAppend(a, b, hub);
    if b == [] {
      assert RunCells(a, hub).log + [] == RunCells(a, hub).log;
    }
  }

  /** The body of the innermost loop of `update_perf_dfs` for one cell: gather
      its benchmarks and, when that raises, ask `repo_exists`. */
  method HandleCell(cell: Cell, hub: Hub) returns (step: Run)
    ensures step == Step(cell, hub)
    ensures |step.log| + (if step.stopped.Some? then 1 else 0) == 1
  {
    var gathered := GatherBenchmarks(cell, hub.fetch(cell), hub.load, hub.store(cell));
    if gathered.Ok? {
      step := Run([Uploaded(gathered.value)], None);
    } else {
      var url := PerfRepoId(cell);
      var answer := hub.repoExists(url);
      if answer.Some? {
        step := Run([NotFound(cell, url, answer.value)], None);
      } else {
        step := Run([], Some("repo_exists failed for " + url));
      }
    }
  }

  /** The innermost loop of `update_perf_dfs`: one subset of one catalog
      entry, every backend in order, until `repo_exists` raises. */
  method UpdateSubset(hc: HardwareConfig, subset: string, hub: Hub) returns (run: Run)
    ensures run == RunCells(RowCells(hc, subset, hc.backends), hub)
  {
    run := Run([], None);
    var k := 0;
    while k < |hc.backends| && run.stopped.None?
      invariant 0 <= k <= |hc.backends|
      invariant run == RunCells(RowCells(hc, subset, hc.backends[..k]), hub)
    {
      var cell := Cell(hc.backends[k], hc.hardware, subset, hc.machine);
      var step := HandleCell(cell, hub);
      assert RowCells(hc, subset, hc.backends[..k + 1]) == RowCells(hc, subset, hc.backends[..k]) + [cell];
      RunCellsOne(cell, hub);
      RunCellsAppend(RowCells(hc, subset, hc.backends[..k]), [cell], hub);
      run := Extend(run, step);
      k := k + 1;
    }
    RowCellsSplit(hc, subset, hc.backends, k);
    RunCellsDone(RowCells(hc, subset, hc.backends[..k]), RowCells(hc, subset, hc.backends[k..]), hub);
  }

  /** The middle loop of `update_perf_dfs`: one catalog entry, every subset
      in order, until `repo_exists` raises. */
  method UpdateConfig(hc: HardwareConfig, hub: Hub) returns (run: Run)
    ensures run == RunCells(CellsFor(hc, hc.subsets), hub)
  {
    run := Run([], None);
    var j := 0;
    while j < |hc.subsets| && run.stopped.None?
      invariant 0 <= j <= |hc.subsets|
      invariant run == RunCells(CellsFor(hc, hc.subsets[..j]), hub)
    {
      var subset := hc.subsets[j];
      var row := UpdateSubset(hc, subset, hub);
      assert CellsFor(hc, hc.subsets[..j + 1]) == CellsFor(hc, hc.subsets[..j]) + RowCells(hc, subset, hc.backends) by {
        assert hc.subsets[..j + 1] == hc.subsets[..j] + [subset];
        CellsForSnoc(hc, hc.subsets[..j], subset);
      }
      RunCellsAppend(CellsFor(hc, hc.subsets[..j]), RowCells(hc, subset, hc.backends), hub);
      run := Extend(run, row);
      j := j + 1;
    }
    assert hc.subsets[..j] + hc.subsets[j..] == hc.subsets;
    CellsForAppend(hc, hc.subsets[..j], hc.subsets[j..]);
    RunCellsDone(CellsFor(hc, hc.subsets[..j]), CellsFor(hc, hc.subsets[j..]), hub);
  }

  /** `update_perf_dfs`: the (hardware config, subset, backend) cells are
      visited in catalog order, subset outer and backend inner. A cell whose
      gathering fails, at whatever step, is reported and the loop goes on
      with the next; an exception from `repo_exists` in the handler ends the
      whole run at that cell. */
  method UpdatePerfDfs(configs: seq<HardwareConfig>, hub: Hub) returns (run: Run)
    ensures run == RunCells(Cells(configs), hub)
    ensures |run.log| <= |Cells(configs)|
    ensures forall k :: 0 <= k < |run.log| ==> ReportFor(Cells(configs)[k], hub) == Ok(run.log[k])
    ensures run.stopped.None? <==> forall k :: 0 <= k < |Cells(configs)| ==> ReportFor(Cells(configs)[k], hub).Ok?
    ensures run.stopped.None? ==> |run.log| == |Cells(configs)|
    ensures run.stopped.Some? ==>
      |run.log| < |Cells(configs)| && ReportFor(Cells(configs)[|run.log|], hub) == Err(run.stopped.value)
  {
    run := Run([], None);
    var i := 0;
    while i < |configs| && run.stopped.None?
      invariant 0 <= i <= |configs|
      invariant run == RunCells(Cells(configs[..i]), hub)
    {
      var block := UpdateConfig(configs[i], hub);
      assert Cells(configs[..i + 1]) == Cells(configs[..i]) + CellsFor(configs[i], configs[i].subsets) by {
        assert configs[..i + 1][..i] == configs[..i];
      }
      RunCellsAppend(Cells(configs[..i]), CellsFor(configs[i], configs[i].subsets), hub);
      run := Extend(run, block);
      i := i + 1;
    }
    assert configs[..i] + configs[i..] == configs;
    CellsAppend(configs[..i], configs[i..]);
    RunCellsDone(Cells(configs[..i]), Cells(configs[i..]), hub);
    RunCellsMeaning(Cells(configs), hub);
  }
}
