/** The hardware catalog (`llm_perf/hardware.yaml`, loaded by
    `load_hardware_configs`) and the (hardware config, subset, backend) cells
    that both the leaderboard update and the dashboard enumerate. */
module Catalog {

  import opened Seqs
  import opened Product

  /** One entry of the catalog. The YAML lists are kept as sequences: the
      loops visit them in file order. */
  datatype HardwareConfig = HardwareConfig(
    machine: string,
    hardware: string,
    subsets: seq<string>,
    backends: seq<string>)

  /** One (backend, hardware, subset, machine) cell: one remote namespace. */
  datatype Cell = Cell(backend: string, hardware: string, subset: string, machine: string)

  /** The cells of `hc` for the given subsets: subset outer, backend inner. */
  function CellsFor(hc: HardwareConfig, subsets: seq<string>): (r: seq<Cell>)
    ensures |r| == |Pairs(subsets, hc.backends)|
  {
    var ps := Pairs(subsets, hc.backends);
    seq(|ps|, k requires 0 <= k < |ps| => Cell(ps[k].1, hc.hardware, ps[k].0, hc.machine))
  }

  /** `for hardware_config in hardware_configs: for subset in
      hardware_config.subsets: for backend in hardware_config.backends`. */
  function Cells(configs: seq<HardwareConfig>): seq<Cell>
  {
    if |configs| == 0 then []
    else Cells(configs[..|configs| - 1]) + CellsFor(configs[|configs| - 1], configs[|configs| - 1].subsets)
  }

  /** Within one catalog entry, the cell for (subsets[i], backends[j]) sits at
      position i * |backends| + j: subset outer, backend inner, each visited once. */
  lemma CellsForIndex(hc: HardwareConfig, i: nat, j: nat)
    requires i < |hc.subsets| && j < |hc.backends|
    ensures |CellsFor(hc, hc.subsets)| == |hc.subsets| * |hc.backends|
    ensures i * |hc.backends| + j < |CellsFor(hc, hc.subsets)|
    ensures CellsFor(hc, hc.subsets)[i * |hc.backends| + j] ==
      Cell(hc.backends[j], hc.hardware, hc.subsets[i], hc.machine)
  {
    PairsLength(hc.subsets, hc.backends);
    PairAt(hc.subsets, hc.backends, i, j);
  }

  /** The cells of `hc` for one subset and the given backends. */
  function RowCells(hc: HardwareConfig, subset: string, backends: seq<string>): (r: seq<Cell>)
    ensures |r| == |backends|
  {
    seq(|backends|, k requires 0 <= k < |backends| => Cell(backends[k], hc.hardware, subset, hc.machine))
  }

  /** One more subset appends one row of cells, one per backend. */
  lemma CellsForSnoc(hc: HardwareConfig, subsets: seq<string>, s: string)
    ensures CellsFor(hc, subsets + [s]) == CellsFor(hc, subsets) + RowCells(hc, s, hc.backends)
  {
    PairsSnoc(subsets, s, hc.backends);
  }

  /** The backends before position k, then the rest. */
  lemma RowCellsSplit(hc: HardwareConfig, subset: string, backends: seq<string>, k: nat)
    requires k <= |backends|
    ensures RowCells(hc, subset, backends) == RowCells(hc, subset, backends[..k]) + RowCells(hc, subset, backends[k..])
  {
  }

  /** The cells of two runs of subsets are the cells of each, in order. */
  lemma {:induction false} CellsForAppend(hc: HardwareConfig, a: seq<string>, b: seq<string>)
    ensures CellsFor(hc, a + b) == CellsFor(hc, a) + CellsFor(hc, b)
  {
    if |b| == 0 {
      assert a + b == a;
    } else {
      var b' := b[..|b| - 1];
      var s := b[|b| - 1];
      assert a + b == (a + b') + [s] && b == b' + [s];
      CellsForAppend(hc, a, b');
      CellsForSnoc(hc, a + b', s);
      CellsForSnoc(hc, b', s);
    }
  }

  /** The cells of a catalog are the cells of its entries, entry by entry. */
  lemma {:induction false} CellsAppend(a: seq<HardwareConfig>, b: seq<HardwareConfig>)
    ensures Cells(a + b) == Cells(a) + Cells(b)
  {
    if |b| == 0 {
      assert a + b == a;
    } else {
      var b' := b[..|b| - 1];
      assert (a + b)[..|a + b| - 1] == a + b';
      CellsAppend(a, b');
    }
  }

  /** Catalog entry `hc` produces cell `c`. */
  predicate Produces(hc: HardwareConfig, c: Cell) {
    && c.hardware == hc.hardware
    && c.machine == hc.machine
    && c.subset in hc.subsets
    && c.backend in hc.backends
  }

  /** A cell is enumerated iff some catalog entry has its hardware, machine,
      one of its subsets and one of its backends. */
  lemma {:induction false} CellsMembership(configs: seq<HardwareConfig>, c: Cell)
    ensures c in Cells(configs) <==> exists k :: 0 <= k < |configs| && Produces(configs[k], c)
  {
    if |configs| > 0 {
      var init := configs[..|configs| - 1];
      var hc := configs[|configs| - 1];
      CellsMembership(init, c);
      PairsMembership(hc.subsets, hc.backends, c.subset, c.backend);
      var ps := Pairs(hc.subsets, hc.backends);
      var row := CellsFor(hc, hc.subsets);
      if c in row {
        var k :| 0 <= k < |row| && row[k] == c;
        assert ps[k] == (c.subset, c.backend);
        assert Produces(configs[|configs| - 1], c);
      }
      if Produces(hc, c) {
        var k :| 0 <= k < |ps| && ps[k] == (c.subset, c.backend);
        assert row[k] == c;
      }
      if exists k :: 0 <= k < |init| && Produces(init[k], c) {
        var k :| 0 <= k < |init| && Produces(init[k], c);
        assert configs[k] == init[k];
      }
      if exists k :: 0 <= k < |configs| && Produces(configs[k], c) {
        var k :| 0 <= k < |configs| && Produces(configs[k], c);
        if k < |init| {
          assert init[k] == configs[k];
        }
      }
    }
  }
}
