/** `df.groupby(keys).agg(Total=count, Failed=count of ⛔️)` over the status
    rows: one group per distinct key, groups in ascending key order (pandas
    sorts group keys), with integer counts. */
module GroupStats {

  import opened LexOrder

  /** One row as the aggregation sees it: its group key and whether its status
      is the failure mark. */
  datatype Observation = Observation(key: seq<string>, failed: bool)

  /** One output row: the key, `Total_Benchmarks`, `Failed_Benchmarks`. */
  datatype Group = Group(key: seq<string>, total: nat, failed: nat)

  function Flag(b: bool): nat {
    if b then 1 else 0
  }

  /** Counts one more observation into groups sorted by key. */
  function Insert(gs: seq<Group>, key: seq<string>, failed: bool): seq<Group>
  {
    if |gs| == 0 then [Group(key, 1, Flag(failed))]
    else if gs[0].key == key then [Group(key, gs[0].total + 1, gs[0].failed + Flag(failed))] + gs[1..]
    else if KeyLess(key, gs[0].key) then [Group(key, 1, Flag(failed))] + gs
    else [gs[0]] + Insert(gs[1..], key, failed)
  }

  /** The aggregation of all observations. */
  function Tally(obs: seq<Observation>): seq<Group>
  {
    if |obs| == 0 then []
    else Insert(Tally(obs[..|obs| - 1]), obs[|obs| - 1].key, obs[|obs| - 1].failed)
  }

  /** Number of observations with key `k`. */
  function CountKey(obs: seq<Observation>, k: seq<string>): nat {
    if |obs| == 0 then 0
    else CountKey(obs[..|obs| - 1], k) + (if obs[|obs| - 1].key == k then 1 else 0)
  }

  /** Number of failed observations with key `k`. */
  function CountFailed(obs: seq<Observation>, k: seq<string>): nat {
    if |obs| == 0 then 0
    else CountFailed(obs[..|obs| - 1], k) + (if obs[|obs| - 1].key == k && obs[|obs| - 1].failed then 1 else 0)
  }

  /** Group keys strictly ascending: hence pairwise distinct. */
  predicate Sorted(gs: seq<Group>) {
    forall i, j :: 0 <= i < j < |gs| ==> KeyLess(gs[i].key, gs[j].key)
  }

  /** Every group counts at least one row and no more failures than rows. */
  predicate Bounded(gs: seq<Group>) {
    forall i :: 0 <= i < |gs| ==> 1 <= gs[i].total && gs[i].failed <= gs[i].total
  }

  /** Sum of the totals of the groups with key `k`. */
  function TotalOf(gs: seq<Group>, k: seq<string>): nat {
    if |gs| == 0 then 0 else (if gs[0].key == k then gs[0].total else 0) + TotalOf(gs[1..], k)
  }

  function FailedOf(gs: seq<Group>, k: seq<string>): nat {
    if |gs| == 0 then 0 else (if gs[0].key == k then gs[0].failed else 0) + FailedOf(gs[1..], k)
  }

  function SumTotals(gs: seq<Group>): nat {
    if |gs| == 0 then 0 else gs[0].total + SumTotals(gs[1..])
  }

  /** The machine of a key: its last component (the key is either (machine)
      or (backend, hardware, subset, machine)). */
  function MachineOf(key: seq<string>): string {
    if |key| == 0 then "" else key[|key| - 1]
  }

  /** Sum of the totals of the groups whose key ends with machine `m`. */
  function MachineTotal(gs: seq<Group>, m: string): nat {
    if |gs| == 0 then 0 else (if MachineOf(gs[0].key) == m then gs[0].total else 0) + MachineTotal(gs[1..], m)
  }

  /** Number of observations whose key ends with machine `m`. */
  function CountMachine(obs: seq<Observation>, m: string): nat {
    if |obs| == 0 then 0
    else CountMachine(obs[..|obs| - 1], m) + (if MachineOf(obs[|obs| - 1].key) == m then 1 else 0)
  }

  /** A lower bound of every key, and of the inserted key, bounds every key
      after inserting. */
  lemma {:induction false} InsertAbove(gs: seq<Group>, key: seq<string>, failed: bool, lo: seq<string>)
    requires forall i :: 0 <= i < |gs| ==> KeyLess(lo, gs[i].key)
    requires KeyLess(lo, key)
    ensures forall i :: 0 <= i < |Insert(gs, key, failed)| ==> KeyLess(lo, Insert(gs, key, failed)[i].key)
  {
    var r := Insert(gs, key, failed);
    if |gs| == 0 {
    } else if gs[0].key == key {
      assert forall i :: 0 <= i < |r| ==> r[i].key == gs[i].key;
    } else if KeyLess(key, gs[0].key) {
      assert forall i :: 1 <= i < |r| ==> r[i] == gs[i - 1];
    } else {
      var rest := Insert(gs[1..], key, failed);
      assert r == [gs[0]] + rest;
      assert forall i :: 0 <= i < |gs[1..]| ==> gs[1..][i] == gs[i + 1];
      InsertAbove(gs[1..], key, failed, lo);
      assert forall i :: 1 <= i < |r| ==> r[i] == rest[i - 1];
    }
  }

  /** Inserting keeps the keys sorted. */
  lemma {:induction false} InsertSorted(gs: seq<Group>, key: seq<string>, failed: bool)
    requires Sorted(gs)
    ensures Sorted(Insert(gs, key, failed))
  {
    var r := Insert(gs, key, failed);
    if |gs| == 0 {
    } else if gs[0].key == key {
      assert forall i :: 0 <= i < |r| ==> r[i].key == gs[i].key;
    } else if KeyLess(key, gs[0].key) {
      forall j | 0 < j < |r| ensures KeyLess(r[0].key, r[j].key) {
        if j > 1 {
          KeyLessTransitive(key, gs[0].key, gs[j - 1].key);
        }
      }
    } else {
      KeyLessTotal(key, gs[0].key);
      var rest := Insert(gs[1..], key, failed);
      assert r == [gs[0]] + rest;
      assert Sorted(gs[1..]);
      InsertSorted(gs[1..], key, failed);
      assert forall i :: 0 <= i < |gs[1..]| ==> KeyLess(gs[0].key, gs[1..][i].key);
      InsertAbove(gs[1..], key, failed, gs[0].key);
    }
  }

  /** Inserting adds one row to its key's group and one failure when failed. */
  lemma {:induction false} InsertCounts(gs: seq<Group>, key: seq<string>, failed: bool, k: seq<string>)
    ensures TotalOf(Insert(gs, key, failed), k) == TotalOf(gs, k) + (if k == key then 1 else 0)
    ensures FailedOf(Insert(gs, key, failed), k) == FailedOf(gs, k) + (if k == key && failed then 1 else 0)
    ensures MachineTotal(Insert(gs, key, failed), MachineOf(k)) ==
      MachineTotal(gs, MachineOf(k)) + (if MachineOf(key) == MachineOf(k) then 1 else 0)
    ensures SumTotals(Insert(gs, key, failed)) == SumTotals(gs) + 1
  {
    if |gs| > 0 && gs[0].key != key && !KeyLess(key, gs[0].key) {
      InsertCounts(gs[1..], key, failed, k);
      assert Insert(gs, key, failed)[1..] == Insert(gs[1..], key, failed);
    } else if |gs| > 0 && gs[0].key == key {
      assert Insert(gs, key, failed)[1..] == gs[1..];
    } else if |gs| > 0 {
      assert Insert(gs, key, failed)[1..] == gs;
    }
  }

  lemma {:induction false} InsertBounded(gs: seq<Group>, key: seq<string>, failed: bool)
    requires Bounded(gs)
    ensures Bounded(Insert(gs, key, failed))
  {
    if |gs| > 0 && gs[0].key != key && !KeyLess(key, gs[0].key) {
      assert Bounded(gs[1..]);
      InsertBounded(gs[1..], key, failed);
    }
  }

  /** The invariants of the aggregation, kept by every inserted observation. */
  lemma {:induction false} TallyInvariant(obs: seq<Observation>, k: seq<string>)
    ensures Sorted(Tally(obs)) && Bounded(Tally(obs))
    ensures TotalOf(Tally(obs), k) == CountKey(obs, k)
    ensures FailedOf(Tally(obs), k) == CountFailed(obs, k)
    ensures MachineTotal(Tally(obs), MachineOf(k)) == CountMachine(obs, MachineOf(k))
    ensures SumTotals(Tally(obs)) == |obs|
  {
    if |obs| > 0 {
      var init := obs[..|obs| - 1];
      var o := obs[|obs| - 1];
      TallyInvariant(init, k);
      InsertSorted(Tally(init), o.key, o.failed);
      InsertBounded(Tally(init), o.key, o.failed);
      InsertCounts(Tally(init), o.key, o.failed, k);
    }
  }

  /** In a sorted list the group of a key is the only one with that key. */
  lemma {:induction false} TotalOfSorted(gs: seq<Group>, i: nat)
    requires Sorted(gs) && i < |gs|
    ensures TotalOf(gs, gs[i].key) == gs[i].total
    ensures FailedOf(gs, gs[i].key) == gs[i].failed
  {
    if i == 0 {
      assert forall m :: 0 <= m < |gs[1..]| ==> gs[1..][m] == gs[m + 1];
      TotalOfAbsent(gs[1..], gs[0].key);
    } else {
      KeyLessAsymmetric(gs[0].key, gs[i].key);
      assert gs[1..][i - 1] == gs[i];
      TotalOfSorted(gs[1..], i - 1);
    }
  }

  lemma {:induction false} TotalOfAbsent(gs: seq<Group>, k: seq<string>)
    requires forall i :: 0 <= i < |gs| ==> KeyLess(k, gs[i].key)
    ensures TotalOf(gs, k) == 0 && FailedOf(gs, k) == 0
  {
    if |gs| > 0 {
      KeyLessIrreflexive(k);
      assert forall i :: 0 <= i < |gs[1..]| ==> gs[1..][i] == gs[i + 1];
      TotalOfAbsent(gs[1..], k);
    }
  }

  /** Every observation's key has a group. */
  lemma {:induction false} TallyCovers(obs: seq<Observation>, i: nat)
    requires i < |obs|
    ensures exists g :: g in Tally(obs) && g.key == obs[i].key
  {
    TallyInvariant(obs, obs[i].key);
    CountKeyPositive(obs, i);
    TotalOfPositive(Tally(obs), obs[i].key);
  }

  lemma {:induction false} CountKeyPositive(obs: seq<Observation>, i: nat)
    requires i < |obs|
    ensures CountKey(obs, obs[i].key) >= 1
  {
    if i < |obs| - 1 {
      CountKeyPositive(obs[..|obs| - 1], i);
    }
  }

  lemma {:induction false} TotalOfPositive(gs: seq<Group>, k: seq<string>)
    requires TotalOf(gs, k) > 0
    ensures exists g :: g in gs && g.key == k
  {
    if gs[0].key != k {
      TotalOfPositive(gs[1..], k);
    }
  }

  /** Inserting adds no key but the inserted one. */
  lemma {:induction false} InsertKeys(gs: seq<Group>, key: seq<string>, failed: bool, g: Group)
    requires g in Insert(gs, key, failed)
    ensures g.key == key || exists h :: h in gs && h.key == g.key
  {
    if |gs| > 0 && gs[0].key != key && !KeyLess(key, gs[0].key) && g != gs[0] {
      InsertKeys(gs[1..], key, failed, g);
      if g.key != key {
        var h :| h in gs[1..] && h.key == g.key;
        assert h in gs;
      }
    }
  }

  /** Every group's key is the key of some observation. */
  lemma {:induction false} TallyKeysFrom(obs: seq<Observation>, g: Group)
    requires g in Tally(obs)
    ensures exists i :: 0 <= i < |obs| && obs[i].key == g.key
  {
    var init := obs[..|obs| - 1];
    var o := obs[|obs| - 1];
    InsertKeys(Tally(init), o.key, o.failed, g);
    if g.key != o.key {
      var h :| h in Tally(init) && h.key == g.key;
      TallyKeysFrom(init, h);
      var i :| 0 <= i < |init| && init[i].key == h.key;
      assert obs[i] == init[i];
    }
  }
}
