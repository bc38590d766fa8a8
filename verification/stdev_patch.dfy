/** The schema-compatibility patch applied to every `benchmark.json` before it
    is parsed: every object with a "stdev" key and no "stdev_" key gains
    "stdev_" with the same value, appended after its existing keys. The walk
    recurses into every nested object and array. */
module StdevPatch {

  import opened Results
  import opened Seqs
  import opened Json

  const Stdev: string := "stdev"
  const StdevAlias: string := "stdev_"

  /** The object gets a new "stdev_" key. */
  predicate NeedsAlias(fields: seq<(string, Json)>) {
    HasKey(fields, Stdev) && !HasKey(fields, StdevAlias)
  }

  /** The patched tree. In the Python code the queued "stdev_" value is the very
      object stored under "stdev", which the walk then patches in place; with
      values instead of references that is the patched "stdev" value. */
  function Patch(j: Json): Json
  {
    match j
    case JArr(items) =>
      JArr(seq(|items|, i requires 0 <= i < |items| => Patch(items[i])))
    case JObj(fields) =>
      var patched := seq(|fields|, i requires 0 <= i < |fields| => (fields[i].0, Patch(fields[i].1)));
      if NeedsAlias(fields) then
        JObj(patched + [(StdevAlias, Patch(Lookup(fields, Stdev).value))])
      else JObj(patched)
    case _ => j
  }

  /** Every object, at every depth, that has "stdev" also has "stdev_". */
  predicate Mirrored(j: Json) {
    match j
    case JArr(items) => forall i :: 0 <= i < |items| ==> Mirrored(items[i])
    case JObj(fields) =>
      && (HasKey(fields, Stdev) ==> HasKey(fields, StdevAlias))
      && (forall i :: 0 <= i < |fields| ==> Mirrored(fields[i].1))
    case _ => true
  }

  function MapOption(o: Option<Json>): Option<Json> {
    match o
    case None => None
    case Some(v) => Some(Patch(v))
  }

  lemma {:induction false} LookupPatched(fields: seq<(string, Json)>, key: string)
    ensures
      var patched := seq(|fields|, i requires 0 <= i < |fields| => (fields[i].0, Patch(fields[i].1)));
      Lookup(patched, key) == MapOption(Lookup(fields, key))
  {
    var patched := seq(|fields|, i requires 0 <= i < |fields| => (fields[i].0, Patch(fields[i].1)));
    if |fields| > 0 && fields[0].0 != key {
      LookupPatched(fields[1..], key);
      assert patched[1..] == seq(|fields[1..]|, i requires 0 <= i < |fields[1..]| => (fields[1..][i].0, Patch(fields[1..][i].1)));
    }
  }

  lemma {:induction false} LookupAppend(fields: seq<(string, Json)>, key: string, k: string, v: Json)
    ensures Lookup(fields + [(k, v)], key) ==
      if HasKey(fields, key) then Lookup(fields, key)
      else if k == key then Some(v) else None
  {
    if |fields| > 0 && fields[0].0 != key {
      assert (fields + [(k, v)])[1..] == fields[1..] + [(k, v)];
      LookupAppend(fields[1..], key, k, v);
    }
  }

  /** A key other than "stdev_" keeps its value, patched. */
  lemma {:induction false} PatchObjectLookupOther(fields: seq<(string, Json)>, key: string)
    requires key != StdevAlias
    ensures Patch(JObj(fields)).JObj?
    ensures Lookup(Patch(JObj(fields)).fields, key) == MapOption(Lookup(fields, key))
  {
    var patched := seq(|fields|, i requires 0 <= i < |fields| => (fields[i].0, Patch(fields[i].1)));
    LookupPatched(fields, key);
    if NeedsAlias(fields) {
      LookupAppend(patched, key, StdevAlias, Patch(Lookup(fields, Stdev).value));
    }
  }

  /** An existing "stdev_" is never overwritten; a missing one is added
      exactly when "stdev" is present, with the value of "stdev". */
  lemma {:induction false} PatchObjectLookupAlias(fields: seq<(string, Json)>)
    ensures Patch(JObj(fields)).JObj?
    ensures HasKey(fields, StdevAlias) ==>
      Lookup(Patch(JObj(fields)).fields, StdevAlias) == MapOption(Lookup(fields, StdevAlias))
    ensures HasKey(fields, Stdev) ==>
      Lookup(Patch(JObj(fields)).fields, StdevAlias).Some? &&
      (!HasKey(fields, StdevAlias) ==>
        Lookup(Patch(JObj(fields)).fields, StdevAlias) == Lookup(Patch(JObj(fields)).fields, Stdev))
    ensures !HasKey(fields, Stdev) && !HasKey(fields, StdevAlias) ==>
      Lookup(Patch(JObj(fields)).fields, StdevAlias).None?
  {
    var patched := seq(|fields|, i requires 0 <= i < |fields| => (fields[i].0, Patch(fields[i].1)));
    LookupPatched(fields, StdevAlias);
    if NeedsAlias(fields) {
      var v := Patch(Lookup(fields, Stdev).value);
      LookupPatched(fields, Stdev);
      LookupAppend(patched, StdevAlias, StdevAlias, v);
      LookupAppend(patched, Stdev, StdevAlias, v);
    }
  }

  /** Key order of one object: the old keys in their old order, then "stdev_"
      exactly when it was added. Every old value is replaced by its patch. */
  lemma PatchObjectShape(fields: seq<(string, Json)>)
    ensures Patch(JObj(fields)).JObj?
    ensures var r := Patch(JObj(fields)).fields;
      && Keys(r) == Keys(fields) + (if NeedsAlias(fields) then [StdevAlias] else [])
      && (forall i :: 0 <= i < |fields| ==> r[i] == (fields[i].0, Patch(fields[i].1)))
  {
  }

  /** Arrays keep their length and order; scalars are untouched. */
  lemma PatchArrayAndScalar(j: Json)
    ensures j.JArr? ==>
      && Patch(j).JArr?
      && |Patch(j).items| == |j.items|
      && (forall i :: 0 <= i < |j.items| ==> Patch(j).items[i] == Patch(j.items[i]))
    ensures !j.JArr? && !j.JObj? ==> Patch(j) == j
  {
  }

  /** After patching, every object at every depth that has "stdev" has
      "stdev_": the walk reaches all nested objects and arrays. */
  lemma {:induction false} PatchMirrors(j: Json)
    ensures Mirrored(Patch(j))
  {
    match j
    case JArr(items) =>
      forall i | 0 <= i < |items| ensures Mirrored(Patch(items[i])) {
        PatchMirrors(items[i]);
      }
    case JObj(fields) =>
      var r := Patch(j).fields;
      forall i | 0 <= i < |r| ensures Mirrored(r[i].1) {
        if i < |fields| {
          assert r[i].1 == Patch(fields[i].1);
          PatchMirrors(fields[i].1);
        } else {
          assert r[i].1 == Patch(Lookup(fields, Stdev).value);
          PatchMirrors(Lookup(fields, Stdev).value);
        }
      }
      assert HasKey(r, Stdev) ==> HasKey(r, StdevAlias) by {
        PatchObjectLookupAlias(fields);
        PatchObjectLookupOther(fields, Stdev);
      }
    case _ =>
  }

  /** The documents the patch leaves unchanged are exactly the mirrored ones. */
  lemma {:induction false} PatchFixpoint(j: Json)
    ensures Patch(j) == j <==> Mirrored(j)
  {
    match j
    case JArr(items) =>
      forall i | 0 <= i < |items| ensures Patch(items[i]) == items[i] <==> Mirrored(items[i]) {
        PatchFixpoint(items[i]);
      }
      if Patch(j) == j {
        forall i | 0 <= i < |items| ensures Mirrored(items[i]) {
          assert Patch(j).items[i] == Patch(items[i]);
        }
      }
      if Mirrored(j) {
        assert Patch(j).items == items;
      }
    case JObj(fields) =>
      forall i | 0 <= i < |fields| ensures Patch(fields[i].1) == fields[i].1 <==> Mirrored(fields[i].1) {
        PatchFixpoint(fields[i].1);
      }
      var patched := seq(|fields|, i requires 0 <= i < |fields| => (fields[i].0, Patch(fields[i].1)));
      if Patch(j) == j {
        assert Patch(j).fields == patched;
        forall i | 0 <= i < |fields| ensures Mirrored(fields[i].1) {
          assert patched[i] == fields[i];
        }
      }
      if Mirrored(j) {
        assert patched == fields;
      }
    case _ =>
  }

  /** Applying the patch twice is the same as applying it once. */
  lemma PatchIdempotent(j: Json)
    ensures Patch(Patch(j)) == Patch(j)
  {
    PatchMirrors(j);
    PatchFixpoint(Patch(j));
  }

  /** Patching keeps the keys of every object pairwise distinct. */
  lemma {:induction false} PatchWellFormed(j: Json)
    requires WellFormed(j)
    ensures WellFormed(Patch(j))
  {
    match j
    case JArr(items) =>
      forall i | 0 <= i < |items| ensures WellFormed(Patch(items[i])) {
        PatchWellFormed(items[i]);
      }
    case JObj(fields) =>
      forall i | 0 <= i < |fields| ensures WellFormed(Patch(fields[i].1)) {
        PatchWellFormed(fields[i].1);
      }
      var r := Patch(j).fields;
      PatchObjectShape(fields);
      if NeedsAlias(fields) {
        PatchWellFormed(Lookup(fields, Stdev).value);
        forall a, b | 0 <= a < b < |r| ensures r[a].0 != r[b].0 {
          if b == |fields| {
            assert r[a].0 == fields[a].0;
            assert !HasKey(fields, StdevAlias);
          }
        }
      }
    case _ =>
  }
}
