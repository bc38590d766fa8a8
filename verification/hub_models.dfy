/** The record projection and per-organization totals of
    `src/common/get_top_model_from_hub.py`. */
module HubModels {

  import opened Results
  import opened Seqs
  import opened Ranking

  const Slash: char := '/'

  /** Python's `s.split(sep)`: the pieces between separators, possibly empty. */
  function Split(s: string, sep: char): (r: seq<string>)
    ensures |r| >= 1
    ensures forall i :: 0 <= i < |r| ==> sep !in r[i]
  {
    if |s| == 0 then [""]
    else
      var p := Split(s[..|s| - 1], sep);
      if s[|s| - 1] == sep then p + [""]
      else p[..|p| - 1] + [p[|p| - 1] + [s[|s| - 1]]]
  }

  /** `sep.join(pieces)`. */
  function Join(pieces: seq<string>, sep: char): string
    requires |pieces| >= 1
  {
    if |pieces| == 1 then pieces[0]
    else Join(pieces[..|pieces| - 1], sep) + [sep] + pieces[|pieces| - 1]
  }

  /** There is one more piece than there are separators. */
  lemma {:induction false} SplitCount(s: string, sep: char)
    ensures |Split(s, sep)| == Count(s, sep) + 1
  {
    if |s| > 0 {
      SplitCount(s[..|s| - 1], sep);
    }
  }

  /** Extending the last piece extends the join. */
  lemma JoinExtendLast(p: seq<string>, sep: char, c: char)
    requires |p| >= 1
    ensures Join(p[..|p| - 1] + [p[|p| - 1] + [c]], sep) == Join(p, sep) + [c]
  {
    var q := p[..|p| - 1] + [p[|p| - 1] + [c]];
    if |p| > 1 {
      assert q[..|q| - 1] == p[..|p| - 1];
    }
  }

  /** An empty last piece adds a trailing separator. */
  lemma JoinEmptyLast(p: seq<string>, sep: char)
    requires |p| >= 1
    ensures Join(p + [""], sep) == Join(p, sep) + [sep]
  {
    var q := p + [""];
    assert q[..|q| - 1] == p;
  }

  /** One more character: the round trip carries over from the prefix. */
  lemma SplitSnocJoin(s: string, sep: char)
    requires |s| > 0 && Join(Split(s[..|s| - 1], sep), sep) == s[..|s| - 1]
    ensures Join(Split(s, sep), sep) == s
  {
    var init := s[..|s| - 1];
    var c := s[|s| - 1];
    var p := Split(init, sep);
    DropLastAppend(s);
    if c != sep {
      JoinExtendLast(p, sep, c);
      assert Split(s, sep) == p[..|p| - 1] + [p[|p| - 1] + [c]];
    } else {
      JoinEmptyLast(p, sep);
      assert Split(s, sep) == p + [""];
    }
  }

  lemma DropLastAppend(s: string)
    requires |s| > 0
    ensures s[..|s| - 1] + [s[|s| - 1]] == s
  {
  }

  /** Joining the pieces gives back the string. */
  lemma {:induction false} SplitJoinRoundTrip(s: string, sep: char)
    ensures Join(Split(s, sep), sep) == s
  {
    if |s| > 0 {
      SplitJoinRoundTrip(s[..|s| - 1], sep);
      SplitSnocJoin(s, sep);
    }
  }

  /** Joining the pieces gives back the string, and there is one more piece
      than there are separators. */
  lemma SplitJoin(s: string, sep: char)
    ensures Join(Split(s, sep), sep) == s
    ensures |Split(s, sep)| == Count(s, sep) + 1
  {
    SplitJoinRoundTrip(s, sep);
    SplitCount(s, sep);
  }

  /** Splitting a join of separator-free pieces gives the pieces back. */
  lemma {:induction false} JoinSplit(pieces: seq<string>, sep: char)
    requires |pieces| >= 1
    requires forall i :: 0 <= i < |pieces| ==> sep !in pieces[i]
    ensures Split(Join(pieces, sep), sep) == pieces
  {
    if |pieces| == 1 {
      SplitPlain(pieces[0], sep);
    } else {
      var init := pieces[..|pieces| - 1];
      var last := pieces[|pieces| - 1];
      JoinSplit(init, sep);
      SplitAfter(Join(init, sep), sep, last);
    }
  }

  /** A string without separators is one piece. */
  lemma {:induction false} SplitPlain(s: string, sep: char)
    requires sep !in s
    ensures Split(s, sep) == [s]
  {
    if |s| > 0 {
      SplitPlain(s[..|s| - 1], sep);
      assert s[..|s| - 1] + [s[|s| - 1]] == s;
    }
  }

  /** Appending a separator and a separator-free word adds one piece. */
  lemma {:induction false} SplitAfter(s: string, sep: char, w: string)
    requires sep !in w
    ensures Split(s + [sep] + w, sep) == Split(s, sep) + [w]
  {
    if |w| == 0 {
      assert s + [sep] + w == s + [sep];
      assert (s + [sep])[..|s|] == s;
    } else {
      var w' := w[..|w| - 1];
      var t := s + [sep] + w;
      assert t[..|t| - 1] == s + [sep] + w';
      SplitAfter(s, sep, w');
      assert w' + [w[|w| - 1]] == w;
    }
  }

  /** `id.split("/")[0]`: the part before the first "/". */
  function Organization(id: string): string {
    Split(id, Slash)[0]
  }

  /** `id.split("/")[-1]`: the part after the last "/". */
  function ModelName(id: string): string {
    var p := Split(id, Slash);
    p[|p| - 1]
  }

  /** The join of the pieces begins with the first piece, followed by the
      separator when there are more. */
  lemma {:induction false} JoinStarts(pieces: seq<string>, sep: char)
    requires |pieces| >= 1
    ensures |pieces[0]| <= |Join(pieces, sep)| && Join(pieces, sep)[..|pieces[0]|] == pieces[0]
    ensures |pieces| > 1 ==> |pieces[0]| < |Join(pieces, sep)| && Join(pieces, sep)[|pieces[0]|] == sep
  {
    if |pieces| > 1 {
      var init := pieces[..|pieces| - 1];
      JoinStarts(init, sep);
      var j := Join(init, sep);
      assert Join(pieces, sep) == j + [sep] + pieces[|pieces| - 1];
      assert (j + [sep] + pieces[|pieces| - 1])[..|pieces[0]|] == j[..|pieces[0]|];
    }
  }

  /** The organization is the text before the first "/" (all of the id when
      there is none); the model name is the text after the last "/". */
  lemma OrganizationAndModelName(id: string)
    ensures Slash !in Organization(id) && Slash !in ModelName(id)
    ensures |Organization(id)| <= |id| && id[..|Organization(id)|] == Organization(id)
    ensures Slash in id ==> |Organization(id)| < |id| && id[|Organization(id)|] == Slash
    ensures |ModelName(id)| <= |id| && id[|id| - |ModelName(id)|..] == ModelName(id)
    ensures Slash in id ==> |ModelName(id)| < |id| && id[|id| - |ModelName(id)| - 1] == Slash
    ensures Slash !in id ==> Organization(id) == id && ModelName(id) == id
  {
    var p := Split(id, Slash);
    SplitJoin(id, Slash);
    JoinStarts(p, Slash);
    if |p| > 1 {
      var j := Join(p[..|p| - 1], Slash);
      assert id == j + [Slash] + p[|p| - 1];
      assert id[|id| - |p[|p| - 1]|..] == p[|p| - 1];
      assert id[|id| - |p[|p| - 1]| - 1] == Slash;
    }
  }

  /** For an id with exactly one "/", "organization/model_name" is the id. */
  lemma OneSlashRoundTrip(id: string)
    requires Count(id, Slash) == 1
    ensures Organization(id) + [Slash] + ModelName(id) == id
  {
    var p := Split(id, Slash);
    SplitJoin(id, Slash);
    assert |p| == 2;
    assert p[..1] == [p[0]];
  }

  /** One element of the hub's model listing: its id and, if the listing
      has the field, its download count. */
  datatype ApiModel = ApiModel(id: string, downloads: Option<int>)

  /** One projected record, as uploaded and later read back. */
  datatype ModelRecord = ModelRecord(organization: string, modelName: string, downloads: int)

  function ToRecord(m: ApiModel): (r: ModelRecord)
    requires m.downloads.Some?
    ensures r.downloads == m.downloads.value
  {
    ModelRecord(Organization(m.id), ModelName(m.id), m.downloads.value)
  }

  /** The list comprehension of `get_top_text_generation_models`: records
      without a "downloads" field are dropped. */
  function Project(models: seq<ApiModel>): (r: seq<ModelRecord>)
    ensures |r| <= |models|
  {
    if |models| == 0 then []
    else
      var m := models[|models| - 1];
      Project(models[..|models| - 1]) + (if m.downloads.Some? then [ToRecord(m)] else [])
  }

  /** Positions of the listing entries that carry a download count. */
  function WithDownloads(models: seq<ApiModel>): (r: seq<nat>)
    ensures forall k :: 0 <= k < |r| ==> r[k] < |models| && models[r[k]].downloads.Some?
  {
    if |models| == 0 then []
    else WithDownloads(models[..|models| - 1]) + (if models[|models| - 1].downloads.Some? then [|models| - 1] else [])
  }

  /** The positions with a download count increase and include every entry
      that has one. */
  lemma {:induction false} WithDownloadsComplete(models: seq<ApiModel>)
    ensures forall k, l :: 0 <= k < l < |WithDownloads(models)| ==> WithDownloads(models)[k] < WithDownloads(models)[l]
    ensures forall i :: 0 <= i < |models| && models[i].downloads.Some? ==> i in WithDownloads(models)
  {
    if |models| > 0 {
      var init := models[..|models| - 1];
      WithDownloadsComplete(init);
      assert forall i :: 0 <= i < |init| ==> init[i] == models[i];
    }
  }

  /** The k-th record comes from the k-th entry with a download count. */
  lemma {:induction false} ProjectAtWithDownloads(models: seq<ApiModel>)
    ensures |Project(models)| == |WithDownloads(models)|
    ensures forall k :: 0 <= k < |Project(models)| ==>
      Project(models)[k] == ToRecord(models[WithDownloads(models)[k]])
  {
    if |models| > 0 {
      var init := models[..|models| - 1];
      var m := models[|models| - 1];
      ProjectAtWithDownloads(init);
      assert forall i :: 0 <= i < |init| ==> init[i] == models[i];
      var p, w := Project(init), WithDownloads(init);
      if m.downloads.Some? {
        assert Project(models) == p + [ToRecord(m)];
        assert WithDownloads(models) == w + [|models| - 1];
        forall k | 0 <= k < |Project(models)|
          ensures Project(models)[k] == ToRecord(models[WithDownloads(models)[k]])
        {
          if k < |p| {
            assert Project(models)[k] == p[k] && WithDownloads(models)[k] == w[k];
          }
        }
      } else {
        assert Project(models) == p + [];
        assert WithDownloads(models) == w + [];
      }
    }
  }

  /** The projection is, in order, exactly the entries that have a download
      count: the k-th record comes from the k-th such entry, the positions
      increase, and every entry with a count has its position listed. */
  lemma {:induction false} ProjectKeepsDownloaded(models: seq<ApiModel>)
    ensures |Project(models)| == |WithDownloads(models)|
    ensures forall k :: 0 <= k < |Project(models)| ==>
      Project(models)[k] == ToRecord(models[WithDownloads(models)[k]])
    ensures forall k, l :: 0 <= k < l < |WithDownloads(models)| ==> WithDownloads(models)[k] < WithDownloads(models)[l]
    ensures forall i :: 0 <= i < |models| && models[i].downloads.Some? ==> i in WithDownloads(models)
  {
    ProjectAtWithDownloads(models);
    WithDownloadsComplete(models);
  }

  /** Sum of the downloads of the records of organization `org`. */
  function OrgSum(records: seq<ModelRecord>, org: string): int {
    if |records| == 0 then 0
    else
      var r := records[|records| - 1];
      OrgSum(records[..|records| - 1], org) + (if r.organization == org then r.downloads else 0)
  }

  function TotalDownloads(records: seq<ModelRecord>): int {
    if |records| == 0 then 0
    else TotalDownloads(records[..|records| - 1]) + records[|records| - 1].downloads
  }

  function Orgs(records: seq<ModelRecord>): (r: seq<string>)
    ensures |r| == |records|
    ensures forall k :: 0 <= k < |r| ==> r[k] == records[k].organization
  {
    seq(|records|, k requires 0 <= k < |records| => records[k].organization)
  }

  function SumValues(table: seq<(string, int)>): int {
    if |table| == 0 then 0 else table[0].1 + SumValues(table[1..])
  }

  /** `org_downloads[org] += d` on a `defaultdict(int)`: the entry of `org`
      grows by `d` in place, or a new entry `(org, d)` goes to the end. */
  function AddTo(table: seq<(string, int)>, org: string, d: int): (r: seq<(string, int)>)
  {
    if |table| == 0 then [(org, d)]
    else if table[0].0 == org then [(org, table[0].1 + d)] + table[1..]
    else [table[0]] + AddTo(table[1..], org, d)
  }

  /** `compute_org_downloads`, kept in the dict's insertion order. */
  function OrgDownloads(records: seq<ModelRecord>): (r: seq<(string, int)>)
    ensures |r| == 0 <==> |records| == 0
  {
    if |records| == 0 then []
    else
      var m := records[|records| - 1];
      AddTo(OrgDownloads(records[..|records| - 1]), m.organization, m.downloads)
  }

  lemma KeysCons(p: (string, int), t: seq<(string, int)>)
    ensures Keys([p] + t) == [p.0] + Keys(t)
  {
  }

  lemma HasKeyCons(p: (string, int), t: seq<(string, int)>, k: string)
    ensures HasKey([p] + t, k) <==> p.0 == k || HasKey(t, k)
  {
    if HasKey([p] + t, k) && p.0 != k {
      var i :| 0 <= i < |[p] + t| && ([p] + t)[i].0 == k;
      assert t[i - 1].0 == k;
    }
    if HasKey(t, k) {
      var i :| 0 <= i < |t| && t[i].0 == k;
      assert ([p] + t)[i + 1].0 == k;
    }
    if p.0 == k {
      assert ([p] + t)[0].0 == k;
    }
  }

  lemma LookupCons(p: (string, int), t: seq<(string, int)>, k: string)
    ensures Lookup([p] + t, k) == if p.0 == k then Some(p.1) else Lookup(t, k)
  {
    assert ([p] + t)[1..] == t;
  }

  /** A key already present keeps its place; a new one is appended. */
  lemma {:induction false} AddToKeys(table: seq<(string, int)>, org: string, d: int)
    ensures Keys(AddTo(table, org, d)) == if HasKey(table, org) then Keys(table) else Keys(table) + [org]
  {
    if |table| > 0 {
      var t1 := table[1..];
      assert table == [table[0]] + t1;
      KeysCons(table[0], t1);
      HasKeyCons(table[0], t1, org);
      if table[0].0 == org {
        KeysCons((org, table[0].1 + d), t1);
      } else {
        AddToKeys(t1, org, d);
        KeysCons(table[0], AddTo(t1, org, d));
      }
    }
  }

  /** Adding raises the total of the values by `d`. */
  lemma {:induction false} AddToSum(table: seq<(string, int)>, org: string, d: int)
    ensures SumValues(AddTo(table, org, d)) == SumValues(table) + d
  {
    if |table| > 0 && table[0].0 != org {
      AddToSum(table[1..], org, d);
      assert AddTo(table, org, d)[1..] == AddTo(table[1..], org, d);
    } else if |table| > 0 {
      assert AddTo(table, org, d)[1..] == table[1..];
    }
  }

  /** Adding raises the value of `org` by `d` (from 0 when it is new) and
      leaves every other key's value alone. */
  lemma {:induction false} AddToLookup(table: seq<(string, int)>, org: string, d: int, o: string)
    ensures Lookup(AddTo(table, org, d), o) ==
      if o == org then Some(Lookup(table, o).GetOr(0) + d) else Lookup(table, o)
  {
    if |table| > 0 {
      var t1 := table[1..];
      assert table == [table[0]] + t1;
      LookupCons(table[0], t1, o);
      if table[0].0 == org {
        LookupCons((org, table[0].1 + d), t1, o);
      } else {
        AddToLookup(t1, org, d, o);
        LookupCons(table[0], AddTo(t1, org, d), o);
      }
    } else {
      LookupCons((org, d), [], o);
      assert [(org, d)] == [(org, d)] + [];
    }
  }

  /** In a table with distinct keys, looking up the key at position `p`
      finds the value at `p`. */
  lemma {:induction false} LookupAt(table: seq<(string, int)>, p: nat)
    requires p < |table| && Distinct(Keys(table))
    ensures Lookup(table, table[p].0) == Some(table[p].1)
  {
    if p > 0 {
      assert Keys(table)[0] != Keys(table)[p];
      assert Distinct(Keys(table[1..])) by {
        assert Keys(table[1..]) == Keys(table)[1..];
      }
      assert table[1..][p - 1] == table[p];
      LookupAt(table[1..], p - 1);
    }
  }

  /** The keys of `compute_org_downloads` are the organizations in order of
      first appearance, each once. */
  lemma {:induction false} OrgDownloadsKeys(records: seq<ModelRecord>)
    ensures Keys(OrgDownloads(records)) == DedupFirst(Orgs(records))
    ensures Distinct(Keys(OrgDownloads(records)))
  {
    DedupFirstCorrect(Orgs(records));
    if |records| > 0 {
      var init := records[..|records| - 1];
      var m := records[|records| - 1];
      OrgDownloadsKeys(init);
      var t := OrgDownloads(init);
      AddToKeys(t, m.organization, m.downloads);
      assert Orgs(records)[..|records| - 1] == Orgs(init);
      KeysHasKey(t, m.organization);
      DedupFirstCorrect(Orgs(init));
    }
  }

  /** Each value of `compute_org_downloads` is the sum of its organization's
      downloads; an organization that does not occur has no entry. */
  lemma {:induction false} OrgDownloadsValues(records: seq<ModelRecord>, o: string)
    ensures Lookup(OrgDownloads(records), o) == if o in Orgs(records) then Some(OrgSum(records, o)) else None
  {
    if |records| > 0 {
      var init := records[..|records| - 1];
      var m := records[|records| - 1];
      var t := OrgDownloads(init);
      assert o in Orgs(records) <==> o in Orgs(init) || o == m.organization by {
        assert Orgs(records) == Orgs(init) + [m.organization];
      }
      OrgDownloadsValues(init, o);
      AddToLookup(t, m.organization, m.downloads, o);
      if o == m.organization {
        assert OrgSum(records, o) == OrgSum(init, o) + m.downloads;
        if o !in Orgs(init) {
          OrgSumAbsent(init, o);
        }
        assert Lookup(t, o).GetOr(0) == OrgSum(init, o);
      } else {
        assert OrgSum(records, o) == OrgSum(init, o);
      }
    }
  }

  lemma {:induction false} OrgSumAbsent(records: seq<ModelRecord>, o: string)
    requires o !in Orgs(records)
    ensures OrgSum(records, o) == 0
  {
    if |records| > 0 {
      assert Orgs(records) == Orgs(records[..|records| - 1]) + [records[|records| - 1].organization];
      OrgSumAbsent(records[..|records| - 1], o);
    }
  }

  /** The values of `compute_org_downloads` add up to all downloads. */
  lemma {:induction false} OrgDownloadsSum(records: seq<ModelRecord>)
    ensures SumValues(OrgDownloads(records)) == TotalDownloads(records)
  {
    if |records| > 0 {
      var init := records[..|records| - 1];
      var m := records[|records| - 1];
      OrgDownloadsSum(init);
      AddToSum(OrgDownloads(init), m.organization, m.downloads);
    }
  }

  lemma KeysHasKey(t: seq<(string, int)>, k: string)
    ensures HasKey(t, k) <==> k in Keys(t)
  {
    if HasKey(t, k) {
      var i :| 0 <= i < |t| && t[i].0 == k;
      assert Keys(t)[i] == k;
    }
    if k in Keys(t) {
      var i :| 0 <= i < |Keys(t)| && Keys(t)[i] == k;
      assert t[i].0 == k;
    }
  }

  /** `sorted(org_downloads.items(), key=lambda x: x[1], reverse=True)[:10]`. */
  function TopOrganizations(records: seq<ModelRecord>): (r: seq<(string, int)>)
    ensures |r| <= 10
  {
    Take(SortDesc(OrgDownloads(records), (p: (string, int)) => p.1), 10)
  }

  /** The ranking shows at most ten organizations, in non-increasing order
      of total downloads, each with its own total, and no organization left
      out has more downloads than one shown. */
  lemma TopOrganizationsCorrect(records: seq<ModelRecord>)
    ensures NonIncreasing(TopOrganizations(records), (p: (string, int)) => p.1)
    ensures forall k :: 0 <= k < |TopOrganizations(records)| ==>
      var p := TopOrganizations(records)[k];
      p.0 in Orgs(records) && p.1 == OrgSum(records, p.0)
    ensures forall k, q ::
      (0 <= k < |TopOrganizations(records)| && q in OrgDownloads(records) && q !in TopOrganizations(records)) ==>
      TopOrganizations(records)[k].1 >= q.1
  {
    var key := (p: (string, int)) => p.1;
    var t := OrgDownloads(records);
    var s := SortDesc(t, key);
    SortDescCorrect(t, key, 0);
    TakeDominates(s, key, 10);
    var top := TopOrganizations(records);
    forall k | 0 <= k < |top| ensures top[k].0 in Orgs(records) && top[k].1 == OrgSum(records, top[k].0) {
      assert top[k] == s[k];
      assert s[k] in multiset(t);
      var i :| 0 <= i < |t| && t[i] == s[k];
      DistinctKeysLookup(t, i, records);
    }
    forall k, q | 0 <= k < |top| && q in t && q !in top ensures top[k].1 >= q.1 {
      assert q in multiset(s);
      var j :| 0 <= j < |s| && s[j] == q;
      assert j >= |top|;
    }
  }

  lemma DistinctKeysLookup(t: seq<(string, int)>, i: nat, records: seq<ModelRecord>)
    requires t == OrgDownloads(records) && i < |t|
    ensures t[i].0 in Orgs(records) && t[i].1 == OrgSum(records, t[i].0)
  {
    OrgDownloadsValues(records, t[i].0);
    OrgDownloadsKeys(records);
    LookupAt(t, i);
  }
}
