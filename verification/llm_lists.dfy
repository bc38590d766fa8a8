/** The model lists of `llm_perf/common/utils.py`: the top-n list read back
    from the uploaded ranking, the de-duplicated leaderboard lists, and the
    canonical list chosen by debug mode. */
module LlmLists {

  import opened Results
  import opened Seqs
  import opened Ranking
  import opened HubModels

  /** The list used in debug mode. */
  const DebugList: seq<string> := ["gpt2"]
  /** `get_top_llm_list(n=10)`, as the canonical list calls it. */
  const CanonicalCount: int := 10
  const Pretrained: string := "pretrained"

  function Downloads(r: ModelRecord): int {
    r.downloads
  }

  /** `f"{organization}/{model_name}"`. */
  function Format(r: ModelRecord): (s: string)
    ensures |s| == |r.organization| + 1 + |r.modelName|
    ensures s[..|r.organization|] == r.organization && s[|r.organization|] == Slash
    ensures s[|r.organization| + 1..] == r.modelName
  {
    r.organization + [Slash] + r.modelName
  }

  /** The records by downloads, most downloaded first, ties in dataset order. */
  function Ranked(records: seq<ModelRecord>): seq<ModelRecord> {
    SortDesc(records, Downloads)
  }

  /** `get_top_llm_list(n)`. `fetched` is the dataset's records, or None when
      loading or reading it raised, in which case the list is empty. */
  function GetTopLlmList(n: int, fetched: Option<seq<ModelRecord>>): (r: seq<string>)
    ensures fetched.None? ==> r == []
    ensures fetched.Some? && 0 <= n ==> |r| == (if n <= |fetched.value| then n else |fetched.value|)
  {
    match fetched
    case None => []
    case Some(records) =>
      var top := Take(Ranked(records), n);
      seq(|top|, k requires 0 <= k < |top| => Format(top[k]))
  }

  /** The k-th entry of the top list formats the k-th most downloaded record:
      the ranking is a reordering of the records, non-increasing in
      downloads, and every record past the cut has no more downloads than
      any record kept. */
  lemma GetTopLlmListCorrect(n: int, records: seq<ModelRecord>)
    ensures var r := GetTopLlmList(n, Some(records));
      var ranked := Ranked(records);
      && multiset(ranked) == multiset(records)
      && NonIncreasing(ranked, Downloads)
      && |r| <= |ranked|
      && (forall k :: 0 <= k < |r| ==> r[k] == Format(ranked[k]))
      && (forall k, j :: 0 <= k < |r| <= j < |ranked| ==> ranked[k].downloads >= ranked[j].downloads)
  {
    SortDescCorrect(records, Downloads, 0);
    TakeDominates(Ranked(records), Downloads, n);
  }

  /** Read back from the ranking uploaded by the hub script, with ids of the
      form "organization/name", every entry of the top list is the id of a
      listed model that had a download count. */
  lemma {:induction false} TopListEntriesAreHubIds(n: int, models: seq<ApiModel>, k: nat)
    requires forall i :: 0 <= i < |models| ==> Count(models[i].id, Slash) == 1
    requires k < |GetTopLlmList(n, Some(Project(models)))|
    ensures exists i :: (0 <= i < |models| && models[i].downloads.Some? &&
      GetTopLlmList(n, Some(Project(models)))[k] == models[i].id)
  {
    var records := Project(models);
    GetTopLlmListCorrect(n, records);
    var ranked := Ranked(records);
    assert ranked[k] in multiset(records);
    var p :| 0 <= p < |records| && records[p] == ranked[k];
    ProjectKeepsDownloaded(models);
    var i := WithDownloads(models)[p];
    OneSlashRoundTrip(models[i].id);
  }

  /** One row of the leaderboard table: its "Model" and "Type" columns. */
  datatype LeaderboardRow = LeaderboardRow(model: string, modelType: string)

  function Models(rows: seq<LeaderboardRow>): (r: seq<string>)
    ensures |r| == |rows|
    ensures forall k :: 0 <= k < |rows| ==> r[k] == rows[k].model
  {
    seq(|rows|, k requires 0 <= k < |rows| => rows[k].model)
  }

  /** `df[df["Type"] == "pretrained"]`. */
  function PretrainedRows(rows: seq<LeaderboardRow>): (r: seq<LeaderboardRow>)
    ensures forall x :: x in r ==> x in rows && x.modelType == Pretrained
    ensures forall x :: x in rows && x.modelType == Pretrained ==> x in r
  {
    if |rows| == 0 then []
    else
      var last := rows[|rows| - 1];
      PretrainedRows(rows[..|rows| - 1]) + (if last.modelType == Pretrained then [last] else [])
  }

  /** `OPEN_LLM_LIST`: the "Model" column without duplicates. */
  function OpenLlmList(rows: seq<LeaderboardRow>): seq<string> {
    DedupFirst(Models(rows))
  }

  /** `PRETRAINED_OPEN_LLM_LIST`. */
  function PretrainedOpenLlmList(rows: seq<LeaderboardRow>): seq<string> {
    DedupFirst(Models(PretrainedRows(rows)))
  }

  /** `OPEN_LLM_LIST` holds every model of the table exactly once, in order of
      first appearance. */
  lemma OpenLlmListCorrect(rows: seq<LeaderboardRow>)
    ensures Distinct(OpenLlmList(rows))
    ensures forall m :: m in OpenLlmList(rows) <==> exists i :: 0 <= i < |rows| && rows[i].model == m
    ensures forall i, j :: 0 <= i < j < |OpenLlmList(rows)| ==>
      OpenLlmList(rows)[i] in Models(rows) && OpenLlmList(rows)[j] in Models(rows) &&
      FirstIndex(Models(rows), OpenLlmList(rows)[i]) < FirstIndex(Models(rows), OpenLlmList(rows)[j])
  {
    DedupFirstCorrect(Models(rows));
    forall m | m in OpenLlmList(rows) ensures exists i :: 0 <= i < |rows| && rows[i].model == m {
      var i :| 0 <= i < |Models(rows)| && Models(rows)[i] == m;
    }
    forall m | exists i :: 0 <= i < |rows| && rows[i].model == m ensures m in OpenLlmList(rows) {
      var i :| 0 <= i < |rows| && rows[i].model == m;
      assert Models(rows)[i] == m;
    }
  }

  /** `PRETRAINED_OPEN_LLM_LIST` is duplicate-free, names only models with a
      pretrained row, names every such model, and is part of `OPEN_LLM_LIST`. */
  lemma PretrainedOpenLlmListCorrect(rows: seq<LeaderboardRow>)
    ensures Distinct(PretrainedOpenLlmList(rows))
    ensures forall m :: m in PretrainedOpenLlmList(rows) <==> LeaderboardRow(m, Pretrained) in rows
    ensures forall m :: m in PretrainedOpenLlmList(rows) ==> m in OpenLlmList(rows)
  {
    var pre := PretrainedRows(rows);
    DedupFirstCorrect(Models(pre));
    OpenLlmListCorrect(rows);
    forall m | m in PretrainedOpenLlmList(rows) ensures LeaderboardRow(m, Pretrained) in rows {
      var i :| 0 <= i < |Models(pre)| && Models(pre)[i] == m;
      assert pre[i] in pre;
    }
    forall m | LeaderboardRow(m, Pretrained) in rows ensures m in PretrainedOpenLlmList(rows) {
      var i :| 0 <= i < |pre| && pre[i] == LeaderboardRow(m, Pretrained);
      assert Models(pre)[i] == m;
    }
    forall m | m in PretrainedOpenLlmList(rows) ensures m in OpenLlmList(rows) {
      var i :| 0 <= i < |rows| && rows[i] == LeaderboardRow(m, Pretrained);
    }
  }

  /** `CANONICAL_PRETRAINED_OPEN_LLM_LIST`. */
  function CanonicalList(debug: bool, fetched: Option<seq<ModelRecord>>): (r: seq<string>)
    ensures |r| <= CanonicalCount
    ensures debug ==> r == DebugList
  {
    if debug then DebugList else GetTopLlmList(CanonicalCount, fetched)
  }

  /** Outside debug mode the canonical list is the top ten, or all records
      when there are fewer, or empty when fetching failed. */
  lemma CanonicalListOutsideDebug(fetched: Option<seq<ModelRecord>>)
    ensures fetched.None? ==> CanonicalList(false, fetched) == []
    ensures fetched.Some? ==> (|CanonicalList(false, fetched)| ==
      if |fetched.value| < CanonicalCount then |fetched.value| else CanonicalCount)
    ensures forall k :: 0 <= k < |CanonicalList(false, fetched)| ==>
      fetched.Some? && CanonicalList(false, fetched)[k] == Format(Ranked(fetched.value)[k])
  {
    if fetched.Some? {
      GetTopLlmListCorrect(CanonicalCount, fetched.value);
    }
  }
}
