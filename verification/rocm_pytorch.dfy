/** The ROCm/PyTorch benchmark runner
    (`src/benchmark_runners/rocm/update_llm_perf_rocm_pytorch.py`): the
    weights-configuration table per subset, the fixed attention list, the job
    list (models x attention x weights), the support predicate, and the names
    and table lookups of a benchmark configuration. */
module RocmPytorch {

  import opened Results
  import opened Seqs
  import opened Product
  import opened Json

  /** One entry of the weights table: `torch_dtype`, `quant_scheme` (None when
      unquantized) and `quant_config` (a dict, kept in insertion order). */
  datatype WeightsConfig = WeightsConfig(
    torchDtype: string,
    quantScheme: Option<string>,
    quantConfig: seq<(string, Json)>)

  const Unquantized: string := "unquantized"
  const Bnb: string := "bnb"
  const Gptq: string := "gptq"
  const Awq: string := "awq"

  /** The subsets `_get_weights_configs` knows. */
  const KnownSubsets: seq<string> := [Unquantized, Bnb, Gptq, Awq]

  const Eager: string := "eager"
  const Sdpa: string := "sdpa"
  const FlashAttention2: string := "flash_attention_2"

  /** `_get_attention_configs`. */
  const AttentionConfigs: seq<string> := [Eager, Sdpa, FlashAttention2]

  const Float32: string := "float32"
  const Float16: string := "float16"
  const Bfloat16: string := "bfloat16"

  function Unquant(dtype: string): WeightsConfig {
    WeightsConfig(dtype, None, [])
  }

  function Quant(scheme: string, config: seq<(string, Json)>): WeightsConfig {
    WeightsConfig(Float16, Some(scheme), config)
  }

  /** `quant_config` of the two GPTQ entries; the key "use_exllama " keeps the
      trailing space it has in the source. */
  function GptqConfig(version: int): seq<(string, Json)> {
    [("bits", JInt(4)), ("use_exllama ", JBool(true)), ("version", JInt(version)), ("model_seqlen", JInt(256))]
  }

  function AwqExllamaConfig(version: int): seq<(string, Json)> {
    [("bits", JInt(4)), ("version", JStr("exllama")),
     ("exllama_config", JObj([("version", JInt(version)), ("max_input_len", JInt(64)), ("max_batch_size", JInt(1))]))]
  }

  /** The weights table of every known subset, keys in insertion order. */
  function TableOf(subset: string): seq<(string, WeightsConfig)> {
    if subset == Unquantized then
      [(Float32, Unquant(Float32)), (Float16, Unquant(Float16)), (Bfloat16, Unquant(Bfloat16))]
    else if subset == Bnb then
      [("4bit-bnb", Quant(Bnb, [("load_in_4bit", JBool(true))])),
       ("8bit-bnb", Quant(Bnb, [("load_in_8bit", JBool(true))]))]
    else if subset == Gptq then
      [("4bit-gptq-exllama-v1", Quant(Gptq, GptqConfig(1))),
       ("4bit-gptq-exllama-v2", Quant(Gptq, GptqConfig(2)))]
    else if subset == Awq then
      [("4bit-awq-gemm", Quant(Awq, [("bits", JInt(4)), ("version", JStr("gemm"))])),
       ("4bit-awq-gemv", Quant(Awq, [("bits", JInt(4)), ("version", JStr("gemv"))])),
       ("4bit-awq-exllama-v1", Quant(Awq, AwqExllamaConfig(1))),
       ("4bit-awq-exllama-v2", Quant(Awq, AwqExllamaConfig(2)))]
    else []
  }

  /** No attention name ends another after a "-": the attention part of a
      benchmark name is unambiguous. */
  lemma AttentionSuffixFree()
    ensures DashSuffixFree(AttentionConfigs)
    ensures Distinct(AttentionConfigs)
  {
    DashApartAt(Eager, Sdpa, 0);
    DashApartAt(Eager, FlashAttention2, 0);
    DashApartAt(Sdpa, FlashAttention2, 0);
    PairwiseDashApart(AttentionConfigs);
  }

  lemma UnquantizedKeysApart()
    ensures DashSuffixFree([Float32, Float16, Bfloat16]) && Distinct([Float32, Float16, Bfloat16])
  {
    DashApartAt(Float32, Float16, 0);
    DashApartAt(Float32, Bfloat16, 0);
    DashApartAt(Float16, Bfloat16, 7);
    PairwiseDashApart([Float32, Float16, Bfloat16]);
  }

  lemma BnbKeysApart()
    ensures DashSuffixFree(["4bit-bnb", "8bit-bnb"]) && Distinct(["4bit-bnb", "8bit-bnb"])
  {
    DashApartAt("4bit-bnb", "8bit-bnb", 7);
    PairwiseDashApart(["4bit-bnb", "8bit-bnb"]);
  }

  lemma GptqKeysApart()
    ensures DashSuffixFree(["4bit-gptq-exllama-v1", "4bit-gptq-exllama-v2"])
    ensures Distinct(["4bit-gptq-exllama-v1", "4bit-gptq-exllama-v2"])
  {
    DashApartAt("4bit-gptq-exllama-v1", "4bit-gptq-exllama-v2", 0);
    PairwiseDashApart(["4bit-gptq-exllama-v1", "4bit-gptq-exllama-v2"]);
  }

  lemma AwqKeysApart()
    ensures DashSuffixFree(["4bit-awq-gemm", "4bit-awq-gemv", "4bit-awq-exllama-v1", "4bit-awq-exllama-v2"])
    ensures Distinct(["4bit-awq-gemm", "4bit-awq-gemv", "4bit-awq-exllama-v1", "4bit-awq-exllama-v2"])
  {
    DashApartAt("4bit-awq-gemm", "4bit-awq-gemv", 0);
    DashApartAt("4bit-awq-gemm", "4bit-awq-exllama-v1", 0);
    DashApartAt("4bit-awq-gemm", "4bit-awq-exllama-v2", 0);
    DashApartAt("4bit-awq-gemv", "4bit-awq-exllama-v1", 0);
    DashApartAt("4bit-awq-gemv", "4bit-awq-exllama-v2", 0);
    DashApartAt("4bit-awq-exllama-v1", "4bit-awq-exllama-v2", 0);
    PairwiseDashApart(["4bit-awq-gemm", "4bit-awq-gemv", "4bit-awq-exllama-v1", "4bit-awq-exllama-v2"]);
  }

  /** No weights key of a table ends another after a "-". */
  lemma TablesSuffixFree(subset: string)
    requires subset in KnownSubsets
    ensures DashSuffixFree(Keys(TableOf(subset)))
    ensures Distinct(Keys(TableOf(subset)))
  {
    var ks := Keys(TableOf(subset));
    if subset == Unquantized {
      assert ks == [Float32, Float16, Bfloat16];
      UnquantizedKeysApart();
    } else if subset == Bnb {
      assert ks == ["4bit-bnb", "8bit-bnb"];
      BnbKeysApart();
    } else if subset == Gptq {
      assert ks == ["4bit-gptq-exllama-v1", "4bit-gptq-exllama-v2"];
      GptqKeysApart();
    } else {
      assert ks == ["4bit-awq-gemm", "4bit-awq-gemv", "4bit-awq-exllama-v1", "4bit-awq-exllama-v2"];
      AwqKeysApart();
    }
  }

  /** `_get_weights_configs(subset)`: the table of a known subset, or the
      "Unknown subset" error. */
  function WeightsConfigs(subset: string): (r: Result<seq<(string, WeightsConfig)>>)
    ensures r.Ok? <==> subset in KnownSubsets
    ensures r.Err? ==> r.msg == "Unknown subset: " + subset
    ensures r.Ok? ==> |r.value| > 0 && Distinct(Keys(r.value))
    ensures r.Ok? && subset == Unquantized ==>
      && Keys(r.value) == [Float32, Float16, Bfloat16]
      && (forall k :: 0 <= k < |r.value| ==>
            r.value[k].1 == WeightsConfig(r.value[k].0, None, []))
    ensures r.Ok? && subset != Unquantized ==>
      forall k :: 0 <= k < |r.value| ==>
        r.value[k].1.torchDtype == Float16 && r.value[k].1.quantScheme == Some(subset)
  {
    if subset in KnownSubsets then
      TablesSuffixFree(subset);
      Ok(TableOf(subset))
    else Err("Unknown subset: " + subset)
  }

  /** The runner's state after `__init__`. */
  datatype Runner = Runner(
    backend: string,
    device: string,
    subset: string,
    attentionConfigs: seq<string>,
    weightsConfigs: seq<(string, WeightsConfig)>)

  /** `ROCmPyTorchBenchmarkRunner()`: `subset` is the SUBSET the base class
      reads from the environment; a missing subset fails the assertion, an
      unknown one fails the table lookup. */
  function NewRunner(subset: Option<string>): (r: Result<Runner>)
    ensures r.Ok? <==> subset.Some? && subset.value in KnownSubsets
    ensures subset.None? ==> r == Err("SUBSET environment variable must be set for benchmarking")
    ensures r.Ok? ==>
      && r.value.backend == "pytorch"
      && r.value.device == "rocm"
      && r.value.subset == subset.value
      && r.value.attentionConfigs == [Eager, Sdpa, FlashAttention2]
      && r.value.weightsConfigs == WeightsConfigs(subset.value).value
  {
    var attention := AttentionConfigs;
    if subset.None? then Err("SUBSET environment variable must be set for benchmarking")
    else
      var weights :- WeightsConfigs(subset.value);
      Ok(Runner("pytorch", "rocm", subset.value, attention, weights))
  }

  /** A runner `NewRunner` can return. */
  predicate ValidRunner(runner: Runner) {
    && runner.backend == "pytorch"
    && runner.device == "rocm"
    && runner.subset in KnownSubsets
    && runner.attentionConfigs == AttentionConfigs
    && runner.weightsConfigs == TableOf(runner.subset)
  }

  lemma NewRunnerValid(subset: Option<string>)
    ensures NewRunner(subset).Ok? ==> ValidRunner(NewRunner(subset).value)
  {
  }

  /** One entry of `get_list_of_benchmarks_to_run`. */
  datatype Job = Job(model: string, attnImplementation: string, weightsConfig: string)

  function ToJob(p: (string, (string, string))): Job {
    Job(p.0, p.1.0, p.1.1)
  }

  function ToJobs(ps: seq<(string, (string, string))>): (r: seq<Job>)
    ensures |r| == |ps|
    ensures forall k :: 0 <= k < |ps| ==> r[k] == ToJob(ps[k])
  {
    seq(|ps|, k requires 0 <= k < |ps| => ToJob(ps[k]))
  }

  /** `product(models, attention, weights)`: model outermost, weights innermost. */
  function Jobs(models: seq<string>, attns: seq<string>, weights: seq<string>): seq<Job> {
    ToJobs(Pairs(models, Pairs(attns, weights)))
  }

  /** `get_list_of_benchmarks_to_run`, for the model list the runner imports
      (CANONICAL_PRETRAINED_OPEN_LLM_LIST). No support filtering happens here. */
  function BenchmarksToRun(runner: Runner, models: seq<string>): seq<Job> {
    Jobs(models, runner.attentionConfigs, Keys(runner.weightsConfigs))
  }

  lemma MulAssoc(i: nat, a: nat, w: nat, j: nat, k: nat)
    ensures (i * a + j) * w + k == i * (a * w) + (j * w + k)
  {
    assert (i * a + j) * w == i * a * w + j * w;
    assert i * a * w == i * (a * w);
  }

  lemma JobsLength(models: seq<string>, attns: seq<string>, weights: seq<string>)
    ensures |Jobs(models, attns, weights)| == |models| * |attns| * |weights|
  {
    PairsLength(attns, weights);
    PairsLength(models, Pairs(attns, weights));
    assert |models| * (|attns| * |weights|) == |models| * |attns| * |weights|;
  }

  /** The job for models[i] and the q-th (attention, weights) pair sits at
      position i * |pairs| + q. */
  lemma JobsAt(models: seq<string>, attns: seq<string>, weights: seq<string>, i: nat, q: nat)
    requires i < |models| && q < |Pairs(attns, weights)|
    ensures i * |Pairs(attns, weights)| + q < |Jobs(models, attns, weights)|
    ensures Jobs(models, attns, weights)[i * |Pairs(attns, weights)| + q] ==
      Job(models[i], Pairs(attns, weights)[q].0, Pairs(attns, weights)[q].1)
  {
    PairAt(models, Pairs(attns, weights), i, q);
  }

  /** The job for (models[i], attns[j], weights[k]) sits at position
      (i * |attns| + j) * |weights| + k: model outermost, weights innermost. */
  lemma JobsIndex(models: seq<string>, attns: seq<string>, weights: seq<string>, i: nat, j: nat, k: nat)
    requires i < |models| && j < |attns| && k < |weights|
    ensures (i * |attns| + j) * |weights| + k < |Jobs(models, attns, weights)|
    ensures Jobs(models, attns, weights)[(i * |attns| + j) * |weights| + k] == Job(models[i], attns[j], weights[k])
  {
    var q := j * |weights| + k;
    PairAt(attns, weights, j, k);
    JobsAt(models, attns, weights, i, q);
    assert i * |Pairs(attns, weights)| + q == (i * |attns| + j) * |weights| + k by {
      PairsLength(attns, weights);
      MulAssoc(i, |attns|, |weights|, j, k);
    }
  }

  /** A job is listed iff its model, attention and weights are each listed. */
  lemma JobsMembership(models: seq<string>, attns: seq<string>, weights: seq<string>, job: Job)
    ensures job in Jobs(models, attns, weights) <==>
      job.model in models && job.attnImplementation in attns && job.weightsConfig in weights
  {
    var inner := Pairs(attns, weights);
    var ps := Pairs(models, inner);
    PairsMembership(models, inner, job.model, (job.attnImplementation, job.weightsConfig));
    PairsMembership(attns, weights, job.attnImplementation, job.weightsConfig);
    if job in Jobs(models, attns, weights) {
      var k :| 0 <= k < |ps| && ToJob(ps[k]) == job;
      assert ps[k] == (job.model, (job.attnImplementation, job.weightsConfig));
    }
    if (job.model, (job.attnImplementation, job.weightsConfig)) in ps {
      var k :| 0 <= k < |ps| && ps[k] == (job.model, (job.attnImplementation, job.weightsConfig));
      assert Jobs(models, attns, weights)[k] == job;
    }
  }

  /** With distinct models, every (model, attention, weights) triple appears
      exactly once. */
  lemma JobsDistinct(models: seq<string>, attns: seq<string>, weights: seq<string>)
    requires Distinct(models) && Distinct(attns) && Distinct(weights)
    ensures Distinct(Jobs(models, attns, weights))
  {
    PairsDistinct(attns, weights);
    var ps := Pairs(models, Pairs(attns, weights));
    PairsDistinct(models, Pairs(attns, weights));
    var js := Jobs(models, attns, weights);
    forall a, b | 0 <= a < b < |js| ensures js[a] != js[b] {
      assert ps[a] != ps[b];
    }
  }

  /** `is_benchmark_supported`: flash attention 2 has no float32 kernel. */
  predicate IsBenchmarkSupported(job: Job) {
    !(job.attnImplementation == FlashAttention2 && job.weightsConfig == Float32)
  }

  /** Number of listed jobs the support predicate rejects. */
  function Unsupported(jobs: seq<Job>): (n: nat)
    ensures n <= |jobs|
  {
    if |jobs| == 0 then 0
    else Unsupported(jobs[..|jobs| - 1]) + (if IsBenchmarkSupported(jobs[|jobs| - 1]) then 0 else 1)
  }

  lemma {:induction false} UnsupportedAppend(a: seq<Job>, b: seq<Job>)
    ensures Unsupported(a + b) == Unsupported(a) + Unsupported(b)
  {
    if |b| == 0 {
      assert a + b == a;
    } else {
      assert (a + b)[..|a + b| - 1] == a + b[..|b| - 1];
      UnsupportedAppend(a, b[..|b| - 1]);
    }
  }

  /** The jobs of one model: the rejected ones are its (flash_attention_2,
      float32) combinations. */
  lemma {:induction false} UnsupportedRow(m: string, combos: seq<(string, string)>)
    ensures Unsupported(ToJobs(Row(m, combos))) == Count(combos, (FlashAttention2, Float32))
  {
    if |combos| > 0 {
      var init := combos[..|combos| - 1];
      UnsupportedRow(m, init);
      assert ToJobs(Row(m, combos))[..|combos| - 1] == ToJobs(Row(m, init));
    }
  }

  lemma MulSucc(n: nat, c: nat)
    ensures n * c + c == (n + 1) * c
  {
  }

  /** Every model contributes the same number of rejected jobs. */
  lemma {:induction false} UnsupportedJobs(models: seq<string>, attns: seq<string>, weights: seq<string>)
    ensures Unsupported(Jobs(models, attns, weights)) ==
      |models| * Count(Pairs(attns, weights), (FlashAttention2, Float32))
  {
    if |models| > 0 {
      var init := models[..|models| - 1];
      var m := models[|models| - 1];
      var combos := Pairs(attns, weights);
      var c := Count(combos, (FlashAttention2, Float32));
      assert Unsupported(Jobs(models, attns, weights)) == Unsupported(Jobs(init, attns, weights)) + c by {
        assert Pairs(models, combos) == Pairs(init, combos) + Row(m, combos);
        assert Jobs(models, attns, weights) == Jobs(init, attns, weights) + ToJobs(Row(m, combos));
        UnsupportedAppend(Jobs(init, attns, weights), ToJobs(Row(m, combos)));
        UnsupportedRow(m, combos);
      }
      UnsupportedJobs(init, attns, weights);
      MulSucc(|init|, c);
    }
  }

  /** The job list of a runner holds |models| * 3 * |weights| jobs. For the
      unquantized subset exactly one job per model, (flash_attention_2,
      float32), is unsupported, so 8 of each model's 9 jobs are supported; the
      quantized subsets have no unsupported job. */
  lemma SupportedJobsCount(runner: Runner, models: seq<string>)
    requires ValidRunner(runner)
    ensures |BenchmarksToRun(runner, models)| == |models| * 3 * |runner.weightsConfigs|
    ensures runner.subset == Unquantized ==>
      |BenchmarksToRun(runner, models)| == 9 * |models| &&
      Unsupported(BenchmarksToRun(runner, models)) == |models|
    ensures runner.subset != Unquantized ==> Unsupported(BenchmarksToRun(runner, models)) == 0
  {
    var ks := Keys(runner.weightsConfigs);
    var n := |models|;
    var jobs := BenchmarksToRun(runner, models);
    assert |jobs| == n * 3 * |ks| by {
      JobsLength(models, AttentionConfigs, ks);
    }
    assert Unsupported(jobs) == n * Count(ks, Float32) by {
      UnsupportedJobs(models, AttentionConfigs, ks);
      PairsCount(AttentionConfigs, ks, FlashAttention2, Float32);
      OneFlashAttention();
    }
    if runner.subset == Unquantized {
      assert ks == [Float32, Float16, Bfloat16];
      UnquantizedFloat32Once();
      assert n * 3 * 3 == 9 * n;
    } else {
      WeightsKeysNotFloat32(runner.subset);
    }
  }

  lemma UnquantizedFloat32Once()
    ensures Count([Float32, Float16, Bfloat16], Float32) == 1
  {
    var ks := [Float32, Float16, Bfloat16];
    assert ks[..2] == [Float32, Float16];
    assert ks[..2][..1] == [Float32];
  }

  lemma OneFlashAttention()
    ensures Count(AttentionConfigs, FlashAttention2) == 1
  {
    assert AttentionConfigs[..2] == [Eager, Sdpa];
    assert AttentionConfigs[..2][..1] == [Eager];
  }

  lemma WeightsKeysNotFloat32(subset: string)
    requires subset in KnownSubsets && subset != Unquantized
    ensures Float32 !in Keys(TableOf(subset))
  {
    var ks := Keys(TableOf(subset));
    if subset == Bnb {
      assert ks == ["4bit-bnb", "8bit-bnb"];
    } else if subset == Gptq {
      assert ks == ["4bit-gptq-exllama-v1", "4bit-gptq-exllama-v2"];
    } else {
      assert ks == ["4bit-awq-gemm", "4bit-awq-gemv", "4bit-awq-exllama-v1", "4bit-awq-exllama-v2"];
    }
  }

  /** `get_benchmark_name`: "{model}-{weights_config}-{attn_implementation}-{backend}". */
  function BenchmarkName(runner: Runner, job: Job): string {
    job.model + "-" + job.weightsConfig + "-" + job.attnImplementation + "-" + runner.backend
  }

  /** Reads a benchmark name back into its job, by peeling the backend, then
      the attention, then the weights key off the end. */
  function ParseBenchmarkName(runner: Runner, name: string): Option<Job> {
    match SplitDashSuffix(name, [runner.backend])
    case None => None
    case Some((rest, _)) =>
      match SplitDashSuffix(rest, runner.attentionConfigs)
      case None => None
      case Some((rest', attn)) =>
        match SplitDashSuffix(rest', Keys(runner.weightsConfigs))
        case None => None
        case Some((model, weights)) => Some(Job(model, attn, weights))
  }

  /** Round trip: the name of every job a runner can list parses back into
      that job, whatever the model id contains. */
  lemma NameRoundTrip(runner: Runner, job: Job)
    requires ValidRunner(runner)
    requires job.attnImplementation in runner.attentionConfigs
    requires job.weightsConfig in Keys(runner.weightsConfigs)
    ensures ParseBenchmarkName(runner, BenchmarkName(runner, job)) == Some(job)
  {
    AttentionSuffixFree();
    TablesSuffixFree(runner.subset);
    var withWeights := job.model + "-" + job.weightsConfig;
    var withAttn := withWeights + "-" + job.attnImplementation;
    assert DashSuffixFree([runner.backend]);
    SplitDashSuffixJoin(withAttn, runner.backend, [runner.backend]);
    SplitDashSuffixJoin(withWeights, job.attnImplementation, runner.attentionConfigs);
    SplitDashSuffixJoin(job.model, job.weightsConfig, Keys(runner.weightsConfigs));
  }

  /** Distinct jobs of a runner's list have distinct benchmark names, so no two
      of them share a result location. */
  lemma NamesDistinct(runner: Runner, models: seq<string>, j1: Job, j2: Job)
    requires ValidRunner(runner)
    requires j1 in BenchmarksToRun(runner, models) && j2 in BenchmarksToRun(runner, models)
    ensures BenchmarkName(runner, j1) == BenchmarkName(runner, j2) <==> j1 == j2
  {
    JobsMembership(models, runner.attentionConfigs, Keys(runner.weightsConfigs), j1);
    JobsMembership(models, runner.attentionConfigs, Keys(runner.weightsConfigs), j2);
    NameRoundTrip(runner, j1);
    NameRoundTrip(runner, j2);
  }

  /** The part of `get_benchmark_config` the runner decides: the experiment
      name and the PyTorch backend settings read from the weights table. The
      launcher and scenario settings are fixed library objects. */
  datatype BenchmarkConfig = BenchmarkConfig(
    name: string,
    model: string,
    torchDtype: string,
    quantizationScheme: Option<string>,
    quantizationConfig: seq<(string, Json)>,
    attnImplementation: string)

  /** `get_benchmark_config`: fails its assertion when the weights key is not
      in the runner's table. */
  function GetBenchmarkConfig(runner: Runner, job: Job): (r: Result<BenchmarkConfig>)
    ensures r.Ok? <==> job.weightsConfig in Keys(runner.weightsConfigs)
    ensures r.Err? ==> r.msg == "your config does contains the " + job.weightsConfig
                                + ", adjust your _get_weights_configs to fix this issue"
    ensures r.Ok? ==>
      && (job.weightsConfig, WeightsConfig(r.value.torchDtype, r.value.quantizationScheme, r.value.quantizationConfig))
           in runner.weightsConfigs
      && r.value.model == job.model
      && r.value.attnImplementation == job.attnImplementation
      && r.value.name == job.weightsConfig + "-" + job.attnImplementation
      && BenchmarkName(runner, job) == job.model + "-" + r.value.name + "-" + runner.backend
  {
    var entry := Lookup(runner.weightsConfigs, job.weightsConfig);
    assert entry.Some? <==> job.weightsConfig in Keys(runner.weightsConfigs) by {
      var ks := Keys(runner.weightsConfigs);
      if job.weightsConfig in ks {
        var i :| 0 <= i < |ks| && ks[i] == job.weightsConfig;
        assert runner.weightsConfigs[i].0 == job.weightsConfig;
      }
      if entry.Some? {
        var i :| 0 <= i < |runner.weightsConfigs| && runner.weightsConfigs[i].0 == job.weightsConfig;
        assert ks[i] == job.weightsConfig;
      }
    }
    if entry.None? then
      Err("your config does contains the " + job.weightsConfig + ", adjust your _get_weights_configs to fix this issue")
    else
      var name := job.weightsConfig + "-" + job.attnImplementation;
      assert BenchmarkName(runner, job) == job.model + "-" + name + "-" + runner.backend;
      Ok(BenchmarkConfig(name, job.model, entry.value.torchDtype, entry.value.quantScheme,
                         entry.value.quantConfig, job.attnImplementation))
  }

  /** Every listed job has a configuration: the assertion in
      `get_benchmark_config` never fires for them. Its dtype follows the
      weights key when unquantized, and is float16 with the subset's scheme
      otherwise. */
  lemma ListedJobsConfigured(runner: Runner, models: seq<string>, job: Job)
    requires ValidRunner(runner)
    requires job in BenchmarksToRun(runner, models)
    ensures GetBenchmarkConfig(runner, job).Ok?
    ensures runner.subset == Unquantized ==>
      GetBenchmarkConfig(runner, job).value.torchDtype == job.weightsConfig &&
      GetBenchmarkConfig(runner, job).value.quantizationScheme.None? &&
      GetBenchmarkConfig(runner, job).value.quantizationConfig == []
    ensures runner.subset != Unquantized ==>
      GetBenchmarkConfig(runner, job).value.torchDtype == Float16 &&
      GetBenchmarkConfig(runner, job).value.quantizationScheme == Some(runner.subset)
  {
    JobsMembership(models, runner.attentionConfigs, Keys(runner.weightsConfigs), job);
    var r := GetBenchmarkConfig(runner, job);
    var table := WeightsConfigs(runner.subset).value;
    var pair := (job.weightsConfig, WeightsConfig(r.value.torchDtype, r.value.quantizationScheme, r.value.quantizationConfig));
    var k :| 0 <= k < |table| && table[k] == pair;
  }
}
