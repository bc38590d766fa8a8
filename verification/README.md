# llm-perf-backend, modelled in Dafny

This project models the pure logic of the LLM performance leaderboard backend. That logic sits inside scripts that otherwise talk to the Hugging Face Hub, to pandas and to Gradio. The model covers five pieces:

- **The leaderboard update** (`llm_perf/update_llm_perf_leaderboard.py`):
  - the schema-compatibility patch that mirrors every `"stdev"` key as `"stdev_"`;
  - the names of the per-cell dataset repositories and CSV files;
  - the per-cell gather step;
  - the enumeration of all (hardware config, subset, backend) cells. A failing cell is reported and skipped, unless `repo_exists` raises while it is being reported.
- **The ROCm/PyTorch benchmark runner** (`src/benchmark_runners/rocm/update_llm_perf_rocm_pytorch.py`):
  - the weights-configuration table per subset;
  - the fixed attention list;
  - the job list, models × attention × weights;
  - the support predicate;
  - benchmark names and configuration lookups.
- **The status dashboard** (`dashboard/dashboard.py`):
  - the per-cell status table;
  - the per-benchmark status table built from patched benchmark documents;
  - the failure statistics per machine and per configuration.
- **The hub ranking script** (`src/common/get_top_model_from_hub.py`):
  - the record projection, which splits model ids on "/";
  - the per-organization download totals;
  - the top-10 organization ranking.
- **The model lists** (`llm_perf/common/utils.py`):
  - the top-n model list;
  - the de-duplicated leaderboard lists;
  - the canonical list that debug mode chooses.

JSON is a datatype whose objects are ordered key/value sequences, because Python dicts keep insertion order. Calls to the Hub and to the benchmark library become function parameters:

- `repoExists` stands for `repo_exists`. It gives None when the call raises.
- `fetch` and `snapshot` stand for `snapshot_download` plus the glob. In the dashboard a download is found, a missing repository, or another error.
- `load` and `toDataframe` stand for `Benchmark.from_json(...).to_dataframe()` on a patched document. They give None when loading raises.
- `store` says whether `to_csv`, `create_repo` and `upload_file` for a cell's CSV complete without raising.
- An `Option` of records stands for loading the ranking dataset.

Exceptions become `Result.Err`.

Modules:

- `Results`: `Option` and `Result`.
- `Seqs`: distinctness, counting, first occurrences, association lists.
- `Product`: `itertools.product` over two sequences.
- `Json`: the JSON tree.
- `StdevPatch`: the stdev patch.
- `Catalog`: hardware configs and cells.
- `Leaderboard`: the leaderboard update.
- `RocmPytorch`: the ROCm runner.
- `LexOrder`: Python's string and tuple order.
- `GroupStats`: the pandas group-by count.
- `Dashboard`: the dashboard.
- `Ranking`: stable descending sort and slicing.
- `HubModels`: the hub ranking script.
- `LlmLists`: the model lists.

Behaviour of the code that the model keeps:

- `get_list_of_benchmarks_to_run` returns the whole unfiltered product: models, then attention, then weights. Unsupported jobs are rejected later by `is_benchmark_supported`. `RocmPytorch.SupportedJobsCount` counts how many listed jobs the predicate rejects.
- Any exception in `gather_benchmarks` is caught in `update_perf_dfs`, which reports the cell and goes on. It can come from the download, from loading a document, from `pd.concat([])` on an empty snapshot, or from writing and uploading the CSV.
- `repo_exists` is called inside that handler, outside any `try`. An exception from it ends `update_perf_dfs` at that cell: the cells before it have been handled, the later ones are never visited (`Leaderboard.Run`).
- `create_status_df` calls `repo_exists` without a `try`, so one failing call makes the whole status table fail.
- `pd.concat(dfs, ignore_index=True)` keeps the frames' rows in order and aligns them on the union of their columns, in order of first appearance. A row gets NaN for a column its own frame lacks.
- In `create_benchmark_status_df` only `RepositoryNotFoundError` is caught. Any other download error, or a document that fails to load, makes the whole table fail.
- The statistics cannot divide by zero: every group holds at least one row. Only an empty status table fails, with pandas' `KeyError` on the first grouping column: "Machine" per machine, "Backend" per configuration. An empty frame has no columns.
- The repository id and the CSV name join backend, hardware, subset and machine with "-". Names that themselves contain "-" can make two cells share a repository (`Leaderboard.PerfRepoIdNotInjective`).
- `dashboard/dashboard.py:11` declares its own `PERF_REPO_ID`, with the same text as the leaderboard's. The model uses one definition for both.

## Model

| member | source | states |
|---|---|---|
| StdevPatch.PatchMirrors | llm_perf/update_llm_perf_leaderboard.py:41-53 | after the patch, every object at every depth that has "stdev" also has "stdev_" |
| StdevPatch.PatchObjectLookupAlias | llm_perf/update_llm_perf_leaderboard.py:44-50 | an existing "stdev_" keeps its (patched) value; a missing one is added exactly when "stdev" is present and then equals the patched "stdev" value; otherwise none appears |
| StdevPatch.PatchObjectLookupOther | llm_perf/update_llm_perf_leaderboard.py:44-50 | every key other than "stdev_" maps to the patch of its old value and no key disappears |
| StdevPatch.PatchObjectShape | llm_perf/update_llm_perf_leaderboard.py:43-50 | an object's keys after the patch are its old keys in the old order, followed by "stdev_" only when it was added |
| StdevPatch.PatchArrayAndScalar | llm_perf/update_llm_perf_leaderboard.py:47-53 | arrays keep length and order with every element patched; scalars are unchanged |
| StdevPatch.PatchFixpoint | llm_perf/update_llm_perf_leaderboard.py:41-53 | a document is left unchanged by the patch exactly when every object already mirrors "stdev" |
| StdevPatch.PatchIdempotent | llm_perf/update_llm_perf_leaderboard.py:45 | patching twice is patching once |
| StdevPatch.PatchWellFormed | llm_perf/update_llm_perf_leaderboard.py:45-50 | a document whose objects have distinct keys keeps distinct keys after the patch |
| Leaderboard.CsvNameFromRepoId | llm_perf/update_llm_perf_leaderboard.py:16-18 | the repository id is "optimum-benchmark/llm-perf-" followed by the cell tag backend-hardware-subset-machine; the CSV name is "perf-df-", the same tag and ".csv" |
| Leaderboard.RepoIdAndCsvAgree | llm_perf/update_llm_perf_leaderboard.py:65-67 | two cells share a repository id exactly when they share a CSV name |
| Leaderboard.PerfRepoIdNotInjective | llm_perf/update_llm_perf_leaderboard.py:16-18 | two different cells, ("a-b", "c", …) and ("a", "b-c", …), share a repository id and a CSV name |
| Leaderboard.Frames | llm_perf/update_llm_perf_leaderboard.py:75-77 | the frames' rows exist exactly when every patched document loads |
| Leaderboard.FramesAppend | llm_perf/update_llm_perf_leaderboard.py:74-78 | the rows of two runs of documents are the first run's rows followed by the second's, so order and repeats are kept; either run failing to load makes the whole fail |
| Leaderboard.FramesOne | llm_perf/update_llm_perf_leaderboard.py:76-77 | one document contributes exactly its own frame's rows |
| Leaderboard.FramesMembers | llm_perf/update_llm_perf_leaderboard.py:74-78 | the frames' rows are exactly the rows of the documents' frames |
| Leaderboard.AllKeysMembers | llm_perf/update_llm_perf_leaderboard.py:78 | a column occurs among the frames exactly when some row has it |
| Leaderboard.AlignLookup | llm_perf/update_llm_perf_leaderboard.py:78 | a row re-indexed to distinct columns has exactly those columns in that order, keeps its own values and holds NaN where it had none |
| Leaderboard.ConcatMeaning | llm_perf/update_llm_perf_leaderboard.py:78 | the concatenation keeps every row in place; each row has the same duplicate-free columns, exactly those some frame has; it keeps its own values and holds NaN for the columns its frame lacked |
| Leaderboard.GatherBenchmarks | llm_perf/update_llm_perf_leaderboard.py:61-91 | succeeds exactly when the snapshot was downloaded, holds at least one document, every patched document loads and the CSV is written and uploaded; the upload goes to the leaderboard repository under the cell's CSV name and holds the `pd.concat` of the documents' frames, in document order, each document patched and mirrored |
| Leaderboard.ReportFor | llm_perf/update_llm_perf_leaderboard.py:112-130 | a cell is uploaded exactly when download, loading, concatenation and upload all succeed; otherwise it is reported with its repository id and what `repo_exists` answered, and the handler raises exactly when `repo_exists` raises |
| Leaderboard.ExtendAssociative | llm_perf/update_llm_perf_leaderboard.py:109-130 | running cells in pieces does not depend on how the pieces are grouped |
| Leaderboard.RunCellsAppend | llm_perf/update_llm_perf_leaderboard.py:109-130 | running a + b is running a and then, unless a stopped, running b |
| Leaderboard.RunCellsMeaning | llm_perf/update_llm_perf_leaderboard.py:109-130 | the run reports the leading cells in order, each as the handler does, and stops with the handler's error at the first cell whose `repo_exists` raises; it gets through every cell exactly when none raises |
| Leaderboard.HandleCell | llm_perf/update_llm_perf_leaderboard.py:112-130 | the loop body for one cell yields that cell's step of the run: exactly one report, or the error that stops the run |
| Leaderboard.UpdateSubset | llm_perf/update_llm_perf_leaderboard.py:111-130 | the backend loop of one subset is the run over that row of cells |
| Leaderboard.UpdateConfig | llm_perf/update_llm_perf_leaderboard.py:110-130 | the subset loop of one config is the run over that config's cells |
| Leaderboard.UpdatePerfDfs | llm_perf/update_llm_perf_leaderboard.py:103-130 | the run over all cells in catalog order (config, then subset, then backend): each handled cell reported as `ReportFor` says, a gather failure does not stop the loop, and the run ends with that error exactly at the first cell where `repo_exists` raises |
| Catalog.CellsForIndex | llm_perf/update_llm_perf_leaderboard.py:109-111 | within one config, the cell of subset i and backend j sits at position i·|backends|+j |
| Catalog.CellsMembership | llm_perf/update_llm_perf_leaderboard.py:109-111 | a cell is enumerated exactly when some config has its hardware, machine, one of its subsets and one of its backends |
| RocmPytorch.WeightsConfigs | src/benchmark_runners/rocm/update_llm_perf_rocm_pytorch.py:90-185 | known subsets give a non-empty table with distinct keys; unquantized keys are float32, float16, bfloat16 with dtype = key, no scheme, empty config; other subsets use float16 and their own scheme; any other subset is "Unknown subset: …" |
| RocmPytorch.NewRunner | src/benchmark_runners/rocm/update_llm_perf_rocm_pytorch.py:18-23 | a missing subset fails with the SUBSET message; otherwise the runner has backend pytorch, device rocm, the attention list eager, sdpa, flash_attention_2 and the subset's table |
| RocmPytorch.JobsIndex | src/benchmark_runners/rocm/update_llm_perf_rocm_pytorch.py:25-37 | job (model i, attention j, weights k) sits at position (i·|attns|+j)·|weights|+k |
| RocmPytorch.JobsLength | src/benchmark_runners/rocm/update_llm_perf_rocm_pytorch.py:25-37 | the job list has |models|·|attns|·|weights| entries |
| RocmPytorch.JobsMembership | src/benchmark_runners/rocm/update_llm_perf_rocm_pytorch.py:25-37 | a job is listed exactly when its model, attention and weights key are each in their list |
| RocmPytorch.JobsDistinct | src/benchmark_runners/rocm/update_llm_perf_rocm_pytorch.py:25-37 | with duplicate-free inputs every triple is listed once |
| RocmPytorch.SupportedJobsCount | src/benchmark_runners/rocm/update_llm_perf_rocm_pytorch.py:25-47 | the runner lists |models|·3·|weights| jobs; for unquantized exactly |models| of them are rejected by the support predicate, for the other subsets none |
| RocmPytorch.UnsupportedJobs | src/benchmark_runners/rocm/update_llm_perf_rocm_pytorch.py:44-47 | the rejected jobs of a product number |models| times the count of (flash_attention_2, float32) combinations |
| RocmPytorch.NameRoundTrip | src/benchmark_runners/rocm/update_llm_perf_rocm_pytorch.py:39-42 | the benchmark name "model-weights-attention-pytorch" parses back to its job |
| RocmPytorch.NamesDistinct | src/benchmark_runners/rocm/update_llm_perf_rocm_pytorch.py:39-42 | two listed jobs have the same name exactly when they are the same job |
| RocmPytorch.GetBenchmarkConfig | src/benchmark_runners/rocm/update_llm_perf_rocm_pytorch.py:49-88 | fails its assertion exactly when the weights key is not in the table; otherwise dtype, scheme and config come from that entry, model and attention come from the job, and the experiment name is the weights key, "-" and the attention |
| RocmPytorch.ListedJobsConfigured | src/benchmark_runners/rocm/update_llm_perf_rocm_pytorch.py:25-59 | every listed job has a configuration, with the dtype and scheme its subset's table prescribes |
| Dashboard.StatusRowsAppend | dashboard/dashboard.py:16-36 | the status rows of a + b are those of a followed by those of b; a failure in a comes first |
| Dashboard.StatusRowsMeaning | dashboard/dashboard.py:16-36 | the rows exist exactly when `repo_exists` answers for every cell; then one row per cell, in order, copying its fields, passed exactly when the answer is yes |
| Dashboard.CreateStatusDf | dashboard/dashboard.py:13-39 | fails exactly when `repo_exists` raises for some cell; otherwise one row per cell in catalog order, copying the cell's fields, passed exactly when the cell's repository exists |
| Dashboard.GlyphsDistinct | dashboard/dashboard.py:28 | the two status marks differ, so the failure count may compare the mark |
| Dashboard.TracebackOf | dashboard/dashboard.py:76-79 | the traceback is the "report.traceback" column when present, otherwise the empty string |
| Dashboard.MakeRow | dashboard/dashboard.py:81-90 | a row copies its cell, takes model and experiment from their columns, and is passed exactly when its traceback is empty |
| Dashboard.ToBenchmarkRow | dashboard/dashboard.py:86-88 | building a row fails with KeyError exactly when "config.backend.model" or "config.name" is missing, model checked first |
| Dashboard.CreateBenchmarkStatusDfMeaning | dashboard/dashboard.py:41-105 | the table succeeds exactly when no download fails except by a missing repository, every document of a found cell loads, and every frame row has both columns; it then holds, in visiting order, the row `MakeRow` builds from each frame row (cell, model, experiment, traceback, full data), passed exactly when its traceback is empty |
| Dashboard.DocRowsFlat | dashboard/dashboard.py:65-92 | when every document of a cell loads, its rows are the conversion of its documents' tagged frame rows; otherwise the conversion fails |
| Dashboard.BenchmarkStatusFlat | dashboard/dashboard.py:45-92 | when every cell loads, the nested loop over cells, documents and frame rows equals the conversion of the flat list of all tagged frame rows; otherwise it fails |
| Dashboard.SourceRowsFromFoundCells | dashboard/dashboard.py:55-71 | every row comes from a cell whose repository was found and from the frame of one of its patched documents |
| Dashboard.StatsMeaning | dashboard/dashboard.py:136-139 | one line per distinct key in ascending order; each counts exactly the rows and failed rows of its key, has at least one row and a rate in [0, 100]; every row's key has a line; the totals add up to the number of rows |
| Dashboard.MachineStats | dashboard/dashboard.py:127-143 | the per-machine table fails exactly when the status table is empty, with `KeyError` on 'Machine' |
| Dashboard.ConfigStats | dashboard/dashboard.py:155-171 | the per-configuration table fails exactly when the status table is empty, with `KeyError` on 'Backend', the first grouping column |
| Dashboard.ConfigStatsRefineMachineStats | dashboard/dashboard.py:136-139 | the configuration lines of a machine add up to that machine's total |
| Dashboard.SuccessRate | dashboard/dashboard.py:141-142 | the rate lies in [0, 100]; it is 100 exactly when nothing failed and 0 exactly when everything failed |
| GroupStats.TallyInvariant | dashboard/dashboard.py:136-139 | the group-by keeps keys sorted, counts each key's rows and failures, and conserves the number of rows |
| HubModels.SplitJoinRoundTrip | src/common/get_top_model_from_hub.py:31-32 | joining the pieces of `split("/")` with "/" gives back the id |
| HubModels.SplitCount | src/common/get_top_model_from_hub.py:31-32 | `split("/")` yields one more piece than there are slashes, so at least one |
| HubModels.JoinSplit | src/common/get_top_model_from_hub.py:31-32 | splitting a join of slash-free pieces gives the pieces back |
| HubModels.OrganizationAndModelName | src/common/get_top_model_from_hub.py:31-32 | the organization is the text before the first "/", the model name the text after the last; with no "/" both are the id |
| HubModels.OneSlashRoundTrip | src/common/get_top_model_from_hub.py:31-32 | for an id with exactly one "/", organization + "/" + model name is the id |
| HubModels.ProjectAtWithDownloads | src/common/get_top_model_from_hub.py:29-37 | the k-th record is projected from the k-th listed entry that has a download count |
| HubModels.WithDownloadsComplete | src/common/get_top_model_from_hub.py:29-37 | the positions of entries with a download count increase and include every such entry |
| HubModels.ProjectKeepsDownloaded | src/common/get_top_model_from_hub.py:29-37 | the projection keeps exactly the entries with a download count, in their order, one record each |
| HubModels.OrgDownloadsKeys | src/common/get_top_model_from_hub.py:46-50 | the keys are the organizations in order of first appearance, each once |
| HubModels.OrgDownloadsValues | src/common/get_top_model_from_hub.py:46-50 | each organization's value is the sum of its records' downloads; absent organizations have no entry |
| HubModels.OrgDownloadsSum | src/common/get_top_model_from_hub.py:46-50 | the values add up to all downloads |
| HubModels.OrgDownloads | src/common/get_top_model_from_hub.py:46-50 | empty input gives an empty table and only empty input does |
| HubModels.TopOrganizationsCorrect | src/common/get_top_model_from_hub.py:80-81 | at most ten organizations, non-increasing, each with its own total, none left out with more downloads than one shown |
| Ranking.SortDescCorrect | llm_perf/common/utils.py:40 | the descending sort is a permutation, non-increasing, and keeps records of equal downloads in their original order |
| Ranking.TakeDominates | llm_perf/common/utils.py:43-46 | a prefix of a non-increasing list is non-increasing and dominates everything after it |
| Ranking.Take | llm_perf/common/utils.py:45 | `xs[:n]` has min(n, |xs|) elements for n ≥ 0 and drops -n from the end for n < 0, and is a prefix |
| LlmLists.GetTopLlmList | llm_perf/common/utils.py:20-51 | a failed fetch gives the empty list; otherwise the list has min(n, |records|) entries |
| LlmLists.GetTopLlmListCorrect | llm_perf/common/utils.py:40-46 | entry k formats the k-th most downloaded record; no record past the cut has more downloads than one kept |
| LlmLists.Format | llm_perf/common/utils.py:44 | the entry is the organization, "/", then the model name |
| LlmLists.TopListEntriesAreHubIds | llm_perf/common/utils.py:40-46 | over records projected from hub ids of the form "org/name", each entry is the id of a listed model that had a download count |
| LlmLists.OpenLlmListCorrect | llm_perf/common/utils.py:12 | every model of the table appears exactly once, in order of first appearance |
| LlmLists.PretrainedOpenLlmListCorrect | llm_perf/common/utils.py:13-17 | duplicate-free; a model appears exactly when it has a pretrained row; every entry is in the open list |
| LlmLists.CanonicalList | llm_perf/common/utils.py:54-57 | at most ten entries; exactly ["gpt2"] in debug mode |
| LlmLists.CanonicalListOutsideDebug | llm_perf/common/utils.py:54-57 | outside debug mode the list is the top ten (or all records when fewer), or empty when fetching failed |
| Seqs.DedupFirstCorrect | llm_perf/common/utils.py:12 | first-occurrence de-duplication is duplicate-free, keeps every element and orders them by first occurrence |

## Left out

- Hub and network I/O (`snapshot_download`, `repo_exists`, `create_repo`, `upload_file`, `requests.get`, `load_dataset`, `push_to_hub`, `pd.read_csv` of the leaderboard) become parameters, because the model cannot see the remote side.
- Reading and writing files in `patch_json` is left out as I/O. Only the in-memory transform is modelled. Of `to_csv`, `create_repo` and `upload_file` only whether they complete is modelled (`store`), not the CSV text.
- Which exception message a failing cell or table carries is kept only for the `KeyError`s; the other errors carry a descriptive message instead of the library's text.
- `Benchmark.from_json(...).to_dataframe()` and the optimum-benchmark config classes are library code not shown here. A frame is an opaque list of flattened rows, and the benchmark config keeps only the fields the runner sets from its table.
- The launcher and scenario settings of `get_benchmark_config`, `INPUT_SHAPES` and `GENERATE_KWARGS` are left out: they are constant arguments to library classes.
- `LLMPerfBenchmarkManager`, the base class, is not part of this model. That covers `run_benchmarks`, its skipping of unsupported jobs, the uploads and the reading of SUBSET. The subset arrives as a parameter.
- `llm_perf/common/hardware_config.py` and `hardware.yaml` are not part of this model. The catalog is a parameter.
- `Leaderboard.Concat`: a frame's columns come from its rows, so a frame with no rows adds no columns, whereas `pd.concat` would still add them. Column dtypes, and the upcasting that NaN forces on integer columns, are not modelled, because a frame is a list of JSON rows.
- The order in which `glob` lists the `benchmark.json` files is the order of the snapshot sequence, because the file system is not modelled.
- Gradio tables and layout, and the printed progress messages, are presentation only.
- `Dashboard.SuccessRate`: does not model `.round(2)` or the `astype(str) + '%'` rendering. The rate is the exact rational value, because float rounding is not modelled.
- The `update_llm_df` scraping script, the two typer CLIs, `setup.py` and `dependency.py` (an environment read, which becomes the `debug` parameter) are outside the core.
- The "Full Data" column (`json.dumps(row.to_dict())`) is kept as the row itself, not as its serialised text, because JSON text encoding is not modelled.
- A pandas NaN in the "report.traceback" column is the value `JNull`. It differs from "", so such a row counts as failed, as in the code.
- `HubModels.Project`: assumes every listed model has an "id". A missing id raises `KeyError` in the code, and the hub always sends one.
