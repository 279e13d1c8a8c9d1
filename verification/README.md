# A Dafny model of the benchmark tool core and two campaign drivers

The benchmark tool drives a property-based-testing benchmark. A *workload* is a directory of
code under test. A *variant* is one version of that code's implementation file: the `base`
variant, or a mutant with a bug injected. A *strategy* is a generator, and a *property* is a
test. A *trial* runs one strategy on one property against the applied variant. It writes one
JSON result record, named from the workload, strategy label, mutant and property.

This project models:

- **The tool core** (`tool/benchtool/BenchTool.py`), with the state of one tool as an
  immutable record `BenchTool.ToolState`. The record holds:
  - the temporary working copy, as path to contents;
  - the names in the results directory;
  - the variant most recently applied;
  - the ordered list of external build and run commands issued.

  Operations:
  - Enumeration: `all_workloads` and `all_strategies` (module `Catalog`).
  - Variable mixtures: `all_variable_mixtures` (module `Mixer`).
  - Applying and building: `apply_variant`, its file write `__apply_variant_in_impl`, and
    `just_build` (module `BenchTool`).
  - The trial decision `__trial` (module `BenchTool`). It covers the variant check, the
    strategy label, the experiment name and id, the REPLACE / SKIP / FAIL policy, and the
    arguments handed to the runner.
  - `update_variable`, as a method with loops (module `Variables`). It follows the check-then-
    write order of the source, so a failure part-way leaves earlier files rewritten.
- **The shallow-versus-deep driver** (`CollectDeeper.py`, module `CollectDeeper`). For the three
  `Proplang` workloads it runs one trial for every non-base variant and every (strategy,
  property) cell that the task table allows, unless the cell's `,deeper` record already
  exists. The variant is applied lazily, just before its first trial.
- **The Racket contracts driver** (`Collect.py`, module `RacketCollect`). For the SYSTEMF
  workload it applies every variant that has an unfinished cell, and builds each unfinished
  cell's trial configuration.

Python semantics that matter here are written out (module `PyStr`):

- `str.count` and `str.replace`, including the empty pattern;
- negative list indices;
- `s[:-0]` being the empty string;
- `",".join` and `split(",")`;
- truthiness of optional strings (`Types.Truthy`).

The drivers see the tool's enumeration hooks (`all_workloads`, `all_variants`, `all_strategies`,
`all_properties`) as one `Campaign.Adapter` record of fixed functions. Their calls on the tool
are recorded as a trace of `Preprocess`, `Apply` and `RunTrial` calls. Each driver's trace is
tied back to the tool model by a lemma: `CollectDeeper.TrialWritesCheckedRecord` and
`RacketCollect.TrialWouldWriteCheckedRecord`.

Two behaviours of the code that a reader might expect otherwise:

- **Experiment id.** When a trial's config has no experiment id, `__trial` fills in the
  experiment name and nothing else (`tool/benchtool/BenchTool.py:339-340`). No environment
  variable is read there. Only the Racket driver reads `ETNA_EXPERIMENT_ID`, and it puts the
  value into the config before the trial
  (`experiments/racket-experiments/RacketContracts/Collect.py:49`).
- **Build arguments.** `apply_variant(workload, variant, no_base=False)`
  (`tool/benchtool/BenchTool.py:100-101`) builds with `_build(workload.path)` only
  (`tool/benchtool/BenchTool.py:118`). Both drivers pass a `BuildConfig` in the third
  position, which is `no_base`. A dataclass instance is truthy, so the model treats `no_base`
  as true for both drivers, and applying `base` there is the no-op.
- **Strategy names.** `all_strategies` is modelled as written, with the slice
  `name[: -len(ext)]` (`tool/benchtool/BenchTool.py:252`). With an empty extension, every
  strategy is named by the empty string; see "## Findings" for the intended version.

## Model

| member | source | states |
|---|---|---|
| Catalog.AllWorkloads | tool/benchtool/BenchTool.py:85-88 | The workloads are exactly the scanned entries that are directories and are not named like the ignored common folder. None of them carries the ignored name, and there are never more of them than entries scanned. They keep the scan's order. |
| Catalog.AllStrategies | tool/benchtool/BenchTool.py:244-254 | As written: every strategy comes from a scanned file ending in the extension, with the same path, named by the slice `name[: -len(ext)]` of that file's name. Every such file appears. With an empty extension every strategy name is the empty string. The strategies keep the scan's order. |
| Catalog.StrategiesIntended | tool/benchtool/BenchTool.py:244-254 | The intended catalog: every strategy comes from a scanned file ending in the extension, with the same path, and its name plus the extension is the file's name. Every such file appears. |
| Catalog.StrategiesAgree | tool/benchtool/BenchTool.py:252 | For every non-empty extension, `all_strategies` as written and the intended catalog are the same list. |
| Catalog.EmptyExtensionErasesStrategies | tool/benchtool/BenchTool.py:252 | With an empty extension, `all_strategies` as written names the strategy file `Bespoke` by the empty string, where the intended catalog keeps `Bespoke`. |
| Catalog.StripExt | tool/benchtool/BenchTool.py:250-252 | The corrected base name, with the extension appended again, gives back the file name. |
| Catalog.StripExtAsWritten | tool/benchtool/BenchTool.py:252 | The slice as written is a prefix of the name. It is empty when the extension is empty. With a non-empty extension that ends the name, it is the name without the extension. |
| Catalog.EmptyExtensionErasesName | tool/benchtool/BenchTool.py:252 | With an empty extension, the slice as written turns the strategy file `Bespoke` into the empty name, while the corrected stripping keeps `Bespoke`. |
| Catalog.StripExtAgrees | tool/benchtool/BenchTool.py:252 | For every non-empty extension, the slice as written and the corrected stripping give the same name. |
| Mixer.AllVariableMixtures | tool/benchtool/BenchTool.py:173-176 | No variables give no mixtures. One variable gives one singleton mixture per variant index, in index order. |
| Mixer.Product | tool/benchtool/BenchTool.py:182 | `itertools.product` yields tuples with one component per pool, each component an element of its pool. IndicesLength, IndicesSorted and IndicesComplete give the count, order and coverage of the index walk it follows. |
| Mixer.Indices | tool/benchtool/BenchTool.py:182 | Every index vector the product walks is in bounds: one index per pool, each below that pool's length. |
| Mixer.IndicesLength | tool/benchtool/BenchTool.py:182 | The Cartesian product of the index ranges has as many vectors as the product of the variant counts. |
| Mixer.IndicesSorted | tool/benchtool/BenchTool.py:182 | The index vectors of the Cartesian product come in strictly increasing lexicographic order. |
| Mixer.IndicesComplete | tool/benchtool/BenchTool.py:182 | Every in-bounds index vector occurs in the Cartesian product. |
| Mixer.MixturesCountAndShape | tool/benchtool/BenchTool.py:177-183 | With two or more variables, the number of mixtures is the product of the variant counts. Each mixture picks one in-range variant of every variable, in variable order. |
| Mixer.MixturesOrdered | tool/benchtool/BenchTool.py:177-183 | The mixtures' index choices rise strictly in lexicographic order, so no combination is listed twice. |
| Mixer.MixturesComplete | tool/benchtool/BenchTool.py:177-183 | Every combination of in-range variant indices is one of the mixtures. |
| BenchTool.ApplyVariant | tool/benchtool/BenchTool.py:100-122 | With `no_base` set, the base variant is a no-op that changes nothing. Otherwise the variant's file holds exactly its body and every other file is kept. One build of the workload is recorded, the variant becomes current, and the trial runner is returned. |
| BenchTool.LastApplyWins | tool/benchtool/BenchTool.py:308-315 | Applying a second variant to the same file leaves the same tree as applying it alone, because the whole file is overwritten. |
| BenchTool.Fresh | tool/benchtool/BenchTool.py:34-51 | A freshly constructed tool has no current variant and has run no command, so every trial on it fails and changes nothing. |
| BenchTool.JustBuild | tool/benchtool/BenchTool.py:124-136 | The files and results are untouched, and an `Original` of the workload path becomes the current variant. The one build recorded is the same build any non-skipped `apply_variant` of that workload records. |
| BenchTool.Trial | tool/benchtool/BenchTool.py:317-368 | With no variant applied, the call fails and changes nothing (the `NoVariant` outcome; on a fresh tool the read of the unset `__variant` raises `AttributeError`). Otherwise a missing experiment id becomes the experiment name. An existing record is skipped under SKIP and reported under FAIL, with the state unchanged. Otherwise exactly one run is recorded. Its arguments name the result file in the results directory, the current variant as mutant, the label, and every field of the config, and the record joins the results. |
| BenchTool.Invoke | tool/benchtool/BenchTool.py:110-111 | The no-op runner leaves both the state and the config unchanged. |
| BenchTool.StrategyLabel | tool/benchtool/BenchTool.py:330 | A non-empty explicit label is the result. A missing or empty label falls back to the strategy, following Python truthiness of strings. |
| BenchTool.ExperimentName | tool/benchtool/BenchTool.py:332-335 | A non-empty `file` is the experiment name. Otherwise the name is workload, label, mutant and property separated by commas. |
| BenchTool.FreshToolCannotRun | tool/benchtool/BenchTool.py:320-327 | A trial before any variant was applied fails (`NoVariant`: `__variant`, only annotated at line 34, is unset, so its read raises `AttributeError`) and issues no command. |
| BenchTool.JustBuildEnablesTrial | tool/benchtool/BenchTool.py:124-136 | After `just_build` the returned runner never fails for want of a variant and never is the no-op. A run reports the original's name as the mutant, and the working files are unchanged. |
| BenchTool.RunnerReportsAppliedVariant | tool/benchtool/BenchTool.py:110-122 | The runner returned by `apply_variant` reports the applied variant's name as the mutant. For the skipped base it does nothing. Otherwise it never fails for lack of a variant. |
| BenchTool.SkipIsIdempotent | tool/benchtool/BenchTool.py:339-348 | Under SKIP, repeating a trial with the config the first call left behind finds the record and changes nothing. |
| BenchTool.FailAfterRunRaises | tool/benchtool/BenchTool.py:342-350 | Under FAIL, repeating a trial after it ran raises "already have data" and changes nothing. |
| BenchTool.ReplaceRunsEveryTime | tool/benchtool/BenchTool.py:342-368 | Under REPLACE, the same trial twice issues two runs but leaves a single record, under the canonical name. |
| BenchTool.ExperimentNameIdentifiesCell | tool/benchtool/BenchTool.py:332-335 | Without an explicit file, the experiment name splits back into workload, label, mutant and property whenever those fields contain no comma. |
| PyStr.CountPositiveIff | tool/benchtool/BenchTool.py:216 | `data.count(old)` is positive exactly when `old` occurs in `data`, the empty string included. |
| PyStr.Count | tool/benchtool/BenchTool.py:216 | An empty pattern counts `len + 1`. A non-empty pattern counts at most one occurrence per character. |
| PyStr.CountBound | tool/benchtool/BenchTool.py:216 | The occurrences of a non-empty pattern that `count` counts do not overlap: together they fit in the string. |
| PyStr.ReplaceAll | tool/benchtool/BenchTool.py:225 | Replacing a non-empty pattern by a text of the same length keeps the length. |
| PyStr.ReplaceAllLength | tool/benchtool/BenchTool.py:216-225 | `replace` substitutes exactly the occurrences `count` counts: each one trades the pattern's length for the replacement's, for every pattern including the empty one. |
| PyStr.ReplaceAllIdentity | tool/benchtool/BenchTool.py:225 | Replacing a text by itself returns the string unchanged, for every pattern including the empty one. |
| PyStr.ReplaceAllAbsent | tool/benchtool/BenchTool.py:225 | Replacing a non-empty text that does not occur returns the string unchanged. |
| PyStr.SplitJoin | tool/benchtool/BenchTool.py:333 | Splitting a comma-joined list of comma-free fields at its commas gives back the fields. |
| PyStr.JoinInjective | tool/benchtool/BenchTool.py:333 | Two lists of comma-free fields that join to the same name are the same list. |
| Variables.PyIndex | tool/benchtool/BenchTool.py:195-196 | Indexing succeeds exactly for indices from `-len` to `len - 1`. A negative index counts from the end. |
| Variables.Plan | tool/benchtool/BenchTool.py:203-212 | The steps of the pattern loop: each pattern contributes its globbed files or one "no files found" step, so there is at least one step per pattern. PlanTargetsMatched and PlanMissingIff state which files and which failures. |
| Variables.Run | tool/benchtool/BenchTool.py:210-227 | The reference run of the steps keeps the set of workspace files. RunChecksOriginalText, RunLeavesOthers and RunStopsAtFailure state its contents and outcome. |
| Variables.PlanTargetsMatched | tool/benchtool/BenchTool.py:203-204 | The files visited are exactly the files some pattern globs. |
| Variables.PlanMissingIff | tool/benchtool/BenchTool.py:203-212 | A "no files found" step occurs exactly when some pattern globs nothing. |
| Variables.NoFailureIff | tool/benchtool/BenchTool.py:203-223 | No step fails against the original files exactly when every pattern globs something, and every globbed file exists and contains the old text. |
| Variables.RunChecksOriginalText | tool/benchtool/BenchTool.py:213-227 | When no file is visited twice, checking and writing file by file is the same as checking each against its original text. Before the first failure every visited file is substituted once, and nothing after it is touched. The run passes exactly when no step fails. |
| Variables.RunLeavesOthers | tool/benchtool/BenchTool.py:213-227 | A file the patterns never visit keeps its contents, whatever the outcome. |
| Variables.RunSameTextKeepsFiles | tool/benchtool/BenchTool.py:213-227 | Switching a variable to a variant with the same text leaves every file's text as it was, with contents taken after text-mode newline translation. |
| Variables.RunStopsAtFailure | tool/benchtool/BenchTool.py:210-223 | Once a step raises, the later steps make no difference. |
| Variables.PlanRunFacts | tool/benchtool/BenchTool.py:203-227 | The properties above, combined for the whole pattern loop. |
| Variables.RewriteFiles | tool/benchtool/BenchTool.py:213-227 | The inner loop over one pattern's files computes the same outcome and files as the step-by-step reference run. |
| Variables.SubstitutePatterns | tool/benchtool/BenchTool.py:203-227 | The loop over the patterns computes the same outcome and files as the reference run of the whole plan. |
| Variables.UpdateVariable | tool/benchtool/BenchTool.py:185-234 | An out-of-range current or new index raises `IndexError` and changes nothing. The set of workspace files is kept, and unmatched files keep their contents. When no file is globbed twice, the call passes exactly when every pattern matches and every matched file holds the old text. A pass substitutes every matched file once and records the new version as current. A failure keeps the old version and substitutes exactly the files before the first failing one. |
| Campaign.Cells | experiments/coq-experiments/proplang/ShallowVsDeep/CollectDeeper.py:23-25 | The cells are exactly the pairs of a strategy name and a `test_`-prefixed property. There are as many cells as strategies times properties. |
| CollectDeeper.RunCells | experiments/coq-experiments/proplang/ShallowVsDeep/CollectDeeper.py:23-53 | One variant's cell loop always passes and only adds records. CellsLedger, CellsComplete and CellsShape state which records and calls. |
| CollectDeeper.RunVariant | experiments/coq-experiments/proplang/ShallowVsDeep/CollectDeeper.py:17-53 | One variant only adds records. When its task lookup raises, it makes no call and adds nothing. |
| CollectDeeper.RunVariants | experiments/coq-experiments/proplang/ShallowVsDeep/CollectDeeper.py:17-53 | The variant loop only adds records. VariantsLedger and VariantsStopAtRaise state which records and where it stops. |
| CollectDeeper.VariantsStopAtRaise | experiments/coq-experiments/proplang/ShallowVsDeep/CollectDeeper.py:17-40 | A raising variant loop stops at the first variant whose task lookup raises. Its `KeyError` names that variant's missing key, every earlier variant's lookup was safe, and only earlier variants were applied. |
| CollectDeeper.RunWorkloads | experiments/coq-experiments/proplang/ShallowVsDeep/CollectDeeper.py:11-53 | The workload loop only adds records. |
| CollectDeeper.Collect | experiments/coq-experiments/proplang/ShallowVsDeep/CollectDeeper.py:9-53 | No record of the initial listing is lost. The Collect lemmas below state the rest. |
| CollectDeeper.VariantLedger | experiments/coq-experiments/proplang/ShallowVsDeep/CollectDeeper.py:17-53 | One variant raises `KeyError` exactly when it is not the base, has cells, and lacks a task entry. A raising variant issues no call. The listing grows by exactly the records its trials write, each one new. |
| CollectDeeper.VariantDone | experiments/coq-experiments/proplang/ShallowVsDeep/CollectDeeper.py:21-53 | After a non-base variant passes, every allowed cell has its record. If every allowed cell already had one, the variant makes no call. |
| CollectDeeper.VariantApplies | experiments/coq-experiments/proplang/ShallowVsDeep/CollectDeeper.py:21-44 | A variant's run applies only that variant, at most once, and only while one of its allowed cells lacks its record. After the run every allowed cell is recorded. It preprocesses nothing. |
| CollectDeeper.WorkloadsApplyPending | experiments/coq-experiments/proplang/ShallowVsDeep/CollectDeeper.py:11-44 | Across the workload loop, every apply names a catalog workload and one of its variants, and happens while that variant still lacks a record. No variant is applied twice. |
| CollectDeeper.CollectRecords | experiments/coq-experiments/proplang/ShallowVsDeep/CollectDeeper.py:9-53 | The run raises `KeyError` exactly when some selected workload has a variant with cells but no task entry. The final listing is the initial one plus the records of the trials run. No trial repeats a record, or writes one that was already listed. |
| CollectDeeper.CollectScheduled | experiments/coq-experiments/proplang/ShallowVsDeep/CollectDeeper.py:11-53 | Only selected workloads are preprocessed. A variant is applied only inside its workload, and never the base. A trial runs only after its variant was applied, for an allowed cell of that workload, with the fixed 10-trial, 60-second, short-circuit configuration and the `,deeper` key as file. |
| CollectDeeper.CollectPreprocessesSelected | experiments/coq-experiments/proplang/ShallowVsDeep/CollectDeeper.py:11-15 | A run that passes preprocesses exactly the catalog's selected workloads, in catalog order. |
| CollectDeeper.CollectComplete | experiments/coq-experiments/proplang/ShallowVsDeep/CollectDeeper.py:17-53 | After a run that passes, every cell the task table allows, of every selected non-base variant, has its record. |
| CollectDeeper.CollectAppliesOnce | experiments/coq-experiments/proplang/ShallowVsDeep/CollectDeeper.py:21-44 | A variant is applied only if one of its allowed cells lacked a record in the initial listing, and never twice. Every applied variant ends with all its allowed cells recorded. |
| CollectDeeper.CollectIdempotent | experiments/coq-experiments/proplang/ShallowVsDeep/CollectDeeper.py:30-34 | Resuming after a run that passed only preprocesses. It applies nothing, runs nothing and leaves the listing as it is. |
| CollectDeeper.KeyIdentifiesCell | experiments/coq-experiments/proplang/ShallowVsDeep/CollectDeeper.py:32 | With comma-free names, the key splits back into workload, strategy, variant, property and `deeper`, so distinct cells never share a record. |
| CollectDeeper.TrialWritesCheckedRecord | experiments/coq-experiments/proplang/ShallowVsDeep/CollectDeeper.py:31-53 | Under REPLACE, a cell's trial on the tool's applied variant runs, reports that variant, and writes its record under exactly the name the resumability check reads. |
| RacketCollect.UnfinishedMembers | experiments/racket-experiments/RacketContracts/Collect.py:43-47 | The unfinished cells are exactly the cells whose record is not in the listing. |
| RacketCollect.RunCells | experiments/racket-experiments/RacketContracts/Collect.py:40-69 | One variant's cell loop makes no call, or the single apply of that variant when `run_trial` was not yet set. It builds no more configurations than it has cells, each for the workload and one of the cells. CellsMatchReference states exactly which. |
| RacketCollect.RunVariants | experiments/racket-experiments/RacketContracts/Collect.py:26-69 | The variant loop applies variants of the workload in list order, each list entry at most once, and makes no more applies than there are variants. |
| RacketCollect.AppliesInOrderOnce | experiments/racket-experiments/RacketContracts/Collect.py:26-56 | A trace that applies list entries in order, each at most once, repeats no apply when the variants are distinct. |
| RacketCollect.VariantsApplyOnce | experiments/racket-experiments/RacketContracts/Collect.py:26-56 | Over distinct variants the variant loop applies none of them twice. |
| RacketCollect.RunWorkloads | experiments/racket-experiments/RacketContracts/Collect.py:23-70 | Workloads other than SYSTEMF contribute nothing: a catalog without SYSTEMF makes no call and builds no configuration. |
| RacketCollect.Collect | experiments/racket-experiments/RacketContracts/Collect.py:20-70 | The driver's run is the declarative reference: per SYSTEMF variant, one apply if a cell is unfinished, and the configurations of the unfinished cells in loop order. |
| RacketCollect.CellsMatchReference | experiments/racket-experiments/RacketContracts/Collect.py:28-69 | The lazy `run_trial` flag makes one variant's calls a single apply, issued exactly when a cell is unfinished. Its configurations are those of the unfinished cells, in loop order. |
| RacketCollect.CollectMatchesReference | experiments/racket-experiments/RacketContracts/Collect.py:20-70 | The driver's run equals the declarative reference. For each SYSTEMF workload and each of its variants in order: one apply if a cell is unfinished, and the configurations of the unfinished cells. |
| RacketCollect.ReferenceSound | experiments/racket-experiments/RacketContracts/Collect.py:23-70 | In the reference, every apply is of a catalog SYSTEMF variant with an unfinished cell. Every configuration belongs to an unfinished SYSTEMF cell. |
| RacketCollect.ReferenceCovers | experiments/racket-experiments/RacketContracts/Collect.py:23-70 | In the reference, every SYSTEMF variant with an unfinished cell is applied, and every unfinished cell has its configuration. |
| RacketCollect.CollectSound | experiments/racket-experiments/RacketContracts/Collect.py:20-70 | The run applies only SYSTEMF variants with an unfinished cell, runs no trial, and builds configurations only for unfinished SYSTEMF cells. |
| RacketCollect.CollectComplete | experiments/racket-experiments/RacketContracts/Collect.py:20-70 | Every SYSTEMF variant with an unfinished cell is applied, and every unfinished cell gets its configuration. |
| RacketCollect.TrialWouldWriteCheckedRecord | experiments/racket-experiments/RacketContracts/Collect.py:43-70 | Suppose the disabled trial call ran on the runner `apply_variant` returns, under the driver's SKIP level. For a non-base variant it would keep the configured experiment id and report the variant. It would also look up its record under exactly the name the resumability check reads: running when the record is absent, skipping when it is present. For `base` the runner is the no-op: it runs nothing and leaves the tool state as it was, so no record is written. |

## Left out

- Logging, the logger set-up and the constructor's file-system set-up are not modelled: they do not affect results. This covers creating the temporary directory, copying the workloads into it, and creating the results directory. The constructor's outcome is `BenchTool.Fresh`.
- External commands are not executed. `_build`, `_run_trial` and `_preprocess` belong to the language subclasses, whose code is not part of this model. They are recorded as opaque events or calls, in order.
- The adapter's run is assumed to write its record at `args.file`. `BenchTool.Trial` therefore adds the record's name to the results, and the deeper driver's listing grows by each trial's record.
- `all_variants` (the implementation-file parser), `all_variables` (the `variables.json` reader) and `all_properties` are not modelled: the parser and the subclasses are not part of this model. The drivers receive their results as fixed functions (`Campaign.Adapter`).
- Directory scans, `glob.glob` and `os.listdir` are inputs, not modelled. A scan is a sequence of entries, a glob is a map from pattern to matched paths, and a listing is a set of names. The `recursive` flag of a variable only changes what the glob returns.
- `ChangeDir` and the working-directory changes are not modelled: all paths are relative to the tool's working copy. `os.path.join(results, name)` is the opaque pair `Types.ResultPath`.
- `__trial` mutates its config in place. The model returns the updated config instead (`BenchTool.TrialStep.cfg`).
- BenchTool.Trial: the outcome `NoVariant` stands for both errors a trial without a variant can raise. On a fresh tool the read of `__variant`, which is declared but never set in the constructor, raises `AttributeError`. The explicit "Cannot run trial without variant" exception is for a falsy `__variant`. The model does not tell the two apart.
- File contents are modelled as text after Python's text-mode decoding and newline translation. `open(file, "r")` and `open(file, "w")` (BenchTool.py:214, 226) turn `\r\n` and `\r` into `\n` on read and use the locale encoding. So the source can rewrite a file whose text was not changed, and an old text containing `\r` never matches. The byte-level file is not modelled.
- BenchTool.JustBuild: the name an `Original` reports is defined in `benchtool.Types`, which is not part of this model. It is taken as a parameter.
- Variables.UpdateVariable: the runner `update_variable` returns is always the bound `__trial` and is not an output of the method. The input `Variable` is returned updated instead of being mutated.
- Variables.UpdateVariable: the exact pass/fail and content statement assumes no file is globbed by two patterns. Without that assumption the method still states the frame properties and the `IndexError` case.
- A read error of `open` is collapsed into one `Unreadable` error, for a globbed path that is not a file of the working copy.
- The task table `benchtool.Tasks.tasks` and the `Coq` / `Racket` subclasses are not part of this model. The table is a parameter of the deeper driver.
- In the deeper driver, a missing task entry raises `KeyError` at the variant's first cell, before any trial of that variant. The model raises it with the variant's calls empty, which is the same.
- In `Collect.py`, line 33 is reached only for SYSTEMF, so the properties are always the fixed pair. The non-SYSTEMF task filter at line 37 can never run, so its `KeyError` and `IndexError` are not modelled.
- The Racket driver's trial call is commented out (`Collect.py:70`), so the model makes no trial calls and its listing is read once. `RacketCollect.TrialWouldWriteCheckedRecord` states what the call would do.
- `Analysis2.py` (result analysis, CSV and plotting) is not modelled: it is post-processing outside the core.
- Concurrency and failures of the file system or of subprocesses are not modelled.

## Findings

| source | as written | input that shows it | evidently intended | confidence | as-written member | corrected member |
|---|---|---|---|---|---|---|
| tool/benchtool/BenchTool.py:252 | `e.name[: -len(self._config.ext)]`: with an empty extension this is `name[:0]`, the empty string | configured extension `""`, strategy file `Bespoke` | the name without its extension, `Bespoke` | not executed | Catalog.AllStrategies with Catalog.StripExtAsWritten (shown by Catalog.EmptyExtensionErasesStrategies and Catalog.EmptyExtensionErasesName) | Catalog.StrategiesIntended with Catalog.StripExt (Catalog.StrategiesAgree for non-empty extensions) |
