/** The workspace state of one `BenchTool` instance and the operations that apply a variant,
    build, and decide whether and how to run one trial. */
module BenchTool {
  import opened Types
  import opened PyStr

  /** The adapter's external commands, recorded in the order they are issued. */
  datatype Event =
    | Build(workloadPath: string)
    | RunTrialCmd(workloadPath: string, args: TrialArgs)

  /** `files`: the temporary working copy, path to contents. `results`: the names of the
      files in the results directory. `current`: the variant most recently applied. */
  datatype ToolState = ToolState(
    files: map<string, string>,
    results: set<string>,
    current: Option<Current>,
    trace: seq<Event>)

  /** The constructor arguments that `__trial` consults. */
  datatype Settings = Settings(resultsDir: string, replaceLevel: ReplaceLevel)

  /** The callable handed back by `apply_variant`, `just_build` and `update_variable`:
      the no-op `lambda _: None`, or the bound `__trial`. */
  datatype Runner = NoOp | TrialRunner

  datatype Applied = Applied(state: ToolState, runner: Runner)

  /** What the constructor leaves behind: the working copy and the results listing, with
      `__variant` never set and no command run. Every trial on it fails and changes nothing. */
  function Fresh(files: map<string, string>, results: set<string>): (st: ToolState)
    ensures st.current.None? && st.trace == []
    ensures forall settings, cfg :: Trial(settings, st, cfg) == TrialStep(NoVariant, cfg, st)
  {
    ToolState(files, results, None, [])
  }

  /** `apply_variant(workload, variant, no_base)`; `noBase` is the truthiness of the third argument. */
  function ApplyVariant(st: ToolState, workload: Entry, variant: Variant, noBase: bool): (r: Applied)
    ensures noBase && variant.name == "base" ==> r == Applied(st, NoOp)
    ensures !(noBase && variant.name == "base") ==>
      && r.runner == TrialRunner
      && r.state.files.Keys == st.files.Keys + {variant.filename}
      && r.state.files[variant.filename] == variant.body
      && (forall f :: f in st.files && f != variant.filename ==> r.state.files[f] == st.files[f])
      && r.state.trace == st.trace + [Build(workload.path)]
      && r.state.current == Some(Mutant(variant))
      && r.state.results == st.results
  {
    if noBase && variant.name == "base" then Applied(st, NoOp)
    else
      var written := st.files[variant.filename := variant.body];
      var built := st.trace + [Build(workload.path)];
      Applied(ToolState(written, st.results, Some(Mutant(variant)), built), TrialRunner)
  }

  /** `just_build(workload)`: build the unmodified tree and record an `Original` as current. */
  function JustBuild(st: ToolState, workload: Entry, originalName: string): (r: Applied)
    ensures r.runner == TrialRunner
    ensures r.state.files == st.files && r.state.results == st.results
    ensures r.state.trace == st.trace + [Build(workload.path)]
    ensures r.state.current == Some(Original(workload.path, "", originalName))
    ensures forall v: Variant, noBase: bool :: !(noBase && v.name == "base") ==>
      ApplyVariant(st, workload, v, noBase).state.trace == r.state.trace
  {
    Applied(st.(trace := st.trace + [Build(workload.path)], current := Some(Original(workload.path, "", originalName))), TrialRunner)
  }

  /** The label a trial reports: an explicit, non-empty label wins over the strategy name. */
  function StrategyLabel(cfg: TrialConfig): (r: string)
    ensures r == cfg.strategy || (cfg.strategyLabel == Some(r) && r != "")
    ensures Truthy(cfg.strategyLabel) ==> r == cfg.strategyLabel.value
    ensures cfg.strategyLabel.None? || cfg.strategyLabel == Some("") ==> r == cfg.strategy
  {
    if Truthy(cfg.strategyLabel) then cfg.strategyLabel.value else cfg.strategy
  }

  /** The experiment name: the explicit `file` if set, else `workload,label,mutant,property`. */
  function ExperimentName(cfg: TrialConfig, mutant: string): (r: string)
    ensures Truthy(cfg.file) ==> r == cfg.file.value
    ensures !Truthy(cfg.file) ==> r == cfg.workload.name + "," + StrategyLabel(cfg) + "," + mutant + "," + cfg.property
  {
    if Truthy(cfg.file) then cfg.file.value
    else
      var fields := [cfg.workload.name, StrategyLabel(cfg), mutant, cfg.property];
      assert JoinCommas(fields[3..]) == cfg.property;
      assert JoinCommas(fields[2..]) == mutant + "," + cfg.property;
      assert JoinCommas(fields[1..]) == StrategyLabel(cfg) + "," + mutant + "," + cfg.property;
      JoinCommas(fields)
  }

  /** The name of the result record inside the results directory. */
  function ResultName(experiment: string): string
  {
    experiment + ".json"
  }

  datatype TrialOutcome =
    | NoVariant                         // no variant applied yet: an error, and nothing runs
    | Skipped(experiment: string)       // SKIP with a record present
    | AlreadyHaveData(experiment: string)  // FAIL with a record present
    | Ran(args: TrialArgs)
    | NotRun                            // the no-op runner

  /** What a trial call leaves behind: its outcome, the config (whose `experiment_id` the call
      may have filled in) and the tool state. */
  datatype TrialStep = TrialStep(outcome: TrialOutcome, cfg: TrialConfig, state: ToolState)

  /** `__trial(cfg)`. A run is recorded as one `RunTrialCmd`; the adapter writes the result
      record at `args.file`, so its name joins the results directory. */
  function Trial(settings: Settings, st: ToolState, cfg: TrialConfig): (r: TrialStep)
    ensures st.current.None? ==> r == TrialStep(NoVariant, cfg, st)
    ensures st.current.Some? ==>
      var e := ExperimentName(cfg, st.current.value.Name());
      && r.cfg == cfg.(experimentId := if Truthy(cfg.experimentId) then cfg.experimentId else Some(e))
      && (ResultName(e) in st.results && settings.replaceLevel == Skip ==> r.outcome == Skipped(e) && r.state == st)
      && (ResultName(e) in st.results && settings.replaceLevel == Fail ==> r.outcome == AlreadyHaveData(e) && r.state == st)
      && (ResultName(e) !in st.results || settings.replaceLevel == Replace ==>
            && r.outcome.Ran?
            && r.state == st.(trace := st.trace + [RunTrialCmd(cfg.workload.path, r.outcome.args)],
                              results := st.results + {ResultName(e)})
            && r.outcome.args.file == ResultPath(settings.resultsDir, ResultName(e))
            && r.outcome.args.mutant == st.current.value.Name()
            && r.outcome.args.strategy == cfg.strategy
            && r.outcome.args.strategyLabel == StrategyLabel(cfg)
            && r.outcome.args.experimentId == r.cfg.experimentId.value
            && r.outcome.args.workload == cfg.workload.name
            && r.outcome.args.property == cfg.property
            && r.outcome.args.trials == cfg.trials
            && r.outcome.args.timeout == cfg.timeout
            && r.outcome.args.shortCircuit == cfg.shortCircuit)
  {
    if st.current.None? then TrialStep(NoVariant, cfg, st)
    else
      var mutant := st.current.value.Name();
      var shown := StrategyLabel(cfg);
      var experiment := ExperimentName(cfg, mutant);
      var name := ResultName(experiment);
      var cfg' := if Truthy(cfg.experimentId) then cfg else cfg.(experimentId := Some(experiment));
      if name in st.results && settings.replaceLevel == Skip then TrialStep(Skipped(experiment), cfg', st)
      else if name in st.results && settings.replaceLevel == Fail then TrialStep(AlreadyHaveData(experiment), cfg', st)
      else
        var args := TrialArgs(
          ResultPath(settings.resultsDir, name), cfg'.experimentId.value, cfg.trials, cfg.workload.name,
          cfg.strategy, mutant, cfg.property, cfg.timeout, shown, cfg.shortCircuit);
        TrialStep(Ran(args), cfg', st.(trace := st.trace + [RunTrialCmd(cfg.workload.path, args)],
                                       results := st.results + {name}))
  }

  /** Calling the runner an operation handed back. */
  function Invoke(settings: Settings, runner: Runner, st: ToolState, cfg: TrialConfig): (r: TrialStep)
    ensures runner == NoOp ==> r == TrialStep(NotRun, cfg, st)
  {
    match runner
    case NoOp => TrialStep(NotRun, cfg, st)
    case TrialRunner => Trial(settings, st, cfg)
  }

  /** A trial on a fresh tool, before any variant was applied, is an error and runs nothing. */
  lemma FreshToolCannotRun(settings: Settings, files: map<string, string>, results: set<string>, cfg: TrialConfig)
    ensures Trial(settings, Fresh(files, results), cfg).outcome == NoVariant
    ensures Trial(settings, Fresh(files, results), cfg).state.trace == []
  {
  }

  /** After `just_build` the workspace has a current variant, so a trial never fails for
      want of one; a run reports the original's name as its mutant. */
  lemma JustBuildEnablesTrial(settings: Settings, st: ToolState, w: Entry, originalName: string, cfg: TrialConfig)
    ensures var a := JustBuild(st, w, originalName);
      var r := Invoke(settings, a.runner, a.state, cfg);
      && !r.outcome.NoVariant? && !r.outcome.NotRun?
      && (r.outcome.Ran? ==> r.outcome.args.mutant == originalName)
      && r.state.files == st.files
  {
  }

  /** Applying a variant and reading back its target file yields the variant's body, even when
      another variant was applied to the same file before: a full-file replace leaves no residue. */
  lemma LastApplyWins(st: ToolState, w1: Entry, v1: Variant, w2: Entry, v2: Variant, noBase: bool)
    requires v1.filename == v2.filename
    requires v2.name != "base" || !noBase
    ensures ApplyVariant(ApplyVariant(st, w1, v1, noBase).state, w2, v2, noBase).state.files
         == ApplyVariant(st, w2, v2, noBase).state.files
  {
  }

  /** The runner `apply_variant` hands back labels its trial with that variant's name, or,
      for the skipped base variant under `no_base`, does nothing at all. */
  lemma RunnerReportsAppliedVariant(settings: Settings, st: ToolState, w: Entry, v: Variant, noBase: bool, cfg: TrialConfig)
    ensures var a := ApplyVariant(st, w, v, noBase);
      var r := Invoke(settings, a.runner, a.state, cfg);
      && (noBase && v.name == "base" ==> r.outcome == NotRun && r.state == st)
      && (r.outcome.Ran? ==> r.outcome.args.mutant == v.name)
      && (!(noBase && v.name == "base") ==> !r.outcome.NoVariant?)
  {
  }

  /** Under SKIP a second identical trial finds the record the first produced and runs nothing. */
  lemma SkipIsIdempotent(settings: Settings, st: ToolState, cfg: TrialConfig)
    requires settings.replaceLevel == Skip
    requires st.current.Some?
    ensures var r1 := Trial(settings, st, cfg);
      var r2 := Trial(settings, r1.state, r1.cfg);
      r2.outcome.Skipped? && r2.state == r1.state
  {
    var r1 := Trial(settings, st, cfg);
    assert ExperimentName(r1.cfg, st.current.value.Name()) == ExperimentName(cfg, st.current.value.Name());
  }

  /** Under FAIL a trial repeated after a run raises before any external call. */
  lemma FailAfterRunRaises(settings: Settings, st: ToolState, cfg: TrialConfig)
    requires settings.replaceLevel == Fail
    requires st.current.Some?
    ensures var r1 := Trial(settings, st, cfg);
      var r2 := Trial(settings, r1.state, r1.cfg);
      r2.outcome.AlreadyHaveData? && r2.state == r1.state
  {
    var r1 := Trial(settings, st, cfg);
    assert ExperimentName(r1.cfg, st.current.value.Name()) == ExperimentName(cfg, st.current.value.Name());
  }

  /** Under REPLACE the same trial twice makes two external runs but leaves one record, at the
      canonical name. */
  lemma ReplaceRunsEveryTime(settings: Settings, st: ToolState, cfg: TrialConfig)
    requires settings.replaceLevel == Replace
    requires st.current.Some?
    ensures var r1 := Trial(settings, st, cfg);
      var r2 := Trial(settings, r1.state, r1.cfg);
      && r1.outcome.Ran? && r2.outcome.Ran?
      && r2.state.trace == st.trace + [RunTrialCmd(cfg.workload.path, r1.outcome.args),
                                       RunTrialCmd(cfg.workload.path, r2.outcome.args)]
      && r2.state.results == st.results + {ResultName(ExperimentName(cfg, st.current.value.Name()))}
  {
    var r1 := Trial(settings, st, cfg);
    assert ExperimentName(r1.cfg, st.current.value.Name()) == ExperimentName(cfg, st.current.value.Name());
  }

  /** A synthesized result name splits back into workload, label, mutant and property, so
      cells with comma-free names never share a record. */
  lemma ExperimentNameIdentifiesCell(cfg: TrialConfig, mutant: string)
    requires !Truthy(cfg.file)
    requires CommaFree(cfg.workload.name) && CommaFree(StrategyLabel(cfg)) && CommaFree(mutant) && CommaFree(cfg.property)
    ensures SplitCommas(ExperimentName(cfg, mutant)) == [cfg.workload.name, StrategyLabel(cfg), mutant, cfg.property]
  {
    SplitJoin([cfg.workload.name, StrategyLabel(cfg), mutant, cfg.property]);
  }
}
