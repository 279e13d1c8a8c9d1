/** Records shared by the orchestration core (the `BenchTool` class) and the campaign drivers. */
module Types {

  /** Python's `Optional[...]`. */
  datatype Option<+T> = None | Some(value: T)

  /** How an operation ended: normally, or with the exception it raised. */
  datatype Outcome<+E> = Pass | Raised(error: E)

  /** Python truthiness of an optional string field: both `None` and `""` are false. */
  predicate Truthy(o: Option<string>)
  {
    o.Some? && o.value != ""
  }

  /** A catalog entry (a workload, a strategy, the common library): a name and a path. */
  datatype Entry = Entry(name: string, path: string)

  /** One alternative body for a workload's implementation file; "base" is the unmutated one. */
  datatype Variant = Variant(name: string, filename: string, body: string)

  /** What the workspace records as its current variant. */
  datatype Current =
    | Mutant(variant: Variant)
      /** What `just_build` records; the name an `Original` reports is defined outside the core. */
    | Original(path: string, tag: string, originalName: string)
  {
    /** The name a trial reports as its `mutant`. */
    function Name(): string
    {
      match this
      case Mutant(v) => v.name
      case Original(_, _, n) => n
    }
  }

  /** What `__trial` does when the result record already exists. */
  datatype ReplaceLevel = Replace | Skip | Fail

  /** The unit of scheduling: one (workload, strategy, property) cell of a campaign. */
  datatype TrialConfig = TrialConfig(
    workload: Entry,
    strategy: string,
    property: string,
    file: Option<string>,
    experimentId: Option<string>,
    strategyLabel: Option<string>,
    trials: int,
    timeout: int,
    shortCircuit: bool)

  /** A file inside the results directory. */
  datatype ResultPath = ResultPath(dir: string, name: string)

  /** The resolved argument bundle handed to the adapter's run command. */
  datatype TrialArgs = TrialArgs(
    file: ResultPath,
    experimentId: string,
    trials: int,
    workload: string,
    strategy: string,
    mutant: string,
    property: string,
    timeout: int,
    strategyLabel: string,
    shortCircuit: bool)

  /** An independently toggleable code fragment; `current` indexes the variant now in the files. */
  datatype Variable = Variable(
    name: string,
    folder: string,
    recursive: bool,
    files: seq<string>,
    variants: seq<string>,
    current: int)

  /** A call a campaign driver makes on the tool. */
  datatype Call =
    | Preprocess(workload: Entry)
    | Apply(workload: Entry, variant: Variant)
    | RunTrial(cfg: TrialConfig)
}
