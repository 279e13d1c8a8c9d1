/** The shallow-versus-deep campaign driver (`collect` in `CollectDeeper.py`): for the three
    proplang workloads, every non-base variant, and every (strategy, property) cell the task
    table allows, run one trial unless its `,deeper` record already exists, applying the
    variant lazily before the variant's first trial. */
module CollectDeeper {
  import opened Types
  import opened PyStr
  import opened Campaign
  import BenchTool

  /** The workloads this campaign covers. */
  const Selected: seq<string> := ["BSTProplang", "RBTProplang", "STLCProplang"]

  /** `benchtool.Tasks.tasks`: workload, then variant, to the property names worth testing. */
  type Tasks = map<string, map<string, set<string>>>

  /** `workload.name[:-8]`: the name without its `Proplang` suffix. */
  function TaskName(w: Entry): string
  {
    SliceDropLast(w.name, 8)
  }

  /** The key `tasks[TaskName(w)][v.name]` lacks, if any. */
  function MissingKey(tasks: Tasks, w: Entry, v: Variant): Option<string>
  {
    var t := TaskName(w);
    if t !in tasks then Some(t) else if v.name !in tasks[t] then Some(v.name) else None
  }

  function Allowed(tasks: Tasks, w: Entry, v: Variant): set<string>
    requires MissingKey(tasks, w, v).None?
  {
    tasks[TaskName(w)][v.name]
  }

  /** The task filter: `property[10:]` (the property name past `test_` and its own first five
      characters) must be listed for the variant. */
  predicate Wanted(c: Cell, allowed: set<string>)
  {
    SliceFrom(c.property, 10) in allowed
  }

  /** The resumability key `workload,strategy,variant,property,deeper`. */
  function Key(w: Entry, v: Variant, c: Cell): string
  {
    JoinCommas([w.name, c.strategy, v.name, c.property, "deeper"])
  }

  /** The name of the cell's record in the results listing. */
  function Record(w: Entry, v: Variant, c: Cell): string
  {
    BenchTool.ResultName(Key(w, v, c))
  }

  /** The trial configuration of one cell. */
  function Config(w: Entry, v: Variant, c: Cell): TrialConfig
  {
    TrialConfig(w, c.strategy, c.property, Some(Key(w, v, c)), None, None, 10, 60, true)
  }

  function CellsOf(tool: Adapter, w: Entry): seq<Cell>
  {
    Cells(tool.strategies(w), tool.properties(w))
  }

  datatype DriverError = KeyError(key: string)

  /** What a stretch of the driver leaves behind: the results listing, the calls it made on
      the tool in order, and whether it ended normally. */
  datatype Progress = Progress(results: set<string>, trace: seq<Call>, outcome: Outcome<DriverError>)

  /** The cells of one variant once its task entry was found. `applied` is whether `run_trial`
      is already set. A trial writes its record, so its name joins the listing the next cell reads. */
  function RunCells(w: Entry, v: Variant, cells: seq<Cell>, allowed: set<string>, results: set<string>, applied: bool): (r: Progress)
    ensures r.outcome == Pass && results <= r.results
    decreases |cells|
  {
    if cells == [] then Progress(results, [], Pass)
    else
      var c := cells[0];
      if !Wanted(c, allowed) || Record(w, v, c) in results then RunCells(w, v, cells[1..], allowed, results, applied)
      else
        var rest := RunCells(w, v, cells[1..], allowed, results + {Record(w, v, c)}, true);
        var apply: seq<Call> := if applied then [] else [Apply(w, v)];
        Progress(rest.results, apply + ([RunTrial(Config(w, v, c))] + rest.trace), Pass)
  }

  /** One variant: skipped if it is the base; otherwise the first cell looks the variant up in
      the task table, which raises `KeyError` when the entry is missing. */
  function RunVariant(tool: Adapter, tasks: Tasks, w: Entry, v: Variant, results: set<string>): (r: Progress)
    ensures results <= r.results
    ensures r.outcome.Raised? ==> r.trace == [] && r.results == results
  {
    var cells := CellsOf(tool, w);
    if v.name == "base" || cells == [] then Progress(results, [], Pass)
    else
      match MissingKey(tasks, w, v)
      case Some(k) => Progress(results, [], Raised(KeyError(k)))
      case None => RunCells(w, v, cells, Allowed(tasks, w, v), results, false)
  }

  function RunVariants(tool: Adapter, tasks: Tasks, w: Entry, vs: seq<Variant>, results: set<string>): (r: Progress)
    ensures results <= r.results
    decreases |vs|
  {
    if vs == [] then Progress(results, [], Pass)
    else
      var p := RunVariant(tool, tasks, w, vs[0], results);
      if p.outcome.Raised? then p
      else
        var q := RunVariants(tool, tasks, w, vs[1..], p.results);
        Progress(q.results, p.trace + q.trace, q.outcome)
  }

  /** The workload loop: unselected workloads are passed over; a selected one is preprocessed
      before its variants are enumerated. */
  function RunWorkloads(tool: Adapter, tasks: Tasks, ws: seq<Entry>, results: set<string>): (r: Progress)
    ensures results <= r.results
    decreases |ws|
  {
    if ws == [] then Progress(results, [], Pass)
    else
      var w := ws[0];
      if w.name !in Selected then RunWorkloads(tool, tasks, ws[1..], results)
      else
        var p := RunVariants(tool, tasks, w, tool.variants(w), results);
        if p.outcome.Raised? then Progress(p.results, [Preprocess(w)] + p.trace, p.outcome)
        else
          var q := RunWorkloads(tool, tasks, ws[1..], p.results);
          Progress(q.results, [Preprocess(w)] + p.trace + q.trace, q.outcome)
  }

  /** `collect(results)` on a fresh tool, given the initial listing of the results directory. */
  function Collect(tool: Adapter, tasks: Tasks, listing: set<string>): (r: Progress)
    ensures listing <= r.results
  {
    RunWorkloads(tool, tasks, tool.workloads, listing)
  }

  // ---------------------------------------------------------------------------------------
  // Reading a trace

  /** The records the trials of a trace write. */
  function RunNames(trace: seq<Call>): set<string>
    decreases |trace|
  {
    if trace == [] then {}
    else
      var e := trace[0];
      (if e.RunTrial? && e.cfg.file.Some? then {BenchTool.ResultName(e.cfg.file.value)} else {}) + RunNames(trace[1..])
  }

  /** Every trial names a record absent from `seen` and from every earlier trial's record. */
  predicate FreshRuns(trace: seq<Call>, seen: set<string>)
    decreases |trace|
  {
    if trace == [] then true
    else
      var e := trace[0];
      if e.RunTrial? then
        e.cfg.file.Some? && BenchTool.ResultName(e.cfg.file.value) !in seen
        && FreshRuns(trace[1..], seen + {BenchTool.ResultName(e.cfg.file.value)})
      else FreshRuns(trace[1..], seen)
  }

  /** The workloads a trace preprocesses, in order. */
  function Preps(trace: seq<Call>): seq<Entry>
    decreases |trace|
  {
    if trace == [] then []
    else if trace[0].Preprocess? then [trace[0].workload] + Preps(trace[1..])
    else Preps(trace[1..])
  }

  /** Where a trace stands: before any workload, inside a workload, or inside an applied variant. */
  datatype Pos = Outside | InWorkload(w: Entry) | InVariant(w: Entry, v: Variant)

  function PosAfter(trace: seq<Call>, pos: Pos): Pos
    decreases |trace|
  {
    if trace == [] then pos
    else
      match trace[0]
      case Preprocess(w) => PosAfter(trace[1..], InWorkload(w))
      case Apply(w, v) => PosAfter(trace[1..], InVariant(w, v))
      case RunTrial(_) => PosAfter(trace[1..], pos)
  }

  /** The shape every trace of this driver has. Only selected workloads are preprocessed; a
      variant is applied only inside its own workload, and never the base; a trial runs only
      after its variant was applied, for a cell of that workload that the task table allows,
      with the driver's fixed configuration. */
  predicate Scheduled(tool: Adapter, tasks: Tasks, trace: seq<Call>, pos: Pos)
    decreases |trace|
  {
    if trace == [] then true
    else
      var rest := trace[1..];
      match trace[0]
      case Preprocess(w) =>
        w in tool.workloads && w.name in Selected && Scheduled(tool, tasks, rest, InWorkload(w))
      case Apply(w, v) =>
        !pos.Outside? && pos.w == w && v in tool.variants(w) && v.name != "base"
        && Scheduled(tool, tasks, rest, InVariant(w, v))
      case RunTrial(cfg) =>
        var c := Cell(cfg.strategy, cfg.property);
        pos.InVariant? && c in CellsOf(tool, pos.w) && MissingKey(tasks, pos.w, pos.v).None?
        && Wanted(c, Allowed(tasks, pos.w, pos.v)) && cfg == Config(pos.w, pos.v, c)
        && Scheduled(tool, tasks, rest, pos)
  }

  /** Every cell of the variant that the task table allows has its record in `results`. */
  ghost predicate Done(tool: Adapter, tasks: Tasks, w: Entry, v: Variant, results: set<string>)
  {
    MissingKey(tasks, w, v).None? ==>
      forall c :: c in CellsOf(tool, w) && Wanted(c, Allowed(tasks, w, v)) ==> Record(w, v, c) in results
  }

  /** The variant's task lookup cannot raise: it is the base, it has no cells, or its entry exists. */
  predicate LookupSafe(tool: Adapter, tasks: Tasks, w: Entry, v: Variant)
  {
    v.name == "base" || CellsOf(tool, w) == [] || MissingKey(tasks, w, v).None?
  }

  /** No variant is applied twice in one trace. */
  predicate AppliedOnce(trace: seq<Call>)
  {
    forall a, b :: 0 <= a < b < |trace| && trace[a].Apply? ==> trace[b] != trace[a]
  }

  /** The selected workloads of `ws`, in order. */
  function SelectedOf(ws: seq<Entry>): seq<Entry>
    decreases |ws|
  {
    if ws == [] then [] else (if ws[0].name in Selected then [ws[0]] else []) + SelectedOf(ws[1..])
  }

  function PrepTrace(ws: seq<Entry>): seq<Call>
    decreases |ws|
  {
    if ws == [] then [] else [Preprocess(ws[0])] + PrepTrace(ws[1..])
  }

  lemma {:induction false} NamesAppend(a: seq<Call>, b: seq<Call>)
    ensures RunNames(a + b) == RunNames(a) + RunNames(b)
    ensures Preps(a + b) == Preps(a) + Preps(b)
    decreases |a|
  {
    if a == [] {
      assert a + b == b;
    } else {
      assert (a + b)[0] == a[0] && (a + b)[1..] == a[1..] + b;
      NamesAppend(a[1..], b);
    }
  }

  lemma {:induction false} FreshAppend(a: seq<Call>, b: seq<Call>, seen: set<string>)
    ensures FreshRuns(a + b, seen) <==> FreshRuns(a, seen) && FreshRuns(b, seen + RunNames(a))
    decreases |a|
  {
    if a == [] {
      assert a + b == b && seen + RunNames(a) == seen;
    } else {
      assert (a + b)[0] == a[0] && (a + b)[1..] == a[1..] + b;
      var e := a[0];
      if e.RunTrial? && e.cfg.file.Some? {
        var n := BenchTool.ResultName(e.cfg.file.value);
        FreshAppend(a[1..], b, seen + {n});
        assert seen + {n} + RunNames(a[1..]) == seen + RunNames(a);
      } else if e.RunTrial? {
        assert !FreshRuns(a, seen) && !FreshRuns(a + b, seen);
      } else {
        FreshAppend(a[1..], b, seen);
        assert RunNames(a) == RunNames(a[1..]);
      }
    }
  }

  lemma {:induction false} ScheduledAppend(tool: Adapter, tasks: Tasks, a: seq<Call>, b: seq<Call>, pos: Pos)
    ensures Scheduled(tool, tasks, a + b, pos) <==> Scheduled(tool, tasks, a, pos) && Scheduled(tool, tasks, b, PosAfter(a, pos))
    ensures PosAfter(a + b, pos) == PosAfter(b, PosAfter(a, pos))
    decreases |a|
  {
    if a == [] {
      assert a + b == b;
    } else {
      assert (a + b)[0] == a[0] && (a + b)[1..] == a[1..] + b;
      match a[0]
      case Preprocess(w) => ScheduledAppend(tool, tasks, a[1..], b, InWorkload(w));
      case Apply(w, v) => ScheduledAppend(tool, tasks, a[1..], b, InVariant(w, v));
      case RunTrial(_) => ScheduledAppend(tool, tasks, a[1..], b, pos);
    }
  }

  // ---------------------------------------------------------------------------------------
  // One variant's cells

  /** The cells' trials write exactly the new records of the listing, each one absent before. */
  lemma {:induction false} CellsLedger(w: Entry, v: Variant, cells: seq<Cell>, allowed: set<string>, results: set<string>, applied: bool)
    ensures var r := RunCells(w, v, cells, allowed, results, applied);
      r.outcome == Pass && r.results == results + RunNames(r.trace) && FreshRuns(r.trace, results)
    decreases |cells|
  {
    if cells != [] {
      var c := cells[0];
      if !Wanted(c, allowed) || Record(w, v, c) in results {
        CellsLedger(w, v, cells[1..], allowed, results, applied);
      } else {
        var n := Record(w, v, c);
        var rest := RunCells(w, v, cells[1..], allowed, results + {n}, true);
        CellsLedger(w, v, cells[1..], allowed, results + {n}, true);
        var apply: seq<Call> := if applied then [] else [Apply(w, v)];
        var run := [RunTrial(Config(w, v, c))];
        assert Ledger(run, results, results + {n}) by {
          assert run[1..] == [];
        }
        assert Ledger(apply, results, results) by {
          assert RunNames(apply) == {};
        }
        assert Ledger(rest.trace, results + {n}, rest.results);
        LedgerAppend(run, rest.trace, results, results + {n}, rest.results);
        LedgerAppend(apply, run + rest.trace, results, results, rest.results);
      }
    }
  }

  /** After the cells, every cell the table allows has its record. */
  lemma {:induction false} CellsComplete(w: Entry, v: Variant, cells: seq<Cell>, allowed: set<string>, results: set<string>, applied: bool)
    ensures var r := RunCells(w, v, cells, allowed, results, applied);
      forall c :: c in cells && Wanted(c, allowed) ==> Record(w, v, c) in r.results
    decreases |cells|
  {
    if cells != [] {
      var c := cells[0];
      var r := RunCells(w, v, cells, allowed, results, applied);
      assert forall d :: d in cells <==> d == c || d in cells[1..];
      if !Wanted(c, allowed) || Record(w, v, c) in results {
        CellsComplete(w, v, cells[1..], allowed, results, applied);
        CellsLedger(w, v, cells[1..], allowed, results, applied);
      } else {
        CellsComplete(w, v, cells[1..], allowed, results + {Record(w, v, c)}, true);
        CellsLedger(w, v, cells[1..], allowed, results + {Record(w, v, c)}, true);
      }
    }
  }

  /** Cells whose records all exist make no call and change nothing. */
  lemma {:induction false} CellsIdle(w: Entry, v: Variant, cells: seq<Cell>, allowed: set<string>, results: set<string>, applied: bool)
    requires forall c :: c in cells && Wanted(c, allowed) ==> Record(w, v, c) in results
    ensures RunCells(w, v, cells, allowed, results, applied) == Progress(results, [], Pass)
    decreases |cells|
  {
    if cells != [] {
      assert cells[0] in cells;
      CellsIdle(w, v, cells[1..], allowed, results, applied);
    }
  }

  /** The variant is applied at most once, as the first call and only if `run_trial` was unset;
      every other call is a trial; and a call is made only if some allowed cell lacks its record. */
  lemma {:induction false} CellsShape(w: Entry, v: Variant, cells: seq<Cell>, allowed: set<string>, results: set<string>, applied: bool)
    ensures var t := RunCells(w, v, cells, allowed, results, applied).trace;
      forall k :: 0 <= k < |t| ==> if k == 0 && !applied then t[k] == Apply(w, v) else t[k].RunTrial?
    ensures var t := RunCells(w, v, cells, allowed, results, applied).trace;
      t != [] ==> exists c :: c in cells && Wanted(c, allowed) && Record(w, v, c) !in results
    decreases |cells|
  {
    if cells != [] {
      var c := cells[0];
      var t := RunCells(w, v, cells, allowed, results, applied).trace;
      if !Wanted(c, allowed) || Record(w, v, c) in results {
        CellsShape(w, v, cells[1..], allowed, results, applied);
        assert t == RunCells(w, v, cells[1..], allowed, results, applied).trace;
        if t != [] {
          var d :| d in cells[1..] && Wanted(d, allowed) && Record(w, v, d) !in results;
          assert d in cells;
        }
      } else {
        var rest := RunCells(w, v, cells[1..], allowed, results + {Record(w, v, c)}, true);
        CellsShape(w, v, cells[1..], allowed, results + {Record(w, v, c)}, true);
        var off := if applied then 1 else 2;
        assert |t| == off + |rest.trace|;
        assert forall k :: off <= k < |t| ==> t[k] == rest.trace[k - off];
        assert c in cells;
      }
    }
  }

  /** The cells' calls have the driver's shape and leave it inside the applied variant. */
  lemma {:induction false} CellsScheduled(tool: Adapter, tasks: Tasks, w: Entry, v: Variant, cells: seq<Cell>, results: set<string>, applied: bool, pos: Pos)
    requires MissingKey(tasks, w, v).None?
    requires forall c :: c in cells ==> c in CellsOf(tool, w)
    requires v in tool.variants(w) && v.name != "base"
    requires applied ==> pos == InVariant(w, v)
    requires !applied ==> !pos.Outside? && pos.w == w
    ensures var t := RunCells(w, v, cells, Allowed(tasks, w, v), results, applied).trace;
      Scheduled(tool, tasks, t, pos) && PosAfter(t, pos) == if t == [] then pos else InVariant(w, v)
    decreases |cells|
  {
    if cells != [] {
      var c := cells[0];
      var allowed := Allowed(tasks, w, v);
      assert c in cells;
      if !Wanted(c, allowed) || Record(w, v, c) in results {
        CellsScheduled(tool, tasks, w, v, cells[1..], results, applied, pos);
      } else {
        var rest := RunCells(w, v, cells[1..], allowed, results + {Record(w, v, c)}, true);
        CellsScheduled(tool, tasks, w, v, cells[1..], results + {Record(w, v, c)}, true, InVariant(w, v));
        var run := [RunTrial(Config(w, v, c))];
        assert run[1..] == [] && run[0].RunTrial?;
        assert PosAfter(run, InVariant(w, v)) == PosAfter(run[1..], InVariant(w, v));
        assert Scheduled(tool, tasks, run, InVariant(w, v)) && PosAfter(run, InVariant(w, v)) == InVariant(w, v);
        ScheduledAppend(tool, tasks, run, rest.trace, InVariant(w, v));
        if !applied {
          var apply := [Apply(w, v)];
          assert Scheduled(tool, tasks, apply, pos) && PosAfter(apply, pos) == InVariant(w, v);
          ScheduledAppend(tool, tasks, apply, run + rest.trace, pos);
        } else {
          assert [] + (run + rest.trace) == run + rest.trace;
        }
      }
    }
  }

  // ---------------------------------------------------------------------------------------
  // One variant

  lemma DoneMono(tool: Adapter, tasks: Tasks, w: Entry, v: Variant, a: set<string>, b: set<string>)
    requires Done(tool, tasks, w, v, a) && a <= b
    ensures Done(tool, tasks, w, v, b)
  {
  }

  lemma {:induction false} NoPreps(t: seq<Call>)
    requires forall k :: 0 <= k < |t| ==> !t[k].Preprocess?
    ensures Preps(t) == []
    decreases |t|
  {
    if t != [] {
      NoPreps(t[1..]);
    }
  }

  /** A variant's trials write exactly the new records, each absent before; it raises exactly
      when its task lookup is unsafe, and then makes no call. */
  lemma VariantLedger(tool: Adapter, tasks: Tasks, w: Entry, v: Variant, results: set<string>)
    ensures var r := RunVariant(tool, tasks, w, v, results);
      && r.results == results + RunNames(r.trace) && FreshRuns(r.trace, results)
      && (r.outcome == Pass <==> LookupSafe(tool, tasks, w, v))
      && (r.outcome.Raised? ==> r.trace == [])
  {
    if !(v.name == "base" || CellsOf(tool, w) == []) && MissingKey(tasks, w, v).None? {
      CellsLedger(w, v, CellsOf(tool, w), Allowed(tasks, w, v), results, false);
    }
  }

  /** After a variant that passes, every allowed cell has its record; a variant whose records
      all exist makes no call. */
  lemma VariantDone(tool: Adapter, tasks: Tasks, w: Entry, v: Variant, results: set<string>)
    ensures var r := RunVariant(tool, tasks, w, v, results);
      r.outcome == Pass && v.name != "base" ==> Done(tool, tasks, w, v, r.results)
    ensures var r := RunVariant(tool, tasks, w, v, results);
      Done(tool, tasks, w, v, results) ==> r.trace == [] && r.results == results
  {
    var cells := CellsOf(tool, w);
    if v.name != "base" && cells != [] && MissingKey(tasks, w, v).None? {
      CellsComplete(w, v, cells, Allowed(tasks, w, v), results, false);
      if Done(tool, tasks, w, v, results) {
        CellsIdle(w, v, cells, Allowed(tasks, w, v), results, false);
      }
    }
  }

  /** Every apply in `trace` is of a variant that lacked a record of an allowed cell in
      `before` and has all of them in `after`. */
  ghost predicate AppliesWithin(tool: Adapter, tasks: Tasks, trace: seq<Call>, before: set<string>, after: set<string>)
  {
    forall e :: e in trace && e.Apply? ==>
      !Done(tool, tasks, e.workload, e.variant, before) && Done(tool, tasks, e.workload, e.variant, after)
  }

  /** Every apply in `trace` names a workload of `ws` and one of that workload's variants. */
  ghost predicate AppliesIn(tool: Adapter, ws: seq<Entry>, trace: seq<Call>)
  {
    forall e :: e in trace && e.Apply? ==> e.workload in ws && e.variant in tool.variants(e.workload)
  }

  lemma AppliesWithinAppend(tool: Adapter, tasks: Tasks, a: seq<Call>, b: seq<Call>, before: set<string>, mid: set<string>, after: set<string>)
    requires before <= mid <= after
    requires AppliesWithin(tool, tasks, a, before, mid) && AppliesWithin(tool, tasks, b, mid, after)
    ensures AppliesWithin(tool, tasks, a + b, before, after)
    ensures forall e :: e in a && e.Apply? ==> e !in b
  {
    forall e | e in a + b && e.Apply?
      ensures !Done(tool, tasks, e.workload, e.variant, before) && Done(tool, tasks, e.workload, e.variant, after)
    {
      if e in a {
        DoneMono(tool, tasks, e.workload, e.variant, mid, after);
      } else if Done(tool, tasks, e.workload, e.variant, before) {
        DoneMono(tool, tasks, e.workload, e.variant, before, mid);
      }
    }
  }

  /** Two traces without repeated applies, sharing no apply, make one without repeated applies. */
  lemma AppliedOnceAppend(a: seq<Call>, b: seq<Call>)
    requires AppliedOnce(a) && AppliedOnce(b)
    requires forall e :: e in a && e.Apply? ==> e !in b
    ensures AppliedOnce(a + b)
  {
    var t := a + b;
    forall i, j | 0 <= i < j < |t| && t[i].Apply? ensures t[j] != t[i] {
      if j < |a| {
        assert t[i] == a[i] && t[j] == a[j];
      } else if i >= |a| {
        assert t[i] == b[i - |a|] && t[j] == b[j - |a|];
      } else {
        assert t[i] == a[i] && t[i] in a && t[j] == b[j - |a|] && t[j] in b;
      }
    }
  }

  /** A variant's only apply is of itself, made at most once; the rest are trials. */
  lemma VariantCalls(tool: Adapter, tasks: Tasks, w: Entry, v: Variant, results: set<string>)
    ensures var t := RunVariant(tool, tasks, w, v, results).trace;
      && (forall e :: e in t && e.Apply? ==> e == Apply(w, v))
      && AppliedOnce(t) && Preps(t) == []
  {
    var t := RunVariant(tool, tasks, w, v, results).trace;
    var cells := CellsOf(tool, w);
    if v.name != "base" && cells != [] && MissingKey(tasks, w, v).None? {
      var allowed := Allowed(tasks, w, v);
      assert t == RunCells(w, v, cells, allowed, results, false).trace;
      CellsShape(w, v, cells, allowed, results, false);
      forall e | e in t && e.Apply? ensures e == Apply(w, v) {
        var k :| 0 <= k < |t| && t[k] == e;
      }
      forall a, b | 0 <= a < b < |t| && t[a].Apply? ensures t[b] != t[a] {
        assert t[b].RunTrial?;
      }
      NoPreps(t);
    } else {
      assert t == [];
    }
  }

  /** A variant is applied at most once, and only when one of its allowed cells lacks its
      record; the run then completes it. It preprocesses nothing. */
  lemma VariantApplies(tool: Adapter, tasks: Tasks, w: Entry, v: Variant, results: set<string>)
    ensures var r := RunVariant(tool, tasks, w, v, results);
      && (forall e :: e in r.trace && e.Apply? ==> e == Apply(w, v))
      && AppliesWithin(tool, tasks, r.trace, results, r.results)
      && AppliedOnce(r.trace) && Preps(r.trace) == []
  {
    var r := RunVariant(tool, tasks, w, v, results);
    var t := r.trace;
    var cells := CellsOf(tool, w);
    VariantCalls(tool, tasks, w, v, results);
    if v.name != "base" && cells != [] && MissingKey(tasks, w, v).None? {
      var allowed := Allowed(tasks, w, v);
      assert t == RunCells(w, v, cells, allowed, results, false).trace;
      CellsShape(w, v, cells, allowed, results, false);
      CellsLedger(w, v, cells, allowed, results, false);
      VariantDone(tool, tasks, w, v, results);
      if t != [] {
        var c :| c in cells && Wanted(c, allowed) && Record(w, v, c) !in results;
        assert !Done(tool, tasks, w, v, results) && Done(tool, tasks, w, v, r.results);
      }
    } else {
      assert t == [];
    }
  }

  lemma VariantScheduled(tool: Adapter, tasks: Tasks, w: Entry, v: Variant, results: set<string>, pos: Pos)
    requires v in tool.variants(w)
    requires !pos.Outside? && pos.w == w
    ensures var t := RunVariant(tool, tasks, w, v, results).trace;
      Scheduled(tool, tasks, t, pos) && !PosAfter(t, pos).Outside? && PosAfter(t, pos).w == w
  {
    var cells := CellsOf(tool, w);
    if v.name != "base" && cells != [] && MissingKey(tasks, w, v).None? {
      CellsScheduled(tool, tasks, w, v, cells, results, false, pos);
    }
  }

  // ---------------------------------------------------------------------------------------
  // The variants of one workload

  lemma {:induction false} VariantsLedger(tool: Adapter, tasks: Tasks, w: Entry, vs: seq<Variant>, results: set<string>)
    ensures var r := RunVariants(tool, tasks, w, vs, results);
      && r.results == results + RunNames(r.trace) && FreshRuns(r.trace, results)
      && (r.outcome == Pass <==> forall v :: v in vs ==> LookupSafe(tool, tasks, w, v))
    decreases |vs|
  {
    if vs != [] {
      var p := RunVariant(tool, tasks, w, vs[0], results);
      VariantLedger(tool, tasks, w, vs[0], results);
      assert forall v :: v in vs <==> v == vs[0] || v in vs[1..];
      if p.outcome.Pass? {
        var q := RunVariants(tool, tasks, w, vs[1..], p.results);
        VariantsLedger(tool, tasks, w, vs[1..], p.results);
        assert Ledger(p.trace, results, p.results) && Ledger(q.trace, p.results, q.results);
        LedgerAppend(p.trace, q.trace, results, p.results, q.results);
      }
    }
  }

  /** The variant loop stops at the first variant whose task lookup raises: the error names
      that variant's missing key, every variant before it was safe, and only variants before
      it were applied. */
  lemma {:induction false} VariantsStopAtRaise(tool: Adapter, tasks: Tasks, w: Entry, vs: seq<Variant>, results: set<string>)
    ensures var r := RunVariants(tool, tasks, w, vs, results);
      r.outcome.Raised? ==> exists k :: 0 <= k < |vs| && FirstRaise(tool, tasks, w, vs, k, r)
    decreases |vs|
  {
    var r := RunVariants(tool, tasks, w, vs, results);
    if vs != [] && r.outcome.Raised? {
      var p := RunVariant(tool, tasks, w, vs[0], results);
      VariantLedger(tool, tasks, w, vs[0], results);
      if p.outcome.Raised? {
        assert r == p;
        assert FirstRaise(tool, tasks, w, vs, 0, r);
      } else {
        var q := RunVariants(tool, tasks, w, vs[1..], p.results);
        VariantsStopAtRaise(tool, tasks, w, vs[1..], p.results);
        var k :| 0 <= k < |vs[1..]| && FirstRaise(tool, tasks, w, vs[1..], k, q);
        VariantCalls(tool, tasks, w, vs[0], results);
        RaiseAfterSafe(tool, tasks, w, vs, k, p.trace, q, r);
      }
    }
  }

  /** A safe first variant followed by a run of the rest that raises at its `k`-th variant
      raises at the `k + 1`-th. */
  lemma RaiseAfterSafe(tool: Adapter, tasks: Tasks, w: Entry, vs: seq<Variant>, k: int, head: seq<Call>, q: Progress, r: Progress)
    requires 0 <= k < |vs| - 1
    requires LookupSafe(tool, tasks, w, vs[0]) && FirstRaise(tool, tasks, w, vs[1..], k, q)
    requires forall e :: e in head && e.Apply? ==> e == Apply(w, vs[0])
    requires r.outcome == q.outcome && r.trace == head + q.trace
    ensures FirstRaise(tool, tasks, w, vs, k + 1, r)
  {
    assert vs[..k + 1] == [vs[0]] + vs[1..][..k];
    forall j | 0 <= j < k + 1 ensures LookupSafe(tool, tasks, w, vs[j]) {
      if j > 0 {
        assert vs[j] == vs[1..][j - 1];
      }
    }
  }

  /** `vs[k]` is the first variant of `vs` whose lookup raises, `r` carries its error, and
      `r` applies only variants before it. */
  predicate FirstRaise(tool: Adapter, tasks: Tasks, w: Entry, vs: seq<Variant>, k: int, r: Progress)
    requires 0 <= k < |vs|
  {
    && !LookupSafe(tool, tasks, w, vs[k])
    && r.outcome == Raised(KeyError(MissingKey(tasks, w, vs[k]).value))
    && (forall j :: 0 <= j < k ==> LookupSafe(tool, tasks, w, vs[j]))
    && (forall e :: e in r.trace && e.Apply? ==> e.variant in vs[..k])
  }

  lemma VariantsDone(tool: Adapter, tasks: Tasks, w: Entry, vs: seq<Variant>, results: set<string>)
    ensures var r := RunVariants(tool, tasks, w, vs, results);
      r.outcome == Pass ==> forall v :: v in vs && v.name != "base" ==> Done(tool, tasks, w, v, r.results)
    ensures (forall v :: v in vs ==> LookupSafe(tool, tasks, w, v) && (v.name != "base" ==> Done(tool, tasks, w, v, results))) ==>
      RunVariants(tool, tasks, w, vs, results) == Progress(results, [], Pass)
  {
    VariantsComplete(tool, tasks, w, vs, results);
    if Quiet(tool, tasks, w, vs, results) {
      VariantsIdle(tool, tasks, w, vs, results);
    }
  }

  /** Every non-base variant of `vs` has all its allowed records in `results`. */
  ghost predicate VariantsAllDone(tool: Adapter, tasks: Tasks, w: Entry, vs: seq<Variant>, results: set<string>)
  {
    forall v :: v in vs && v.name != "base" ==> Done(tool, tasks, w, v, results)
  }

  /** No variant of `vs` can raise, and none has a record left to write. */
  ghost predicate Quiet(tool: Adapter, tasks: Tasks, w: Entry, vs: seq<Variant>, results: set<string>)
  {
    forall v :: v in vs ==> LookupSafe(tool, tasks, w, v) && (v.name != "base" ==> Done(tool, tasks, w, v, results))
  }

  lemma {:induction false} VariantsComplete(tool: Adapter, tasks: Tasks, w: Entry, vs: seq<Variant>, results: set<string>)
    ensures var r := RunVariants(tool, tasks, w, vs, results);
      r.outcome == Pass ==> VariantsAllDone(tool, tasks, w, vs, r.results)
    decreases |vs|
  {
    if vs != [] {
      var p := RunVariant(tool, tasks, w, vs[0], results);
      VariantDone(tool, tasks, w, vs[0], results);
      if p.outcome.Pass? {
        var q := RunVariants(tool, tasks, w, vs[1..], p.results);
        VariantsComplete(tool, tasks, w, vs[1..], p.results);
        VariantsLedger(tool, tasks, w, vs[1..], p.results);
        if vs[0].name != "base" {
          DoneMono(tool, tasks, w, vs[0], p.results, q.results);
        }
        if q.outcome == Pass {
          forall v | v in vs && v.name != "base" ensures Done(tool, tasks, w, v, q.results) {
            if v != vs[0] {
              assert v in vs[1..];
            }
          }
        }
      }
    }
  }

  lemma {:induction false} VariantsIdle(tool: Adapter, tasks: Tasks, w: Entry, vs: seq<Variant>, results: set<string>)
    requires Quiet(tool, tasks, w, vs, results)
    ensures RunVariants(tool, tasks, w, vs, results) == Progress(results, [], Pass)
    decreases |vs|
  {
    if vs != [] {
      assert vs[0] in vs;
      VariantLedger(tool, tasks, w, vs[0], results);
      VariantDone(tool, tasks, w, vs[0], results);
      assert Quiet(tool, tasks, w, vs[1..], results) by {
        assert forall v :: v in vs[1..] ==> v in vs;
      }
      VariantsIdle(tool, tasks, w, vs[1..], results);
    }
  }

  /** Applies of a workload's variants: each names one of its variants, happens only while that
      variant still lacks a record and leaves it complete; none repeats; nothing is preprocessed. */
  lemma {:induction false} VariantsApplies(tool: Adapter, tasks: Tasks, w: Entry, vs: seq<Variant>, results: set<string>)
    ensures var r := RunVariants(tool, tasks, w, vs, results);
      && (forall e :: e in r.trace && e.Apply? ==> e.workload == w && e.variant in vs)
      && AppliesWithin(tool, tasks, r.trace, results, r.results)
      && AppliedOnce(r.trace) && Preps(r.trace) == []
    decreases |vs|
  {
    if vs != [] {
      var p := RunVariant(tool, tasks, w, vs[0], results);
      VariantApplies(tool, tasks, w, vs[0], results);
      VariantLedger(tool, tasks, w, vs[0], results);
      if p.outcome.Pass? {
        var q := RunVariants(tool, tasks, w, vs[1..], p.results);
        VariantsApplies(tool, tasks, w, vs[1..], p.results);
        VariantsLedger(tool, tasks, w, vs[1..], p.results);
        assert vs[0] in vs && forall x :: x in vs[1..] ==> x in vs;
        AppliesWithinAppend(tool, tasks, p.trace, q.trace, results, p.results, q.results);
        AppliedOnceAppend(p.trace, q.trace);
        NamesAppend(p.trace, q.trace);
      }
    }
  }

  lemma {:induction false} VariantsScheduled(tool: Adapter, tasks: Tasks, w: Entry, vs: seq<Variant>, results: set<string>, pos: Pos)
    requires forall v :: v in vs ==> v in tool.variants(w)
    requires !pos.Outside? && pos.w == w
    ensures var t := RunVariants(tool, tasks, w, vs, results).trace;
      Scheduled(tool, tasks, t, pos) && !PosAfter(t, pos).Outside? && PosAfter(t, pos).w == w
    decreases |vs|
  {
    if vs != [] {
      var p := RunVariant(tool, tasks, w, vs[0], results);
      VariantScheduled(tool, tasks, w, vs[0], results, pos);
      if p.outcome.Pass? {
        var q := RunVariants(tool, tasks, w, vs[1..], p.results);
        VariantsScheduled(tool, tasks, w, vs[1..], p.results, PosAfter(p.trace, pos));
        ScheduledAppend(tool, tasks, p.trace, q.trace, pos);
      }
    }
  }

  // ---------------------------------------------------------------------------------------
  // The workloads

  /** If `w` is selected, every one of its variants has a safe task lookup. */
  ghost predicate WorkloadSafe(tool: Adapter, tasks: Tasks, w: Entry)
  {
    w.name in Selected ==> forall v :: v in tool.variants(w) ==> LookupSafe(tool, tasks, w, v)
  }

  /** If `w` is selected, every allowed cell of every non-base variant of it has its record. */
  ghost predicate WorkloadDone(tool: Adapter, tasks: Tasks, w: Entry, results: set<string>)
  {
    w.name in Selected ==> forall v :: v in tool.variants(w) && v.name != "base" ==> Done(tool, tasks, w, v, results)
  }

  ghost predicate TasksCover(tool: Adapter, tasks: Tasks, ws: seq<Entry>)
  {
    forall w :: w in ws ==> WorkloadSafe(tool, tasks, w)
  }

  ghost predicate AllDone(tool: Adapter, tasks: Tasks, ws: seq<Entry>, results: set<string>)
  {
    forall w :: w in ws ==> WorkloadDone(tool, tasks, w, results)
  }

  lemma WorkloadDoneMono(tool: Adapter, tasks: Tasks, w: Entry, a: set<string>, b: set<string>)
    requires WorkloadDone(tool, tasks, w, a) && a <= b
    ensures WorkloadDone(tool, tasks, w, b)
  {
    if w.name in Selected {
      forall v | v in tool.variants(w) && v.name != "base" ensures Done(tool, tasks, w, v, b) {
        DoneMono(tool, tasks, w, v, a, b);
      }
    }
  }

  /** `trace` takes the listing from `before` to `after` by writing each of its trials' records,
      none of them present already. */
  ghost predicate Ledger(trace: seq<Call>, before: set<string>, after: set<string>)
  {
    after == before + RunNames(trace) && FreshRuns(trace, before)
  }

  lemma LedgerAppend(a: seq<Call>, b: seq<Call>, before: set<string>, mid: set<string>, after: set<string>)
    requires Ledger(a, before, mid) && Ledger(b, mid, after)
    ensures Ledger(a + b, before, after)
  {
    NamesAppend(a, b);
    FreshAppend(a, b, before);
  }

  /** A selected workload's preprocessing and variants keep the ledger. */
  lemma HeadLedger(tool: Adapter, tasks: Tasks, w: Entry, results: set<string>)
    ensures var p := RunVariants(tool, tasks, w, tool.variants(w), results);
      Ledger([Preprocess(w)] + p.trace, results, p.results)
  {
    var p := RunVariants(tool, tasks, w, tool.variants(w), results);
    VariantsLedger(tool, tasks, w, tool.variants(w), results);
    var pre := [Preprocess(w)];
    assert RunNames(pre) == {} && FreshRuns(pre, results) by {
      assert pre[1..] == [];
    }
    LedgerAppend(pre, p.trace, results, results, p.results);
  }

  lemma {:induction false} WorkloadsNames(tool: Adapter, tasks: Tasks, ws: seq<Entry>, results: set<string>)
    ensures var r := RunWorkloads(tool, tasks, ws, results);
      r.results == results + RunNames(r.trace) && FreshRuns(r.trace, results)
    decreases |ws|
  {
    if ws != [] {
      var w := ws[0];
      if w.name !in Selected {
        WorkloadsNames(tool, tasks, ws[1..], results);
      } else {
        var p := RunVariants(tool, tasks, w, tool.variants(w), results);
        HeadLedger(tool, tasks, w, results);
        if p.outcome.Pass? {
          var q := RunWorkloads(tool, tasks, ws[1..], p.results);
          WorkloadsNames(tool, tasks, ws[1..], p.results);
          assert Ledger(q.trace, p.results, q.results);
          LedgerAppend([Preprocess(w)] + p.trace, q.trace, results, p.results, q.results);
        }
      }
    }
  }

  lemma {:induction false} WorkloadsPass(tool: Adapter, tasks: Tasks, ws: seq<Entry>, results: set<string>)
    ensures RunWorkloads(tool, tasks, ws, results).outcome == Pass <==> TasksCover(tool, tasks, ws)
    decreases |ws|
  {
    if ws != [] {
      var w := ws[0];
      assert forall x :: x in ws <==> x == w || x in ws[1..];
      if w.name !in Selected {
        WorkloadsPass(tool, tasks, ws[1..], results);
        assert WorkloadSafe(tool, tasks, w);
      } else {
        var p := RunVariants(tool, tasks, w, tool.variants(w), results);
        VariantsLedger(tool, tasks, w, tool.variants(w), results);
        if p.outcome.Pass? {
          WorkloadsPass(tool, tasks, ws[1..], p.results);
          assert WorkloadSafe(tool, tasks, w);
        } else {
          var v :| v in tool.variants(w) && !LookupSafe(tool, tasks, w, v);
          assert w in ws && !WorkloadSafe(tool, tasks, w);
        }
      }
    }
  }

  /** The records a run writes are exactly its trials' keys, each new; the run passes exactly
      when every selected workload's task lookups are safe. */
  lemma WorkloadsLedger(tool: Adapter, tasks: Tasks, ws: seq<Entry>, results: set<string>)
    ensures var r := RunWorkloads(tool, tasks, ws, results);
      && r.results == results + RunNames(r.trace) && FreshRuns(r.trace, results)
      && (r.outcome == Pass <==> TasksCover(tool, tasks, ws))
  {
    WorkloadsNames(tool, tasks, ws, results);
    WorkloadsPass(tool, tasks, ws, results);
  }

  /** After a run that passes, every allowed cell of every non-base variant of a selected
      workload has its record. */
  lemma {:induction false} WorkloadsDone(tool: Adapter, tasks: Tasks, ws: seq<Entry>, results: set<string>)
    ensures var r := RunWorkloads(tool, tasks, ws, results);
      r.outcome == Pass ==> AllDone(tool, tasks, ws, r.results)
    decreases |ws|
  {
    if ws != [] {
      var w := ws[0];
      var r := RunWorkloads(tool, tasks, ws, results);
      if w.name !in Selected {
        WorkloadsDone(tool, tasks, ws[1..], results);
        assert r == RunWorkloads(tool, tasks, ws[1..], results);
        assert WorkloadDone(tool, tasks, w, r.results);
        assert forall x :: x in ws ==> x == w || x in ws[1..];
      } else {
        var vs := tool.variants(w);
        var p := RunVariants(tool, tasks, w, vs, results);
        VariantsDone(tool, tasks, w, vs, results);
        if p.outcome.Pass? {
          var q := RunWorkloads(tool, tasks, ws[1..], p.results);
          assert r.results == q.results && r.outcome == q.outcome;
          WorkloadsDone(tool, tasks, ws[1..], p.results);
          WorkloadsLedger(tool, tasks, ws[1..], p.results);
          assert WorkloadDone(tool, tasks, w, p.results);
          WorkloadDoneMono(tool, tasks, w, p.results, q.results);
          assert forall x :: x in ws ==> x == w || x in ws[1..];
        }
      }
    }
  }

  /** A selected workload whose lookups are safe and whose records all exist runs no variant. */
  lemma HeadIdle(tool: Adapter, tasks: Tasks, w: Entry, results: set<string>)
    requires w.name in Selected
    requires WorkloadSafe(tool, tasks, w) && WorkloadDone(tool, tasks, w, results)
    ensures RunVariants(tool, tasks, w, tool.variants(w), results) == Progress(results, [], Pass)
  {
    var vs := tool.variants(w);
    assert forall v :: v in vs ==> LookupSafe(tool, tasks, w, v) && (v.name != "base" ==> Done(tool, tasks, w, v, results));
    VariantsDone(tool, tasks, w, vs, results);
  }

  /** When every lookup is safe and every record exists, a run only preprocesses the selected
      workloads and changes nothing. */
  lemma {:induction false} WorkloadsIdle(tool: Adapter, tasks: Tasks, ws: seq<Entry>, results: set<string>)
    requires TasksCover(tool, tasks, ws) && AllDone(tool, tasks, ws, results)
    ensures RunWorkloads(tool, tasks, ws, results) == Progress(results, PrepTrace(SelectedOf(ws)), Pass)
    decreases |ws|
  {
    if ws != [] {
      var w := ws[0];
      assert w in ws;
      assert TasksCover(tool, tasks, ws[1..]) && AllDone(tool, tasks, ws[1..], results) by {
        assert forall x :: x in ws[1..] ==> x in ws;
      }
      WorkloadsIdle(tool, tasks, ws[1..], results);
      var q := RunWorkloads(tool, tasks, ws[1..], results);
      if w.name !in Selected {
        assert SelectedOf(ws) == SelectedOf(ws[1..]);
      } else {
        HeadIdle(tool, tasks, w, results);
        assert RunWorkloads(tool, tasks, ws, results) == Progress(q.results, [Preprocess(w)] + [] + q.trace, q.outcome);
        assert SelectedOf(ws) == [w] + SelectedOf(ws[1..]);
        assert PrepTrace(SelectedOf(ws)) == [Preprocess(w)] + PrepTrace(SelectedOf(ws[1..]));
      }
    }
  }

  /** Every apply in `trace` names a workload of `ws` and one of its variants, happens while that
      variant lacks a record in `before`, and leaves it complete in `after`. */
  ghost predicate AppliesPending(tool: Adapter, tasks: Tasks, ws: seq<Entry>, trace: seq<Call>, before: set<string>, after: set<string>)
  {
    AppliesIn(tool, ws, trace) && AppliesWithin(tool, tasks, trace, before, after)
  }

  /** A selected workload's part of the run: its preprocessing, then its variants. */
  lemma WorkloadHead(tool: Adapter, tasks: Tasks, w: Entry, results: set<string>)
    ensures var p := RunVariants(tool, tasks, w, tool.variants(w), results);
      var head := [Preprocess(w)] + p.trace;
      && AppliesIn(tool, [w], head)
      && AppliesWithin(tool, tasks, head, results, p.results)
      && AppliedOnce(head)
      && results <= p.results
  {
    var p := RunVariants(tool, tasks, w, tool.variants(w), results);
    VariantsApplies(tool, tasks, w, tool.variants(w), results);
    VariantsLedger(tool, tasks, w, tool.variants(w), results);
    var pre := [Preprocess(w)];
    assert AppliedOnce(pre) && AppliesWithin(tool, tasks, pre, results, results);
    AppliesWithinAppend(tool, tasks, pre, p.trace, results, results, p.results);
    AppliedOnceAppend(pre, p.trace);
  }

  /** Every apply names a workload of `ws` and one of its variants, happens while that variant
      still lacks a record, and leaves it complete; no apply is repeated. */
  lemma {:induction false} WorkloadsApplyPending(tool: Adapter, tasks: Tasks, ws: seq<Entry>, results: set<string>)
    ensures var r := RunWorkloads(tool, tasks, ws, results);
      AppliesPending(tool, tasks, ws, r.trace, results, r.results) && AppliedOnce(r.trace)
    decreases |ws|
  {
    if ws != [] {
      var w := ws[0];
      var r := RunWorkloads(tool, tasks, ws, results);
      assert w in ws && forall x :: x in ws[1..] ==> x in ws;
      if w.name !in Selected {
        WorkloadsApplyPending(tool, tasks, ws[1..], results);
      } else {
        var p := RunVariants(tool, tasks, w, tool.variants(w), results);
        var head := [Preprocess(w)] + p.trace;
        WorkloadHead(tool, tasks, w, results);
        if p.outcome.Pass? {
          var q := RunWorkloads(tool, tasks, ws[1..], p.results);
          WorkloadsApplyPending(tool, tasks, ws[1..], p.results);
          WorkloadsLedger(tool, tasks, ws[1..], p.results);
          assert r.trace == head + q.trace && r.results == q.results;
          AppliesWithinAppend(tool, tasks, head, q.trace, results, p.results, q.results);
          AppliedOnceAppend(head, q.trace);
        } else {
          assert r.trace == head && r.results == p.results;
        }
      }
    }
  }

  /** A run that passes preprocesses exactly the selected workloads, in order, once each. */
  lemma {:induction false} WorkloadsPreps(tool: Adapter, tasks: Tasks, ws: seq<Entry>, results: set<string>)
    ensures var r := RunWorkloads(tool, tasks, ws, results);
      r.outcome == Pass ==> Preps(r.trace) == SelectedOf(ws)
    decreases |ws|
  {
    if ws != [] {
      var w := ws[0];
      if w.name !in Selected {
        WorkloadsPreps(tool, tasks, ws[1..], results);
      } else {
        var p := RunVariants(tool, tasks, w, tool.variants(w), results);
        VariantsApplies(tool, tasks, w, tool.variants(w), results);
        if p.outcome.Pass? {
          var q := RunWorkloads(tool, tasks, ws[1..], p.results);
          WorkloadsPreps(tool, tasks, ws[1..], p.results);
          var pre := [Preprocess(w)];
          assert Preps(pre) == [w] by { assert pre[1..] == []; }
          NamesAppend(pre, p.trace);
          NamesAppend(pre + p.trace, q.trace);
        }
      }
    }
  }

  lemma {:induction false} WorkloadsScheduled(tool: Adapter, tasks: Tasks, ws: seq<Entry>, results: set<string>, pos: Pos)
    requires forall w :: w in ws ==> w in tool.workloads
    ensures Scheduled(tool, tasks, RunWorkloads(tool, tasks, ws, results).trace, pos)
    decreases |ws|
  {
    if ws != [] {
      var w := ws[0];
      assert w in ws;
      if w.name !in Selected {
        WorkloadsScheduled(tool, tasks, ws[1..], results, pos);
      } else {
        var p := RunVariants(tool, tasks, w, tool.variants(w), results);
        VariantsScheduled(tool, tasks, w, tool.variants(w), results, InWorkload(w));
        var pre := [Preprocess(w)];
        assert pre[1..] == [] && pre[0] == Preprocess(w);
        assert PosAfter(pre, pos) == PosAfter(pre[1..], InWorkload(w));
        assert Scheduled(tool, tasks, pre, pos) && PosAfter(pre, pos) == InWorkload(w);
        ScheduledAppend(tool, tasks, pre, p.trace, pos);
        if p.outcome.Pass? {
          var q := RunWorkloads(tool, tasks, ws[1..], p.results);
          WorkloadsScheduled(tool, tasks, ws[1..], p.results, PosAfter(pre + p.trace, pos));
          ScheduledAppend(tool, tasks, pre + p.trace, q.trace, pos);
        }
      }
    }
  }

  // ---------------------------------------------------------------------------------------
  // The whole campaign

  /** The run raises `KeyError` exactly when some variant of a selected workload, with cells to
      visit, has no task entry. The final listing adds exactly the records the trials write, and
      each trial writes a record absent from the initial listing and from every earlier trial. */
  lemma CollectRecords(tool: Adapter, tasks: Tasks, listing: set<string>)
    ensures var r := Collect(tool, tasks, listing);
      && (r.outcome == Pass <==> TasksCover(tool, tasks, tool.workloads))
      && r.results == listing + RunNames(r.trace)
      && FreshRuns(r.trace, listing)
  {
    WorkloadsLedger(tool, tasks, tool.workloads, listing);
  }

  /** Every call the run makes has the driver's shape, starting from a fresh tool. */
  lemma CollectScheduled(tool: Adapter, tasks: Tasks, listing: set<string>)
    ensures Scheduled(tool, tasks, Collect(tool, tasks, listing).trace, Outside)
  {
    WorkloadsScheduled(tool, tasks, tool.workloads, listing, Outside);
  }

  /** A run that passes preprocesses each selected workload once, in catalog order. */
  lemma CollectPreprocessesSelected(tool: Adapter, tasks: Tasks, listing: set<string>)
    ensures var r := Collect(tool, tasks, listing);
      r.outcome == Pass ==> Preps(r.trace) == SelectedOf(tool.workloads)
  {
    WorkloadsPreps(tool, tasks, tool.workloads, listing);
  }

  /** After a run that passes, every cell the task table allows has its record. */
  lemma CollectComplete(tool: Adapter, tasks: Tasks, listing: set<string>)
    ensures var r := Collect(tool, tasks, listing);
      r.outcome == Pass ==> AllDone(tool, tasks, tool.workloads, r.results)
  {
    WorkloadsDone(tool, tasks, tool.workloads, listing);
  }

  /** A variant is applied only while one of its allowed cells lacks a record, and never twice. */
  lemma CollectAppliesOnce(tool: Adapter, tasks: Tasks, listing: set<string>)
    ensures var r := Collect(tool, tasks, listing);
      AppliesPending(tool, tasks, tool.workloads, r.trace, listing, r.results) && AppliedOnce(r.trace)
  {
    WorkloadsApplyPending(tool, tasks, tool.workloads, listing);
  }

  /** Resuming after a run that passed finds every record: it only preprocesses the selected
      workloads, applies nothing, runs nothing and leaves the listing as it is. */
  lemma CollectIdempotent(tool: Adapter, tasks: Tasks, listing: set<string>)
    requires Collect(tool, tasks, listing).outcome == Pass
    ensures var done := Collect(tool, tasks, listing).results;
      Collect(tool, tasks, done) == Progress(done, PrepTrace(SelectedOf(tool.workloads)), Pass)
  {
    WorkloadsLedger(tool, tasks, tool.workloads, listing);
    WorkloadsDone(tool, tasks, tool.workloads, listing);
    WorkloadsIdle(tool, tasks, tool.workloads, Collect(tool, tasks, listing).results);
  }

  /** The key splits back into its five fields, so distinct cells with comma-free names never
      share a record. */
  lemma KeyIdentifiesCell(w: Entry, v: Variant, c: Cell)
    requires CommaFree(w.name) && CommaFree(c.strategy) && CommaFree(v.name) && CommaFree(c.property)
    ensures SplitCommas(Key(w, v, c)) == [w.name, c.strategy, v.name, c.property, "deeper"]
  {
    SplitJoin([w.name, c.strategy, v.name, c.property, "deeper"]);
  }

  /** With the tool's own `apply_variant` and `__trial` under REPLACE, a cell's trial runs
      against the applied variant and writes its record under exactly the name the
      resumability check looks for. */
  lemma TrialWritesCheckedRecord(settings: BenchTool.Settings, st: BenchTool.ToolState, w: Entry, v: Variant, c: Cell)
    requires settings.replaceLevel == Replace
    requires v.name != "base"
    ensures var a := BenchTool.ApplyVariant(st, w, v, true);
      var r := BenchTool.Invoke(settings, a.runner, a.state, Config(w, v, c));
      && r.outcome.Ran?
      && r.outcome.args.file == ResultPath(settings.resultsDir, Record(w, v, c))
      && r.outcome.args.mutant == v.name
      && r.state.results == st.results + {Record(w, v, c)}
  {
    var fields := [w.name, c.strategy, v.name, c.property, "deeper"];
    assert JoinCommas(fields) == fields[0] + "," + JoinCommas(fields[1..]);
    assert |Key(w, v, c)| > 0;
  }
}
