/** The Racket contracts campaign driver (`collect` in `Collect.py`): for the SYSTEMF workload
    only, every variant and every (strategy, property) cell over two fixed properties, apply
    the variant lazily on its first unfinished cell and build the cell's trial configuration.
    The trial call itself is disabled, so applies are the only calls made on the tool. */
module RacketCollect {
  import opened Types
  import opened PyStr
  import opened Campaign
  import BenchTool

  /** The only workload this campaign covers. */
  const Workload: string := "SYSTEMF"

  /** The properties every SYSTEMF cell uses, before the `test_` prefix. */
  const Properties: seq<string> := ["prop_SinglePreserve", "prop_MultiPreserve"]

  function CellsOf(tool: Adapter, w: Entry): seq<Cell>
  {
    Cells(tool.strategies(w), Properties)
  }

  /** The resumability key `workload,strategy,variant,property`. */
  function Key(w: Entry, v: Variant, c: Cell): string
  {
    JoinCommas([w.name, c.strategy, v.name, c.property])
  }

  function Record(w: Entry, v: Variant, c: Cell): string
  {
    BenchTool.ResultName(Key(w, v, c))
  }

  /** `os.environ.get("ETNA_EXPERIMENT_ID") or file`: a set, non-empty override wins. */
  function ExperimentId(env: Option<string>, key: string): string
  {
    if Truthy(env) then env.value else key
  }

  /** The trial configuration built for one cell. */
  function Config(w: Entry, v: Variant, c: Cell, env: Option<string>): TrialConfig
  {
    TrialConfig(w, c.strategy, c.property, None, Some(ExperimentId(env, Key(w, v, c))), None, 10, 60, true)
  }

  /** The calls made on the tool, and the configurations built, in order. Nothing writes to
      the results directory, so every cell reads the same listing. */
  datatype Progress = Progress(trace: seq<Call>, configs: seq<TrialConfig>)

  function Join(a: Progress, b: Progress): Progress
  {
    Progress(a.trace + b.trace, a.configs + b.configs)
  }

  /** The cells of one variant; `applied` is whether `run_trial` is already set. */
  function RunCells(w: Entry, v: Variant, cells: seq<Cell>, listing: set<string>, env: Option<string>, applied: bool): (r: Progress)
    ensures r.trace == [] || (!applied && r.trace == [Apply(w, v)])
    ensures |r.configs| <= |cells|
    ensures forall k :: 0 <= k < |r.configs| ==>
      r.configs[k].workload == w && Cell(r.configs[k].strategy, r.configs[k].property) in cells
    decreases |cells|
  {
    if cells == [] then Progress([], [])
    else
      var c := cells[0];
      if Record(w, v, c) in listing then RunCells(w, v, cells[1..], listing, env, applied)
      else
        var rest := RunCells(w, v, cells[1..], listing, env, true);
        var apply: seq<Call> := if applied then [] else [Apply(w, v)];
        Progress(apply + rest.trace, [Config(w, v, c, env)] + rest.configs)
  }

  /** `trace` applies variants of `vs` to `w` in the order of `vs`, each entry of `vs` at most once. */
  predicate AppliesInOrder(w: Entry, vs: seq<Variant>, trace: seq<Call>)
    decreases |vs|
  {
    if vs == [] then trace == []
    else
      || AppliesInOrder(w, vs[1..], trace)
      || (trace != [] && trace[0] == Apply(w, vs[0]) && AppliesInOrder(w, vs[1..], trace[1..]))
  }

  /** Every call of such a trace applies an entry of `vs`. */
  lemma {:induction false} AppliesFrom(w: Entry, vs: seq<Variant>, trace: seq<Call>)
    requires AppliesInOrder(w, vs, trace)
    ensures forall e :: e in trace ==> e.Apply? && e.workload == w && e.variant in vs
    decreases |vs|
  {
    if vs != [] {
      if AppliesInOrder(w, vs[1..], trace) {
        AppliesFrom(w, vs[1..], trace);
      } else {
        AppliesFrom(w, vs[1..], trace[1..]);
        assert forall e :: e in trace ==> e == trace[0] || e in trace[1..];
      }
    }
  }

  /** Over distinct variants such a trace applies no variant twice. */
  lemma {:induction false} AppliesInOrderOnce(w: Entry, vs: seq<Variant>, trace: seq<Call>)
    requires AppliesInOrder(w, vs, trace)
    requires forall i, j :: 0 <= i < j < |vs| ==> vs[i] != vs[j]
    ensures forall i, j :: 0 <= i < j < |trace| ==> trace[i] != trace[j]
    decreases |vs|
  {
    if vs != [] {
      if AppliesInOrder(w, vs[1..], trace) {
        AppliesInOrderOnce(w, vs[1..], trace);
      } else {
        var t := trace[1..];
        AppliesInOrderOnce(w, vs[1..], t);
        AppliesFrom(w, vs[1..], t);
        forall i, j | 0 <= i < j < |trace| ensures trace[i] != trace[j] {
          if i == 0 {
            assert trace[j] == t[j - 1];
            assert t[j - 1] in t;
            assert vs[0] !in vs[1..];
          } else {
            assert trace[i] == t[i - 1] && trace[j] == t[j - 1];
          }
        }
      }
    }
  }

  function RunVariants(tool: Adapter, w: Entry, vs: seq<Variant>, listing: set<string>, env: Option<string>): (r: Progress)
    ensures |r.trace| <= |vs|
    ensures AppliesInOrder(w, vs, r.trace)
    decreases |vs|
  {
    if vs == [] then Progress([], [])
    else
      var head := RunCells(w, vs[0], CellsOf(tool, w), listing, env, false);
      var rest := RunVariants(tool, w, vs[1..], listing, env);
      assert head.trace == [] ==> head.trace + rest.trace == rest.trace;
      assert head.trace != [] ==> (head.trace + rest.trace)[0] == Apply(w, vs[0]) && (head.trace + rest.trace)[1..] == rest.trace;
      Join(head, rest)
  }

  function RunWorkloads(tool: Adapter, ws: seq<Entry>, listing: set<string>, env: Option<string>): (r: Progress)
    ensures (forall w :: w in ws ==> w.name != Workload) ==> r == Progress([], [])
    decreases |ws|
  {
    if ws == [] then Progress([], [])
    else if ws[0].name == Workload then
      Join(RunVariants(tool, ws[0], tool.variants(ws[0]), listing, env), RunWorkloads(tool, ws[1..], listing, env))
    else RunWorkloads(tool, ws[1..], listing, env)
  }

  /** Over a list of distinct variants the variant loop applies none of them twice. */
  lemma VariantsApplyOnce(tool: Adapter, w: Entry, vs: seq<Variant>, listing: set<string>, env: Option<string>)
    requires forall i, j :: 0 <= i < j < |vs| ==> vs[i] != vs[j]
    ensures var t := RunVariants(tool, w, vs, listing, env).trace;
      forall i, j :: 0 <= i < j < |t| ==> t[i] != t[j]
  {
    AppliesInOrderOnce(w, vs, RunVariants(tool, w, vs, listing, env).trace);
  }

  /** `collect(results)`, given the listing of the results directory and the environment
      override of the experiment id. */
  function Collect(tool: Adapter, listing: set<string>, env: Option<string>): (r: Progress)
    ensures r == Reference(tool, tool.workloads, listing, env)
  {
    CollectMatchesReference(tool, tool.workloads, listing, env);
    RunWorkloads(tool, tool.workloads, listing, env)
  }

  // ---------------------------------------------------------------------------------------
  // A declarative account of the same run

  /** Some cell of the variant lacks its record. */
  ghost predicate Pending(tool: Adapter, w: Entry, v: Variant, listing: set<string>)
  {
    exists c :: c in CellsOf(tool, w) && Record(w, v, c) !in listing
  }

  /** The cells whose records are missing, in loop order. */
  function Unfinished(w: Entry, v: Variant, cells: seq<Cell>, listing: set<string>): seq<Cell>
    decreases |cells|
  {
    if cells == [] then []
    else (if Record(w, v, cells[0]) in listing then [] else [cells[0]]) + Unfinished(w, v, cells[1..], listing)
  }

  /** The unfinished cells are exactly the cells whose record is not listed. */
  lemma {:induction false} UnfinishedMembers(w: Entry, v: Variant, cells: seq<Cell>, listing: set<string>)
    ensures forall c :: c in Unfinished(w, v, cells, listing) <==> c in cells && Record(w, v, c) !in listing
    decreases |cells|
  {
    if cells != [] {
      UnfinishedMembers(w, v, cells[1..], listing);
      assert forall c :: c in cells <==> c == cells[0] || c in cells[1..];
    }
  }

  function ConfigsOf(w: Entry, v: Variant, cells: seq<Cell>, env: Option<string>): seq<TrialConfig>
  {
    seq(|cells|, i requires 0 <= i < |cells| => Config(w, v, cells[i], env))
  }

  /** What the run should do for one variant: apply it once if any cell is unfinished, and
      build the configurations of exactly the unfinished cells. */
  ghost function VariantReference(tool: Adapter, w: Entry, v: Variant, listing: set<string>, env: Option<string>): Progress
  {
    Progress(if Pending(tool, w, v, listing) then [Apply(w, v)] else [],
             ConfigsOf(w, v, Unfinished(w, v, CellsOf(tool, w), listing), env))
  }

  ghost function VariantsReference(tool: Adapter, w: Entry, vs: seq<Variant>, listing: set<string>, env: Option<string>): Progress
    decreases |vs|
  {
    if vs == [] then Progress([], [])
    else Join(VariantReference(tool, w, vs[0], listing, env), VariantsReference(tool, w, vs[1..], listing, env))
  }

  /** The reference run: the SYSTEMF workloads' variant references, in catalog order. */
  ghost function Reference(tool: Adapter, ws: seq<Entry>, listing: set<string>, env: Option<string>): Progress
    decreases |ws|
  {
    if ws == [] then Progress([], [])
    else if ws[0].name == Workload then
      Join(VariantsReference(tool, ws[0], tool.variants(ws[0]), listing, env), Reference(tool, ws[1..], listing, env))
    else Reference(tool, ws[1..], listing, env)
  }

  /** The lazy `run_trial` flag makes one variant's calls a single apply, issued exactly when
      one of its cells is unfinished, and its configurations those of the unfinished cells. */
  lemma {:induction false} CellsMatchReference(w: Entry, v: Variant, cells: seq<Cell>, listing: set<string>, env: Option<string>, applied: bool)
    ensures var r := RunCells(w, v, cells, listing, env, applied);
      && r.trace == (if applied || Unfinished(w, v, cells, listing) == [] then [] else [Apply(w, v)])
      && r.configs == ConfigsOf(w, v, Unfinished(w, v, cells, listing), env)
    decreases |cells|
  {
    if cells != [] {
      var c := cells[0];
      var u' := Unfinished(w, v, cells[1..], listing);
      if Record(w, v, c) in listing {
        CellsMatchReference(w, v, cells[1..], listing, env, applied);
        assert Unfinished(w, v, cells, listing) == u';
      } else {
        CellsMatchReference(w, v, cells[1..], listing, env, true);
        assert Unfinished(w, v, cells, listing) == [c] + u';
        ConfigsOfCons(w, v, c, u', env);
      }
    }
  }

  lemma ConfigsOfCons(w: Entry, v: Variant, c: Cell, u: seq<Cell>, env: Option<string>)
    ensures ConfigsOf(w, v, [c] + u, env) == [Config(w, v, c, env)] + ConfigsOf(w, v, u, env)
  {
    var a := ConfigsOf(w, v, [c] + u, env);
    var b := [Config(w, v, c, env)] + ConfigsOf(w, v, u, env);
    forall i | 0 <= i < |a| ensures a[i] == b[i] {
      if i > 0 {
        assert ([c] + u)[i] == u[i - 1];
      }
    }
  }

  lemma VariantMatchesReference(tool: Adapter, w: Entry, v: Variant, listing: set<string>, env: Option<string>)
    ensures RunCells(w, v, CellsOf(tool, w), listing, env, false) == VariantReference(tool, w, v, listing, env)
  {
    var cells := CellsOf(tool, w);
    CellsMatchReference(w, v, cells, listing, env, false);
    UnfinishedMembers(w, v, cells, listing);
    var u := Unfinished(w, v, cells, listing);
    if u != [] {
      assert u[0] in u;
    }
  }

  lemma {:induction false} VariantsMatchReference(tool: Adapter, w: Entry, vs: seq<Variant>, listing: set<string>, env: Option<string>)
    ensures RunVariants(tool, w, vs, listing, env) == VariantsReference(tool, w, vs, listing, env)
    decreases |vs|
  {
    if vs != [] {
      VariantMatchesReference(tool, w, vs[0], listing, env);
      VariantsMatchReference(tool, w, vs[1..], listing, env);
    }
  }

  /** The driver's run is the reference run. */
  lemma {:induction false} CollectMatchesReference(tool: Adapter, ws: seq<Entry>, listing: set<string>, env: Option<string>)
    ensures RunWorkloads(tool, ws, listing, env) == Reference(tool, ws, listing, env)
    decreases |ws|
  {
    if ws != [] {
      CollectMatchesReference(tool, ws[1..], listing, env);
      if ws[0].name == Workload {
        VariantsMatchReference(tool, ws[0], tool.variants(ws[0]), listing, env);
      }
    }
  }

  // ---------------------------------------------------------------------------------------
  // What the run does

  /** An apply of a SYSTEMF workload of the catalog, one of its variants, with a cell unfinished. */
  ghost predicate ValidApply(tool: Adapter, listing: set<string>, e: Call)
  {
    e.Apply? && e.workload.name == Workload && e.workload in tool.workloads
    && e.variant in tool.variants(e.workload) && Pending(tool, e.workload, e.variant, listing)
  }

  /** The configuration of an unfinished cell of a SYSTEMF workload of the catalog. */
  ghost predicate ValidConfig(tool: Adapter, listing: set<string>, env: Option<string>, cfg: TrialConfig)
  {
    exists w, v, c :: w in tool.workloads && w.name == Workload && v in tool.variants(w)
      && c in CellsOf(tool, w) && Record(w, v, c) !in listing && cfg == Config(w, v, c, env)
  }

  /** Everything a stretch of the run does is allowed: applies of catalog SYSTEMF variants with
      an unfinished cell, configurations of unfinished SYSTEMF cells. */
  ghost predicate Sound(tool: Adapter, listing: set<string>, env: Option<string>, p: Progress)
  {
    && (forall e :: e in p.trace ==> ValidApply(tool, listing, e))
    && (forall cfg :: cfg in p.configs ==> ValidConfig(tool, listing, env, cfg))
  }

  /** A stretch of the run does everything variant `v` of `w` needs: the apply if a cell is
      unfinished, and the configuration of every unfinished cell. */
  ghost predicate Covers(tool: Adapter, w: Entry, v: Variant, listing: set<string>, env: Option<string>, p: Progress)
  {
    && (Pending(tool, w, v, listing) ==> Apply(w, v) in p.trace)
    && (forall c :: c in CellsOf(tool, w) && Record(w, v, c) !in listing ==> Config(w, v, c, env) in p.configs)
  }

  lemma JoinSound(tool: Adapter, listing: set<string>, env: Option<string>, a: Progress, b: Progress)
    requires Sound(tool, listing, env, a) && Sound(tool, listing, env, b)
    ensures Sound(tool, listing, env, Join(a, b))
  {
  }

  lemma JoinCovers(tool: Adapter, w: Entry, v: Variant, listing: set<string>, env: Option<string>, a: Progress, b: Progress)
    requires Covers(tool, w, v, listing, env, a) || Covers(tool, w, v, listing, env, b)
    ensures Covers(tool, w, v, listing, env, Join(a, b))
  {
  }

  lemma VariantSound(tool: Adapter, w: Entry, v: Variant, listing: set<string>, env: Option<string>)
    requires w in tool.workloads && w.name == Workload && v in tool.variants(w)
    ensures Sound(tool, listing, env, VariantReference(tool, w, v, listing, env))
  {
    var here := VariantReference(tool, w, v, listing, env);
    var u := Unfinished(w, v, CellsOf(tool, w), listing);
    UnfinishedMembers(w, v, CellsOf(tool, w), listing);
    forall cfg | cfg in here.configs ensures ValidConfig(tool, listing, env, cfg) {
      var i :| 0 <= i < |here.configs| && here.configs[i] == cfg;
      assert u[i] in u;
    }
  }

  lemma VariantCovers(tool: Adapter, w: Entry, v: Variant, listing: set<string>, env: Option<string>)
    ensures Covers(tool, w, v, listing, env, VariantReference(tool, w, v, listing, env))
  {
    var here := VariantReference(tool, w, v, listing, env);
    var u := Unfinished(w, v, CellsOf(tool, w), listing);
    UnfinishedMembers(w, v, CellsOf(tool, w), listing);
    forall c | c in CellsOf(tool, w) && Record(w, v, c) !in listing ensures Config(w, v, c, env) in here.configs {
      var i :| 0 <= i < |u| && u[i] == c;
      assert here.configs[i] == Config(w, v, c, env);
    }
  }

  lemma {:induction false} VariantsSound(tool: Adapter, w: Entry, vs: seq<Variant>, listing: set<string>, env: Option<string>)
    requires w in tool.workloads && w.name == Workload
    requires forall v :: v in vs ==> v in tool.variants(w)
    ensures Sound(tool, listing, env, VariantsReference(tool, w, vs, listing, env))
    decreases |vs|
  {
    if vs != [] {
      assert vs[0] in vs;
      VariantSound(tool, w, vs[0], listing, env);
      VariantsSound(tool, w, vs[1..], listing, env);
      JoinSound(tool, listing, env, VariantReference(tool, w, vs[0], listing, env), VariantsReference(tool, w, vs[1..], listing, env));
    }
  }

  lemma {:induction false} VariantsCover(tool: Adapter, w: Entry, vs: seq<Variant>, listing: set<string>, env: Option<string>)
    ensures forall v :: v in vs ==> Covers(tool, w, v, listing, env, VariantsReference(tool, w, vs, listing, env))
    decreases |vs|
  {
    if vs != [] {
      var here := VariantReference(tool, w, vs[0], listing, env);
      var rest := VariantsReference(tool, w, vs[1..], listing, env);
      VariantsCover(tool, w, vs[1..], listing, env);
      forall v | v in vs ensures Covers(tool, w, v, listing, env, Join(here, rest)) {
        if v == vs[0] {
          VariantCovers(tool, w, v, listing, env);
        } else {
          assert v in vs[1..];
        }
        JoinCovers(tool, w, v, listing, env, here, rest);
      }
    }
  }

  lemma {:induction false} ReferenceSound(tool: Adapter, ws: seq<Entry>, listing: set<string>, env: Option<string>)
    requires forall w :: w in ws ==> w in tool.workloads
    ensures Sound(tool, listing, env, Reference(tool, ws, listing, env))
    decreases |ws|
  {
    if ws != [] {
      assert ws[0] in ws;
      ReferenceSound(tool, ws[1..], listing, env);
      if ws[0].name == Workload {
        VariantsSound(tool, ws[0], tool.variants(ws[0]), listing, env);
        JoinSound(tool, listing, env, VariantsReference(tool, ws[0], tool.variants(ws[0]), listing, env), Reference(tool, ws[1..], listing, env));
      }
    }
  }

  lemma {:induction false} ReferenceCovers(tool: Adapter, ws: seq<Entry>, listing: set<string>, env: Option<string>)
    ensures forall w, v :: w in ws && w.name == Workload && v in tool.variants(w) ==>
      Covers(tool, w, v, listing, env, Reference(tool, ws, listing, env))
    decreases |ws|
  {
    if ws != [] {
      var rest := Reference(tool, ws[1..], listing, env);
      ReferenceCovers(tool, ws[1..], listing, env);
      if ws[0].name == Workload {
        var here := VariantsReference(tool, ws[0], tool.variants(ws[0]), listing, env);
        VariantsCover(tool, ws[0], tool.variants(ws[0]), listing, env);
        forall w, v | w in ws && w.name == Workload && v in tool.variants(w) ensures Covers(tool, w, v, listing, env, Join(here, rest)) {
          if w != ws[0] {
            assert w in ws[1..];
          }
          JoinCovers(tool, w, v, listing, env, here, rest);
        }
      } else {
        forall w, v | w in ws && w.name == Workload && v in tool.variants(w) ensures Covers(tool, w, v, listing, env, rest) {
          assert w in ws[1..];
        }
      }
    }
  }

  /** The run applies only SYSTEMF variants with an unfinished cell, runs no trial, and builds
      configurations only for unfinished SYSTEMF cells. */
  lemma CollectSound(tool: Adapter, listing: set<string>, env: Option<string>)
    ensures var r := Collect(tool, listing, env);
      && (forall e :: e in r.trace ==> ValidApply(tool, listing, e))
      && (forall cfg :: cfg in r.configs ==> ValidConfig(tool, listing, env, cfg))
  {
    CollectMatchesReference(tool, tool.workloads, listing, env);
    ReferenceSound(tool, tool.workloads, listing, env);
  }

  /** Every SYSTEMF variant with an unfinished cell is applied, and every unfinished cell gets
      its configuration. */
  lemma CollectComplete(tool: Adapter, listing: set<string>, env: Option<string>)
    ensures var r := Collect(tool, listing, env);
      && (forall w, v :: w in tool.workloads && w.name == Workload && v in tool.variants(w) && Pending(tool, w, v, listing)
            ==> Apply(w, v) in r.trace)
      && (forall w, v, c ::
            w in tool.workloads && w.name == Workload && v in tool.variants(w) && c in CellsOf(tool, w) && Record(w, v, c) !in listing
            ==> Config(w, v, c, env) in r.configs)
  {
    CollectMatchesReference(tool, tool.workloads, listing, env);
    ReferenceCovers(tool, tool.workloads, listing, env);
  }

  /** Were the disabled trial call made through the tool's own `apply_variant` and `__trial`
      (the driver configures SKIP and passes a truthy build config as `no_base`), then for a
      non-base variant it would report the variant, keep the configured experiment id, and look
      for its record under exactly the name the resumability check reads: running when the
      record is absent, skipping when it is present. For the base variant the runner is the
      no-op: it writes no record, so every resume finds the base cells unfinished again. */
  lemma TrialWouldWriteCheckedRecord(settings: BenchTool.Settings, st: BenchTool.ToolState, w: Entry, v: Variant, c: Cell, env: Option<string>)
    requires settings.replaceLevel == Skip
    ensures var a := BenchTool.ApplyVariant(st, w, v, true);
      var r := BenchTool.Invoke(settings, a.runner, a.state, Config(w, v, c, env));
      && r.cfg == Config(w, v, c, env)
      && (v.name == "base" ==> r.outcome == BenchTool.NotRun && r.state == st)
      && (v.name != "base" && Record(w, v, c) in st.results ==> r.outcome == BenchTool.Skipped(Key(w, v, c)))
      && (v.name != "base" && Record(w, v, c) !in st.results ==>
            && r.outcome.Ran?
            && r.outcome.args.file == ResultPath(settings.resultsDir, Record(w, v, c))
            && r.outcome.args.experimentId == ExperimentId(env, Key(w, v, c))
            && r.outcome.args.mutant == v.name)
  {
    var fields := [w.name, c.strategy, v.name, c.property];
    assert JoinCommas(fields) == fields[0] + "," + JoinCommas(fields[1..]);
    assert |Key(w, v, c)| > 0;
  }
}
