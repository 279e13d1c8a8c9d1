/** `update_variable`: swap the text of a variable's current variant for another one in every
    file its glob patterns match, one file at a time. */
module Variables {
  import opened Types
  import opened PyStr
  import opened BenchTool

  datatype UpdateError =
    | IndexError                                // `variants[current]` or `variants[version]` out of range
    | NoFiles(pattern: string)                  // "No files found for pattern ..."
    | NotFound(variable: string, file: string)  // "Variable(...) ... not found in ..."
    | Unreadable(file: string)                  // a globbed path that is not a file of the workspace

  /** Python list indexing, negative indices counting from the end. */
  function PyIndex(xs: seq<string>, i: int): (r: Option<string>)
    ensures r.Some? <==> -|xs| <= i < |xs|
    ensures 0 <= i < |xs| ==> r == Some(xs[i])
    ensures -|xs| <= i < 0 ==> r == Some(xs[|xs| + i])
  {
    if 0 <= i < |xs| then Some(xs[i]) else if -|xs| <= i < 0 then Some(xs[|xs| + i]) else None
  }

  /** What `glob.glob(pattern)` returns in the variable's folder; a pattern absent from the map
      matches nothing. */
  function Glob(globs: map<string, seq<string>>, pattern: string): seq<string>
  {
    if pattern in globs then globs[pattern] else []
  }

  /** One step of the substitution: a pattern that matched nothing, or one file to rewrite. */
  datatype Step = Missing(pattern: string) | Rewrite(path: string)

  function RewriteAll(paths: seq<string>): seq<Step>
  {
    seq(|paths|, k requires 0 <= k < |paths| => Rewrite(paths[k]))
  }

  /** The steps one pattern contributes. */
  function Expand(globs: map<string, seq<string>>, pattern: string): seq<Step>
  {
    if Glob(globs, pattern) == [] then [Missing(pattern)] else RewriteAll(Glob(globs, pattern))
  }

  /** All steps, pattern by pattern, each pattern's files in glob order. */
  function Plan(globs: map<string, seq<string>>, patterns: seq<string>): (r: seq<Step>)
    ensures |r| >= |patterns|
    decreases |patterns|
  {
    if patterns == [] then [] else Expand(globs, patterns[0]) + Plan(globs, patterns[1..])
  }

  datatype Rewritten = Rewritten(outcome: Outcome<UpdateError>, files: map<string, string>)

  /** Whether a step raises against the files as they are when it is reached. */
  predicate StepFails(files: map<string, string>, step: Step, oldText: string)
  {
    match step
    case Missing(_) => true
    case Rewrite(f) => f !in files || Count(files[f], oldText) == 0
  }

  function StepError(files: map<string, string>, step: Step, name: string, oldText: string): UpdateError
  {
    match step
    case Missing(p) => NoFiles(p)
    case Rewrite(f) => if f !in files then Unreadable(f) else NotFound(name, f)
  }

  /** Run the steps in order. A file is written right after its own check, so a later failure
      leaves the earlier files rewritten. */
  function Run(files: map<string, string>, steps: seq<Step>, name: string, oldText: string, newText: string): (r: Rewritten)
    ensures r.files.Keys == files.Keys
    decreases |steps|
  {
    if steps == [] then Rewritten(Pass, files)
    else if StepFails(files, steps[0], oldText) then Rewritten(Raised(StepError(files, steps[0], name, oldText)), files)
    else
      var f := steps[0].path;
      Run(files[f := ReplaceAll(files[f], oldText, newText)], steps[1..], name, oldText, newText)
  }

  /** The paths the steps rewrite. */
  function Targets(steps: seq<Step>): set<string>
  {
    set k | 0 <= k < |steps| && steps[k].Rewrite? :: steps[k].path
  }

  /** No file is visited twice (no two patterns glob the same file). */
  predicate NoRepeats(steps: seq<Step>)
  {
    forall a, b :: 0 <= a < b < |steps| && steps[a].Rewrite? && steps[b].Rewrite? ==> steps[a].path != steps[b].path
  }

  /** `files` with every path in `paths` substituted once. */
  function Substituted(files: map<string, string>, paths: set<string>, oldText: string, newText: string): (r: map<string, string>)
    ensures r.Keys == files.Keys
  {
    map f | f in files :: if f in paths then ReplaceAll(files[f], oldText, newText) else files[f]
  }

  /** Every path some pattern matches. */
  function Matched(globs: map<string, seq<string>>, patterns: seq<string>): set<string>
  {
    set p, f | p in patterns && p in globs && f in globs[p] :: f
  }

  /** The index of the first step that would raise if every file still held its original
      text, or the number of steps when none would. */
  function FirstFailure(files: map<string, string>, steps: seq<Step>, oldText: string): (k: nat)
    ensures k <= |steps|
    ensures forall m :: 0 <= m < k ==> !StepFails(files, steps[m], oldText)
    ensures k < |steps| ==> StepFails(files, steps[k], oldText)
    decreases |steps|
  {
    if steps == [] then 0
    else if StepFails(files, steps[0], oldText) then 0
    else 1 + FirstFailure(files, steps[1..], oldText)
  }

  /** Two file maps that agree on path `g`. */
  predicate AgreeOn(a: map<string, string>, b: map<string, string>, g: string)
  {
    (g in a <==> g in b) && (g in a ==> a[g] == b[g])
  }

  lemma {:induction false} FirstFailureFrame(a: map<string, string>, b: map<string, string>, steps: seq<Step>, oldText: string)
    requires forall m :: 0 <= m < |steps| && steps[m].Rewrite? ==> AgreeOn(a, b, steps[m].path)
    ensures FirstFailure(a, steps, oldText) == FirstFailure(b, steps, oldText)
    ensures forall m :: 0 <= m < |steps| ==> StepError(a, steps[m], "", oldText) == StepError(b, steps[m], "", oldText)
    decreases |steps|
  {
    if steps != [] {
      assert steps[0].Rewrite? ==> AgreeOn(a, b, steps[0].path);
      FirstFailureFrame(a, b, steps[1..], oldText);
    }
  }

  lemma TargetsCons(steps: seq<Step>, k: nat)
    requires 0 < |steps|
    requires k <= |steps| - 1
    ensures Targets(steps[..k + 1]) == (if steps[0].Rewrite? then {steps[0].path} else {}) + Targets(steps[1..][..k])
    ensures Targets(steps) == (if steps[0].Rewrite? then {steps[0].path} else {}) + Targets(steps[1..])
    ensures Targets(steps[1..][..k]) <= Targets(steps[1..])
  {
    var rest := steps[1..];
    var pre := steps[..k + 1];
    forall g | g in Targets(pre)
      ensures g in (if steps[0].Rewrite? then {steps[0].path} else {}) + Targets(rest[..k])
    {
      var m :| 0 <= m < k + 1 && pre[m].Rewrite? && pre[m].path == g;
      if m > 0 {
        assert rest[..k][m - 1] == pre[m];
      }
    }
    forall g | g in Targets(rest[..k]) ensures g in Targets(steps[..k + 1]) && g in Targets(rest) {
      var m :| 0 <= m < k && rest[..k][m].Rewrite? && rest[..k][m].path == g;
      assert steps[..k + 1][m + 1] == rest[..k][m];
      assert rest[m] == rest[..k][m];
    }
    if steps[0].Rewrite? {
      assert steps[..k + 1][0] == steps[0];
    }
    forall g | g in Targets(steps)
      ensures g in (if steps[0].Rewrite? then {steps[0].path} else {}) + Targets(rest)
    {
      var m :| 0 <= m < |steps| && steps[m].Rewrite? && steps[m].path == g;
      if m > 0 {
        assert rest[m - 1] == steps[m];
      }
    }
    forall g | g in Targets(rest) ensures g in Targets(steps) {
      var m :| 0 <= m < |rest| && rest[m].Rewrite? && rest[m].path == g;
      assert steps[m + 1] == rest[m];
    }
  }

  lemma SubstitutedStep(files: map<string, string>, f: string, paths: set<string>, oldText: string, newText: string)
    requires f in files && f !in paths
    ensures Substituted(files[f := ReplaceAll(files[f], oldText, newText)], paths, oldText, newText)
         == Substituted(files, {f} + paths, oldText, newText)
  {
  }

  /** With no file visited twice, running the steps one by one is the same as checking every
      file against its original text: everything before the first failing step is substituted
      once, nothing after it is touched, and the run passes exactly when no step fails. */
  lemma {:induction false} RunChecksOriginalText(files: map<string, string>, steps: seq<Step>, name: string, oldText: string, newText: string)
    requires NoRepeats(steps)
    ensures var k := FirstFailure(files, steps, oldText);
      Run(files, steps, name, oldText, newText) ==
        if k == |steps| then Rewritten(Pass, Substituted(files, Targets(steps), oldText, newText))
        else Rewritten(Raised(StepError(files, steps[k], name, oldText)), Substituted(files, Targets(steps[..k]), oldText, newText))
    decreases |steps|
  {
    if steps == [] {
      assert Substituted(files, Targets(steps), oldText, newText) == files;
    } else if StepFails(files, steps[0], oldText) {
      assert Targets(steps[..0]) == {};
      assert Substituted(files, {}, oldText, newText) == files;
    } else {
      var f := steps[0].path;
      var rest := steps[1..];
      var files1 := files[f := ReplaceAll(files[f], oldText, newText)];
      assert NoRepeats(rest) by {
        forall a, b | 0 <= a < b < |rest| && rest[a].Rewrite? && rest[b].Rewrite? ensures rest[a].path != rest[b].path {
          assert rest[a] == steps[a + 1] && rest[b] == steps[b + 1];
        }
      }
      assert forall m :: 0 <= m < |rest| && rest[m].Rewrite? ==> rest[m].path != f by {
        forall m | 0 <= m < |rest| && rest[m].Rewrite? ensures rest[m].path != f {
          assert rest[m] == steps[m + 1];
        }
      }
      assert forall m :: 0 <= m < |rest| && rest[m].Rewrite? ==> AgreeOn(files1, files, rest[m].path);
      FirstFailureFrame(files1, files, rest, oldText);
      RunChecksOriginalText(files1, rest, name, oldText, newText);
      var k1 := FirstFailure(files, rest, oldText);
      TargetsCons(steps, k1);
      assert f !in Targets(rest);
      if k1 == |rest| {
        SubstitutedStep(files, f, Targets(rest), oldText, newText);
      } else {
        assert steps[k1 + 1] == rest[k1];
        SubstitutedStep(files, f, Targets(rest[..k1]), oldText, newText);
        match rest[k1] {
          case Missing(_) =>
          case Rewrite(g) =>
            assert AgreeOn(files1, files, g);
        }
      }
    }
  }

  /** Paths no step rewrites keep their contents, whatever the run's outcome. */
  lemma {:induction false} RunLeavesOthers(files: map<string, string>, steps: seq<Step>, name: string, oldText: string, newText: string, g: string)
    requires g in files && g !in Targets(steps)
    ensures Run(files, steps, name, oldText, newText).files[g] == files[g]
    decreases |steps|
  {
    if steps != [] && !StepFails(files, steps[0], oldText) {
      TargetsCons(steps, 0);
      RunLeavesOthers(files[steps[0].path := ReplaceAll(files[steps[0].path], oldText, newText)], steps[1..], name, oldText, newText, g);
    }
  }

  /** Swapping a text for itself leaves every file as it was, whatever the run's outcome. */
  lemma {:induction false} RunSameTextKeepsFiles(files: map<string, string>, steps: seq<Step>, name: string, text: string)
    ensures Run(files, steps, name, text, text).files == files
    decreases |steps|
  {
    if steps != [] && !StepFails(files, steps[0], text) {
      var f := steps[0].path;
      ReplaceAllIdentity(files[f], text);
      assert files[f := ReplaceAll(files[f], text, text)] == files;
      RunSameTextKeepsFiles(files, steps[1..], name, text);
    }
  }

  lemma TargetsAppend(a: seq<Step>, b: seq<Step>)
    ensures Targets(a + b) == Targets(a) + Targets(b)
  {
    var ab := a + b;
    forall g | g in Targets(ab) ensures g in Targets(a) + Targets(b) {
      var m :| 0 <= m < |ab| && ab[m].Rewrite? && ab[m].path == g;
      if m >= |a| {
        assert b[m - |a|] == ab[m];
      }
    }
    forall g | g in Targets(b) ensures g in Targets(ab) {
      var m :| 0 <= m < |b| && b[m].Rewrite? && b[m].path == g;
      assert ab[|a| + m] == b[m];
    }
    forall g | g in Targets(a) ensures g in Targets(ab) {
      var m :| 0 <= m < |a| && a[m].Rewrite? && a[m].path == g;
      assert ab[m] == a[m];
    }
  }

  /** The files one pattern's steps rewrite are the files it globs. */
  lemma TargetsExpand(globs: map<string, seq<string>>, p: string)
    ensures Targets(Expand(globs, p)) == set f | f in Glob(globs, p)
  {
    var e := Expand(globs, p);
    var fs := Glob(globs, p);
    if fs == [] {
      assert e == [Missing(p)];
    } else {
      forall g | g in fs ensures g in Targets(e) {
        var m :| 0 <= m < |fs| && fs[m] == g;
        assert e[m] == Rewrite(g);
      }
    }
  }

  lemma MatchedCons(globs: map<string, seq<string>>, patterns: seq<string>)
    requires patterns != []
    ensures Matched(globs, patterns) == (set f | f in Glob(globs, patterns[0])) + Matched(globs, patterns[1..])
  {
    var p := patterns[0];
    forall g | g in Matched(globs, patterns)
      ensures g in (set f | f in Glob(globs, p)) + Matched(globs, patterns[1..])
    {
      var q :| q in patterns && q in globs && g in globs[q];
      if q != p {
        assert q in patterns[1..];
      }
    }
    forall g | g in Matched(globs, patterns[1..]) ensures g in Matched(globs, patterns) {
      var q :| q in patterns[1..] && q in globs && g in globs[q];
      assert q in patterns;
    }
  }

  /** The plan rewrites exactly the files some pattern matches. */
  lemma {:induction false} PlanTargetsMatched(globs: map<string, seq<string>>, patterns: seq<string>)
    ensures Targets(Plan(globs, patterns)) == Matched(globs, patterns)
    decreases |patterns|
  {
    if patterns != [] {
      PlanTargetsMatched(globs, patterns[1..]);
      TargetsAppend(Expand(globs, patterns[0]), Plan(globs, patterns[1..]));
      TargetsExpand(globs, patterns[0]);
      MatchedCons(globs, patterns);
    } else {
      assert Targets([]) == {};
    }
  }

  /** Every step rewrites a file. */
  predicate AllRewrite(steps: seq<Step>)
  {
    forall m :: 0 <= m < |steps| ==> steps[m].Rewrite?
  }

  /** Every pattern matches at least one file. */
  predicate AllMatch(globs: map<string, seq<string>>, patterns: seq<string>)
  {
    forall p :: p in patterns ==> Glob(globs, p) != []
  }

  /** The plan has a `Missing` step exactly when some pattern matches nothing. */
  lemma {:induction false} PlanMissingIff(globs: map<string, seq<string>>, patterns: seq<string>)
    ensures AllRewrite(Plan(globs, patterns)) <==> AllMatch(globs, patterns)
    decreases |patterns|
  {
    var plan := Plan(globs, patterns);
    if patterns != [] {
      var p := patterns[0];
      var e := Expand(globs, p);
      var rest := Plan(globs, patterns[1..]);
      assert plan == e + rest;
      if Glob(globs, p) == [] {
        assert plan[0] == Missing(p);
        assert p in patterns;
        assert !AllRewrite(plan) && !AllMatch(globs, patterns);
      } else {
        PlanMissingIff(globs, patterns[1..]);
        assert forall m :: 0 <= m < |e| ==> e[m].Rewrite?;
        assert forall q :: q in patterns <==> q == p || q in patterns[1..];
        if AllRewrite(rest) {
          forall m | 0 <= m < |plan| ensures plan[m].Rewrite? {
            if m >= |e| { assert plan[m] == rest[m - |e|]; }
          }
          assert AllRewrite(plan) && AllMatch(globs, patterns);
        } else {
          var m :| 0 <= m < |rest| && !rest[m].Rewrite?;
          assert plan[|e| + m] == rest[m];
          assert !AllRewrite(plan) && !AllMatch(globs, patterns);
        }
      }
    }
  }

  /** No step fails against the original files exactly when every pattern matches something
      and every matched file is readable and contains the text being replaced. */
  lemma NoFailureIff(files: map<string, string>, globs: map<string, seq<string>>, patterns: seq<string>, oldText: string)
    ensures FirstFailure(files, Plan(globs, patterns), oldText) == |Plan(globs, patterns)|
        <==> (forall p :: p in patterns ==> Glob(globs, p) != [])
             && (forall f :: f in Matched(globs, patterns) ==> f in files && Occurs(oldText, files[f]))
  {
    var plan := Plan(globs, patterns);
    var k := FirstFailure(files, plan, oldText);
    PlanMissingIff(globs, patterns);
    PlanTargetsMatched(globs, patterns);
    if k == |plan| {
      forall f | f in Matched(globs, patterns) ensures f in files && Occurs(oldText, files[f]) {
        var m :| 0 <= m < |plan| && plan[m].Rewrite? && plan[m].path == f;
        assert !StepFails(files, plan[m], oldText);
        CountPositiveIff(files[f], oldText);
      }
    } else {
      match plan[k] {
        case Missing(_) =>
        case Rewrite(f) =>
          assert f in Targets(plan);
          if f in files { CountPositiveIff(files[f], oldText); }
      }
    }
  }

  lemma {:induction false} RunAppend(files: map<string, string>, a: seq<Step>, b: seq<Step>, name: string, oldText: string, newText: string)
    requires Run(files, a, name, oldText, newText).outcome == Pass
    ensures Run(files, a + b, name, oldText, newText) == Run(Run(files, a, name, oldText, newText).files, b, name, oldText, newText)
    decreases |a|
  {
    if a == [] {
      assert a + b == b;
    } else {
      assert (a + b)[0] == a[0] && (a + b)[1..] == a[1..] + b;
      var f := a[0].path;
      RunAppend(files[f := ReplaceAll(files[f], oldText, newText)], a[1..], b, name, oldText, newText);
    }
  }

  lemma {:induction false} RunFailsAt(files: map<string, string>, a: seq<Step>, s: Step, b: seq<Step>, name: string, oldText: string, newText: string)
    requires Run(files, a, name, oldText, newText).outcome == Pass
    requires StepFails(Run(files, a, name, oldText, newText).files, s, oldText)
    ensures var mid := Run(files, a, name, oldText, newText).files;
      Run(files, a + [s] + b, name, oldText, newText) == Rewritten(Raised(StepError(mid, s, name, oldText)), mid)
  {
    assert a + [s] + b == a + ([s] + b);
    RunAppend(files, a, [s] + b, name, oldText, newText);
  }

  lemma {:induction false} PlanAppend(globs: map<string, seq<string>>, p: seq<string>, q: seq<string>)
    ensures Plan(globs, p + q) == Plan(globs, p) + Plan(globs, q)
    decreases |p|
  {
    if p == [] {
      assert p + q == q;
    } else {
      assert (p + q)[0] == p[0] && (p + q)[1..] == p[1..] + q;
      PlanAppend(globs, p[1..], q);
    }
  }

  lemma PlanSnoc(globs: map<string, seq<string>>, patterns: seq<string>, i: int)
    requires 0 <= i < |patterns|
    ensures Plan(globs, patterns[..i + 1]) == Plan(globs, patterns[..i]) + Expand(globs, patterns[i])
    ensures Plan(globs, patterns) == Plan(globs, patterns[..i]) + Expand(globs, patterns[i]) + Plan(globs, patterns[i + 1..])
  {
    assert patterns[..i + 1] == patterns[..i] + [patterns[i]];
    PlanAppend(globs, patterns[..i], [patterns[i]]);
    assert patterns == patterns[..i + 1] + patterns[i + 1..];
    PlanAppend(globs, patterns[..i + 1], patterns[i + 1..]);
  }

  lemma {:induction false} RunStopsAtFailure(files: map<string, string>, a: seq<Step>, b: seq<Step>, name: string, oldText: string, newText: string)
    requires Run(files, a, name, oldText, newText).outcome.Raised?
    ensures Run(files, a + b, name, oldText, newText) == Run(files, a, name, oldText, newText)
    decreases |a|
  {
    assert (a + b)[0] == a[0] && (a + b)[1..] == a[1..] + b;
    if !StepFails(files, a[0], oldText) {
      var f := a[0].path;
      RunStopsAtFailure(files[f := ReplaceAll(files[f], oldText, newText)], a[1..], b, name, oldText, newText);
    }
  }

  lemma RewriteAllSplit(paths: seq<string>, j: int)
    requires 0 <= j < |paths|
    ensures RewriteAll(paths[..j + 1]) == RewriteAll(paths[..j]) + [Rewrite(paths[j])]
    ensures RewriteAll(paths) == RewriteAll(paths[..j]) + [Rewrite(paths[j])] + RewriteAll(paths[j + 1..])
  {
  }

  /** The inner `for file in files` loop of `update_variable`: check, then write, one file at a time. */
  method RewriteFiles(files0: map<string, string>, matched: seq<string>, name: string, oldText: string, newText: string)
    returns (files: map<string, string>, outcome: Outcome<UpdateError>)
    ensures Rewritten(outcome, files) == Run(files0, RewriteAll(matched), name, oldText, newText)
  {
    files, outcome := files0, Pass;
    var j := 0;
    while j < |matched|
      invariant 0 <= j <= |matched|
      invariant Run(files0, RewriteAll(matched[..j]), name, oldText, newText) == Rewritten(Pass, files)
    {
      var f := matched[j];
      RewriteAllSplit(matched, j);
      if f !in files {
        RunFailsAt(files0, RewriteAll(matched[..j]), Rewrite(f), RewriteAll(matched[j + 1..]), name, oldText, newText);
        return files, Raised(Unreadable(f));
      }
      if Count(files[f], oldText) == 0 {
        RunFailsAt(files0, RewriteAll(matched[..j]), Rewrite(f), RewriteAll(matched[j + 1..]), name, oldText, newText);
        return files, Raised(NotFound(name, f));
      }
      RunAppend(files0, RewriteAll(matched[..j]), [Rewrite(f)], name, oldText, newText);
      files := files[f := ReplaceAll(files[f], oldText, newText)];
      j := j + 1;
    }
    assert matched[..j] == matched;
  }

  /** What running a variable's plan promises: unmatched files keep their contents; swapping a
      text for itself changes nothing; and, when no file is globbed twice, the run passes exactly
      when every pattern matches and every matched file holds the old text, a pass substitutes
      every matched file once, and a failure leaves exactly the files before the first failing
      step substituted. */
  lemma PlanRunFacts(files: map<string, string>, globs: map<string, seq<string>>, patterns: seq<string>, name: string, oldText: string, newText: string)
    ensures var r := Run(files, Plan(globs, patterns), name, oldText, newText);
      forall f :: f in files && f !in Matched(globs, patterns) ==> r.files[f] == files[f]
    ensures oldText == newText ==> Run(files, Plan(globs, patterns), name, oldText, newText).files == files
    ensures NoRepeats(Plan(globs, patterns)) ==>
      var plan := Plan(globs, patterns);
      var r := Run(files, plan, name, oldText, newText);
      && (r.outcome == Pass <==>
            (forall p :: p in patterns ==> Glob(globs, p) != [])
            && (forall f :: f in Matched(globs, patterns) ==> f in files && Occurs(oldText, files[f])))
      && (r.outcome == Pass ==> r.files == Substituted(files, Matched(globs, patterns), oldText, newText))
      && (r.outcome.Raised? ==> r.files == Substituted(files, Targets(plan[..FirstFailure(files, plan, oldText)]), oldText, newText))
  {
    var plan := Plan(globs, patterns);
    PlanTargetsMatched(globs, patterns);
    forall f | f in files && f !in Matched(globs, patterns)
      ensures Run(files, plan, name, oldText, newText).files[f] == files[f]
    {
      RunLeavesOthers(files, plan, name, oldText, newText, f);
    }
    if oldText == newText {
      RunSameTextKeepsFiles(files, plan, name, oldText);
    }
    if NoRepeats(plan) {
      RunChecksOriginalText(files, plan, name, oldText, newText);
      NoFailureIff(files, globs, patterns, oldText);
    }
  }

  lemma RunMiddleFails(files0: map<string, string>, a: seq<Step>, b: seq<Step>, c: seq<Step>,
                       files: map<string, string>, name: string, oldText: string, newText: string)
    requires Run(files0, a, name, oldText, newText) == Rewritten(Pass, files)
    requires Run(files, b, name, oldText, newText).outcome.Raised?
    ensures Run(files0, a + b + c, name, oldText, newText) == Run(files, b, name, oldText, newText)
  {
    assert a + b + c == a + (b + c);
    RunAppend(files0, a, b + c, name, oldText, newText);
    RunStopsAtFailure(files, b, c, name, oldText, newText);
  }

  /** One more pattern of the loop continues from where the earlier patterns left the files. */
  lemma PatternStep(files0: map<string, string>, globs: map<string, seq<string>>, patterns: seq<string>, i: int,
                    files: map<string, string>, name: string, oldText: string, newText: string)
    requires 0 <= i < |patterns|
    requires Run(files0, Plan(globs, patterns[..i]), name, oldText, newText) == Rewritten(Pass, files)
    ensures Run(files0, Plan(globs, patterns[..i + 1]), name, oldText, newText) == Run(files, Expand(globs, patterns[i]), name, oldText, newText)
  {
    PlanSnoc(globs, patterns, i);
    RunAppend(files0, Plan(globs, patterns[..i]), Expand(globs, patterns[i]), name, oldText, newText);
  }

  /** A failure inside one pattern's steps is the failure of the whole run. */
  lemma PatternFails(files0: map<string, string>, globs: map<string, seq<string>>, patterns: seq<string>, i: int,
                     files: map<string, string>, name: string, oldText: string, newText: string)
    requires 0 <= i < |patterns|
    requires Run(files0, Plan(globs, patterns[..i]), name, oldText, newText) == Rewritten(Pass, files)
    requires Run(files, Expand(globs, patterns[i]), name, oldText, newText).outcome.Raised?
    ensures Run(files0, Plan(globs, patterns), name, oldText, newText) == Run(files, Expand(globs, patterns[i]), name, oldText, newText)
  {
    PlanSnoc(globs, patterns, i);
    RunMiddleFails(files0, Plan(globs, patterns[..i]), Expand(globs, patterns[i]), Plan(globs, patterns[i + 1..]), files, name, oldText, newText);
  }

  /** The loop over the variable's patterns: glob, raise on no match, rewrite the matched files. */
  method SubstitutePatterns(files0: map<string, string>, patterns: seq<string>, globs: map<string, seq<string>>, name: string, oldText: string, newText: string)
    returns (files: map<string, string>, outcome: Outcome<UpdateError>)
    ensures Rewritten(outcome, files) == Run(files0, Plan(globs, patterns), name, oldText, newText)
  {
    files := files0;
    var i := 0;
    while i < |patterns|
      invariant 0 <= i <= |patterns|
      invariant Run(files0, Plan(globs, patterns[..i]), name, oldText, newText) == Rewritten(Pass, files)
    {
      var matched := Glob(globs, patterns[i]);
      PatternStep(files0, globs, patterns, i, files, name, oldText, newText);
      if |matched| == 0 {
        PatternFails(files0, globs, patterns, i, files, name, oldText, newText);
        return files, Raised(NoFiles(patterns[i]));
      }
      var files', r := RewriteFiles(files, matched, name, oldText, newText);
      if r.Raised? {
        PatternFails(files0, globs, patterns, i, files, name, oldText, newText);
        return files', r;
      }
      files := files';
      i := i + 1;
    }
    assert patterns[..i] == patterns;
    outcome := Pass;
  }

  /** `update_variable(workload, variable, version)` against the workspace state. `globs` gives
      what each of the variable's patterns matches inside its folder of the working copy. */
  method UpdateVariable(st: ToolState, variable: Variable, version: int, globs: map<string, seq<string>>)
    returns (st': ToolState, variable': Variable, outcome: Outcome<UpdateError>)
    ensures st'.current == st.current && st'.trace == st.trace && st'.results == st.results
    ensures st'.files.Keys == st.files.Keys
    ensures PyIndex(variable.variants, variable.current).None? || PyIndex(variable.variants, version).None? ==>
      outcome == Raised(IndexError) && st' == st && variable' == variable
    ensures outcome.Raised? ==> variable' == variable
    ensures outcome == Pass ==> variable' == variable.(current := version)
    ensures forall f :: f in st.files && f !in Matched(globs, variable.files) ==> st'.files[f] == st.files[f]
    ensures PyIndex(variable.variants, version) == PyIndex(variable.variants, variable.current) ==> st'.files == st.files
    ensures PyIndex(variable.variants, variable.current).Some? && PyIndex(variable.variants, version).Some?
            && NoRepeats(Plan(globs, variable.files)) ==>
      var o := PyIndex(variable.variants, variable.current).value;
      var n := PyIndex(variable.variants, version).value;
      var plan := Plan(globs, variable.files);
      && (outcome == Pass <==>
            (forall p :: p in variable.files ==> Glob(globs, p) != [])
            && (forall f :: f in Matched(globs, variable.files) ==> f in st.files && Occurs(o, st.files[f])))
      && (outcome == Pass ==> st'.files == Substituted(st.files, Matched(globs, variable.files), o, n))
      && (outcome.Raised? ==> st'.files == Substituted(st.files, Targets(plan[..FirstFailure(st.files, plan, o)]), o, n))
  {
    var oldText := PyIndex(variable.variants, variable.current);
    var newText := PyIndex(variable.variants, version);
    if oldText.None? || newText.None? {
      return st, variable, Raised(IndexError);
    }
    PlanRunFacts(st.files, globs, variable.files, variable.name, oldText.value, newText.value);
    var files, r := SubstitutePatterns(st.files, variable.files, globs, variable.name, oldText.value, newText.value);
    st' := st.(files := files);
    outcome := r;
    variable' := if r == Pass then variable.(current := version) else variable;
  }
}
