/** The scanning pipeline: stages on a file, then the same on every entry of an archive, recursively,
    under one budget. What the outside world answers (files, stages, clock) is a `World`. */
module Pipeline {
  import opened Scoring
  import opened Archive

  const STAGES := ["filetype", "structure", "clamav", "yara"]

  type File = nat

  datatype Kind = Zip | Docx | Plain

  /** What opening a file as an archive gives. */
  datatype Opening = Opens(infos: seq<Info>) | TooManyEntries | Broken

  datatype StageResult = Done | Crashed | TimedOut

  /** What one run of a stage does besides taking an inventory. `partial`: a stage that crashed or timed
      out had already recognised the type, or taken the inventory. */
  datatype Effect = Effect(result: StageResult, codes: seq<string>, encrypted: bool, unsupported: bool, partial: bool)

  datatype Entry = Entry(file: File, stream: Stream)

  /** `entry(f, i)` is what entry number `i` of archive `f` holds; an archive may hold itself.
      Stage runs and readings of the clock are numbered in the order they happen. */
  datatype World = World(
    stages: seq<string>,
    family: Family,
    weight: string -> nat,
    kind: File -> Kind,
    opening: File -> Opening,
    entry: (File, nat) -> Entry,
    effect: (nat, string, File) -> Effect,
    late: nat -> bool)

  /** The scan context of one file. `kind` is `Plain` until the type is recognised. */
  datatype Ctx = Ctx(
    file: File, depth: nat, findings: seq<Finding>, failed: set<string>,
    encrypted: bool, supported: bool, kind: Kind, members: seq<Member>)

  /** What the whole tree shares: the budget, the number of the next observation, files scanned. */
  datatype Tree = Tree(ledger: Ledger, now: nat, scanned: nat)

  /** One run of a stage, by the number of its observation. */
  datatype StageRun = StageRun(at: nat, stage: string)

  /** What happened: the stages run on the file, in order, and the entries that were extracted and scanned. */
  datatype Trace = Trace(file: File, runs: seq<StageRun>, members: seq<(nat, Trace)>)

  function NewCtx(file: File, depth: nat): Ctx {
    Ctx(file, depth, [], {}, false, true, Plain, [])
  }

  function FactsOf(ctx: Ctx): Facts {
    Facts(ctx.findings, "", ctx.encrypted, ctx.supported, ctx.failed)
  }

  predicate HasCode(fs: seq<Finding>, code: string) {
    exists i :: 0 <= i < |fs| && fs[i].code == code
  }

  function Add(w: World, ctx: Ctx, stage: string, code: string): (c: Ctx)
    ensures c == ctx.(findings := c.findings)
  {
    if HasCode(ctx.findings, code) then ctx
    else ctx.(findings := ctx.findings + [Finding(stage, code, w.weight(code))])
  }

  function AddAll(w: World, ctx: Ctx, stage: string, codes: seq<string>): (c: Ctx)
    ensures c == ctx.(findings := c.findings)
  {
    if codes == [] then ctx
    else Add(w, AddAll(w, ctx, stage, codes[..|codes| - 1]), stage, codes[|codes| - 1])
  }

  function MarkIncomplete(w: World, ctx: Ctx, stage: string): Ctx {
    Add(w, ctx.(supported := false), stage, "ARCHIVE_INCOMPLETE")
  }

  function Reported(w: World, ctx: Ctx, stage: string, inventory: Inventory): Ctx {
    var named := AddAll(w, ctx, stage, inventory.problems);
    var marked := if inventory.encrypted then named.(encrypted := true) else named;
    if inventory.incomplete != [] then MarkIncomplete(w, marked, stage) else marked
  }

  function Analyse(w: World, ctx: Ctx, l: Ledger, stage: string): (r: (Ctx, Ledger))
    ensures r.0.file == ctx.file && r.0.depth == ctx.depth
  {
    match w.opening(ctx.file)
    case TooManyEntries => (MarkIncomplete(w, ctx, stage), l)
    case Broken =>
      (Add(w, ctx.(supported := false), stage, if ctx.kind.Zip? then "ARCHIVE_MALFORMED" else "DOCX_MALFORMED"), l)
    case Opens(infos) =>
      var (inventory, l') := AfterInspect(l, Files(infos), ctx.depth, ctx.kind.Zip?);
      (Reported(w, ctx, stage, inventory).(members := inventory.members), l')
  }

  /** The context after a stage has looked at the file, before its own findings are added. */
  function Looked(w: World, ctx: Ctx, l: Ledger, stage: string, reached: bool): (r: (Ctx, Ledger))
    ensures r.0.file == ctx.file && r.0.depth == ctx.depth
  {
    if !reached then (ctx, l)
    else if stage == "filetype" then (ctx.(kind := w.kind(ctx.file)), l)
    else if stage == "structure" && !ctx.kind.Plain? then Analyse(w, ctx, l, stage)
    else (ctx, l)
  }

  function Finished(w: World, ctx: Ctx, stage: string, e: Effect): Ctx {
    var c := AddAll(w, ctx.(encrypted := ctx.encrypted || e.encrypted, supported := ctx.supported && !e.unsupported),
                    stage, e.codes);
    match e.result
    case Done => c
    case Crashed => Add(w, c.(failed := c.failed + {stage}), stage, "STAGE_FAILED")
    case TimedOut => Add(w, c.(failed := c.failed + {stage}), stage, "STAGE_TIMEOUT")
  }

  function RunStage(w: World, ctx: Ctx, t: Tree, stage: string): (r: (Ctx, Tree))
    ensures r.0.file == ctx.file && r.0.depth == ctx.depth
  {
    var e := w.effect(t.now, stage, ctx.file);
    var (looked, l) := Looked(w, ctx, t.ledger, stage, e.result.Done? || e.partial);
    (Finished(w, looked, stage, e), t.(ledger := l, now := t.now + 1))
  }

  /** A deep scan goes on to the end, and so does one in shadow mode. */
  ghost predicate StopsAt(w: World, ctx: Ctx, policy: Policy, deep: bool) {
    !deep && ShouldStopEarlyAt(Score(ctx.findings, w.family), policy)
  }

  ghost function RunStages(w: World, ctx: Ctx, t: Tree, policy: Policy, deep: bool, k: nat): (r: (Ctx, Tree, seq<StageRun>))
    ensures r.0.file == ctx.file && r.0.depth == ctx.depth
    decreases |w.stages| - k
  {
    if k >= |w.stages| then (ctx, t, [])
    else
      var run := StageRun(t.now, w.stages[k]);
      var (c, t') := RunStage(w, ctx, t, w.stages[k]);
      if StopsAt(w, c, policy, deep) then (c, t', [run])
      else
        var rest := RunStages(w, c, t', policy, deep, k + 1);
        (rest.0, rest.1, [run] + rest.2)
  }

  function AdoptFindings(own: seq<Finding>, child: seq<Finding>): seq<Finding> {
    if child == [] then own
    else
      var fs := AdoptFindings(own, child[..|child| - 1]);
      var f := child[|child| - 1];
      if HasCode(fs, f.code) then fs else fs + [f]
  }

  function Adopt(ctx: Ctx, child: Ctx): Ctx {
    ctx.(findings := AdoptFindings(ctx.findings, child.findings),
         failed := ctx.failed + child.failed,
         encrypted := ctx.encrypted || child.encrypted,
         supported := ctx.supported && child.supported)
  }

  function Left(depth: nat): nat {
    if depth > MAX_ARCHIVE_DEPTH then 0 else MAX_ARCHIVE_DEPTH + 1 - depth
  }

  /** The stages on one file, then its entries if it is an archive not too deep in the tree. */
  ghost function ScanFile(w: World, file: File, depth: nat, t: Tree, policy: Policy, deep: bool): (Ctx, Tree, Trace)
    decreases Left(depth), 1, 0
  {
    var r := RunStages(w, NewCtx(file, depth), t.(scanned := t.scanned + 1), policy, deep, 0);
    if r.0.members == [] || depth > MAX_ARCHIVE_DEPTH then (r.0, r.1, Trace(file, r.2, []))
    else
      var e := ScanMembers(w, r.0, r.1, policy, deep, 0);
      (e.0, e.1, Trace(file, r.2, e.2))
  }

  /** One turn of the loop over the members, up to the scan of the entry itself. */
  datatype Visit = Stop(ctx: Ctx, tree: Tree) | Skip(ctx: Ctx, tree: Tree) | Enter(tree: Tree)

  ghost function VisitMember(w: World, ctx: Ctx, t: Tree, policy: Policy, deep: bool, m: Member): (v: Visit)
    ensures v.Skip? ==> v.ctx.depth == ctx.depth && v.ctx.members == ctx.members
  {
    if StopsAt(w, ctx, policy, deep) then Stop(ctx, t)
    else if w.late(t.now) then Stop(MarkIncomplete(w, ctx, "archive"), t.(now := t.now + 1))
    else
      var (outcome, l) := AfterExtract(t.ledger, m.info.size, w.entry(ctx.file, m.index).stream);
      var t' := t.(ledger := l, now := t.now + 1);
      match outcome
      case OverBudget => Stop(MarkIncomplete(w, ctx, "archive"), t')
      case Unreadable => Skip(Add(w, ctx.(supported := false), "archive", "ARCHIVE_MALFORMED"), t')
      case Extracted => Enter(t')
  }

  ghost function ScanMembers(w: World, ctx: Ctx, t: Tree, policy: Policy, deep: bool, i: nat): (Ctx, Tree, seq<(nat, Trace)>)
    requires ctx.depth <= MAX_ARCHIVE_DEPTH
    decreases Left(ctx.depth), 0, |ctx.members| - i
  {
    if i >= |ctx.members| then (ctx, t, [])
    else
      var m := ctx.members[i];
      match VisitMember(w, ctx, t, policy, deep, m)
      case Stop(c, t') => (c, t', [])
      case Skip(c, t') => ScanMembers(w, c, t', policy, deep, i + 1)
      case Enter(t') =>
        var child := ScanFile(w, w.entry(ctx.file, m.index).file, ctx.depth + 1, t', policy, deep);
        var rest := ScanMembers(w, Adopt(ctx, child.0), child.1, policy, deep, i + 1);
        (rest.0, rest.1, [(m.index, child.2)] + rest.2)
  }

  ghost function VerdictOn(w: World, ctx: Ctx, policy: Policy): Verdict {
    VerdictOf(FactsOf(ctx), policy, w.family).0
  }

  // ----- a context only grows -----

  /** Nothing found is ever taken back. */
  predicate Grows(a: Ctx, b: Ctx) {
    && a.file == b.file && a.depth == b.depth
    && a.findings <= b.findings && a.failed <= b.failed
    && (a.encrypted ==> b.encrypted) && (b.supported ==> a.supported)
  }

  /** Scores come from the one weight table. */
  ghost predicate FromTable(w: World, fs: seq<Finding>) {
    forall i :: 0 <= i < |fs| ==> fs[i].score == w.weight(fs[i].code)
  }

  ghost predicate Weighted(w: World, ctx: Ctx) { FromTable(w, ctx.findings) }

  lemma AddGrows(w: World, ctx: Ctx, stage: string, code: string)
    ensures Grows(ctx, Add(w, ctx, stage, code)) && HasCode(Add(w, ctx, stage, code).findings, code)
    ensures Weighted(w, ctx) ==> Weighted(w, Add(w, ctx, stage, code))
  {
    var fs := Add(w, ctx, stage, code).findings;
    if !HasCode(ctx.findings, code) {
      assert fs[|ctx.findings|].code == code;
    }
  }

  lemma {:induction false} AddAllGrows(w: World, ctx: Ctx, stage: string, codes: seq<string>)
    ensures var c := AddAll(w, ctx, stage, codes);
            && Grows(ctx, c) && (Weighted(w, ctx) ==> Weighted(w, c))
            && c == ctx.(findings := c.findings)
            && forall i :: 0 <= i < |codes| ==> HasCode(c.findings, codes[i])
  {
    if codes != [] {
      var n := |codes| - 1;
      AddAllGrows(w, ctx, stage, codes[..n]);
      var before := AddAll(w, ctx, stage, codes[..n]);
      AddGrows(w, before, stage, codes[n]);
      var after := AddAll(w, ctx, stage, codes);
      forall i | 0 <= i < n
        ensures HasCode(after.findings, codes[i])
      {
        assert HasCode(before.findings, codes[..n][i]);
        PrefixHasCode(before.findings, after.findings, codes[i]);
      }
    }
  }

  lemma PrefixHasCode(a: seq<Finding>, b: seq<Finding>, code: string)
    requires a <= b && HasCode(a, code)
    ensures HasCode(b, code)
  {
    var i :| 0 <= i < |a| && a[i].code == code;
    assert b[i].code == code;
  }

  lemma ReportedGrows(w: World, ctx: Ctx, stage: string, inventory: Inventory)
    ensures var c := Reported(w, ctx, stage, inventory);
            && Grows(ctx, c) && (Weighted(w, ctx) ==> Weighted(w, c)) && c.kind == ctx.kind
            && (forall i :: 0 <= i < |inventory.problems| ==> HasCode(c.findings, inventory.problems[i]))
            && (inventory.encrypted ==> c.encrypted) && (inventory.incomplete != [] ==> !c.supported)
  {
    var named := AddAll(w, ctx, stage, inventory.problems);
    AddAllGrows(w, ctx, stage, inventory.problems);
    var marked := if inventory.encrypted then named.(encrypted := true) else named;
    AddGrows(w, marked.(supported := false), stage, "ARCHIVE_INCOMPLETE");
    var c := Reported(w, ctx, stage, inventory);
    forall i | 0 <= i < |inventory.problems|
      ensures HasCode(c.findings, inventory.problems[i])
    {
      PrefixHasCode(named.findings, c.findings, inventory.problems[i]);
    }
  }

  lemma AnalyseGrows(w: World, ctx: Ctx, l: Ledger, stage: string)
    ensures var c := Analyse(w, ctx, l, stage).0;
            Grows(ctx, c) && (Weighted(w, ctx) ==> Weighted(w, c)) && c.kind == ctx.kind
  {
    match w.opening(ctx.file)
    case TooManyEntries => AddGrows(w, ctx.(supported := false), stage, "ARCHIVE_INCOMPLETE");
    case Broken =>
      AddGrows(w, ctx.(supported := false), stage, if ctx.kind.Zip? then "ARCHIVE_MALFORMED" else "DOCX_MALFORMED");
    case Opens(infos) =>
      ReportedGrows(w, ctx, stage, AfterInspect(l, Files(infos), ctx.depth, ctx.kind.Zip?).0);
  }

  lemma FinishedGrows(w: World, ctx: Ctx, stage: string, e: Effect)
    ensures var c := Finished(w, ctx, stage, e);
            && Grows(ctx, c) && (Weighted(w, ctx) ==> Weighted(w, c))
            && c.members == ctx.members && c.kind == ctx.kind
            && (!e.result.Done? ==> stage in c.failed)
  {
    hide Add;
    hide AddAll;
    hide HasCode;
    var widened := ctx.(encrypted := ctx.encrypted || e.encrypted, supported := ctx.supported && !e.unsupported);
    AddAllGrows(w, widened, stage, e.codes);
    var c := AddAll(w, widened, stage, e.codes);
    AddGrows(w, c.(failed := c.failed + {stage}), stage, "STAGE_FAILED");
    AddGrows(w, c.(failed := c.failed + {stage}), stage, "STAGE_TIMEOUT");
  }

  lemma RunStageGrows(w: World, ctx: Ctx, t: Tree, stage: string)
    ensures var c := RunStage(w, ctx, t, stage).0;
            && Grows(ctx, c) && (Weighted(w, ctx) ==> Weighted(w, c))
            && (!w.effect(t.now, stage, ctx.file).result.Done? ==> stage in c.failed)
  {
    var e := w.effect(t.now, stage, ctx.file);
    AnalyseGrows(w, ctx, t.ledger, stage);
    FinishedGrows(w, Looked(w, ctx, t.ledger, stage, e.result.Done? || e.partial).0, stage, e);
  }

  lemma {:induction false} RunStagesGrows(w: World, ctx: Ctx, t: Tree, policy: Policy, deep: bool, k: nat)
    ensures var r := RunStages(w, ctx, t, policy, deep, k);
            Grows(ctx, r.0) && (Weighted(w, ctx) ==> Weighted(w, r.0))
    decreases |w.stages| - k
  {
    if k < |w.stages| {
      RunStageGrows(w, ctx, t, w.stages[k]);
      var (c, t') := RunStage(w, ctx, t, w.stages[k]);
      RunStagesGrows(w, c, t', policy, deep, k + 1);
    }
  }

  lemma {:induction false} AdoptedFindings(w: World, own: seq<Finding>, child: seq<Finding>)
    ensures var fs := AdoptFindings(own, child);
            && own <= fs
            && forall i :: 0 <= i < |child| ==> HasCode(fs, child[i].code)
  {
    if child != [] {
      var n := |child| - 1;
      AdoptedFindings(w, own, child[..n]);
      var before, after := AdoptFindings(own, child[..n]), AdoptFindings(own, child);
      forall i | 0 <= i < |child|
        ensures HasCode(after, child[i].code)
      {
        if i < n {
          assert HasCode(before, child[..n][i].code);
          PrefixHasCode(before, after, child[i].code);
        } else if !HasCode(before, child[n].code) {
          assert after[|before|].code == child[n].code;
        }
      }
    }
  }

  lemma {:induction false} AdoptKeepsWeights(w: World, own: seq<Finding>, child: seq<Finding>)
    requires FromTable(w, own) && FromTable(w, child)
    ensures FromTable(w, AdoptFindings(own, child))
  {
    if child != [] {
      AdoptKeepsWeights(w, own, child[..|child| - 1]);
    }
  }

  lemma GrowsScore(w: World, a: Ctx, b: Ctx)
    requires Grows(a, b)
    ensures Score(a.findings, w.family) <= Score(b.findings, w.family)
  {
    assert Covered(a.findings, b.findings) by {
      forall f | f in a.findings
        ensures exists g :: g in b.findings && g.code == f.code && f.score <= g.score
      {
        assert f in b.findings;
      }
    }
    ScoreMonotone(a.findings, b.findings, w.family);
  }

  /** The container takes over everything that weighs in its entry. */
  lemma AdoptTakesOver(w: World, ctx: Ctx, child: Ctx)
    requires Weighted(w, ctx) && Weighted(w, child)
    ensures var c := Adopt(ctx, child);
            && Grows(ctx, c) && Weighted(w, c)
            && child.failed <= c.failed && (child.encrypted ==> c.encrypted) && (c.supported ==> child.supported)
            && Score(child.findings, w.family) <= Score(c.findings, w.family)
  {
    var c := Adopt(ctx, child);
    AdoptedFindings(w, ctx.findings, child.findings);
    AdoptKeepsWeights(w, ctx.findings, child.findings);
    assert Covered(child.findings, c.findings) by {
      forall f | f in child.findings
        ensures exists g :: g in c.findings && g.code == f.code && f.score <= g.score
      {
        var i :| 0 <= i < |child.findings| && child.findings[i] == f;
        assert HasCode(c.findings, f.code);
        var k :| 0 <= k < |c.findings| && c.findings[k].code == f.code;
        assert c.findings[k] in c.findings;
      }
    }
    ScoreMonotone(child.findings, c.findings, w.family);
  }

  lemma NewIsWeighted(w: World, file: File, depth: nat)
    ensures Weighted(w, NewCtx(file, depth))
  {
  }

  lemma {:induction false} ScanFileWeighted(w: World, file: File, depth: nat, t: Tree, policy: Policy, deep: bool)
    ensures Weighted(w, ScanFile(w, file, depth, t, policy, deep).0)
    decreases Left(depth), 1, 0
  {
    hide Grows;
    hide FromTable;
    hide StopsAt;
    hide RunStages;
    hide ScanMembers;
    var ctx, t0 := NewCtx(file, depth), t.(scanned := t.scanned + 1);
    NewIsWeighted(w, file, depth);
    RunStagesGrows(w, ctx, t0, policy, deep, 0);
    var r := RunStages(w, ctx, t0, policy, deep, 0);
    if r.0.members != [] && depth <= MAX_ARCHIVE_DEPTH {
      ScanMembersGrows(w, r.0, r.1, policy, deep, 0);
    }
  }

  lemma VisitGrows(w: World, ctx: Ctx, t: Tree, policy: Policy, deep: bool, m: Member)
    requires Weighted(w, ctx)
    ensures var v := VisitMember(w, ctx, t, policy, deep, m);
            !v.Enter? ==> Grows(ctx, v.ctx) && Weighted(w, v.ctx) && v.ctx.members == ctx.members
  {
    AddGrows(w, ctx.(supported := false), "archive", "ARCHIVE_INCOMPLETE");
    AddGrows(w, ctx.(supported := false), "archive", "ARCHIVE_MALFORMED");
  }

  /** The context after the entry `m` has been scanned, and the tree. */
  ghost function Entered(w: World, ctx: Ctx, t: Tree, policy: Policy, deep: bool, m: Member): (Ctx, Tree, Trace)
  {
    var child := ScanFile(w, w.entry(ctx.file, m.index).file, ctx.depth + 1, t, policy, deep);
    (Adopt(ctx, child.0), child.1, child.2)
  }

  lemma ScanMembersStep(w: World, ctx: Ctx, t: Tree, policy: Policy, deep: bool, i: nat)
    requires ctx.depth <= MAX_ARCHIVE_DEPTH && i < |ctx.members|
    ensures ScanMembers(w, ctx, t, policy, deep, i) ==
            match VisitMember(w, ctx, t, policy, deep, ctx.members[i])
            case Stop(c, t') => (c, t', [])
            case Skip(c, t') => ScanMembers(w, c, t', policy, deep, i + 1)
            case Enter(t') =>
              var (c, t'', trace) := Entered(w, ctx, t', policy, deep, ctx.members[i]);
              var rest := ScanMembers(w, c, t'', policy, deep, i + 1);
              (rest.0, rest.1, [(ctx.members[i].index, trace)] + rest.2)
  {
    hide ScanFile;
    hide VisitMember;
    hide Adopt;
  }

  lemma EnteredGrows(w: World, ctx: Ctx, t: Tree, policy: Policy, deep: bool, m: Member)
    requires ctx.depth <= MAX_ARCHIVE_DEPTH && Weighted(w, ctx)
    ensures var c := Entered(w, ctx, t, policy, deep, m).0;
            Grows(ctx, c) && Weighted(w, c) && c.members == ctx.members
    decreases Left(ctx.depth), 0, 0
  {
    hide ScanFile;
    var file := w.entry(ctx.file, m.index).file;
    ScanFileWeighted(w, file, ctx.depth + 1, t, policy, deep);
    AdoptTakesOver(w, ctx, ScanFile(w, file, ctx.depth + 1, t, policy, deep).0);
  }

  lemma {:induction false} ScanMembersGrows(w: World, ctx: Ctx, t: Tree, policy: Policy, deep: bool, i: nat)
    requires ctx.depth <= MAX_ARCHIVE_DEPTH && Weighted(w, ctx)
    ensures var r := ScanMembers(w, ctx, t, policy, deep, i);
            Grows(ctx, r.0) && Weighted(w, r.0)
    decreases Left(ctx.depth), 0, |ctx.members| - i
  {
    if i < |ctx.members| {
      var m := ctx.members[i];
      ScanMembersStep(w, ctx, t, policy, deep, i);
      VisitGrows(w, ctx, t, policy, deep, m);
      match VisitMember(w, ctx, t, policy, deep, m)
      case Stop(_, _) =>
      case Skip(c, t') => ScanMembersGrows(w, c, t', policy, deep, i + 1);
      case Enter(t') =>
        EnteredGrows(w, ctx, t', policy, deep, m);
        var e := Entered(w, ctx, t', policy, deep, m);
        ScanMembersGrows(w, e.0, e.1, policy, deep, i + 1);
    }
  }
}
