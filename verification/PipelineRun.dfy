/** The pipeline as it runs: contexts and the budget are objects updated in place. Every method is
    proved to compute what `Pipeline` specifies. */
module PipelineRun {
  import Scoring
  import opened Archive
  import opened Pipeline
  import opened PipelineProofs
  import opened PipelineReports

  class ScanContext {
    const file: File
    const depth: nat
    var findings: seq<Scoring.Finding>
    var failed: set<string>
    var encrypted: bool
    var supported: bool
    var kind: Kind
    var members: seq<Member>

    constructor (file: File, depth: nat)
      ensures Snapshot() == NewCtx(file, depth)
    {
      this.file, this.depth := file, depth;
      findings, failed := [], {};
      encrypted, supported := false, true;
      kind, members := Plain, [];
    }

    function Snapshot(): Ctx
      reads this
    {
      Ctx(file, depth, findings, failed, encrypted, supported, kind, members)
    }

    method AddFinding(w: World, stage: string, code: string)
      modifies this`findings
      ensures Snapshot() == Add(w, old(Snapshot()), stage, code)
    {
      if exists i :: 0 <= i < |findings| && findings[i].code == code {
        return;
      }
      findings := findings + [Scoring.Finding(stage, code, w.weight(code))];
    }

    method AddFindings(w: World, stage: string, codes: seq<string>)
      modifies this`findings
      ensures Snapshot() == AddAll(w, old(Snapshot()), stage, codes)
    {
      for i := 0 to |codes|
        invariant Snapshot() == AddAll(w, old(Snapshot()), stage, codes[..i])
      {
        assert codes[..i + 1][..i] == codes[..i];
        AddFinding(w, stage, codes[i]);
      }
      assert codes[..|codes|] == codes;
    }

    method NoteIncomplete(w: World, stage: string)
      modifies this`supported, this`findings
      ensures Snapshot() == MarkIncomplete(w, old(Snapshot()), stage)
    {
      supported := false;
      AddFinding(w, stage, "ARCHIVE_INCOMPLETE");
    }

    method Report(w: World, stage: string, inventory: Inventory)
      modifies this`supported, this`findings, this`encrypted
      ensures Snapshot() == Reported(w, old(Snapshot()), stage, inventory)
    {
      AddFindings(w, stage, inventory.problems);
      if inventory.encrypted {
        encrypted := true;
      }
      if inventory.incomplete != [] {
        NoteIncomplete(w, stage);
      }
    }

    /** Findings of an entry become findings of its container. */
    method AdoptChild(child: ScanContext)
      requires child != this
      modifies this
      ensures Snapshot() == Adopt(old(Snapshot()), child.Snapshot())
    {
      for i := 0 to |child.findings|
        invariant findings == AdoptFindings(old(findings), child.findings[..i])
        invariant Snapshot() == old(Snapshot()).(findings := findings)
      {
        assert child.findings[..i + 1][..i] == child.findings[..i];
        var f := child.findings[i];
        if !exists k :: 0 <= k < |findings| && findings[k].code == f.code {
          findings := findings + [f];
        }
      }
      assert child.findings[..|child.findings|] == child.findings;
      failed := failed + child.failed;
      encrypted := encrypted || child.encrypted;
      supported := supported && child.supported;
    }
  }

  /** What one uploaded file's scan shares. The ghost counters only keep the books. */
  class SharedScan {
    const budget: UnpackBudget
    var now: nat
    ghost var scanned: nat
    ghost var selected: nat
    ghost var written: nat
    ghost var refused: nat

    constructor (rootSize: nat)
      ensures fresh(budget) && Snapshot() == Tree(Ledger(Budget(rootSize, 0, 0, 0), 0, 0, 0), 0, 0)
    {
      budget := new UnpackBudget(rootSize);
      now, scanned, selected, written, refused := 0, 0, 0, 0, 0;
    }

    ghost function Snapshot(): Tree
      reads this, budget
    {
      Tree(Ledger(budget.State(), selected, written, refused), now, scanned)
    }
  }

  method AnalyseFile(w: World, ctx: ScanContext, shared: SharedScan, stage: string)
    modifies ctx, shared, shared.budget
    ensures var r := Analyse(w, old(ctx.Snapshot()), old(shared.Snapshot()).ledger, stage);
            ctx.Snapshot() == r.0 && shared.Snapshot() == old(shared.Snapshot()).(ledger := r.1)
  {
    match w.opening(ctx.file)
    case TooManyEntries => ctx.NoteIncomplete(w, stage);
    case Broken =>
      ctx.supported := false;
      ctx.AddFinding(w, stage, if ctx.kind.Zip? then "ARCHIVE_MALFORMED" else "DOCX_MALFORMED");
    case Opens(infos) =>
      var inventory := Inspect(Files(infos), shared.budget, ctx.depth, ctx.kind.Zip?);
      shared.selected := shared.selected + Bytes(inventory.members);
      ctx.Report(w, stage, inventory);
      ctx.members := inventory.members;
  }

  method LookAt(w: World, ctx: ScanContext, shared: SharedScan, stage: string, reached: bool)
    modifies ctx, shared, shared.budget
    ensures var r := Looked(w, old(ctx.Snapshot()), old(shared.Snapshot()).ledger, stage, reached);
            ctx.Snapshot() == r.0 && shared.Snapshot() == old(shared.Snapshot()).(ledger := r.1)
  {
    hide Analyse;
    if reached {
      if stage == "filetype" {
        ctx.kind := w.kind(ctx.file);
      } else if stage == "structure" && !ctx.kind.Plain? {
        AnalyseFile(w, ctx, shared, stage);
      }
    }
  }

  method Finish(w: World, ctx: ScanContext, stage: string, e: Effect)
    modifies ctx
    ensures ctx.Snapshot() == Finished(w, old(ctx.Snapshot()), stage, e)
  {
    hide AddAll;
    hide Add;
    ctx.encrypted := ctx.encrypted || e.encrypted;
    ctx.supported := ctx.supported && !e.unsupported;
    ctx.AddFindings(w, stage, e.codes);
    if !e.result.Done? {
      ctx.failed := ctx.failed + {stage};
      ctx.AddFinding(w, stage, if e.result.Crashed? then "STAGE_FAILED" else "STAGE_TIMEOUT");
    }
  }

  method RunOneStage(w: World, ctx: ScanContext, shared: SharedScan, stage: string)
    modifies ctx, shared, shared.budget
    ensures var r := RunStage(w, old(ctx.Snapshot()), old(shared.Snapshot()), stage);
            ctx.Snapshot() == r.0 && shared.Snapshot() == r.1
  {
    hide Looked;
    hide Finished;
    var e := w.effect(shared.now, stage, ctx.file);
    LookAt(w, ctx, shared, stage, e.result.Done? || e.partial);
    Finish(w, ctx, stage, e);
    shared.now := shared.now + 1;
  }

  method StopsEarly(w: World, ctx: ScanContext, policy: Scoring.Policy, deep: bool) returns (stop: bool)
    ensures stop == StopsAt(w, ctx.Snapshot(), policy, deep)
  {
    var score := Scoring.ScoreOf(ctx.findings, w.family);
    stop := !deep && Scoring.ShouldStopEarlyAt(score, policy);
  }

  method RunAllStages(w: World, ctx: ScanContext, shared: SharedScan, policy: Scoring.Policy, deep: bool)
    returns (ghost runs: seq<StageRun>)
    modifies ctx, shared, shared.budget
    ensures (ctx.Snapshot(), shared.Snapshot(), runs)
            == RunStages(w, old(ctx.Snapshot()), old(shared.Snapshot()), policy, deep, 0)
  {
    hide RunStage;
    hide StopsAt;
    runs := [];
    ghost var goal := RunStages(w, ctx.Snapshot(), shared.Snapshot(), policy, deep, 0);
    assert [] + goal.2 == goal.2;
    for k := 0 to |w.stages|
      invariant var rest := RunStages(w, ctx.Snapshot(), shared.Snapshot(), policy, deep, k);
                goal == (rest.0, rest.1, runs + rest.2)
    {
      ghost var before, run := runs, StageRun(shared.now, w.stages[k]);
      RunOneStage(w, ctx, shared, w.stages[k]);
      runs := runs + [run];
      ghost var later := RunStages(w, ctx.Snapshot(), shared.Snapshot(), policy, deep, k + 1).2;
      assert before + ([run] + later) == runs + later;
      var stop := StopsEarly(w, ctx, policy, deep);
      if stop {
        return;
      }
    }
    assert runs + [] == runs;
  }

  /** Extraction with the books kept. */
  method ExtractMember(w: World, file: File, m: Member, shared: SharedScan) returns (outcome: Outcome)
    modifies shared, shared.budget
    ensures var r := AfterExtract(old(shared.Snapshot()).ledger, m.info.size, w.entry(file, m.index).stream);
            outcome == r.0 && shared.Snapshot() == old(shared.Snapshot()).(ledger := r.1, now := old(shared.now) + 1)
  {
    var out;
    outcome, out := Extract(m.info.size, w.entry(file, m.index).stream, shared.budget);
    shared.written := shared.written + out;
    if outcome.OverBudget? {
      shared.refused := shared.refused + 1;
    }
    shared.now := shared.now + 1;
  }

  method Process(w: World, file: File, depth: nat, shared: SharedScan, policy: Scoring.Policy, deep: bool)
    returns (ctx: ScanContext, ghost trace: Trace)
    modifies shared, shared.budget
    ensures fresh(ctx)
    ensures (ctx.Snapshot(), shared.Snapshot(), trace) == ScanFile(w, file, depth, old(shared.Snapshot()), policy, deep)
    decreases Left(depth), 2, 0
  {
    hide RunStages;
    ctx := new ScanContext(file, depth);
    shared.scanned := shared.scanned + 1;
    ghost var runs := RunAllStages(w, ctx, shared, policy, deep);
    ghost var members := Expand(w, ctx, shared, policy, deep);
    trace := Trace(file, runs, members);
  }

  method Expand(w: World, ctx: ScanContext, shared: SharedScan, policy: Scoring.Policy, deep: bool)
    returns (ghost traces: seq<(nat, Trace)>)
    modifies ctx, shared, shared.budget
    ensures if old(ctx.members) == [] || ctx.depth > MAX_ARCHIVE_DEPTH
            then (ctx.Snapshot(), shared.Snapshot(), traces) == (old(ctx.Snapshot()), old(shared.Snapshot()), [])
            else (ctx.Snapshot(), shared.Snapshot(), traces)
                 == ScanMembers(w, old(ctx.Snapshot()), old(shared.Snapshot()), policy, deep, 0)
    decreases Left(ctx.depth), 1, 0
  {
    if ctx.members == [] || ctx.depth > MAX_ARCHIVE_DEPTH {
      return [];
    }
    traces := ScanAllMembers(w, ctx, shared, policy, deep);
  }

  datatype Turn = Stopped | Skipped | Unpacked

  method VisitInPlace(w: World, ctx: ScanContext, shared: SharedScan, policy: Scoring.Policy, deep: bool, m: Member)
    returns (turn: Turn)
    modifies ctx, shared, shared.budget
    ensures match VisitMember(w, old(ctx.Snapshot()), old(shared.Snapshot()), policy, deep, m)
            case Stop(c, t) => turn == Stopped && ctx.Snapshot() == c && shared.Snapshot() == t
            case Skip(c, t) => turn == Skipped && ctx.Snapshot() == c && shared.Snapshot() == t
            case Enter(t) => turn == Unpacked && ctx.Snapshot() == old(ctx.Snapshot()) && shared.Snapshot() == t
  {
    hide StopsAt;
    hide AfterExtract;
    hide Add;
    hide MarkIncomplete;
    var stop := StopsEarly(w, ctx, policy, deep);
    if stop {
      return Stopped;
    }
    if w.late(shared.now) {
      shared.now := shared.now + 1;
      ctx.NoteIncomplete(w, "archive");
      return Stopped;
    }
    var outcome := ExtractMember(w, ctx.file, m, shared);
    match outcome
    case OverBudget =>
      ctx.NoteIncomplete(w, "archive");
      turn := Stopped;
    case Unreadable =>
      ctx.supported := false;
      ctx.AddFinding(w, "archive", "ARCHIVE_MALFORMED");
      turn := Skipped;
    case Extracted =>
      turn := Unpacked;
  }

  method ScanAllMembers(w: World, ctx: ScanContext, shared: SharedScan, policy: Scoring.Policy, deep: bool)
    returns (ghost traces: seq<(nat, Trace)>)
    requires ctx.depth <= MAX_ARCHIVE_DEPTH
    modifies ctx, shared, shared.budget
    ensures (ctx.Snapshot(), shared.Snapshot(), traces)
            == ScanMembers(w, old(ctx.Snapshot()), old(shared.Snapshot()), policy, deep, 0)
    decreases Left(ctx.depth), 0, 0
  {
    hide ScanFile;
    hide VisitMember;
    hide ScanMembers;
    traces := [];
    ghost var goal := ScanMembers(w, ctx.Snapshot(), shared.Snapshot(), policy, deep, 0);
    assert [] + goal.2 == goal.2;
    var i := 0;
    while i < |ctx.members|
      invariant i <= |ctx.members| && ctx.members == old(ctx.members)
      invariant var rest := ScanMembers(w, ctx.Snapshot(), shared.Snapshot(), policy, deep, i);
                goal == (rest.0, rest.1, traces + rest.2)
      decreases |ctx.members| - i
    {
      var m := ctx.members[i];
      ScanMembersStep(w, ctx.Snapshot(), shared.Snapshot(), policy, deep, i);
      var turn := VisitInPlace(w, ctx, shared, policy, deep, m);
      if turn.Stopped? {
        assert traces + [] == traces;
        return;
      }
      if turn.Unpacked? {
        var child;
        ghost var trace;
        child, trace := Process(w, w.entry(ctx.file, m.index).file, ctx.depth + 1, shared, policy, deep);
        ctx.AdoptChild(child);
        ghost var later := ScanMembers(w, ctx.Snapshot(), shared.Snapshot(), policy, deep, i + 1).2;
        assert traces + ([(m.index, trace)] + later) == (traces + [(m.index, trace)]) + later;
        traces := traces + [(m.index, trace)];
      }
      i := i + 1;
    }
    ScanMembersEnd(w, ctx.Snapshot(), shared.Snapshot(), policy, deep, i);
    assert traces + [] == traces;
  }

  lemma ScanMembersEnd(w: World, ctx: Ctx, t: Tree, policy: Scoring.Policy, deep: bool, i: nat)
    requires ctx.depth <= MAX_ARCHIVE_DEPTH && i >= |ctx.members|
    ensures ScanMembers(w, ctx, t, policy, deep, i) == (ctx, t, [])
  {
  }

  /** A full pass: scan the file and everything in it, then judge. A clean answer means full coverage, and what any
      stage gave on any visited file has been judged. */
  method ProcessFull(w: World, root: File, rootSize: nat, policy: Scoring.Policy, deep: bool)
    returns (verdict: Scoring.Verdict, score: nat, ghost trace: Trace)
    ensures (verdict, score) == Scoring.VerdictOf(FactsOf(ScanFile(w, root, 0, Start(rootSize), policy, deep).0), policy, w.family)
    ensures trace == ScanFile(w, root, 0, Start(rootSize), policy, deep).2
    ensures w.stages == STAGES && BombCounts(w, policy) && policy.failMode != Scoring.FailOpen && verdict == Scoring.Clean ==>
              trace.file == root && FullyCovered(w, trace)
    ensures forall sub, mark :: Visited(trace, sub) && Among(w, sub.file, sub.runs, mark) ==>
              (Condemns(w, policy, mark) ==> verdict == Scoring.Malicious) && (Clouds(policy, mark) ==> verdict != Scoring.Clean)
  {
    hide ScanFile;
    hide FullyCovered;
    hide Visited;
    hide Among;
    hide Condemns;
    hide Clouds;
    var shared := new SharedScan(rootSize);
    var ctx;
    ctx, trace := Process(w, root, 0, shared, policy, deep);
    verdict, score := Scoring.ComputeVerdict(FactsOf(ctx.Snapshot()), policy, w.family);
    if w.stages == STAGES && BombCounts(w, policy) && policy.failMode != Scoring.FailOpen && verdict == Scoring.Clean {
      CleanMeansFullCoverage(w, root, rootSize, policy, deep);
    }
    forall sub, mark | Visited(trace, sub) && Among(w, sub.file, sub.runs, mark)
      ensures (Condemns(w, policy, mark) ==> verdict == Scoring.Malicious) && (Clouds(policy, mark) ==> verdict != Scoring.Clean)
    {
      EveryRunIsJudged(w, root, rootSize, policy, deep, sub, mark);
    }
  }
}
