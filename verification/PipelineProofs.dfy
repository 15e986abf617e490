/** What a verdict of the pipeline means, and what bounds its work. */
module PipelineProofs {
  import opened Scoring
  import opened Archive
  import opened Pipeline

  // ----- a clean verdict means full coverage -----

  /** The context would be called clean, whatever the tenant's failure mode. */
  ghost predicate Spotless(w: World, ctx: Ctx, policy: Policy) {
    && Score(ctx.findings, w.family) < Min(policy.blockThreshold, policy.suspiciousThreshold)
    && !ctx.encrypted && ctx.supported && !CoverageIncomplete(FactsOf(ctx))
  }

  lemma SpotlessBefore(w: World, a: Ctx, b: Ctx, policy: Policy)
    requires Grows(a, b) && Spotless(w, b, policy)
    ensures Spotless(w, a, policy)
  {
    GrowsScore(w, a, b);
    assert a.failed * ESSENTIAL_STAGES <= b.failed * ESSENTIAL_STAGES;
  }

  lemma SpotlessChild(w: World, ctx: Ctx, child: Ctx, policy: Policy)
    requires Weighted(w, ctx) && Weighted(w, child) && Spotless(w, Adopt(ctx, child), policy)
    ensures Spotless(w, child, policy)
  {
    AdoptTakesOver(w, ctx, child);
    assert child.failed * ESSENTIAL_STAGES <= Adopt(ctx, child).failed * ESSENTIAL_STAGES;
  }

  /** What needs no scan: links, the archiver's own metadata, and empty entries. */
  predicate Exempt(info: Info) {
    info.symlink || IsOsMetadata(info) || info.size == 0
  }

  /** The stages that a file passed. */
  ghost function Passed(w: World, file: File, runs: seq<StageRun>): set<string> {
    set i | 0 <= i < |runs| && w.effect(runs[i].at, runs[i].stage, file).result.Done? :: runs[i].stage
  }

  /** The file passed every essential stage, and if it is an archive, so did everything in it that needs
      scanning, all the way down. */
  ghost predicate FullyCovered(w: World, tr: Trace) {
    && ESSENTIAL_STAGES <= Passed(w, tr.file, tr.runs)
    && (w.kind(tr.file).Zip? ==>
          && w.opening(tr.file).Opens?
          && forall i: nat :: i < |Files(w.opening(tr.file).infos)| && !Exempt(Files(w.opening(tr.file).infos)[i]) ==>
               exists k: nat :: k < |tr.members| && tr.members[k].0 == i + 1
                 && tr.members[k].1.file == w.entry(tr.file, i + 1).file
                 && FullyCovered(w, tr.members[k].1))
  }

  lemma PassedMore(w: World, file: File, run: StageRun, runs: seq<StageRun>)
    ensures Passed(w, file, runs) <= Passed(w, file, [run] + runs)
    ensures w.effect(run.at, run.stage, file).result.Done? ==> run.stage in Passed(w, file, [run] + runs)
  {
    var more := [run] + runs;
    forall stage | stage in Passed(w, file, runs)
      ensures stage in Passed(w, file, more)
    {
      var i :| 0 <= i < |runs| && w.effect(runs[i].at, runs[i].stage, file).result.Done? && runs[i].stage == stage;
      assert more[i + 1] == runs[i];
    }
    assert more[0] == run;
  }

  lemma {:induction false} StagesPassed(w: World, ctx: Ctx, t: Tree, policy: Policy, deep: bool, k: nat)
    requires Spotless(w, RunStages(w, ctx, t, policy, deep, k).0, policy)
    ensures forall j: nat :: k <= j < |w.stages| && w.stages[j] in ESSENTIAL_STAGES ==>
              w.stages[j] in Passed(w, ctx.file, RunStages(w, ctx, t, policy, deep, k).2)
    decreases |w.stages| - k
  {
    hide RunStage;
    hide Passed;
    hide Score;
    if k < |w.stages| {
      var (c, t') := RunStage(w, ctx, t, w.stages[k]);
      RunStageGrows(w, ctx, t, w.stages[k]);
      RunStagesGrows(w, c, t', policy, deep, k + 1);
      var r := RunStages(w, ctx, t, policy, deep, k);
      assert Grows(c, r.0);
      SpotlessBefore(w, c, r.0, policy);
      assert w.stages[k] !in c.failed * ESSENTIAL_STAGES;
      if r.2 == [StageRun(t.now, w.stages[k])] {
        PassedMore(w, ctx.file, StageRun(t.now, w.stages[k]), []);
      }
      StagesPassed(w, c, t', policy, deep, k + 1);
      PassedMore(w, ctx.file, StageRun(t.now, w.stages[k]), RunStages(w, c, t', policy, deep, k + 1).2);
    }
  }

  /** Other stages leave the recognised type and the members alone. */
  lemma {:induction false} LaterStagesKeepMembers(w: World, ctx: Ctx, t: Tree, policy: Policy, deep: bool, k: nat)
    requires forall j: nat :: k <= j < |w.stages| ==> w.stages[j] != "filetype" && w.stages[j] != "structure"
    ensures RunStages(w, ctx, t, policy, deep, k).0.members == ctx.members
    decreases |w.stages| - k
  {
    if k < |w.stages| {
      var (c, t') := RunStage(w, ctx, t, w.stages[k]);
      FinishedGrows(w, ctx, w.stages[k], w.effect(t.now, w.stages[k], ctx.file));
      LaterStagesKeepMembers(w, c, t', policy, deep, k + 1);
    }
  }

  /** All the policy assumes of the weight table: a bomb alone reaches the weaker threshold. */
  predicate BombCounts(w: World, policy: Policy) {
    && Min(policy.blockThreshold, policy.suspiciousThreshold) <= 100
    && Min(policy.blockThreshold, policy.suspiciousThreshold) <= w.weight("ARCHIVE_BOMB")
  }

  lemma BombIsNotSpotless(w: World, ctx: Ctx, policy: Policy)
    requires BombCounts(w, policy) && Weighted(w, ctx) && HasCode(ctx.findings, "ARCHIVE_BOMB")
    ensures !Spotless(w, ctx, policy)
  {
    var i :| 0 <= i < |ctx.findings| && ctx.findings[i].code == "ARCHIVE_BOMB";
    OneFindingCounts(ctx.findings, ctx.findings[i], w.family);
  }

  /** Every file of the archive that needs scanning is among the members. */
  ghost predicate AllSelected(files: seq<Info>, members: seq<Member>) {
    forall i: nat :: i < |files| && !Exempt(files[i]) ==> Member(i + 1, files[i]) in members
  }

  lemma AnalysedArchive(w: World, ctx: Ctx, l: Ledger, stage: string, policy: Policy)
    requires ctx.kind.Zip? && Weighted(w, ctx) && BombCounts(w, policy)
    requires Spotless(w, Analyse(w, ctx, l, stage).0, policy)
    ensures w.opening(ctx.file).Opens?
    ensures AllSelected(Files(w.opening(ctx.file).infos), Analyse(w, ctx, l, stage).0.members)
    ensures ctx.depth <= MAX_ARCHIVE_DEPTH
  {
    AddGrows(w, ctx.(supported := false), stage, "ARCHIVE_MALFORMED");
    AddGrows(w, ctx.(supported := false), stage, "ARCHIVE_INCOMPLETE");
    var files := Files(w.opening(ctx.file).infos);
    var inventory := AfterInspect(l, files, ctx.depth, true).0;
    var c := Analyse(w, ctx, l, stage).0;
    ReportedGrows(w, ctx, stage, inventory);
    assert inventory.incomplete == [] && !inventory.encrypted;
    if inventory.bomb {
      var j :| 0 <= j < |inventory.problems| && inventory.problems[j] == "ARCHIVE_BOMB";
      assert HasCode(c.findings, inventory.problems[j]);
      BombIsNotSpotless(w, c, policy);
    }
    InventoryIsComplete(files, l.budget, ctx.depth);
  }

  lemma InventoryIsComplete(files: seq<Info>, b: Budget, depth: nat)
    requires var inventory := Inspected(files, b, depth, true).0;
             !inventory.bomb && !inventory.encrypted && inventory.incomplete == []
    ensures AllSelected(files, Inspected(files, b, depth, true).0.members)
    ensures depth <= MAX_ARCHIVE_DEPTH
  {
    var room := MAX_UNPACKED_BYTES - b.declared;
    SelectWithinReasons(files, room, b.entries, [Volume]);
    forall i: nat | i < |files| && !Exempt(files[i])
      ensures Member(i + 1, files[i]) in Inspected(files, b, depth, true).0.members
    {
      assert !files[i].encrypted;
      SelectIsComplete(files, room, b.entries, i);
    }
  }

  lemma {:induction false} SelectWithinReasons(files: seq<Info>, room: int, entries: nat, incomplete: seq<Reason>)
    ensures incomplete <= Select(files, room, entries, incomplete).incomplete
  {
    if files != [] {
      SelectWithinReasons(files[..|files| - 1], room, entries, incomplete);
    }
  }

  /** After spotless stages, an archive was recognised, opened, and all of it that needs scanning selected. */
  lemma StagesOpenArchive(w: World, file: File, depth: nat, t: Tree, policy: Policy, deep: bool)
    requires w.stages == STAGES && BombCounts(w, policy) && w.kind(file).Zip?
    requires Spotless(w, RunStages(w, NewCtx(file, depth), t, policy, deep, 0).0, policy)
    ensures w.opening(file).Opens?
    ensures AllSelected(Files(w.opening(file).infos), RunStages(w, NewCtx(file, depth), t, policy, deep, 0).0.members)
    ensures depth <= MAX_ARCHIVE_DEPTH
  {
    hide RunStage;
    hide Score;
    var c0 := NewCtx(file, depth);
    var final := RunStages(w, c0, t, policy, deep, 0).0;
    var (c1, t1) := RunStage(w, c0, t, w.stages[0]);
    RunStageGrows(w, c0, t, w.stages[0]);
    RunStagesGrows(w, c1, t1, policy, deep, 1);
    assert Grows(c1, final);
    SpotlessBefore(w, c1, final, policy);
    FirstStageRecognises(w, c0, t, policy);
    var (c2, t2) := RunStage(w, c1, t1, w.stages[1]);
    RunStageGrows(w, c1, t1, w.stages[1]);
    RunStagesGrows(w, c2, t2, policy, deep, 2);
    assert Grows(c2, final);
    SpotlessBefore(w, c2, final, policy);
    SecondStageOpens(w, c1, t1, policy);
    LaterStagesKeepMembers(w, c2, t2, policy, deep, 2);
  }

  lemma FirstStageRecognises(w: World, ctx: Ctx, t: Tree, policy: Policy)
    requires Spotless(w, RunStage(w, ctx, t, "filetype").0, policy)
    ensures RunStage(w, ctx, t, "filetype").0.kind == w.kind(ctx.file)
  {
    var e := w.effect(t.now, "filetype", ctx.file);
    var looked := Looked(w, ctx, t.ledger, "filetype", e.result.Done? || e.partial).0;
    FinishedGrows(w, looked, "filetype", e);
    assert !e.result.Done? ==> "filetype" in Finished(w, looked, "filetype", e).failed * ESSENTIAL_STAGES;
  }

  lemma SecondStageOpens(w: World, ctx: Ctx, t: Tree, policy: Policy)
    requires ctx.kind.Zip? && Weighted(w, ctx) && BombCounts(w, policy)
    requires Spotless(w, RunStage(w, ctx, t, "structure").0, policy)
    ensures w.opening(ctx.file).Opens?
    ensures AllSelected(Files(w.opening(ctx.file).infos), RunStage(w, ctx, t, "structure").0.members)
    ensures ctx.depth <= MAX_ARCHIVE_DEPTH
  {
    var e := w.effect(t.now, "structure", ctx.file);
    var looked := Looked(w, ctx, t.ledger, "structure", e.result.Done? || e.partial).0;
    FinishedGrows(w, looked, "structure", e);
    assert !e.result.Done? ==> "structure" in Finished(w, looked, "structure", e).failed * ESSENTIAL_STAGES;
    AnalyseGrows(w, ctx, t.ledger, "structure");
    SpotlessBefore(w, looked, RunStage(w, ctx, t, "structure").0, policy);
    AnalysedArchive(w, ctx, t.ledger, "structure", policy);
  }

  /** The entry of member `m` was extracted and is fully covered. */
  ghost predicate MemberCovered(w: World, file: File, m: Member, traces: seq<(nat, Trace)>) {
    exists k: nat :: k < |traces| && traces[k].0 == m.index
      && traces[k].1.file == w.entry(file, m.index).file && FullyCovered(w, traces[k].1)
  }

  lemma {:induction false} MembersCovered(w: World, ctx: Ctx, t: Tree, policy: Policy, deep: bool, i: nat)
    requires w.stages == STAGES && BombCounts(w, policy) && ctx.depth <= MAX_ARCHIVE_DEPTH && Weighted(w, ctx)
    requires Spotless(w, ScanMembers(w, ctx, t, policy, deep, i).0, policy)
    ensures forall j: nat :: i <= j < |ctx.members| ==>
              MemberCovered(w, ctx.file, ctx.members[j], ScanMembers(w, ctx, t, policy, deep, i).2)
    decreases Left(ctx.depth), 0, |ctx.members| - i
  {
    hide VisitMember;
    hide Entered;
    hide ScanFile;
    hide FullyCovered;
    hide Score;
    if i < |ctx.members| {
      var m := ctx.members[i];
      var r := ScanMembers(w, ctx, t, policy, deep, i);
      ScanMembersGrows(w, ctx, t, policy, deep, i);
      SpotlessBefore(w, ctx, r.0, policy);
      ScanMembersStep(w, ctx, t, policy, deep, i);
      SpotlessVisitEnters(w, ctx, t, policy, deep, m);
      var v := VisitMember(w, ctx, t, policy, deep, m);
      if v.Skip? {
        VisitGrows(w, ctx, t, policy, deep, m);
        ScanMembersGrows(w, v.ctx, v.tree, policy, deep, i + 1);
        SpotlessBefore(w, v.ctx, r.0, policy);
      } else if v.Enter? {
        var e := Entered(w, ctx, v.tree, policy, deep, m);
        EnteredGrows(w, ctx, v.tree, policy, deep, m);
        ScanMembersGrows(w, e.0, e.1, policy, deep, i + 1);
        SpotlessBefore(w, e.0, r.0, policy);
        EnteredCovered(w, ctx, v.tree, policy, deep, m);
        MembersCovered(w, e.0, e.1, policy, deep, i + 1);
        var rest := ScanMembers(w, e.0, e.1, policy, deep, i + 1).2;
        assert r.2 == [(m.index, e.2)] + rest;
        forall j: nat | i <= j < |ctx.members|
          ensures MemberCovered(w, ctx.file, ctx.members[j], r.2)
        {
          if j == i {
            assert r.2[0] == (m.index, e.2);
          } else {
            assert MemberCovered(w, e.0.file, e.0.members[j], rest);
            var k: nat :| k < |rest| && rest[k].0 == ctx.members[j].index
                          && rest[k].1.file == w.entry(ctx.file, ctx.members[j].index).file && FullyCovered(w, rest[k].1);
            assert r.2[k + 1] == rest[k];
          }
        }
      }
    }
  }

  lemma SpotlessVisitEnters(w: World, ctx: Ctx, t: Tree, policy: Policy, deep: bool, m: Member)
    requires Spotless(w, ctx, policy)
    ensures var v := VisitMember(w, ctx, t, policy, deep, m);
            v.Enter? || !Spotless(w, v.ctx, policy)
  {
    AddGrows(w, ctx.(supported := false), "archive", "ARCHIVE_INCOMPLETE");
    AddGrows(w, ctx.(supported := false), "archive", "ARCHIVE_MALFORMED");
  }

  lemma EnteredCovered(w: World, ctx: Ctx, t: Tree, policy: Policy, deep: bool, m: Member)
    requires w.stages == STAGES && BombCounts(w, policy) && ctx.depth <= MAX_ARCHIVE_DEPTH && Weighted(w, ctx)
    requires Spotless(w, Entered(w, ctx, t, policy, deep, m).0, policy)
    ensures var trace := Entered(w, ctx, t, policy, deep, m).2;
            trace.file == w.entry(ctx.file, m.index).file && FullyCovered(w, trace)
    decreases Left(ctx.depth), 0, 0
  {
    hide ScanFile;
    hide Adopt;
    hide Spotless;
    hide FullyCovered;
    var file := w.entry(ctx.file, m.index).file;
    ScanFileWeighted(w, file, ctx.depth + 1, t, policy, deep);
    SpotlessChild(w, ctx, ScanFile(w, file, ctx.depth + 1, t, policy, deep).0, policy);
    FileCovered(w, file, ctx.depth + 1, t, policy, deep);
  }

  lemma FileCovered(w: World, file: File, depth: nat, t: Tree, policy: Policy, deep: bool)
    requires w.stages == STAGES && BombCounts(w, policy)
    requires Spotless(w, ScanFile(w, file, depth, t, policy, deep).0, policy)
    ensures ScanFile(w, file, depth, t, policy, deep).2.file == file
    ensures FullyCovered(w, ScanFile(w, file, depth, t, policy, deep).2)
    decreases Left(depth), 1, 0
  {
    hide RunStages;
    hide ScanMembers;
    hide Score;
    var t0 := t.(scanned := t.scanned + 1);
    var r := RunStages(w, NewCtx(file, depth), t0, policy, deep, 0);
    var scan := ScanFile(w, file, depth, t, policy, deep);
    RunStagesGrows(w, NewCtx(file, depth), t0, policy, deep, 0);
    var expands := r.0.members != [] && depth <= MAX_ARCHIVE_DEPTH;
    if expands {
      ScanMembersGrows(w, r.0, r.1, policy, deep, 0);
      SpotlessBefore(w, r.0, scan.0, policy);
      MembersCovered(w, r.0, r.1, policy, deep, 0);
    }
    StagesPassed(w, NewCtx(file, depth), t0, policy, deep, 0);
    assert ESSENTIAL_STAGES <= Passed(w, file, r.2) by {
      assert w.stages[0] in Passed(w, file, r.2) && w.stages[1] in Passed(w, file, r.2) && w.stages[2] in Passed(w, file, r.2);
    }
    if w.kind(file).Zip? {
      StagesOpenArchive(w, file, depth, t0, policy, deep);
      forall i: nat | i < |Files(w.opening(file).infos)| && !Exempt(Files(w.opening(file).infos)[i])
        ensures MemberCovered(w, file, Member(i + 1, Files(w.opening(file).infos)[i]), scan.2.members)
      {
        var m := Member(i + 1, Files(w.opening(file).infos)[i]);
        assert m in r.0.members;
        var j: nat :| j < |r.0.members| && r.0.members[j] == m;
      }
    }
  }

  function Start(rootSize: nat): Tree {
    Tree(Ledger(Budget(rootSize, 0, 0, 0), 0, 0, 0), 0, 0)
  }

  /** A clean verdict of a full pass, under any failure mode but fail-open: at every level of the tree
      every entry that is not a link, not metadata and not empty was extracted and passed every
      essential stage. An archive that holds itself is never clean. */
  lemma CleanMeansFullCoverage(w: World, root: File, rootSize: nat, policy: Policy, deep: bool)
    requires w.stages == STAGES && BombCounts(w, policy) && policy.failMode != FailOpen
    requires VerdictOn(w, ScanFile(w, root, 0, Start(rootSize), policy, deep).0, policy) == Clean
    ensures ScanFile(w, root, 0, Start(rootSize), policy, deep).2.file == root
    ensures FullyCovered(w, ScanFile(w, root, 0, Start(rootSize), policy, deep).2)
  {
    hide ScanFile;
    var c := ScanFile(w, root, 0, Start(rootSize), policy, deep).0;
    CleanExactly(FactsOf(c), policy, w.family);
    FileCovered(w, root, 0, Start(rootSize), policy, deep);
  }

  // ----- early exit preserves the verdict -----

  ghost predicate Blocked(w: World, ctx: Ctx, policy: Policy) {
    Score(ctx.findings, w.family) >= policy.blockThreshold
  }

  /** Either the same state, or both are past the block threshold. */
  ghost predicate Agree(w: World, policy: Policy, fast: Ctx, fastTree: Tree, full: Ctx, fullTree: Tree) {
    (fast == full && fastTree == fullTree) || (Blocked(w, fast, policy) && Blocked(w, full, policy))
  }

  lemma StaysBlocked(w: World, a: Ctx, b: Ctx, policy: Policy)
    requires Grows(a, b) && Blocked(w, a, policy)
    ensures Blocked(w, b, policy)
  {
    GrowsScore(w, a, b);
  }

  lemma StopIsBlocked(w: World, ctx: Ctx, policy: Policy)
    requires StopsAt(w, ctx, policy, false)
    ensures Blocked(w, ctx, policy) && !StopsAt(w, ctx, policy, true)
  {
  }

  lemma {:induction false} StagesAgree(w: World, ctx: Ctx, t: Tree, policy: Policy, k: nat)
    ensures var fast, full := RunStages(w, ctx, t, policy, false, k), RunStages(w, ctx, t, policy, true, k);
            Agree(w, policy, fast.0, fast.1, full.0, full.1)
    decreases |w.stages| - k
  {
    hide RunStage;
    hide Blocked;
    if k < |w.stages| {
      var (c, t') := RunStage(w, ctx, t, w.stages[k]);
      if StopsAt(w, c, policy, false) {
        StopIsBlocked(w, c, policy);
        RunStagesGrows(w, c, t', policy, true, k + 1);
        StaysBlocked(w, c, RunStages(w, ctx, t, policy, true, k).0, policy);
      } else {
        StagesAgree(w, c, t', policy, k + 1);
      }
    }
  }

  lemma VisitAgrees(w: World, ctx: Ctx, t: Tree, policy: Policy, m: Member)
    requires !StopsAt(w, ctx, policy, false)
    ensures VisitMember(w, ctx, t, policy, false, m) == VisitMember(w, ctx, t, policy, true, m)
  {
  }

  lemma AdoptBlocked(w: World, ctx: Ctx, child: Ctx, policy: Policy)
    requires Weighted(w, ctx) && Weighted(w, child) && Blocked(w, child, policy)
    ensures Blocked(w, Adopt(ctx, child), policy)
  {
    AdoptTakesOver(w, ctx, child);
  }

  lemma EnteredAgrees(w: World, ctx: Ctx, t: Tree, policy: Policy, m: Member)
    requires ctx.depth <= MAX_ARCHIVE_DEPTH && Weighted(w, ctx)
    ensures var fast, full := Entered(w, ctx, t, policy, false, m), Entered(w, ctx, t, policy, true, m);
            Agree(w, policy, fast.0, fast.1, full.0, full.1)
    decreases Left(ctx.depth), 0, 0
  {
    hide ScanFile;
    hide Adopt;
    hide Blocked;
    var file := w.entry(ctx.file, m.index).file;
    FileAgrees(w, file, ctx.depth + 1, t, policy);
    ScanFileWeighted(w, file, ctx.depth + 1, t, policy, false);
    ScanFileWeighted(w, file, ctx.depth + 1, t, policy, true);
    var fast, full := ScanFile(w, file, ctx.depth + 1, t, policy, false), ScanFile(w, file, ctx.depth + 1, t, policy, true);
    if Blocked(w, fast.0, policy) && Blocked(w, full.0, policy) {
      AdoptBlocked(w, ctx, fast.0, policy);
      AdoptBlocked(w, ctx, full.0, policy);
    }
  }

  /** Once a context is blocked it stays blocked to the end of its members, with early exit or without. */
  lemma MembersStayBlocked(w: World, ctx: Ctx, t: Tree, policy: Policy, deep: bool, i: nat)
    requires ctx.depth <= MAX_ARCHIVE_DEPTH && Weighted(w, ctx) && Blocked(w, ctx, policy)
    ensures Blocked(w, ScanMembers(w, ctx, t, policy, deep, i).0, policy)
  {
    ScanMembersGrows(w, ctx, t, policy, deep, i);
    StaysBlocked(w, ctx, ScanMembers(w, ctx, t, policy, deep, i).0, policy);
  }

  lemma {:induction false} MembersAgree(w: World, ctx: Ctx, t: Tree, policy: Policy, i: nat)
    requires ctx.depth <= MAX_ARCHIVE_DEPTH && Weighted(w, ctx)
    ensures var fast, full := ScanMembers(w, ctx, t, policy, false, i), ScanMembers(w, ctx, t, policy, true, i);
            Agree(w, policy, fast.0, fast.1, full.0, full.1)
    decreases Left(ctx.depth), 0, |ctx.members| - i
  {
    hide VisitMember;
    hide Entered;
    hide Blocked;
    hide Weighted;
    if i < |ctx.members| {
      if StopsAt(w, ctx, policy, false) {
        StopIsBlocked(w, ctx, policy);
        MembersStayBlocked(w, ctx, t, policy, false, i);
        MembersStayBlocked(w, ctx, t, policy, true, i);
      } else {
        var m := ctx.members[i];
        VisitAgrees(w, ctx, t, policy, m);
        ScanMembersStep(w, ctx, t, policy, false, i);
        ScanMembersStep(w, ctx, t, policy, true, i);
        VisitGrows(w, ctx, t, policy, false, m);
        var v := VisitMember(w, ctx, t, policy, false, m);
        if v.Skip? {
          MembersAgree(w, v.ctx, v.tree, policy, i + 1);
        } else if v.Enter? {
          EnteredAgrees(w, ctx, v.tree, policy, m);
          EnteredGrows(w, ctx, v.tree, policy, false, m);
          EnteredGrows(w, ctx, v.tree, policy, true, m);
          var fast, full := Entered(w, ctx, v.tree, policy, false, m), Entered(w, ctx, v.tree, policy, true, m);
          if fast.0 == full.0 && fast.1 == full.1 {
            MembersAgree(w, fast.0, fast.1, policy, i + 1);
          } else {
            MembersStayBlocked(w, fast.0, fast.1, policy, false, i + 1);
            MembersStayBlocked(w, full.0, full.1, policy, true, i + 1);
          }
        }
      }
    }
  }

  lemma FileAgrees(w: World, file: File, depth: nat, t: Tree, policy: Policy)
    ensures var fast, full := ScanFile(w, file, depth, t, policy, false), ScanFile(w, file, depth, t, policy, true);
            Agree(w, policy, fast.0, fast.1, full.0, full.1)
    decreases Left(depth), 1, 0
  {
    hide RunStages;
    hide ScanMembers;
    hide Blocked;
    var c0, t0 := NewCtx(file, depth), t.(scanned := t.scanned + 1);
    StagesAgree(w, c0, t0, policy, 0);
    RunStagesGrows(w, c0, t0, policy, false, 0);
    RunStagesGrows(w, c0, t0, policy, true, 0);
    var fast, full := RunStages(w, c0, t0, policy, false, 0), RunStages(w, c0, t0, policy, true, 0);
    if depth <= MAX_ARCHIVE_DEPTH {
      if fast.0 == full.0 && fast.1 == full.1 {
        MembersAgree(w, fast.0, fast.1, policy, 0);
      } else {
        MembersStayBlocked(w, fast.0, fast.1, policy, false, 0);
        MembersStayBlocked(w, full.0, full.1, policy, true, 0);
      }
    }
  }

  /** Two ways of scanning that stop in the same places. */
  ghost predicate StopAlike(w: World, a: Policy, deepA: bool, b: Policy, deepB: bool) {
    forall ctx: Ctx :: StopsAt(w, ctx, a, deepA) <==> StopsAt(w, ctx, b, deepB)
  }

  lemma StagesStep(w: World, ctx: Ctx, t: Tree, policy: Policy, deep: bool, k: nat)
    requires k < |w.stages|
    ensures var (c, t') := RunStage(w, ctx, t, w.stages[k]);
            var run := StageRun(t.now, w.stages[k]);
            var rest := RunStages(w, c, t', policy, deep, k + 1);
            RunStages(w, ctx, t, policy, deep, k) == if StopsAt(w, c, policy, deep) then (c, t', [run]) else (rest.0, rest.1, [run] + rest.2)
  {
    hide RunStage;
    hide StopsAt;
  }

  lemma Alike(w: World, ctx: Ctx, a: Policy, deepA: bool, b: Policy, deepB: bool)
    requires StopAlike(w, a, deepA, b, deepB)
    ensures StopsAt(w, ctx, a, deepA) == StopsAt(w, ctx, b, deepB)
  {
    hide StopsAt;
  }

  lemma {:induction false} StagesAlike(w: World, ctx: Ctx, t: Tree, a: Policy, deepA: bool, b: Policy, deepB: bool, k: nat)
    requires StopAlike(w, a, deepA, b, deepB)
    ensures RunStages(w, ctx, t, a, deepA, k) == RunStages(w, ctx, t, b, deepB, k)
    decreases |w.stages| - k
  {
    hide StopAlike;
    hide RunStage;
    hide StopsAt;
    if k < |w.stages| {
      hide RunStages;
      var next := RunStage(w, ctx, t, w.stages[k]);
      StagesStep(w, ctx, t, a, deepA, k);
      StagesStep(w, ctx, t, b, deepB, k);
      Alike(w, next.0, a, deepA, b, deepB);
      StagesAlike(w, next.0, next.1, a, deepA, b, deepB, k + 1);
    }
  }

  lemma VisitAlike(w: World, ctx: Ctx, t: Tree, a: Policy, deepA: bool, b: Policy, deepB: bool, m: Member)
    requires StopAlike(w, a, deepA, b, deepB)
    ensures VisitMember(w, ctx, t, a, deepA, m) == VisitMember(w, ctx, t, b, deepB, m)
  {
    Alike(w, ctx, a, deepA, b, deepB);
    hide StopAlike;
    hide StopsAt;
  }

  lemma EnteredAlike(w: World, ctx: Ctx, t: Tree, a: Policy, deepA: bool, b: Policy, deepB: bool, m: Member)
    requires StopAlike(w, a, deepA, b, deepB) && ctx.depth <= MAX_ARCHIVE_DEPTH
    ensures Entered(w, ctx, t, a, deepA, m) == Entered(w, ctx, t, b, deepB, m)
    ensures Entered(w, ctx, t, a, deepA, m).0.depth == ctx.depth && Entered(w, ctx, t, a, deepA, m).0.members == ctx.members
    decreases Left(ctx.depth), 0, 0
  {
    hide StopAlike;
    hide ScanFile;
    FileAlike(w, w.entry(ctx.file, m.index).file, ctx.depth + 1, t, a, deepA, b, deepB);
  }

  lemma {:induction false} MembersAlike(w: World, ctx: Ctx, t: Tree, a: Policy, deepA: bool, b: Policy, deepB: bool, i: nat)
    requires StopAlike(w, a, deepA, b, deepB) && ctx.depth <= MAX_ARCHIVE_DEPTH
    ensures ScanMembers(w, ctx, t, a, deepA, i) == ScanMembers(w, ctx, t, b, deepB, i)
    decreases Left(ctx.depth), 0, |ctx.members| - i
  {
    hide StopAlike;
    hide VisitMember;
    hide Entered;
    if i < |ctx.members| {
      hide ScanMembers;
      var m := ctx.members[i];
      ScanMembersStep(w, ctx, t, a, deepA, i);
      ScanMembersStep(w, ctx, t, b, deepB, i);
      VisitAlike(w, ctx, t, a, deepA, b, deepB, m);
      var v := VisitMember(w, ctx, t, a, deepA, m);
      if v.Skip? {
        MembersAlike(w, v.ctx, v.tree, a, deepA, b, deepB, i + 1);
      } else if v.Enter? {
        EnteredAlike(w, ctx, v.tree, a, deepA, b, deepB, m);
        var e := Entered(w, ctx, v.tree, a, deepA, m);
        MembersAlike(w, e.0, e.1, a, deepA, b, deepB, i + 1);
      }
    }
  }

  lemma FileStep(w: World, file: File, depth: nat, t: Tree, policy: Policy, deep: bool)
    ensures var r := RunStages(w, NewCtx(file, depth), t.(scanned := t.scanned + 1), policy, deep, 0);
            ScanFile(w, file, depth, t, policy, deep)
            == if r.0.members == [] || depth > MAX_ARCHIVE_DEPTH then (r.0, r.1, Trace(file, r.2, []))
               else var e := ScanMembers(w, r.0, r.1, policy, deep, 0); (e.0, e.1, Trace(file, r.2, e.2))
  {
    hide RunStages;
    hide ScanMembers;
  }

  lemma FileAlike(w: World, file: File, depth: nat, t: Tree, a: Policy, deepA: bool, b: Policy, deepB: bool)
    requires StopAlike(w, a, deepA, b, deepB)
    ensures ScanFile(w, file, depth, t, a, deepA) == ScanFile(w, file, depth, t, b, deepB)
    decreases Left(depth), 1, 0
  {
    hide StopAlike;
    hide RunStages;
    hide ScanMembers;
    hide ScanFile;
    var c0, t0 := NewCtx(file, depth), t.(scanned := t.scanned + 1);
    StagesAlike(w, c0, t0, a, deepA, b, deepB, 0);
    FileStep(w, file, depth, t, a, deepA);
    FileStep(w, file, depth, t, b, deepB);
    var r := RunStages(w, c0, t0, a, deepA, 0);
    if r.0.members != [] && depth <= MAX_ARCHIVE_DEPTH {
      MembersAlike(w, r.0, r.1, a, deepA, b, deepB, 0);
    }
  }

  /** Stopping early makes no difference to the verdict, wherever in the tree it happens. */
  lemma DeepHasTheVerdict(w: World, root: File, rootSize: nat, policy: Policy, deep: bool)
    ensures VerdictOn(w, ScanFile(w, root, 0, Start(rootSize), policy, deep).0, policy)
            == VerdictOn(w, ScanFile(w, root, 0, Start(rootSize), policy, true).0, policy)
  {
    hide ScanFile;
    FileAgrees(w, root, 0, Start(rootSize), policy);
  }

  /** For the same answers of the outside world the verdict is the same whether the scan is deep or not, and
      whether the tenant is in shadow mode or not, although some of these pipelines stop early, anywhere in the
      tree, and others always go on to the end. */
  lemma EarlyExitPreservesVerdict(w: World, root: File, rootSize: nat, policy: Policy, deep: bool, otherDeep: bool, shadow: bool)
    ensures var other := policy.(shadowMode := shadow);
            VerdictOn(w, ScanFile(w, root, 0, Start(rootSize), policy, deep).0, policy)
            == VerdictOn(w, ScanFile(w, root, 0, Start(rootSize), other, otherDeep).0, other)
  {
    hide ScanFile;
    var other := policy.(shadowMode := shadow);
    DeepHasTheVerdict(w, root, rootSize, policy, deep);
    DeepHasTheVerdict(w, root, rootSize, other, otherDeep);
    assert StopAlike(w, policy, true, other, true);
    FileAlike(w, root, 0, Start(rootSize), policy, true, other, true);
    ModeDoesNotJudge(w, ScanFile(w, root, 0, Start(rootSize), policy, true).0, policy, shadow);
    hide VerdictOn;
  }

  lemma ModeDoesNotJudge(w: World, ctx: Ctx, policy: Policy, shadow: bool)
    ensures VerdictOn(w, ctx, policy) == VerdictOn(w, ctx, policy.(shadowMode := shadow))
  {
  }

  // ----- bounds on the work -----

  predicate ValidWorld(w: World, file: File, index: nat) { ValidStream(w.entry(file, index).stream) }

  /** Entries are unpacked in chunks of at most the fixed size. */
  ghost predicate Chunked(w: World) {
    forall file, index :: ValidWorld(w, file, index)
  }

  /** The files scanned nest at most `levels` deep. */
  ghost predicate NestsWithin(tr: Trace, levels: nat)
    decreases levels
  {
    levels > 0 && AllNestWithin(tr.members, levels - 1)
  }

  ghost predicate AllNestWithin(members: seq<(nat, Trace)>, levels: nat)
    decreases levels, 0
  {
    forall k :: 0 <= k < |members| ==> levels > 0 && AllNestWithin(members[k].1.members, levels - 1)
  }

  /** From `a` to `b` the budget held, and no more files were scanned than `extra` and the entries
      counted in between. */
  ghost predicate Bounded(a: Tree, b: Tree, extra: nat) {
    && Within(b.ledger)
    && a.ledger.budget.entries <= b.ledger.budget.entries
    && b.scanned + a.ledger.budget.entries <= a.scanned + extra + b.ledger.budget.entries
  }

  lemma {:induction false} StagesBounded(w: World, ctx: Ctx, t: Tree, policy: Policy, deep: bool, k: nat)
    requires Within(t.ledger)
    ensures var r := RunStages(w, ctx, t, policy, deep, k);
            && Within(r.1.ledger) && r.1.scanned == t.scanned
            && t.ledger.budget.entries + |r.0.members| <= r.1.ledger.budget.entries + |ctx.members|
            && t.ledger.budget.entries <= r.1.ledger.budget.entries
    decreases |w.stages| - k
  {
    hide Within;
    hide RunStage;
    if k < |w.stages| {
      StageBounded(w, ctx, t, w.stages[k]);
      var (c, t') := RunStage(w, ctx, t, w.stages[k]);
      StagesBounded(w, c, t', policy, deep, k + 1);
    }
  }

  lemma StageBounded(w: World, ctx: Ctx, t: Tree, stage: string)
    requires Within(t.ledger)
    ensures var (c, t') := RunStage(w, ctx, t, stage);
            && Within(t'.ledger) && t'.scanned == t.scanned
            && t.ledger.budget.entries + |c.members| <= t'.ledger.budget.entries + |ctx.members|
            && t.ledger.budget.entries <= t'.ledger.budget.entries
  {
    hide Within;
    var e := w.effect(t.now, stage, ctx.file);
    FinishedGrows(w, Looked(w, ctx, t.ledger, stage, e.result.Done? || e.partial).0, stage, e);
    AnalyseBounded(w, ctx, t.ledger, stage);
  }

  lemma AnalyseBounded(w: World, ctx: Ctx, l: Ledger, stage: string)
    requires Within(l)
    ensures var (c, l') := Analyse(w, ctx, l, stage);
            && Within(l') && l.budget.entries <= l'.budget.entries
            && l.budget.entries + |c.members| <= l'.budget.entries + |ctx.members|
  {
    if w.opening(ctx.file).Opens? {
      var files := Files(w.opening(ctx.file).infos);
      InspectStaysWithin(l, files, ctx.depth, ctx.kind.Zip?);
      DecideSelects(files, l.budget, ctx.depth, ctx.kind.Zip?);
    }
  }

  lemma VisitBounded(w: World, ctx: Ctx, t: Tree, policy: Policy, deep: bool, m: Member)
    requires Chunked(w) && Within(t.ledger)
    ensures var t' := VisitMember(w, ctx, t, policy, deep, m).tree;
            && Within(t'.ledger) && t'.scanned == t.scanned
            && t'.ledger.budget.entries == t.ledger.budget.entries
  {
    hide Within;
    assert ValidWorld(w, ctx.file, m.index);
    ExtractStaysWithin(t.ledger, m.info.size, w.entry(ctx.file, m.index).stream);
  }

  lemma NestJoin(index: nat, first: Trace, rest: seq<(nat, Trace)>, levels: nat)
    requires NestsWithin(first, levels) && AllNestWithin(rest, levels)
    ensures AllNestWithin([(index, first)] + rest, levels)
  {
    var all := [(index, first)] + rest;
    forall k | 0 <= k < |all|
      ensures levels > 0 && AllNestWithin(all[k].1.members, levels - 1)
    {
      if k > 0 { assert all[k] == rest[k - 1]; }
    }
  }

  lemma {:induction false} MembersBounded(w: World, ctx: Ctx, t: Tree, policy: Policy, deep: bool, i: nat)
    requires Chunked(w) && Within(t.ledger) && ctx.depth <= MAX_ARCHIVE_DEPTH
    ensures var r := ScanMembers(w, ctx, t, policy, deep, i);
            && Bounded(t, r.1, if i < |ctx.members| then |ctx.members| - i else 0)
            && AllNestWithin(r.2, Left(ctx.depth))
    decreases Left(ctx.depth), 0, |ctx.members| - i
  {
    hide VisitMember;
    hide Entered;
    hide Within;
    hide NestsWithin;
    hide Chunked;
    if i < |ctx.members| {
      var m := ctx.members[i];
      ScanMembersStep(w, ctx, t, policy, deep, i);
      VisitBounded(w, ctx, t, policy, deep, m);
      var v := VisitMember(w, ctx, t, policy, deep, m);
      if v.Skip? {
        MembersBounded(w, v.ctx, v.tree, policy, deep, i + 1);
      } else if v.Enter? {
        EnteredBounded(w, ctx, v.tree, policy, deep, m);
        var e := Entered(w, ctx, v.tree, policy, deep, m);
        MembersBounded(w, e.0, e.1, policy, deep, i + 1);
        var rest := ScanMembers(w, e.0, e.1, policy, deep, i + 1).2;
        NestJoin(m.index, e.2, rest, Left(ctx.depth));
      }
    }
  }

  lemma EnteredBounded(w: World, ctx: Ctx, t: Tree, policy: Policy, deep: bool, m: Member)
    requires Chunked(w) && Within(t.ledger) && ctx.depth <= MAX_ARCHIVE_DEPTH
    ensures var e := Entered(w, ctx, t, policy, deep, m);
            && Bounded(t, e.1, 1) && NestsWithin(e.2, Left(ctx.depth))
            && e.0.members == ctx.members && e.0.depth == ctx.depth
    decreases Left(ctx.depth), 0, 0
  {
    hide ScanFile;
    hide Within;
    FileBounded(w, w.entry(ctx.file, m.index).file, ctx.depth + 1, t, policy, deep);
  }

  lemma FileBounded(w: World, file: File, depth: nat, t: Tree, policy: Policy, deep: bool)
    requires Chunked(w) && Within(t.ledger)
    ensures var r := ScanFile(w, file, depth, t, policy, deep);
            Bounded(t, r.1, 1) && NestsWithin(r.2, Left(depth) + 1)
    decreases Left(depth), 1, 0
  {
    hide RunStages;
    hide ScanMembers;
    hide Within;
    var c0, t0 := NewCtx(file, depth), t.(scanned := t.scanned + 1);
    StagesBounded(w, c0, t0, policy, deep, 0);
    var r := RunStages(w, c0, t0, policy, deep, 0);
    if r.0.members != [] && depth <= MAX_ARCHIVE_DEPTH {
      MembersBounded(w, r.0, r.1, policy, deep, 0);
    }
  }

  /** On any tree of archives, one that holds itself included, the scan ends; it goes at most one level
      below the depth limit, runs the stages on at most one file more than the limit of entries, and
      keeps within the one budget. */
  lemma ScanIsBounded(w: World, root: File, rootSize: nat, policy: Policy, deep: bool)
    requires Chunked(w)
    ensures var r := ScanFile(w, root, 0, Start(rootSize), policy, deep);
            && r.1.scanned <= 1 + MAX_ARCHIVE_ENTRIES
            && NestsWithin(r.2, MAX_ARCHIVE_DEPTH + 2)
            && Within(r.1.ledger)
  {
    hide ScanFile;
    FileBounded(w, root, 0, Start(rootSize), policy, deep);
  }

  // ----- what the cache keeps of a scan -----

  /** The facts of any scan may be split over the cache: put together again they give every tenant's
      policy the verdict and score of the scan, request-derived findings aside. */
  lemma CachedScanAgrees(w: World, root: File, rootSize: nat, policy: Policy, deep: bool, other: Policy)
    ensures var facts := FactsOf(ScanFile(w, root, 0, Start(rootSize), policy, deep).0);
            VerdictOf(Merge(StructuralHalf(facts), AvHalf(facts)), other, w.family)
            == VerdictOf(Shareable(facts), other, w.family)
  {
    hide ScanFile;
    var c := ScanFile(w, root, 0, Start(rootSize), policy, deep).0;
    ScanFileWeighted(w, root, 0, Start(rootSize), policy, deep);
    CacheAgreesWithFullScan(FactsOf(c), other, w.family);
  }
}
