/** Nothing a stage reports is lost on the way to the verdict, and nothing is made up. */
module PipelineReports {
  import opened Scoring
  import opened Archive
  import opened Pipeline
  import opened PipelineProofs

  // ----- marks -----

  /** What a context bears: codes of findings, stages that failed, what could not be read; and, since a code is only
      noted for the first stage that gives it, codes with the stage they are noted for. */
  datatype Mark = Found(code: string) | Failed(stage: string) | Locked | Unread | Named(giver: string, code: string)

  ghost predicate Bears(ctx: Ctx, mark: Mark) {
    match mark
    case Found(code) => HasCode(ctx.findings, code)
    case Failed(stage) => stage in ctx.failed
    case Locked => ctx.encrypted
    case Unread => !ctx.supported
    case Named(giver, code) => exists i :: 0 <= i < |ctx.findings| && ctx.findings[i].stage == giver && ctx.findings[i].code == code
  }

  /** What a run of a stage gives: its codes, and its flags; when it failed, that it failed and how. */
  predicate GivenBy(stage: string, e: Effect, mark: Mark)
    decreases mark.Named?
  {
    match mark
    case Found(code) =>
      code in e.codes || (e.result.Crashed? && code == "STAGE_FAILED") || (e.result.TimedOut? && code == "STAGE_TIMEOUT")
    case Failed(s) => s == stage && !e.result.Done?
    case Locked => e.encrypted
    case Unread => e.unsupported
    case Named(giver, code) => giver == stage && GivenBy(stage, e, Found(code))
  }

  predicate Gives(w: World, file: File, run: StageRun, mark: Mark) {
    GivenBy(run.stage, w.effect(run.at, run.stage, file), mark)
  }

  /** What only an archive can give. */
  predicate OfArchives(mark: Mark)
    decreases mark.Named?
  {
    match mark
    case Found(code) => code in {
      "ARCHIVE_INCOMPLETE", "ARCHIVE_MALFORMED", "DOCX_MALFORMED", "ARCHIVE_PATH_TRAVERSAL", "ARCHIVE_SYMLINK",
      "ARCHIVE_EXECUTABLE", "ARCHIVE_ENCRYPTED", "ARCHIVE_BOMB"}
    case Failed(_) => false
    case Locked => true
    case Unread => true
    case Named(giver, code) => (giver == "structure" || giver == "archive") && OfArchives(Found(code))
  }

  /** What opening the file as an archive shows, whatever is left of the budget. */
  ghost predicate ArchiveShows(w: World, file: File, mark: Mark) {
    match w.opening(file)
    case TooManyEntries => mark == Found("ARCHIVE_INCOMPLETE") || mark == Unread
    case Broken => mark == Found(if w.kind(file).Zip? then "ARCHIVE_MALFORMED" else "DOCX_MALFORMED") || mark == Unread
    case Opens(infos) =>
      || (mark.Found? && SomeDeserves(Files(infos), mark.code))
      || (mark.Locked? && SomeDeserves(Files(infos), "ARCHIVE_ENCRYPTED"))
  }

  // ----- one stage -----

  lemma AddBears(w: World, ctx: Ctx, stage: string, code: string, mark: Mark)
    ensures Bears(ctx, mark) || mark == Found(code) ==> Bears(Add(w, ctx, stage, code), mark)
    ensures Bears(Add(w, ctx, stage, code), mark) ==> Bears(ctx, mark) || mark == Found(code) || mark == Named(stage, code)
  {
    var fs := Add(w, ctx, stage, code).findings;
    AddGrows(w, ctx, stage, code);
    if mark.Found? && HasCode(ctx.findings, mark.code) {
      PrefixHasCode(ctx.findings, fs, mark.code);
    }
    if mark.Found? && HasCode(fs, mark.code) {
      var i :| 0 <= i < |fs| && fs[i].code == mark.code;
      assert i < |ctx.findings| ==> ctx.findings[i].code == mark.code;
    }
    if mark.Named? && Bears(Add(w, ctx, stage, code), mark) {
      var i :| 0 <= i < |fs| && fs[i].stage == mark.giver && fs[i].code == mark.code;
      assert i < |ctx.findings| ==> ctx.findings[i] == fs[i];
    }
    if mark.Named? && Bears(ctx, mark) {
      var i :| 0 <= i < |ctx.findings| && ctx.findings[i].stage == mark.giver && ctx.findings[i].code == mark.code;
      assert fs[i] == ctx.findings[i];
    }
  }

  lemma {:induction false} AddAllBears(w: World, ctx: Ctx, stage: string, codes: seq<string>, mark: Mark)
    ensures Bears(ctx, mark) || (mark.Found? && mark.code in codes) ==> Bears(AddAll(w, ctx, stage, codes), mark)
    ensures Bears(AddAll(w, ctx, stage, codes), mark) ==>
            Bears(ctx, mark) || (mark.Found? && mark.code in codes) || (mark.Named? && mark.giver == stage && mark.code in codes)
  {
    hide Add;
    hide Bears;
    if codes != [] {
      var n := |codes| - 1;
      AddAllBears(w, ctx, stage, codes[..n], mark);
      AddBears(w, AddAll(w, ctx, stage, codes[..n]), stage, codes[n], mark);
      assert codes == codes[..n] + [codes[n]];
    }
  }

  /** After a stage the context bears what it bore and what the stage gives, and nothing else. */
  lemma FinishedBears(w: World, ctx: Ctx, stage: string, e: Effect, mark: Mark)
    ensures Bears(ctx, mark) || (!mark.Named? && GivenBy(stage, e, mark)) ==> Bears(Finished(w, ctx, stage, e), mark)
    ensures Bears(Finished(w, ctx, stage, e), mark) ==> Bears(ctx, mark) || GivenBy(stage, e, mark)
  {
    var widened := ctx.(encrypted := ctx.encrypted || e.encrypted, supported := ctx.supported && !e.unsupported);
    var c := AddAll(w, widened, stage, e.codes);
    var failed := c.(failed := c.failed + {stage});
    AddAllBears(w, widened, stage, e.codes, mark);
    AddBears(w, failed, stage, "STAGE_FAILED", mark);
    AddBears(w, failed, stage, "STAGE_TIMEOUT", mark);
    hide Add;
    hide AddAll;
    hide HasCode;
  }

  lemma ReportedBears(w: World, ctx: Ctx, stage: string, inventory: Inventory, mark: Mark)
    ensures var given := || Bears(ctx, mark) || (mark.Found? && mark.code in inventory.problems)
                         || (mark.Locked? && inventory.encrypted)
                         || (inventory.incomplete != [] && (mark == Found("ARCHIVE_INCOMPLETE") || mark == Unread));
            && (given ==> Bears(Reported(w, ctx, stage, inventory), mark))
            && (Bears(Reported(w, ctx, stage, inventory), mark) ==>
                  || given
                  || (mark.Named? && mark.giver == stage && (mark.code in inventory.problems || mark.code == "ARCHIVE_INCOMPLETE")))
  {
    var named := AddAll(w, ctx, stage, inventory.problems);
    var marked := if inventory.encrypted then named.(encrypted := true) else named;
    AddAllBears(w, ctx, stage, inventory.problems, mark);
    AddBears(w, marked.(supported := false), stage, "ARCHIVE_INCOMPLETE", mark);
    hide Add;
    hide AddAll;
    hide HasCode;
  }

  lemma IncompleteBears(w: World, ctx: Ctx, stage: string, mark: Mark)
    ensures Bears(ctx, mark) || mark == Found("ARCHIVE_INCOMPLETE") || mark == Unread ==> Bears(MarkIncomplete(w, ctx, stage), mark)
    ensures Bears(MarkIncomplete(w, ctx, stage), mark) ==>
            Bears(ctx, mark) || mark == Found("ARCHIVE_INCOMPLETE") || mark == Unread || mark == Named(stage, "ARCHIVE_INCOMPLETE")
  {
    AddBears(w, ctx.(supported := false), stage, "ARCHIVE_INCOMPLETE", mark);
    hide Add;
    hide HasCode;
  }

  lemma SameMembersBears(ctx: Ctx, members: seq<Member>, mark: Mark)
    ensures Bears(ctx.(members := members), mark) == Bears(ctx, mark)
  {
  }

  lemma AnalyseBears(w: World, ctx: Ctx, l: Ledger, stage: string, mark: Mark)
    requires stage == "structure"
    ensures var c := Analyse(w, ctx, l, stage).0;
            && (Bears(ctx, mark) ==> Bears(c, mark))
            && (Bears(c, mark) ==> Bears(ctx, mark) || OfArchives(mark))
            && (ctx.kind == w.kind(ctx.file) && ArchiveShows(w, ctx.file, mark) ==> Bears(c, mark))
  {
    match w.opening(ctx.file)
    case TooManyEntries => IncompleteBears(w, ctx, stage, mark);
    case Broken =>
      AddBears(w, ctx.(supported := false), stage, if ctx.kind.Zip? then "ARCHIVE_MALFORMED" else "DOCX_MALFORMED", mark);
      hide Add;
      hide HasCode;
    case Opens(infos) => OpensBears(w, ctx, l, stage, infos, mark);
  }

  lemma ProblemsAreOfArchives(files: seq<Info>, bomb: bool, code: string)
    requires code in AllProblems(files, bomb)
    ensures OfArchives(Found(code))
  {
    ProblemsExactly(files, bomb, code);
    hide AllProblems;
    hide EscapesRoot;
  }

  lemma OpensInto(w: World, ctx: Ctx, l: Ledger, stage: string, infos: seq<Info>)
    requires w.opening(ctx.file) == Opens(infos)
    ensures var inventory := AfterInspect(l, Files(infos), ctx.depth, ctx.kind.Zip?).0;
            && Analyse(w, ctx, l, stage).0 == Reported(w, ctx, stage, inventory).(members := inventory.members)
            && inventory.encrypted == AnyEncrypted(Files(infos))
            && inventory.problems == AllProblems(Files(infos), inventory.bomb)
  {
    hide Reported;
    hide Decide;
    hide AllProblems;
    hide AnyEncrypted;
  }

  lemma OpensBears(w: World, ctx: Ctx, l: Ledger, stage: string, infos: seq<Info>, mark: Mark)
    requires w.opening(ctx.file) == Opens(infos) && stage == "structure"
    ensures var c := Analyse(w, ctx, l, stage).0;
            && (Bears(ctx, mark) ==> Bears(c, mark))
            && (Bears(c, mark) ==> Bears(ctx, mark) || OfArchives(mark))
            && (ArchiveShows(w, ctx.file, mark) ==> Bears(c, mark))
  {
    hide AfterInspect;
    hide Reported;
    hide Analyse;
    hide Bears;
    hide AllProblems;
    hide AnyEncrypted;
    hide SomeDeserves;
    var files := Files(infos);
    var inventory := AfterInspect(l, files, ctx.depth, ctx.kind.Zip?).0;
    OpensInto(w, ctx, l, stage, infos);
    ReportedBears(w, ctx, stage, inventory, mark);
    SameMembersBears(Reported(w, ctx, stage, inventory), inventory.members, mark);
    ProblemsExactly(files, inventory.bomb, "ARCHIVE_ENCRYPTED");
    if mark.Found? || mark.Named? {
      ProblemsExactly(files, inventory.bomb, mark.code);
      if mark.code in inventory.problems { ProblemsAreOfArchives(files, inventory.bomb, mark.code); }
    }
  }

  predicate Reached(w: World, file: File, run: StageRun, stage: string) {
    run.stage == stage
    && (w.effect(run.at, run.stage, file).result.Done? || w.effect(run.at, run.stage, file).partial)
  }

  /** A context never takes the file for an archive that it is not. */
  predicate TrueKind(w: World, ctx: Ctx) { ctx.kind.Plain? || ctx.kind == w.kind(ctx.file) }

  lemma StageBears(w: World, ctx: Ctx, t: Tree, stage: string, mark: Mark)
    requires TrueKind(w, ctx)
    ensures var c := RunStage(w, ctx, t, stage).0;
            var run := StageRun(t.now, stage);
            && TrueKind(w, c)
            && (Bears(ctx, mark) || (!mark.Named? && Gives(w, ctx.file, run, mark)) ==> Bears(c, mark))
            && (Bears(c, mark) ==> Bears(ctx, mark) || Gives(w, ctx.file, run, mark) || (OfArchives(mark) && !w.kind(ctx.file).Plain?))
            && (Reached(w, ctx.file, run, "filetype") ==> c.kind == w.kind(ctx.file))
            && (!w.kind(ctx.file).Plain? && ctx.kind == w.kind(ctx.file) ==> c.kind == w.kind(ctx.file))
            && (!ctx.kind.Plain? && Reached(w, ctx.file, run, "structure") && ArchiveShows(w, ctx.file, mark) ==> Bears(c, mark))
            && (c.members != [] ==> ctx.members != [] || !w.kind(ctx.file).Plain?)
  {
    hide Finished;
    hide Looked;
    hide Bears;
    hide GivenBy;
    hide OfArchives;
    hide ArchiveShows;
    var e := w.effect(t.now, stage, ctx.file);
    var looked := Looked(w, ctx, t.ledger, stage, e.result.Done? || e.partial).0;
    LookedBears(w, ctx, t.ledger, stage, e.result.Done? || e.partial, mark);
    FinishedBears(w, looked, stage, e, mark);
    FinishedGrows(w, looked, stage, e);
  }

  lemma LookedBears(w: World, ctx: Ctx, l: Ledger, stage: string, reached: bool, mark: Mark)
    requires TrueKind(w, ctx)
    ensures var c := Looked(w, ctx, l, stage, reached).0;
            && TrueKind(w, c)
            && (Bears(ctx, mark) ==> Bears(c, mark))
            && (Bears(c, mark) ==> Bears(ctx, mark) || (OfArchives(mark) && !w.kind(ctx.file).Plain?))
            && (reached && stage == "filetype" ==> c.kind == w.kind(ctx.file))
            && (!w.kind(ctx.file).Plain? && ctx.kind == w.kind(ctx.file) ==> c.kind == w.kind(ctx.file))
            && (!ctx.kind.Plain? && reached && stage == "structure" && ArchiveShows(w, ctx.file, mark) ==> Bears(c, mark))
            && (c.members != [] ==> ctx.members != [] || !w.kind(ctx.file).Plain?)
  {
    hide Analyse;
    hide Grows;
    hide ArchiveShows;
    hide OfArchives;
    if stage == "structure" {
      AnalyseBears(w, ctx, l, stage, mark);
      AnalyseGrows(w, ctx, l, stage);
    }
    assert Bears(ctx.(kind := w.kind(ctx.file)), mark) == Bears(ctx, mark);
    hide Bears;
  }

  // ----- all stages on one file -----

  ghost predicate Among(w: World, file: File, runs: seq<StageRun>, mark: Mark) {
    exists k :: 0 <= k < |runs| && Gives(w, file, runs[k], mark)
  }

  ghost predicate SomeReached(w: World, file: File, runs: seq<StageRun>, stage: string) {
    exists k :: 0 <= k < |runs| && Reached(w, file, runs[k], stage)
  }

  /** The file was recognised as an archive, and later its structure was looked at. */
  ghost predicate LookedInto(w: World, file: File, runs: seq<StageRun>) {
    !w.kind(file).Plain?
    && exists i :: 0 <= i < |runs| && Reached(w, file, runs[i], "filetype") && SomeReached(w, file, runs[i + 1..], "structure")
  }

  lemma AmongFirst(w: World, file: File, run: StageRun, runs: seq<StageRun>, mark: Mark)
    ensures Among(w, file, [run] + runs, mark) <==> Gives(w, file, run, mark) || Among(w, file, runs, mark)
  {
    hide Gives;
    var all := [run] + runs;
    if Among(w, file, runs, mark) {
      var k :| 0 <= k < |runs| && Gives(w, file, runs[k], mark);
      assert all[k + 1] == runs[k];
    }
    if Gives(w, file, run, mark) {
      assert all[0] == run;
    }
  }

  lemma ReachedFirst(w: World, file: File, run: StageRun, runs: seq<StageRun>)
    ensures SomeReached(w, file, [run] + runs, "structure") ==> Reached(w, file, run, "structure") || SomeReached(w, file, runs, "structure")
    ensures LookedInto(w, file, [run] + runs) ==>
            && !w.kind(file).Plain?
            && ((Reached(w, file, run, "filetype") && SomeReached(w, file, runs, "structure")) || LookedInto(w, file, runs))
  {
    hide Reached;
    var all := [run] + runs;
    if LookedInto(w, file, all) {
      var i :| 0 <= i < |all| && Reached(w, file, all[i], "filetype") && SomeReached(w, file, all[i + 1..], "structure");
      if i == 0 {
        assert all[1..] == runs;
      } else {
        assert all[i + 1..] == runs[i..] && all[i] == runs[i - 1];
      }
    }
  }

  /** What the archive shows is looked at in these runs, from a context as it is. */
  ghost predicate LooksFrom(w: World, ctx: Ctx, runs: seq<StageRun>) {
    || LookedInto(w, ctx.file, runs)
    || (!w.kind(ctx.file).Plain? && ctx.kind == w.kind(ctx.file) && SomeReached(w, ctx.file, runs, "structure"))
  }

  /** After the stages the context bears what it bore and what the runs give; anything else only an archive gives. */
  lemma {:induction false} StagesBear(w: World, ctx: Ctx, t: Tree, policy: Policy, deep: bool, k: nat, mark: Mark)
    requires TrueKind(w, ctx)
    ensures var r := RunStages(w, ctx, t, policy, deep, k);
            && (Bears(ctx, mark) || (!mark.Named? && Among(w, ctx.file, r.2, mark)) ==> Bears(r.0, mark))
            && (Bears(r.0, mark) ==> Bears(ctx, mark) || Among(w, ctx.file, r.2, mark) || (OfArchives(mark) && !w.kind(ctx.file).Plain?))
            && (LooksFrom(w, ctx, r.2) && ArchiveShows(w, ctx.file, mark) ==> Bears(r.0, mark))
            && (r.0.members != [] ==> ctx.members != [] || !w.kind(ctx.file).Plain?)
    decreases |w.stages| - k
  {
    hide RunStage;
    hide StopsAt;
    hide Bears;
    hide Gives;
    hide Among;
    hide Reached;
    hide SomeReached;
    hide LookedInto;
    hide ArchiveShows;
    hide OfArchives;
    if k >= |w.stages| {
      NoRuns(w, ctx.file, mark);
    } else {
      var run := StageRun(t.now, w.stages[k]);
      var (c, t') := RunStage(w, ctx, t, w.stages[k]);
      var rest := RunStages(w, c, t', policy, deep, k + 1);
      StagesStep(w, ctx, t, policy, deep, k);
      StageBears(w, ctx, t, w.stages[k], mark);
      hide RunStages;
      NoRuns(w, ctx.file, mark);
      AmongFirst(w, ctx.file, run, [], mark);
      ReachedFirst(w, ctx.file, run, []);
      assert [run] + [] == [run];
      if !StopsAt(w, c, policy, deep) {
        StagesBear(w, c, t', policy, deep, k + 1, mark);
        AmongFirst(w, ctx.file, run, rest.2, mark);
        ReachedFirst(w, ctx.file, run, rest.2);
      }
    }
  }

  lemma NoRuns(w: World, file: File, mark: Mark)
    ensures !Among(w, file, [], mark) && !SomeReached(w, file, [], "structure") && !LookedInto(w, file, [])
  {
  }

  // ----- a file and all that is in it -----

  lemma AdoptBears(ctx: Ctx, child: Ctx, mark: Mark)
    ensures Bears(ctx, mark) || (!mark.Named? && Bears(child, mark)) ==> Bears(Adopt(ctx, child), mark)
    ensures Bears(Adopt(ctx, child), mark) ==> Bears(ctx, mark) || Bears(child, mark)
  {
    if mark.Found? {
      AdoptHasCode(ctx.findings, child.findings, mark.code);
      hide HasCode;
    }
    if mark.Named? {
      var fs := AdoptFindings(ctx.findings, child.findings);
      AdoptNotes(ctx.findings, child.findings);
      hide AdoptFindings;
      if Bears(ctx, mark) {
        var i :| 0 <= i < |ctx.findings| && ctx.findings[i].stage == mark.giver && ctx.findings[i].code == mark.code;
        assert fs[i] == ctx.findings[i];
      }
      if Bears(Adopt(ctx, child), mark) {
        var i :| 0 <= i < |fs| && fs[i].stage == mark.giver && fs[i].code == mark.code;
        assert fs[i] in fs;
      }
    }
  }

  lemma {:induction false} AdoptNotes(own: seq<Finding>, child: seq<Finding>)
    ensures own <= AdoptFindings(own, child)
    ensures forall f :: f in AdoptFindings(own, child) ==> f in own || f in child
  {
    if child != [] {
      AdoptNotes(own, child[..|child| - 1]);
      hide HasCode;
    }
  }

  lemma {:induction false} AdoptHasCode(own: seq<Finding>, child: seq<Finding>, code: string)
    ensures HasCode(AdoptFindings(own, child), code) <==> HasCode(own, code) || HasCode(child, code)
  {
    if child == [] {
      assert !HasCode(child, code);
    } else {
      var n := |child| - 1;
      var fs := AdoptFindings(own, child[..n]);
      AdoptHasCode(own, child[..n], code);
      OneMoreFinding(child[..n], child[n], code);
      OneMoreFinding(fs, child[n], code);
      assert child[..n] + [child[n]] == child;
      hide HasCode;
    }
  }

  lemma OneMoreFinding(fs: seq<Finding>, f: Finding, code: string)
    ensures HasCode(fs + [f], code) <==> HasCode(fs, code) || f.code == code
  {
    var more := fs + [f];
    if HasCode(fs, code) {
      var i :| 0 <= i < |fs| && fs[i].code == code;
      assert more[i] == fs[i];
    }
    if HasCode(more, code) {
      var i :| 0 <= i < |more| && more[i].code == code;
      assert i < |fs| ==> fs[i].code == code;
    }
    assert more[|fs|] == f;
  }

  /** Some run on a file visited gives the mark, or an archive looked into shows it. */
  ghost predicate GivenIn(w: World, tr: Trace, mark: Mark) {
    || Among(w, tr.file, tr.runs, mark)
    || (LookedInto(w, tr.file, tr.runs) && ArchiveShows(w, tr.file, mark))
    || exists k :: 0 <= k < |tr.members| && GivenIn(w, tr.members[k].1, mark)
  }

  /** Where a mark can come from: a run on a file visited, or an archive visited. */
  ghost predicate ComesFrom(w: World, tr: Trace, mark: Mark) {
    || Among(w, tr.file, tr.runs, mark)
    || (OfArchives(mark) && !w.kind(tr.file).Plain?)
    || exists k :: 0 <= k < |tr.members| && ComesFrom(w, tr.members[k].1, mark)
  }

  ghost predicate GivenAmong(w: World, members: seq<(nat, Trace)>, mark: Mark) {
    exists k :: 0 <= k < |members| && GivenIn(w, members[k].1, mark)
  }

  ghost predicate ComesFromAmong(w: World, members: seq<(nat, Trace)>, mark: Mark) {
    exists k :: 0 <= k < |members| && ComesFrom(w, members[k].1, mark)
  }

  lemma FirstMember(w: World, index: nat, tr: Trace, rest: seq<(nat, Trace)>, mark: Mark)
    ensures GivenAmong(w, [(index, tr)] + rest, mark) <==> GivenIn(w, tr, mark) || GivenAmong(w, rest, mark)
    ensures ComesFromAmong(w, [(index, tr)] + rest, mark) <==> ComesFrom(w, tr, mark) || ComesFromAmong(w, rest, mark)
  {
    hide GivenIn;
    hide ComesFrom;
    var all := [(index, tr)] + rest;
    assert all[0].1 == tr;
    assert forall k :: 0 <= k < |rest| ==> all[k + 1] == rest[k];
    assert forall k :: 0 < k < |all| ==> all[k] == rest[k - 1];
  }

  lemma NoMembers(w: World, mark: Mark)
    ensures !GivenAmong(w, [], mark) && !ComesFromAmong(w, [], mark)
  {
  }

  lemma GivenInExactly(w: World, tr: Trace, mark: Mark)
    ensures GivenIn(w, tr, mark) <==>
            || Among(w, tr.file, tr.runs, mark) || (LookedInto(w, tr.file, tr.runs) && ArchiveShows(w, tr.file, mark))
            || GivenAmong(w, tr.members, mark)
    ensures ComesFrom(w, tr, mark) <==>
            || Among(w, tr.file, tr.runs, mark) || (OfArchives(mark) && !w.kind(tr.file).Plain?)
            || ComesFromAmong(w, tr.members, mark)
  {
    hide Among;
    hide LookedInto;
    hide ArchiveShows;
    hide OfArchives;
  }

  lemma VisitBears(w: World, ctx: Ctx, t: Tree, policy: Policy, deep: bool, m: Member, mark: Mark)
    ensures var v := VisitMember(w, ctx, t, policy, deep, m);
            !v.Enter? ==> && (Bears(ctx, mark) ==> Bears(v.ctx, mark))
                          && (Bears(v.ctx, mark) ==> Bears(ctx, mark) || OfArchives(mark))
  {
    IncompleteBears(w, ctx, "archive", mark);
    AddBears(w, ctx.(supported := false), "archive", "ARCHIVE_MALFORMED", mark);
    hide Add;
    hide MarkIncomplete;
    hide StopsAt;
    hide HasCode;
    hide AfterExtract;
  }

  lemma {:induction false} MembersBear(w: World, ctx: Ctx, t: Tree, policy: Policy, deep: bool, i: nat, mark: Mark)
    requires ctx.depth <= MAX_ARCHIVE_DEPTH
    ensures var r := ScanMembers(w, ctx, t, policy, deep, i);
            && (Bears(ctx, mark) || (!mark.Named? && GivenAmong(w, r.2, mark)) ==> Bears(r.0, mark))
            && (Bears(r.0, mark) ==> Bears(ctx, mark) || ComesFromAmong(w, r.2, mark) || OfArchives(mark))
    decreases Left(ctx.depth), 0, |ctx.members| - i
  {
    hide VisitMember;
    hide Entered;
    hide Bears;
    hide GivenAmong;
    hide ComesFromAmong;
    hide OfArchives;
    NoMembers(w, mark);
    if i < |ctx.members| {
      hide ScanMembers;
      var m := ctx.members[i];
      ScanMembersStep(w, ctx, t, policy, deep, i);
      VisitBears(w, ctx, t, policy, deep, m, mark);
      var v := VisitMember(w, ctx, t, policy, deep, m);
      if v.Skip? {
        MembersBear(w, v.ctx, v.tree, policy, deep, i + 1, mark);
      } else if v.Enter? {
        EnteredBears(w, ctx, v.tree, policy, deep, m, mark);
        var e := Entered(w, ctx, v.tree, policy, deep, m);
        MembersBear(w, e.0, e.1, policy, deep, i + 1, mark);
        FirstMember(w, m.index, e.2, ScanMembers(w, e.0, e.1, policy, deep, i + 1).2, mark);
      }
    }
  }

  lemma EnteredBears(w: World, ctx: Ctx, t: Tree, policy: Policy, deep: bool, m: Member, mark: Mark)
    requires ctx.depth <= MAX_ARCHIVE_DEPTH
    ensures var e := Entered(w, ctx, t, policy, deep, m);
            && (Bears(ctx, mark) || (!mark.Named? && GivenIn(w, e.2, mark)) ==> Bears(e.0, mark))
            && (Bears(e.0, mark) ==> Bears(ctx, mark) || ComesFrom(w, e.2, mark))
            && e.0.members == ctx.members && e.0.depth == ctx.depth
    decreases Left(ctx.depth), 0, 0
  {
    hide ScanFile;
    hide Bears;
    hide GivenIn;
    hide ComesFrom;
    var file := w.entry(ctx.file, m.index).file;
    FileBears(w, file, ctx.depth + 1, t, policy, deep, mark);
    AdoptBears(ctx, ScanFile(w, file, ctx.depth + 1, t, policy, deep).0, mark);
  }

  lemma NewBearsNothing(w: World, file: File, depth: nat, mark: Mark)
    ensures !Bears(NewCtx(file, depth), mark) && TrueKind(w, NewCtx(file, depth))
  {
  }

  /** What the scan of a file and all that is in it leaves in its context: everything given, nothing else. */
  lemma FileBears(w: World, file: File, depth: nat, t: Tree, policy: Policy, deep: bool, mark: Mark)
    ensures var r := ScanFile(w, file, depth, t, policy, deep);
            && (!mark.Named? && GivenIn(w, r.2, mark) ==> Bears(r.0, mark))
            && (Bears(r.0, mark) ==> ComesFrom(w, r.2, mark))
    decreases Left(depth), 1, 0
  {
    hide RunStages;
    hide ScanMembers;
    hide ScanFile;
    hide Bears;
    hide Among;
    hide LookedInto;
    hide ArchiveShows;
    hide OfArchives;
    hide GivenIn;
    hide ComesFrom;
    hide GivenAmong;
    hide ComesFromAmong;
    var c0, t0 := NewCtx(file, depth), t.(scanned := t.scanned + 1);
    NewBearsNothing(w, file, depth, mark);
    StagesBear(w, c0, t0, policy, deep, 0, mark);
    FileStep(w, file, depth, t, policy, deep);
    NoMembers(w, mark);
    var r := RunStages(w, c0, t0, policy, deep, 0);
    if r.0.members != [] && depth <= MAX_ARCHIVE_DEPTH {
      MembersBear(w, r.0, r.1, policy, deep, 0, mark);
    }
    GivenInExactly(w, ScanFile(w, file, depth, t, policy, deep).2, mark);
  }

  // ----- the verdict -----

  /** A file visited in a scan, at any depth: its own part of the trace. */
  ghost predicate Visited(tr: Trace, sub: Trace) {
    tr == sub || exists k :: 0 <= k < |tr.members| && Visited(tr.members[k].1, sub)
  }

  lemma {:induction false} VisitedGives(w: World, tr: Trace, sub: Trace, mark: Mark)
    requires Visited(tr, sub) && GivenIn(w, sub, mark)
    ensures GivenIn(w, tr, mark)
  {
    if tr != sub {
      var k :| 0 <= k < |tr.members| && Visited(tr.members[k].1, sub);
      VisitedGives(w, tr.members[k].1, sub, mark);
    }
  }

  /** What a run of a stage on any visited file gives, and what any archive looked into shows, is in the findings and
      flags of the root. */
  lemma NothingIsLost(w: World, root: File, rootSize: nat, policy: Policy, deep: bool, sub: Trace, mark: Mark)
    requires !mark.Named?
    requires Visited(ScanFile(w, root, 0, Start(rootSize), policy, deep).2, sub)
    requires Among(w, sub.file, sub.runs, mark) || (LookedInto(w, sub.file, sub.runs) && ArchiveShows(w, sub.file, mark))
    ensures Bears(ScanFile(w, root, 0, Start(rootSize), policy, deep).0, mark)
  {
    hide ScanFile;
    hide Bears;
    hide Among;
    hide LookedInto;
    hide ArchiveShows;
    hide Visited;
    GivenInExactly(w, sub, mark);
    hide GivenIn;
    VisitedGives(w, ScanFile(w, root, 0, Start(rootSize), policy, deep).2, sub, mark);
    FileBears(w, root, 0, Start(rootSize), policy, deep, mark);
  }

  lemma {:induction false} ComesFromVisited(w: World, tr: Trace, mark: Mark) returns (sub: Trace)
    requires ComesFrom(w, tr, mark)
    ensures Visited(tr, sub) && (Among(w, sub.file, sub.runs, mark) || (OfArchives(mark) && !w.kind(sub.file).Plain?))
  {
    hide Among;
    hide OfArchives;
    sub := tr;
    if !Among(w, tr.file, tr.runs, mark) && !(OfArchives(mark) && !w.kind(tr.file).Plain?) {
      var k :| 0 <= k < |tr.members| && ComesFrom(w, tr.members[k].1, mark);
      sub := ComesFromVisited(w, tr.members[k].1, mark);
    }
  }

  /** Whatever the root bears, a run on some visited file gave it, of the very stage it is noted for, or, if only an
      archive can give it, a visited file is one. */
  lemma NothingIsMadeUp(w: World, root: File, rootSize: nat, policy: Policy, deep: bool, mark: Mark) returns (sub: Trace)
    requires Bears(ScanFile(w, root, 0, Start(rootSize), policy, deep).0, mark)
    ensures Visited(ScanFile(w, root, 0, Start(rootSize), policy, deep).2, sub)
    ensures Among(w, sub.file, sub.runs, mark) || (OfArchives(mark) && !w.kind(sub.file).Plain?)
  {
    hide ScanFile;
    hide Bears;
    hide Among;
    hide OfArchives;
    hide Visited;
    FileBears(w, root, 0, Start(rootSize), policy, deep, mark);
    sub := ComesFromVisited(w, ScanFile(w, root, 0, Start(rootSize), policy, deep).2, mark);
  }

  lemma MarkIsJudged(w: World, ctx: Ctx, policy: Policy, mark: Mark)
    requires Weighted(w, ctx) && Bears(ctx, mark)
    ensures mark.Found? && policy.blockThreshold <= Min(100, w.weight(mark.code)) ==> VerdictOn(w, ctx, policy) == Malicious
    ensures mark.Locked? || mark.Unread? ==> VerdictOn(w, ctx, policy) != Clean
    ensures mark.Failed? && mark.stage in ESSENTIAL_STAGES && policy.failMode != FailOpen ==> VerdictOn(w, ctx, policy) != Clean
  {
    CleanExactly(FactsOf(ctx), policy, w.family);
    if mark.Found? {
      var i :| 0 <= i < |ctx.findings| && ctx.findings[i].code == mark.code;
      OneFindingCounts(ctx.findings, ctx.findings[i], w.family);
    }
    if mark.Failed? && mark.stage in ESSENTIAL_STAGES {
      assert mark.stage in FactsOf(ctx).failedStages * ESSENTIAL_STAGES;
    }
    hide Score;
  }

  /** What decides the verdict, wherever in the tree it was found. */
  ghost predicate Condemns(w: World, policy: Policy, mark: Mark) {
    mark.Found? && policy.blockThreshold <= Min(100, w.weight(mark.code))
  }

  ghost predicate Clouds(policy: Policy, mark: Mark) {
    mark.Locked? || mark.Unread? || (mark.Failed? && mark.stage in ESSENTIAL_STAGES && policy.failMode != FailOpen)
  }

  /** The verdict takes account of what every run on every visited file gave: a code that weighs as much as the block
      threshold makes it malicious; a file encrypted or not supported, or an essential stage that failed while the
      tenant does not fail open, keeps it from being clean. */
  lemma EveryRunIsJudged(w: World, root: File, rootSize: nat, policy: Policy, deep: bool, sub: Trace, mark: Mark)
    requires Visited(ScanFile(w, root, 0, Start(rootSize), policy, deep).2, sub)
    requires Among(w, sub.file, sub.runs, mark) || (LookedInto(w, sub.file, sub.runs) && ArchiveShows(w, sub.file, mark))
    ensures var verdict := VerdictOn(w, ScanFile(w, root, 0, Start(rootSize), policy, deep).0, policy);
            (Condemns(w, policy, mark) ==> verdict == Malicious) && (Clouds(policy, mark) ==> verdict != Clean)
  {
    hide ScanFile;
    hide Bears;
    hide Among;
    hide LookedInto;
    hide ArchiveShows;
    hide Visited;
    hide VerdictOn;
    hide Weighted;
    if !mark.Named? {
      NothingIsLost(w, root, rootSize, policy, deep, sub, mark);
      ScanFileWeighted(w, root, 0, Start(rootSize), policy, deep);
      MarkIsJudged(w, ScanFile(w, root, 0, Start(rootSize), policy, deep).0, policy, mark);
    }
  }

  /** A plain file bears exactly what the runs of its stages give. */
  lemma PlainExactly(w: World, root: File, rootSize: nat, policy: Policy, deep: bool, mark: Mark)
    requires w.kind(root).Plain?
    ensures var r := ScanFile(w, root, 0, Start(rootSize), policy, deep);
            && r.2.file == root && r.2.members == []
            && (Bears(r.0, mark) ==> Among(w, root, r.2.runs, mark))
            && (!mark.Named? && Among(w, root, r.2.runs, mark) ==> Bears(r.0, mark))
  {
    hide RunStages;
    hide ScanMembers;
    hide ScanFile;
    hide Bears;
    hide Among;
    hide LookedInto;
    hide ArchiveShows;
    hide OfArchives;
    var t0 := Start(rootSize).(scanned := Start(rootSize).scanned + 1);
    NewBearsNothing(w, root, 0, mark);
    StagesBear(w, NewCtx(root, 0), t0, policy, deep, 0, mark);
    FileStep(w, root, 0, Start(rootSize), policy, deep);
  }

  // ----- which stages ran -----

  /** The stages run, in their order and one observation after the other; fewer only when the context says stop. */
  lemma {:induction false} StagesRun(w: World, ctx: Ctx, t: Tree, policy: Policy, deep: bool, k: nat)
    requires k <= |w.stages|
    ensures var r := RunStages(w, ctx, t, policy, deep, k);
            && k + |r.2| <= |w.stages| && (k + |r.2| < |w.stages| ==> StopsAt(w, r.0, policy, deep))
            && (forall i :: 0 <= i < |r.2| ==> r.2[i] == StageRun(t.now + i, w.stages[k + i]))
            && r.1.now == t.now + |r.2|
    decreases |w.stages| - k
  {
    hide StopsAt;
    hide Looked;
    hide Finished;
    if k < |w.stages| {
      var (c, t') := RunStage(w, ctx, t, w.stages[k]);
      StagesStep(w, ctx, t, policy, deep, k);
      hide RunStages;
      if !StopsAt(w, c, policy, deep) {
        StagesRun(w, c, t', policy, deep, k + 1);
      }
    }
  }

  /** Every visited file is the entry it is said to be, and had the stages in their order; all of them, when `whole`. */
  ghost predicate Ran(w: World, tr: Trace, whole: bool) {
    && |tr.runs| <= |w.stages| && (whole ==> |tr.runs| == |w.stages|)
    && (forall i :: 0 <= i < |tr.runs| ==> tr.runs[i].stage == w.stages[i])
    && forall k :: 0 <= k < |tr.members| ==>
         tr.members[k].1.file == w.entry(tr.file, tr.members[k].0).file && Ran(w, tr.members[k].1, whole)
  }

  ghost predicate AllRan(w: World, file: File, members: seq<(nat, Trace)>, whole: bool) {
    forall k :: 0 <= k < |members| ==> members[k].1.file == w.entry(file, members[k].0).file && Ran(w, members[k].1, whole)
  }

  lemma AllRanFirst(w: World, file: File, index: nat, tr: Trace, rest: seq<(nat, Trace)>, whole: bool)
    requires tr.file == w.entry(file, index).file && Ran(w, tr, whole) && AllRan(w, file, rest, whole)
    ensures AllRan(w, file, [(index, tr)] + rest, whole)
  {
    hide Ran;
    var all := [(index, tr)] + rest;
    assert all[0] == (index, tr) && forall k :: 0 < k < |all| ==> all[k] == rest[k - 1];
  }

  lemma NoneRan(w: World, file: File, whole: bool)
    ensures AllRan(w, file, [], whole)
  {
  }

  lemma StopsLater(w: World, a: Ctx, b: Ctx, policy: Policy, deep: bool)
    requires Grows(a, b) && StopsAt(w, a, policy, deep)
    ensures StopsAt(w, b, policy, deep)
  {
    GrowsScore(w, a, b);
    hide Score;
  }

  lemma StopsAbove(w: World, ctx: Ctx, child: Ctx, policy: Policy, deep: bool)
    requires Weighted(w, ctx) && Weighted(w, child) && StopsAt(w, child, policy, deep)
    ensures StopsAt(w, Adopt(ctx, child), policy, deep)
  {
    AdoptTakesOver(w, ctx, child);
    hide Score;
    hide Adopt;
  }

  lemma {:induction false} MembersRan(w: World, ctx: Ctx, t: Tree, policy: Policy, deep: bool, i: nat)
    requires ctx.depth <= MAX_ARCHIVE_DEPTH && Weighted(w, ctx)
    ensures var r := ScanMembers(w, ctx, t, policy, deep, i);
            AllRan(w, ctx.file, r.2, false) && (!StopsAt(w, r.0, policy, deep) ==> AllRan(w, ctx.file, r.2, true))
    decreases Left(ctx.depth), 0, |ctx.members| - i, 1
  {
    hide VisitMember;
    hide Entered;
    hide Ran;
    hide AllRan;
    hide StopsAt;
    hide Weighted;
    hide Grows;
    NoneRan(w, ctx.file, false);
    NoneRan(w, ctx.file, true);
    if i < |ctx.members| {
      hide ScanMembers;
      var m := ctx.members[i];
      ScanMembersStep(w, ctx, t, policy, deep, i);
      VisitGrows(w, ctx, t, policy, deep, m);
      GrowsIsHere(ctx, VisitMember(w, ctx, t, policy, deep, m));
      var v := VisitMember(w, ctx, t, policy, deep, m);
      if v.Skip? {
        MembersRan(w, v.ctx, v.tree, policy, deep, i + 1);
      } else if v.Enter? {
        MembersRanOn(w, ctx, v.tree, policy, deep, i);
      }
    }
  }

  lemma GrowsIsHere(ctx: Ctx, v: Visit)
    ensures !v.Enter? && Grows(ctx, v.ctx) ==> v.ctx.file == ctx.file && v.ctx.depth == ctx.depth
  {
  }

  /** The rest of the members, after entry `i` has been scanned. */
  lemma {:induction false} MembersRanOn(w: World, ctx: Ctx, t: Tree, policy: Policy, deep: bool, i: nat)
    requires ctx.depth <= MAX_ARCHIVE_DEPTH && Weighted(w, ctx) && i < |ctx.members|
    ensures var m := ctx.members[i];
            var e := Entered(w, ctx, t, policy, deep, m);
            e.0.depth <= MAX_ARCHIVE_DEPTH &&
            var r := ScanMembers(w, e.0, e.1, policy, deep, i + 1);
            var all := [(m.index, e.2)] + r.2;
            AllRan(w, ctx.file, all, false) && (!StopsAt(w, r.0, policy, deep) ==> AllRan(w, ctx.file, all, true))
    decreases Left(ctx.depth), 0, |ctx.members| - i, 0
  {
    hide Entered;
    hide Ran;
    hide AllRan;
    hide StopsAt;
    hide Weighted;
    hide ScanMembers;
    var m := ctx.members[i];
    var e := Entered(w, ctx, t, policy, deep, m);
    EnteredRan(w, ctx, t, policy, deep, m);
    EnteredGrows(w, ctx, t, policy, deep, m);
    var r := ScanMembers(w, e.0, e.1, policy, deep, i + 1);
    MembersRan(w, e.0, e.1, policy, deep, i + 1);
    ScanMembersGrows(w, e.0, e.1, policy, deep, i + 1);
    AllRanFirst(w, ctx.file, m.index, e.2, r.2, false);
    if !StopsAt(w, r.0, policy, deep) {
      if StopsAt(w, e.0, policy, deep) { StopsLater(w, e.0, r.0, policy, deep); }
      AllRanFirst(w, ctx.file, m.index, e.2, r.2, true);
    }
  }

  lemma EnteredRan(w: World, ctx: Ctx, t: Tree, policy: Policy, deep: bool, m: Member)
    requires ctx.depth <= MAX_ARCHIVE_DEPTH && Weighted(w, ctx)
    ensures var e := Entered(w, ctx, t, policy, deep, m);
            && e.2.file == w.entry(ctx.file, m.index).file && Ran(w, e.2, false)
            && (!StopsAt(w, e.0, policy, deep) ==> Ran(w, e.2, true))
    decreases Left(ctx.depth), 0, 0
  {
    hide ScanFile;
    hide Ran;
    hide StopsAt;
    hide Weighted;
    hide Adopt;
    var file := w.entry(ctx.file, m.index).file;
    var child := ScanFile(w, file, ctx.depth + 1, t, policy, deep).0;
    ScanFileWeighted(w, file, ctx.depth + 1, t, policy, deep);
    FileRan(w, file, ctx.depth + 1, t, policy, deep);
    if StopsAt(w, child, policy, deep) { StopsAbove(w, ctx, child, policy, deep); }
  }

  /** Every visited file had its stages in order, and every one of them unless the score says stop. */
  lemma FileRan(w: World, file: File, depth: nat, t: Tree, policy: Policy, deep: bool)
    ensures var r := ScanFile(w, file, depth, t, policy, deep);
            r.2.file == file && Ran(w, r.2, false) && (!StopsAt(w, r.0, policy, deep) ==> Ran(w, r.2, true))
    decreases Left(depth), 1, 0
  {
    hide RunStages;
    hide ScanMembers;
    hide ScanFile;
    hide StopsAt;
    hide Weighted;
    var c0, t0 := NewCtx(file, depth), t.(scanned := t.scanned + 1);
    NewIsWeighted(w, file, depth);
    RunStagesGrows(w, c0, t0, policy, deep, 0);
    StagesRun(w, c0, t0, policy, deep, 0);
    FileStep(w, file, depth, t, policy, deep);
    var r := RunStages(w, c0, t0, policy, deep, 0);
    if r.0.members != [] && depth <= MAX_ARCHIVE_DEPTH {
      MembersRan(w, r.0, r.1, policy, deep, 0);
      ScanMembersGrows(w, r.0, r.1, policy, deep, 0);
      hide Grows;
      if StopsAt(w, r.0, policy, deep) { StopsLater(w, r.0, ScanMembers(w, r.0, r.1, policy, deep, 0).0, policy, deep); }
    }
  }

  // ----- where the scan stops -----

  /** The next member: nothing more is done past the block threshold, or when time is up; an entry is scanned when all
      of it could be unpacked; one that breaks off is passed over, one that does not fit ends the scan, and both are
      noted. */
  lemma VisitExactly(w: World, ctx: Ctx, t: Tree, policy: Policy, deep: bool, m: Member, mark: Mark)
    ensures var v := VisitMember(w, ctx, t, policy, deep, m);
            var stream := w.entry(ctx.file, m.index).stream;
            var stops := !deep && !policy.shadowMode && Score(ctx.findings, w.family) >= policy.blockThreshold;
            var fits := stream.chunks == []
                        || (Total(stream.chunks) <= m.info.size && t.ledger.budget.unpacked + Total(stream.chunks) <= 268435456);
            && (stops ==> v == Stop(ctx, t))
            && (!stops && w.late(t.now) ==> v.Stop? && v.tree.ledger == t.ledger)
            && (!stops && !w.late(t.now) ==> if !fits then v.Stop? else if stream.complete then v.Enter? else v.Skip?)
            && (v.Stop? && !stops && !mark.Named? ==>
                  (Bears(v.ctx, mark) <==> Bears(ctx, mark) || mark == Found("ARCHIVE_INCOMPLETE") || mark == Unread))
            && (v.Skip? && !mark.Named? ==>
                  (Bears(v.ctx, mark) <==> Bears(ctx, mark) || mark == Found("ARCHIVE_MALFORMED") || mark == Unread))
  {
    hide Score;
    hide Add;
    hide MarkIncomplete;
    hide HasCode;
    hide Pull;
    var stream := w.entry(ctx.file, m.index).stream;
    IncompleteBears(w, ctx, "archive", mark);
    AddBears(w, ctx.(supported := false), "archive", "ARCHIVE_MALFORMED", mark);
    var n := PulledExactly(stream.chunks, stream.complete, m.info.size, t.ledger.budget.unpacked, 0);
  }

  /** Past the block threshold, unless the scan is deep or the tenant in shadow mode, no further stage runs on the file,
      and none of its entries is scanned. */
  lemma NothingPastTheThreshold(w: World, ctx: Ctx, t: Tree, policy: Policy, k: nat)
    requires k < |w.stages| && !policy.shadowMode
    ensures var (c, t') := RunStage(w, ctx, t, w.stages[k]);
            Score(c.findings, w.family) >= policy.blockThreshold ==>
              && RunStages(w, ctx, t, policy, false, k) == (c, t', [StageRun(t.now, w.stages[k])])
              && forall i: nat :: c.depth <= MAX_ARCHIVE_DEPTH ==> ScanMembers(w, c, t', policy, false, i) == (c, t', [])
  {
    hide RunStage;
    hide Score;
    var (c, t') := RunStage(w, ctx, t, w.stages[k]);
    StagesStep(w, ctx, t, policy, false, k);
    if Score(c.findings, w.family) >= policy.blockThreshold && c.depth <= MAX_ARCHIVE_DEPTH {
      forall i: nat
        ensures ScanMembers(w, c, t', policy, false, i) == (c, t', [])
      {
        if i < |c.members| { ScanMembersStep(w, c, t', policy, false, i); }
      }
    }
  }
}
