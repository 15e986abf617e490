/** Where the statuses and dead letters of the queue come from: in every run, from how the processing of a task
    ended. */
module WorkQueueOrigins {
  import opened Common
  import opened WorkQueue
  import opened WorkQueueTheorems

  // ----- what happened in a run -----

  /** The state before action `i`. */
  function At(actions: seq<Action>, i: nat, cfg: Config): State
    requires i <= |actions|
  {
    Run(actions[..i], cfg)
  }

  /** Action `i` is a step of a task on scan `c`, with this choice. */
  predicate StepOn(actions: seq<Action>, i: nat, cfg: Config, c: nat, choice: Choice)
    requires i < |actions|
  {
    actions[i].Step? && actions[i].choice == choice && On(At(actions, i, cfg), actions[i].task, c)
  }

  predicate EndedAt(actions: seq<Action>, i: nat, cfg: Config, c: nat, after: After) {
    i < |actions| && StepOn(actions, i, cfg, c, Outcome(after)) && At(actions, i, cfg).tasks[actions[i].task].pc.Processing?
  }

  /** The processing of some task on the scan ended this way. */
  ghost predicate Ended(actions: seq<Action>, cfg: Config, c: nat, after: After) {
    exists i: nat :: EndedAt(actions, i, cfg, c, after)
  }

  /** A task on the scan looked into the journal and found that the last attempt had crashed in a risky stage. */
  predicate CrashSeenAt(actions: seq<Action>, i: nat, cfg: Config, c: nat) {
    && i < |actions| && actions[i].Step? && On(At(actions, i, cfg), actions[i].task, c)
    && var s := At(actions, i, cfg);
       && s.tasks[actions[i].task].pc.LoadJournal? && c in s.journal
       && s.journal[c].stage in {"structure", "yara", "cdr", "archive"} && s.journal[c].attempt >= cfg.maxCrashes
  }

  /** An entry of the scan was claimed that had been delivered more often than allowed. */
  predicate OverdueAt(actions: seq<Action>, i: nat, cfg: Config, c: nat) {
    && i < |actions| && actions[i].Claim?
    && var s := At(actions, i, cfg);
       IsJob(s, actions[i].entry, c) && Count(s.pending, actions[i].entry) > cfg.maxDeliveries
  }

  /** The reason for which some task gave the scan up. */
  ghost predicate GaveUp(actions: seq<Action>, cfg: Config, c: nat, reason: Reason) {
    match reason
    case ScanFailed => Ended(actions, cfg, c, GiveUp(ScanFailed))
    case ParserCrash => exists i: nat :: CrashSeenAt(actions, i, cfg, c)
    case JobAbandoned => exists i: nat :: OverdueAt(actions, i, cfg, c)
  }

  /** A status has its origin in how the processing of a task on the scan ended, or, when it asks for a human, in the
      scan having been given up. */
  ghost predicate HasOrigin(actions: seq<Action>, cfg: Config, c: nat, status: Status) {
    || (status != ManualReview && Ended(actions, cfg, c, Deliver(status)))
    || (status == ManualReview && exists reason :: GaveUp(actions, cfg, c, reason))
  }

  ghost predicate StoredOnce(actions: seq<Action>, cfg: Config, c: nat, status: Status) {
    exists i: nat :: i <= |actions| && c in At(actions, i, cfg).status && At(actions, i, cfg).status[c] == status
  }

  // ----- what happened stays so -----

  lemma AtMore(actions: seq<Action>, a: Action, i: nat, cfg: Config)
    requires i <= |actions|
    ensures At(actions + [a], i, cfg) == At(actions, i, cfg)
  {
    assert (actions + [a])[..i] == actions[..i];
  }

  lemma EndedStays(actions: seq<Action>, a: Action, cfg: Config, c: nat, after: After)
    requires Ended(actions, cfg, c, after)
    ensures Ended(actions + [a], cfg, c, after)
  {
    var i: nat :| EndedAt(actions, i, cfg, c, after);
    AtMore(actions, a, i, cfg);
    hide At;
    assert EndedAt(actions + [a], i, cfg, c, after);
  }

  lemma GaveUpStays(actions: seq<Action>, a: Action, cfg: Config, c: nat, reason: Reason)
    requires GaveUp(actions, cfg, c, reason)
    ensures GaveUp(actions + [a], cfg, c, reason)
  {
    match reason
    case ScanFailed => EndedStays(actions, a, cfg, c, GiveUp(ScanFailed));
    case ParserCrash =>
      var i: nat :| CrashSeenAt(actions, i, cfg, c);
      AtMore(actions, a, i, cfg);
      hide At;
      assert CrashSeenAt(actions + [a], i, cfg, c);
    case JobAbandoned =>
      var i: nat :| OverdueAt(actions, i, cfg, c);
      AtMore(actions, a, i, cfg);
      hide At;
      assert OverdueAt(actions + [a], i, cfg, c);
  }

  lemma OriginStays(actions: seq<Action>, a: Action, cfg: Config, c: nat, status: Status)
    requires HasOrigin(actions, cfg, c, status)
    ensures HasOrigin(actions + [a], cfg, c, status)
  {
    if status == ManualReview {
      var reason :| GaveUp(actions, cfg, c, reason);
      GaveUpStays(actions, a, cfg, c, reason);
    } else {
      EndedStays(actions, a, cfg, c, Deliver(status));
    }
  }

  lemma StoredOnceStays(actions: seq<Action>, a: Action, cfg: Config, c: nat, status: Status)
    requires StoredOnce(actions, cfg, c, status)
    ensures StoredOnce(actions + [a], cfg, c, status)
  {
    var i: nat :| i <= |actions| && c in At(actions, i, cfg).status && At(actions, i, cfg).status[c] == status;
    AtMore(actions, a, i, cfg);
    hide At;
    assert i <= |actions + [a]|;
  }

  // ----- what tasks carry -----

  /** What a task on the scan carries has its origin in the run. */
  ghost predicate PcTraced(actions: seq<Action>, cfg: Config, c: nat, pc: Pc) {
    match pc
    case Finish(Deliver(status)) => HasOrigin(actions, cfg, c, status)
    case Finish(GiveUp(reason)) => GaveUp(actions, cfg, c, reason)
    case WriteLetter(reason) => GaveUp(actions, cfg, c, reason)
    case Store(status) => HasOrigin(actions, cfg, c, status)
    case Republish(status) => HasOrigin(actions, cfg, c, status) && StoredOnce(actions, cfg, c, status)
    case _ => true
  }

  ghost predicate TasksTraced(actions: seq<Action>, cfg: Config, s: State) {
    forall t, c :: On(s, t, c) ==> PcTraced(actions, cfg, c, s.tasks[t].pc)
  }

  ghost predicate StatusesTraced(actions: seq<Action>, cfg: Config, s: State) {
    forall c :: c in s.status ==> HasOrigin(actions, cfg, c, s.status[c])
  }

  ghost predicate LettersTraced(actions: seq<Action>, cfg: Config, s: State) {
    forall i :: 0 <= i < |s.letters| ==> GaveUp(actions, cfg, s.letters[i].scan, s.letters[i].reason)
  }

  ghost predicate Traced(actions: seq<Action>, cfg: Config, s: State) {
    TasksTraced(actions, cfg, s) && StatusesTraced(actions, cfg, s) && LettersTraced(actions, cfg, s)
  }

  lemma PcTracedStays(actions: seq<Action>, a: Action, cfg: Config, c: nat, pc: Pc)
    requires PcTraced(actions, cfg, c, pc)
    ensures PcTraced(actions + [a], cfg, c, pc)
  {
    hide HasOrigin;
    hide GaveUp;
    hide StoredOnce;
    match pc
    case Finish(Deliver(status)) => OriginStays(actions, a, cfg, c, status);
    case Finish(GiveUp(reason)) => GaveUpStays(actions, a, cfg, c, reason);
    case WriteLetter(reason) => GaveUpStays(actions, a, cfg, c, reason);
    case Store(status) => OriginStays(actions, a, cfg, c, status);
    case Republish(status) =>
      OriginStays(actions, a, cfg, c, status);
      StoredOnceStays(actions, a, cfg, c, status);
    case _ =>
  }

  lemma TracedStays(actions: seq<Action>, a: Action, cfg: Config, s: State)
    requires Traced(actions, cfg, s)
    ensures Traced(actions + [a], cfg, s)
  {
    hide HasOrigin;
    hide GaveUp;
    hide PcTraced;
    forall t, c | On(s, t, c)
      ensures PcTraced(actions + [a], cfg, c, s.tasks[t].pc)
    {
      PcTracedStays(actions, a, cfg, c, s.tasks[t].pc);
    }
    forall c | c in s.status
      ensures HasOrigin(actions + [a], cfg, c, s.status[c])
    {
      OriginStays(actions, a, cfg, c, s.status[c]);
    }
    forall i | 0 <= i < |s.letters|
      ensures GaveUp(actions + [a], cfg, s.letters[i].scan, s.letters[i].reason)
    {
      GaveUpStays(actions, a, cfg, s.letters[i].scan, s.letters[i].reason);
    }
  }

  // ----- one step -----

  lemma LastAt(actions: seq<Action>, a: Action, cfg: Config)
    ensures At(actions + [a], |actions|, cfg) == Run(actions, cfg)
    ensures Run(actions + [a], cfg) == Apply(Run(actions, cfg), a, cfg)
  {
    assert (actions + [a])[..|actions|] == actions;
  }

  /** Of tasks and entries, only where the task stands changes. */
  predicate Shifts(s: State, s': State, t: nat, pc: Pc) {
    && t in s.tasks && s'.stream == s.stream && s'.tasks == s.tasks[t := s.tasks[t].(pc := pc)]
    && s'.entered == s.entered && s'.deaths == s.deaths
  }

  predicate Moves(s: State, s': State, t: nat, pc: Pc) {
    Shifts(s, s', t, pc) && s'.status == s.status && s'.letters == s.letters && s'.stored == s.stored
  }

  predicate Leaves(s: State, s': State, t: nat) {
    && s'.stream == s.stream && s'.tasks == s.tasks - {t} && s'.status == s.status && s'.letters == s.letters
    && s'.entered == s.entered && s'.deaths == s.deaths && s'.stored == s.stored
  }

  lemma WaitingStep(s: State, t: nat, c: nat, choice: Choice, cfg: Config)
    requires t in s.tasks && s.tasks[t].pc.Waiting?
    ensures Moves(s, Advance(s, t, c, choice, cfg), t,
                  if c in s.status && (s.status[c] == Done || s.status[c] == ManualReview) then Republish(s.status[c]) else LoadJournal)
  {
  }

  lemma LookStep(s: State, t: nat, c: nat, choice: Choice, cfg: Config)
    requires t in s.tasks && s.tasks[t].pc.LoadJournal?
    ensures Moves(s, Advance(s, t, c, choice, cfg), t,
                  if c !in s.journal then Begin(1)
                  else if s.journal[c].stage in {"structure", "yara", "cdr", "archive"} && s.journal[c].attempt >= cfg.maxCrashes
                  then Finish(GiveUp(ParserCrash))
                  else Begin(s.journal[c].attempt + 1))
  {
  }

  lemma BeginStep(s: State, t: nat, c: nat, choice: Choice, cfg: Config)
    requires t in s.tasks && s.tasks[t].pc.Begin?
    ensures Moves(s, Advance(s, t, c, choice, cfg), t, Processing(s.tasks[t].pc.attempt, "fetch", "fetch"))
  {
  }

  /** Processing goes on, or ends in one of the ways in which it can end. */
  predicate Proceeds(pc: Pc, choice: Choice) {
    || pc.Processing?
    || (choice.Outcome? && pc == Finish(choice.after)
        && (choice.after == Deliver(Done) || choice.after == Deliver(Failed) || choice.after == GiveUp(ScanFailed) || choice.after == Leave))
  }

  lemma OutcomeStep(s: State, t: nat, c: nat, after: After, cfg: Config) returns (pc: Pc)
    requires t in s.tasks && s.tasks[t].pc.Processing?
    ensures Moves(s, Advance(s, t, c, Outcome(after), cfg), t, pc) && Proceeds(pc, Outcome(after))
  {
    hide Risky;
    EndingsExactly(after);
    if after == Deliver(ManualReview) || (after.GiveUp? && after.reason != ScanFailed) {
      StaysPut(s, t);
      pc := s.tasks[t].pc;
    } else {
      pc := Finish(after);
    }
  }

  lemma MarkingStep(s: State, t: nat, c: nat, choice: Choice, cfg: Config) returns (pc: Pc)
    requires t in s.tasks && s.tasks[t].pc.Processing? && !choice.Outcome?
    ensures Moves(s, Advance(s, t, c, choice, cfg), t, pc) && pc.Processing?
  {
    hide Risky;
    var before := s.tasks[t].pc;
    StaysPut(s, t);
    match choice
    case MarkStage(x) => pc := if Risky(x) then Processing(before.attempt, x, before.stage) else before;
    case EnterStage(x) => pc := if Risky(x) && before.marked != x then before else Processing(before.attempt, before.marked, x);
    case Go => pc := before;
  }

  lemma ProcessingStep(s: State, t: nat, c: nat, choice: Choice, cfg: Config) returns (pc: Pc)
    requires t in s.tasks && s.tasks[t].pc.Processing?
    ensures Moves(s, Advance(s, t, c, choice, cfg), t, pc) && Proceeds(pc, choice)
  {
    hide Advance;
    hide Moves;
    match choice
    case Outcome(after) => pc := OutcomeStep(s, t, c, after, cfg);
    case _ => pc := MarkingStep(s, t, c, choice, cfg);
  }

  lemma StaysPut(s: State, t: nat)
    requires t in s.tasks
    ensures s.tasks[t := s.tasks[t].(pc := s.tasks[t].pc)] == s.tasks
  {
    assert s.tasks[t].(pc := s.tasks[t].pc) == s.tasks[t];
  }

  lemma EndingsExactly(after: After)
    ensures after == Deliver(Done) || after == Deliver(Failed) || after == Deliver(ManualReview) || after == Leave
            || after == GiveUp(ScanFailed) || (after.GiveUp? && after.reason != ScanFailed)
  {
    if after.Deliver? {
      match after.status
      case Done =>
      case Failed =>
      case ManualReview =>
    }
  }

  lemma FinishStep(s: State, t: nat, c: nat, choice: Choice, cfg: Config)
    requires t in s.tasks && s.tasks[t].pc.Finish?
    ensures var s' := Advance(s, t, c, choice, cfg);
            match s.tasks[t].pc.after
            case Deliver(status) => Moves(s, s', t, Store(status))
            case GiveUp(reason) => Moves(s, s', t, WriteLetter(reason))
            case Leave => Leaves(s, s', t)
  {
  }

  lemma LetterStep(s: State, t: nat, c: nat, choice: Choice, cfg: Config)
    requires t in s.tasks && s.tasks[t].pc.WriteLetter?
    ensures var s' := Advance(s, t, c, choice, cfg);
            && Shifts(s, s', t, Store(ManualReview)) && s'.status == s.status && s'.stored == s.stored
            && s'.letters == s.letters + [Letter(c, s.tasks[t].pc.reason)]
  {
  }

  lemma StoreStep(s: State, t: nat, c: nat, choice: Choice, cfg: Config)
    requires t in s.tasks && (s.tasks[t].pc.Store? || s.tasks[t].pc.Republish?)
    ensures var s' := Advance(s, t, c, choice, cfg);
            && Shifts(s, s', t, Wrap) && s'.status == s.status[c := s.tasks[t].pc.status] && s'.letters == s.letters
            && s'.stored == s.stored + {c}
  {
  }

  lemma LateStep(s: State, t: nat, c: nat, choice: Choice, cfg: Config)
    requires t in s.tasks && (s.tasks[t].pc.Wrap? || s.tasks[t].pc.Ack?)
    ensures var s' := Advance(s, t, c, choice, cfg);
            if s.tasks[t].pc.Wrap? then Moves(s, s', t, Ack) else Leaves(s, s', t)
  {
  }

  /** After a step of a task on scan `c` everything is traced again. */
  ghost predicate StepTraced(actions: seq<Action>, cfg: Config, s: State, s': State, t: nat, c: nat) {
    && s'.stream == s.stream
    && (s'.tasks == s.tasks - {t}
        || (t in s.tasks && t in s'.tasks && s'.tasks == s.tasks[t := s.tasks[t].(pc := s'.tasks[t].pc)]
            && PcTraced(actions, cfg, c, s'.tasks[t].pc)))
    && StatusesTraced(actions, cfg, s') && LettersTraced(actions, cfg, s')
  }

  lemma MoveTraced(all: seq<Action>, cfg: Config, s: State, s': State, t: nat, c: nat, pc: Pc)
    requires StatusesTraced(all, cfg, s) && LettersTraced(all, cfg, s) && Moves(s, s', t, pc) && PcTraced(all, cfg, c, pc)
    ensures StepTraced(all, cfg, s, s', t, c)
  {
    hide PcTraced;
    hide HasOrigin;
    hide GaveUp;
  }

  lemma LookTraced(actions: seq<Action>, a: Action, cfg: Config, c: nat)
    requires a.Step? && On(Run(actions, cfg), a.task, c) && Run(actions, cfg).tasks[a.task].pc.LoadJournal?
    requires Traced(actions + [a], cfg, Run(actions, cfg))
    ensures StepTraced(actions + [a], cfg, Run(actions, cfg), Advance(Run(actions, cfg), a.task, c, a.choice, cfg), a.task, c)
  {
    hide Run;
    hide Apply;
    hide At;
    hide Advance;
    hide TasksTraced;
    hide StepTraced;
    hide StatusesTraced;
    hide LettersTraced;
    var s := Run(actions, cfg);
    var s' := Advance(s, a.task, c, a.choice, cfg);
    LastAt(actions, a, cfg);
    LookStep(s, a.task, c, a.choice, cfg);
    var pc := s'.tasks[a.task].pc;
    if pc == Finish(GiveUp(ParserCrash)) {
      assert CrashSeenAt(actions + [a], |actions|, cfg, c);
    }
    MoveTraced(actions + [a], cfg, s, s', a.task, c, pc);
  }

  lemma WaitingTraced(actions: seq<Action>, a: Action, cfg: Config, c: nat)
    requires a.Step? && On(Run(actions, cfg), a.task, c) && Run(actions, cfg).tasks[a.task].pc.Waiting?
    requires Traced(actions + [a], cfg, Run(actions, cfg))
    ensures StepTraced(actions + [a], cfg, Run(actions, cfg), Advance(Run(actions, cfg), a.task, c, a.choice, cfg), a.task, c)
  {
    hide Run;
    hide Apply;
    hide At;
    hide Advance;
    hide TasksTraced;
    hide StepTraced;
    hide LettersTraced;
    hide HasOrigin;
    var s, all := Run(actions, cfg), actions + [a];
    var s' := Advance(s, a.task, c, a.choice, cfg);
    LastAt(actions, a, cfg);
    WaitingStep(s, a.task, c, a.choice, cfg);
    if c in s.status {
      assert |actions| <= |all| && c in At(all, |actions|, cfg).status;
      assert StoredOnce(all, cfg, c, s.status[c]);
    }
    MoveTraced(all, cfg, s, s', a.task, c, s'.tasks[a.task].pc);
  }

  lemma EndTraced(actions: seq<Action>, a: Action, cfg: Config, c: nat)
    requires a.Step? && On(Run(actions, cfg), a.task, c) && Run(actions, cfg).tasks[a.task].pc.Processing?
    requires Traced(actions + [a], cfg, Run(actions, cfg))
    ensures StepTraced(actions + [a], cfg, Run(actions, cfg), Advance(Run(actions, cfg), a.task, c, a.choice, cfg), a.task, c)
  {
    hide Run;
    hide Apply;
    hide At;
    hide Advance;
    hide TasksTraced;
    hide StepTraced;
    hide StatusesTraced;
    hide LettersTraced;
    var s, all := Run(actions, cfg), actions + [a];
    var s' := Advance(s, a.task, c, a.choice, cfg);
    LastAt(actions, a, cfg);
    var pc := ProcessingStep(s, a.task, c, a.choice, cfg);
    if a.choice.Outcome? {
      assert EndedAt(all, |actions|, cfg, c, a.choice.after);
      assert Ended(all, cfg, c, a.choice.after);
    }
    MoveTraced(all, cfg, s, s', a.task, c, pc);
  }

  lemma FinishTraced(all: seq<Action>, cfg: Config, s: State, t: nat, c: nat, choice: Choice)
    requires t in s.tasks && s.tasks[t].pc.Finish? && PcTraced(all, cfg, c, s.tasks[t].pc)
    requires StatusesTraced(all, cfg, s) && LettersTraced(all, cfg, s)
    ensures StepTraced(all, cfg, s, Advance(s, t, c, choice, cfg), t, c)
  {
    hide Advance;
    hide HasOrigin;
    hide GaveUp;
    FinishStep(s, t, c, choice, cfg);
  }

  lemma WrittenTraced(all: seq<Action>, cfg: Config, s: State, t: nat, c: nat, choice: Choice)
    requires t in s.tasks && s.tasks[t].pc.WriteLetter? && PcTraced(all, cfg, c, s.tasks[t].pc)
    requires StatusesTraced(all, cfg, s) && LettersTraced(all, cfg, s)
    ensures StepTraced(all, cfg, s, Advance(s, t, c, choice, cfg), t, c)
  {
    hide Advance;
    hide GaveUp;
    LetterStep(s, t, c, choice, cfg);
    assert GaveUp(all, cfg, c, s.tasks[t].pc.reason);
    assert HasOrigin(all, cfg, c, ManualReview);
    hide HasOrigin;
  }

  lemma StoredTraced(all: seq<Action>, cfg: Config, s: State, t: nat, c: nat, choice: Choice)
    requires t in s.tasks && (s.tasks[t].pc.Store? || s.tasks[t].pc.Republish?) && PcTraced(all, cfg, c, s.tasks[t].pc)
    requires StatusesTraced(all, cfg, s) && LettersTraced(all, cfg, s)
    ensures StepTraced(all, cfg, s, Advance(s, t, c, choice, cfg), t, c)
  {
    hide Advance;
    hide GaveUp;
    hide HasOrigin;
    hide StoredOnce;
    StoreStep(s, t, c, choice, cfg);
  }

  lemma LateTraced(all: seq<Action>, cfg: Config, s: State, t: nat, c: nat, choice: Choice)
    requires t in s.tasks && (s.tasks[t].pc.Wrap? || s.tasks[t].pc.Ack?)
    requires StatusesTraced(all, cfg, s) && LettersTraced(all, cfg, s)
    ensures StepTraced(all, cfg, s, Advance(s, t, c, choice, cfg), t, c)
  {
    hide Advance;
    hide GaveUp;
    hide HasOrigin;
    LateStep(s, t, c, choice, cfg);
  }

  lemma BegunTraced(all: seq<Action>, cfg: Config, s: State, t: nat, c: nat, choice: Choice)
    requires t in s.tasks && s.tasks[t].pc.Begin?
    requires StatusesTraced(all, cfg, s) && LettersTraced(all, cfg, s)
    ensures StepTraced(all, cfg, s, Advance(s, t, c, choice, cfg), t, c)
  {
    hide Advance;
    hide GaveUp;
    hide HasOrigin;
    BeginStep(s, t, c, choice, cfg);
  }

  lemma AdvanceTraced(actions: seq<Action>, a: Action, cfg: Config, c: nat)
    requires a.Step? && On(Run(actions, cfg), a.task, c) && !Run(actions, cfg).tasks[a.task].pc.AckUnreadable?
    requires Traced(actions + [a], cfg, Run(actions, cfg))
    ensures StepTraced(actions + [a], cfg, Run(actions, cfg), Advance(Run(actions, cfg), a.task, c, a.choice, cfg), a.task, c)
  {
    var s, t, all := Run(actions, cfg), a.task, actions + [a];
    assert PcTraced(all, cfg, c, s.tasks[t].pc);
    hide Run;
    hide Advance;
    hide TasksTraced;
    hide StatusesTraced;
    hide LettersTraced;
    hide StepTraced;
    hide PcTraced;
    match s.tasks[t].pc
    case Waiting => WaitingTraced(actions, a, cfg, c);
    case LoadJournal => LookTraced(actions, a, cfg, c);
    case Processing(_, _, _) => EndTraced(actions, a, cfg, c);
    case Begin(_) => BegunTraced(all, cfg, s, t, c, a.choice);
    case Finish(_) => FinishTraced(all, cfg, s, t, c, a.choice);
    case WriteLetter(_) => WrittenTraced(all, cfg, s, t, c, a.choice);
    case Store(_) => StoredTraced(all, cfg, s, t, c, a.choice);
    case Republish(_) => StoredTraced(all, cfg, s, t, c, a.choice);
    case Wrap => LateTraced(all, cfg, s, t, c, a.choice);
    case Ack => LateTraced(all, cfg, s, t, c, a.choice);
  }

  /** The other tasks are where they were. */
  lemma StepTracesAll(all: seq<Action>, cfg: Config, s: State, s': State, t: nat, c: nat)
    requires TasksTraced(all, cfg, s) && StepTraced(all, cfg, s, s', t, c) && On(s, t, c)
    ensures Traced(all, cfg, s')
  {
    hide PcTraced;
    hide StatusesTraced;
    hide LettersTraced;
    forall u, k | On(s', u, k)
      ensures PcTraced(all, cfg, k, s'.tasks[u].pc)
    {
      assert On(s, u, k);
    }
  }

  /** The task of a step is on the scan of its entry, or its entry is not readable. */
  lemma StepOnScan(s: State, t: nat, cfg: Config)
    requires Inv(s, cfg) && t in s.tasks
    ensures if s.tasks[t].pc.AckUnreadable? then forall c :: !On(s, t, c) else On(s, t, ScanOf(s, t))
  {
    InvTask(s, t, cfg);
    hide Inv;
    hide PcOk;
  }

  /** Tasks of `s'` are tasks of `s`, or wait. */
  ghost predicate Fewer(s: State, s': State) {
    forall u, c :: On(s', u, c) ==> (u in s.tasks && s'.tasks[u] == s.tasks[u] && On(s, u, c)) || s'.tasks[u].pc.Waiting?
  }

  lemma DroppedIsFewer(s: State, s': State, t: nat)
    requires s'.stream == s.stream && (s'.tasks == s.tasks - {t} || s'.tasks == s.tasks)
    ensures Fewer(s, s')
  {
  }

  lemma AckIsFewer(s: State, t: nat)
    requires t in s.tasks
    ensures var s' := Acknowledge(s, t);
            s'.letters == s.letters && s'.status == s.status && Fewer(s, s')
  {
    DroppedIsFewer(s, Acknowledge(s, t), t);
    hide Fewer;
  }

  lemma StepKeepsTraced(actions: seq<Action>, a: Action, cfg: Config)
    requires a.Step? && Traced(actions + [a], cfg, Run(actions, cfg))
    ensures Traced(actions + [a], cfg, Apply(Run(actions, cfg), a, cfg))
  {
    var s, t, all := Run(actions, cfg), a.task, actions + [a];
    RunKeepsInv(actions, cfg);
    hide Run;
    hide Inv;
    hide Advance;
    hide Acknowledge;
    hide Traced;
    hide On;
    hide Fewer;
    if t in s.tasks {
      StepOnScan(s, t, cfg);
      if s.tasks[t].pc.AckUnreadable? {
        AckIsFewer(s, t);
        FewerTraced(all, cfg, s, Acknowledge(s, t));
      } else {
        AdvanceTraced(actions, a, cfg, ScanOf(s, t));
        TasksAreTraced(all, cfg, s);
        StepTracesAll(all, cfg, s, Advance(s, t, ScanOf(s, t), a.choice, cfg), t, ScanOf(s, t));
      }
    }
  }

  lemma TasksAreTraced(all: seq<Action>, cfg: Config, s: State)
    requires Traced(all, cfg, s)
    ensures TasksTraced(all, cfg, s)
  {
  }

  /** A state with fewer tasks and statuses and the same letters. */
  lemma FewerTraced(all: seq<Action>, cfg: Config, s: State, s': State)
    requires Traced(all, cfg, s)
    requires s'.letters == s.letters
    requires forall c :: c in s'.status ==> c in s.status && s'.status[c] == s.status[c]
    requires Fewer(s, s')
    ensures Traced(all, cfg, s')
  {
    hide HasOrigin;
    hide GaveUp;
    hide StoredOnce;
    hide On;
  }

  lemma ClaimTraced(actions: seq<Action>, a: Action, cfg: Config)
    requires a.Claim? && Traced(actions + [a], cfg, Run(actions, cfg))
    ensures Traced(actions + [a], cfg, Apply(Run(actions, cfg), a, cfg))
  {
    var s, all := Run(actions, cfg), actions + [a];
    LastAt(actions, a, cfg);
    hide Run;
    hide At;
    hide HasOrigin;
    var s' := Apply(s, a, cfg);
    assert s'.status == s.status && s'.letters == s.letters && s'.stream == s.stream;
    SameRestTraced(all, cfg, s, s');
    hide StatusesTraced;
    hide LettersTraced;
    hide GaveUp;
    forall u, c | On(s', u, c)
      ensures PcTraced(all, cfg, c, s'.tasks[u].pc)
    {
      if u in s.tasks {
        assert On(s, u, c);
      } else if s'.tasks[u].pc == Finish(GiveUp(JobAbandoned)) {
        assert OverdueAt(all, |actions|, cfg, c);
        AbandonedWhy(all, |actions|, cfg, c);
      }
    }
  }

  lemma AbandonedWhy(all: seq<Action>, i: nat, cfg: Config, c: nat)
    requires OverdueAt(all, i, cfg, c)
    ensures GaveUp(all, cfg, c, JobAbandoned)
  {
  }

  lemma SameRestTraced(all: seq<Action>, cfg: Config, s: State, s': State)
    requires StatusesTraced(all, cfg, s) && LettersTraced(all, cfg, s) && s'.status == s.status && s'.letters == s.letters
    ensures StatusesTraced(all, cfg, s') && LettersTraced(all, cfg, s')
  {
    hide HasOrigin;
    hide GaveUp;
  }

  lemma OtherKeepsTraced(actions: seq<Action>, a: Action, cfg: Config)
    requires !a.Step? && !a.Claim? && Traced(actions + [a], cfg, Run(actions, cfg))
    ensures Traced(actions + [a], cfg, Apply(Run(actions, cfg), a, cfg))
  {
    var s, all := Run(actions, cfg), actions + [a];
    RunKeepsInv(actions, cfg);
    OtherIsFewer(s, a, cfg);
    hide Run;
    hide Apply;
    hide Inv;
    hide Traced;
    FewerTraced(all, cfg, s, Apply(s, a, cfg));
  }

  lemma PublishedIsFewer(s: State, s': State, e: nat, payload: Payload, cfg: Config)
    requires Inv(s, cfg) && e !in s.stream && s'.stream == s.stream[e := payload] && s'.tasks == s.tasks
    ensures Fewer(s, s')
  {
    forall u | u in s.tasks
      ensures s.tasks[u].entry in s.stream
    {
      InvTask(s, u, cfg);
    }
    hide Inv;
  }

  lemma HandedIsFewer(s: State, e: nat, t: nat)
    ensures var s' := HandOut(s, e, t); s'.letters == s.letters && s'.status == s.status && Fewer(s, s')
  {
  }

  lemma OtherIsFewer(s: State, a: Action, cfg: Config)
    requires Inv(s, cfg) && !a.Step? && !a.Claim?
    ensures var s' := Apply(s, a, cfg);
            && s'.letters == s.letters && (forall c :: c in s'.status ==> c in s.status && s'.status[c] == s.status[c])
            && Fewer(s, s')
  {
    hide Fewer;
    hide HandOut;
    hide Inv;
    var s' := Apply(s, a, cfg);
    match a
    case Publish(e, payload) =>
      if e in s.stream { DroppedIsFewer(s, s', 0); } else { PublishedIsFewer(s, s', e, payload, cfg); }
    case Hand(e, t) => HandedIsFewer(s, e, t);
    case Kill(t) => DroppedIsFewer(s, s', t);
    case ExpireStatus(_) => DroppedIsFewer(s, s', 0);
    case ExpireJournal(_) => DroppedIsFewer(s, s', 0);
  }

  lemma {:induction false} RunTraced(actions: seq<Action>, cfg: Config)
    ensures Traced(actions, cfg, Run(actions, cfg))
  {
    if actions != [] {
      var n := |actions| - 1;
      var front, a := actions[..n], actions[n];
      assert actions == front + [a];
      RunTraced(front, cfg);
      TracedStays(front, a, cfg, Run(front, cfg));
      LastAt(front, a, cfg);
      hide Run;
      hide Apply;
      hide Traced;
      if a.Step? {
        StepKeepsTraced(front, a, cfg);
      } else if a.Claim? {
        ClaimTraced(front, a, cfg);
      } else {
        OtherKeepsTraced(front, a, cfg);
      }
    }
  }

  // ----- the theorems -----

  /** In every run, the status stored for a scan is the one with which the processing of one of its tasks ended, or asks
      for a human because some task gave the scan up. */
  lemma StatusHasOrigin(actions: seq<Action>, cfg: Config, c: nat)
    requires c in Run(actions, cfg).status
    ensures HasOrigin(actions, cfg, c, Run(actions, cfg).status[c])
  {
    RunTraced(actions, cfg);
    hide Run;
    hide HasOrigin;
  }

  /** In every run, each dead letter gives a reason for which some task on its scan gave up. */
  lemma LetterHasOrigin(actions: seq<Action>, cfg: Config, i: nat)
    requires i < |Run(actions, cfg).letters|
    ensures var letter := Run(actions, cfg).letters[i]; GaveUp(actions, cfg, letter.scan, letter.reason)
  {
    RunTraced(actions, cfg);
    hide Run;
    hide GaveUp;
  }

  /** In every run, a task that publishes a result again publishes one that was stored for its scan before. */
  lemma RepublishedWasStored(actions: seq<Action>, cfg: Config, t: nat, c: nat)
    requires On(Run(actions, cfg), t, c) && Run(actions, cfg).tasks[t].pc.Republish?
    ensures StoredOnce(actions, cfg, c, Run(actions, cfg).tasks[t].pc.status)
  {
    RunTraced(actions, cfg);
    hide Run;
    hide HasOrigin;
    hide StoredOnce;
    hide StatusesTraced;
    hide LettersTraced;
  }

  // ----- a task left to itself -----

  /** The state after `n` steps of task `t`, with nothing else happening. */
  function Steps(s: State, t: nat, n: nat, cfg: Config): State
    decreases n
  {
    if n == 0 then s else Steps(Apply(s, Step(t, Go), cfg), t, n - 1, cfg)
  }

  lemma StepsMore(s: State, t: nat, c: nat, n: nat, cfg: Config)
    requires On(s, t, c) && !s.tasks[t].pc.AckUnreadable?
    ensures Steps(s, t, n + 1, cfg) == Steps(Advance(s, t, c, Go, cfg), t, n, cfg)
  {
    assert ScanOf(s, t) == c;
    hide Advance;
  }

  /** A task that has stored a status ends by taking its entry out of the pending ones. */
  lemma WrapsUp(s: State, t: nat, c: nat, cfg: Config)
    requires On(s, t, c) && s.tasks[t].pc.Wrap?
    ensures var e := s.tasks[t].entry;
            Steps(s, t, 2, cfg) == s.(tasks := s.tasks - {t}, pending := s.pending - {e},
                                      acked := if e in s.pending then s.acked + {e} else s.acked)
  {
    StepsMore(s, t, c, 1, cfg);
    var s1 := Advance(s, t, c, Go, cfg);
    StepsMore(s1, t, c, 0, cfg);
    assert s1.tasks - {t} == s.tasks - {t};
    if s.tasks[t].entry !in s.pending {
      assert s.pending - {s.tasks[t].entry} == s.pending;
    }
  }

  lemma StoresAndWrapsUp(s: State, t: nat, c: nat, cfg: Config)
    requires On(s, t, c) && (s.tasks[t].pc.Store? || s.tasks[t].pc.Republish?)
    ensures var e := s.tasks[t].entry;
            Steps(s, t, 3, cfg) == s.(status := s.status[c := s.tasks[t].pc.status], stored := s.stored + {c},
                                      tasks := s.tasks - {t}, pending := s.pending - {e},
                                      acked := if e in s.pending then s.acked + {e} else s.acked)
  {
    StepsMore(s, t, c, 2, cfg);
    var s1 := Advance(s, t, c, Go, cfg);
    hide Steps;
    WrapsUp(s1, t, c, cfg);
    assert s1.tasks - {t} == s.tasks - {t};
  }

  /** How processing that ended with a result comes to its end: the record goes, that result is stored and no other, and
      the entry is acknowledged. */
  lemma ResultIsDelivered(s: State, t: nat, c: nat, status: Status, cfg: Config)
    requires On(s, t, c) && s.tasks[t].pc == Finish(Deliver(status)) && s.tasks[t].entry in s.pending
    ensures var s' := Steps(s, t, 4, cfg);
            && s'.status == s.status[c := status] && s'.letters == s.letters && s'.journal == s.journal - {c}
            && t !in s'.tasks && s.tasks[t].entry !in s'.pending && s.tasks[t].entry in s'.acked
  {
    StepsMore(s, t, c, 3, cfg);
    var s1 := Advance(s, t, c, Go, cfg);
    hide Steps;
    StoresAndWrapsUp(s1, t, c, cfg);
  }

  /** How giving up comes to its end: the record goes, a letter with the reason is written, the status asks for a human,
      and the entry is acknowledged. */
  lemma GivingUpIsTold(s: State, t: nat, c: nat, reason: Reason, cfg: Config)
    requires On(s, t, c) && s.tasks[t].pc == Finish(GiveUp(reason)) && s.tasks[t].entry in s.pending
    ensures var s' := Steps(s, t, 5, cfg);
            && s'.status == s.status[c := ManualReview] && s'.letters == s.letters + [Letter(c, reason)]
            && s'.journal == s.journal - {c}
            && t !in s'.tasks && s.tasks[t].entry !in s'.pending && s.tasks[t].entry in s'.acked
  {
    StepsMore(s, t, c, 4, cfg);
    var s1 := Advance(s, t, c, Go, cfg);
    StepsMore(s1, t, c, 3, cfg);
    var s2 := Advance(s1, t, c, Go, cfg);
    hide Steps;
    StoresAndWrapsUp(s2, t, c, cfg);
  }

  /** A redelivered scan whose result is final is not processed again: its result is published once more. */
  lemma FinalIsRepublished(s: State, t: nat, c: nat, cfg: Config)
    requires On(s, t, c) && s.tasks[t].pc.Waiting? && s.tasks[t].entry in s.pending
    requires c in s.status && (s.status[c] == Done || s.status[c] == ManualReview)
    ensures var s' := Steps(s, t, 4, cfg);
            && s'.status == s.status && s'.letters == s.letters && s'.journal == s.journal
            && t !in s'.tasks && s.tasks[t].entry !in s'.pending && s.tasks[t].entry in s'.acked
  {
    StepsMore(s, t, c, 3, cfg);
    WaitingStep(s, t, c, Go, cfg);
    var s1 := Advance(s, t, c, Go, cfg);
    hide Steps;
    StoresAndWrapsUp(s1, t, c, cfg);
    assert s.status[c := s.status[c]] == s.status;
  }

  predicate CrashedBefore(s: State, c: nat, cfg: Config) {
    c in s.journal && s.journal[c].stage in {"structure", "yara", "cdr", "archive"} && s.journal[c].attempt >= cfg.maxCrashes
  }

  function NextAttempt(s: State, c: nat): nat { if c in s.journal then s.journal[c].attempt + 1 else 1 }

  lemma LooksAndBegins(s: State, t: nat, c: nat, cfg: Config)
    requires On(s, t, c) && s.tasks[t].pc.LoadJournal?
    ensures var a := NextAttempt(s, c);
            if CrashedBefore(s, c, cfg) then Steps(s, t, 1, cfg) == To(s, t, Finish(GiveUp(ParserCrash)))
            else Steps(s, t, 2, cfg) == To(s.(journal := s.journal[c := Attempt(a, "fetch")]), t, Processing(a, "fetch", "fetch"))
  {
    var pc := if CrashedBefore(s, c, cfg) then Finish(GiveUp(ParserCrash)) else Begin(NextAttempt(s, c));
    var s1 := Advance(s, t, c, Go, cfg);
    assert s1 == To(s, t, pc);
    StepsMore(s, t, c, 0, cfg);
    StepsMore(s, t, c, 1, cfg);
    assert Steps(s1, t, 0, cfg) == s1;
    hide CrashedOnContent;
    if pc.Begin? {
      StepsMore(s1, t, c, 0, cfg);
      var s2 := Advance(s1, t, c, Go, cfg);
      assert Steps(s2, t, 0, cfg) == s2;
    }
    hide Steps;
  }

  /** One without a result, or whose scan failed, is processed, as the next attempt by the journal, unless the last
      attempt crashed in a risky stage and there were as many as allowed. */
  lemma FailedIsTriedAgain(s: State, t: nat, c: nat, cfg: Config)
    requires On(s, t, c) && s.tasks[t].pc.Waiting? && (c in s.status ==> s.status[c] == Failed)
    ensures var a := NextAttempt(s, c);
            if CrashedBefore(s, c, cfg) then Steps(s, t, 2, cfg) == To(s, t, Finish(GiveUp(ParserCrash)))
            else Steps(s, t, 3, cfg) == To(s.(journal := s.journal[c := Attempt(a, "fetch")]), t, Processing(a, "fetch", "fetch"))
  {
    hide Advance;
    hide Steps;
    LooksUp(s, t, c, cfg);
    StepsMore(s, t, c, 1, cfg);
    StepsMore(s, t, c, 2, cfg);
    LooksAndBegins(To(s, t, LoadJournal), t, c, cfg);
  }

  lemma LooksUp(s: State, t: nat, c: nat, cfg: Config)
    requires On(s, t, c) && s.tasks[t].pc.Waiting? && (c in s.status ==> s.status[c] == Failed)
    ensures Advance(s, t, c, Go, cfg) == To(s, t, LoadJournal)
  {
  }

  // ----- the books -----

  /** Action `a` lets an entry in for processing: a new task is on it, and waits. */
  predicate LetsIn(s: State, a: Action, cfg: Config, e: nat) {
    && (a == Hand(e, if a.Hand? then a.task else 0) || a == Claim(e, if a.Claim? then a.task else 0))
    && a.task !in s.tasks && a.task in Apply(s, a, cfg).tasks && Apply(s, a, cfg).tasks[a.task].pc.Waiting?
  }

  /** How often an entry was let in. */
  function LetIns(actions: seq<Action>, cfg: Config, e: nat): nat {
    if actions == [] then 0
    else
      var n := |actions| - 1;
      LetIns(actions[..n], cfg, e) + if LetsIn(Run(actions[..n], cfg), actions[n], cfg, e) then 1 else 0
  }

  /** A worker dies here inside a risky stage of scan `c`. */
  predicate DiesRiskily(s: State, a: Action, c: nat) {
    && a.Kill? && a.task in s.tasks && ScanOf(s, a.task) == c && s.tasks[a.task].pc.Processing?
    && s.tasks[a.task].pc.stage in {"structure", "yara", "cdr", "archive"}
  }

  function RiskyDeaths(actions: seq<Action>, cfg: Config, c: nat): nat {
    if actions == [] then 0
    else
      var n := |actions| - 1;
      RiskyDeaths(actions[..n], cfg, c) + if DiesRiskily(Run(actions[..n], cfg), actions[n], c) then 1 else 0
  }

  lemma AdvanceKeepsBooks(s: State, t: nat, c: nat, choice: Choice, cfg: Config)
    requires t in s.tasks
    ensures var s' := Advance(s, t, c, choice, cfg);
            && s'.entered == s.entered && s'.deaths == s.deaths
            && ((s'.status == s.status && s'.stored == s.stored) || (c in s'.status && s'.stored == s.stored + {c}))
  {
    if s.tasks[t].pc.AckUnreadable? {
      assert Advance(s, t, c, choice, cfg) == s;
    }
    hide Advance;
    match s.tasks[t].pc
    case AckUnreadable =>
    case Waiting => WaitingStep(s, t, c, choice, cfg);
    case LoadJournal => LookStep(s, t, c, choice, cfg);
    case Begin(_) => BeginStep(s, t, c, choice, cfg);
    case Processing(_, _, _) => var pc := ProcessingStep(s, t, c, choice, cfg);
    case Finish(_) => FinishStep(s, t, c, choice, cfg);
    case WriteLetter(_) => LetterStep(s, t, c, choice, cfg);
    case Store(_) => StoreStep(s, t, c, choice, cfg);
    case Republish(_) => StoreStep(s, t, c, choice, cfg);
    case Wrap => LateStep(s, t, c, choice, cfg);
    case Ack => LateStep(s, t, c, choice, cfg);
  }

  lemma StepCounts(s: State, a: Action, cfg: Config, e: nat, c: nat)
    requires a.Step?
    ensures Count(Apply(s, a, cfg).entered, e) == Count(s.entered, e) && !LetsIn(s, a, cfg, e)
    ensures Count(Apply(s, a, cfg).deaths, c) == Count(s.deaths, c) && !DiesRiskily(s, a, c)
  {
    if a.task in s.tasks { AdvanceKeepsBooks(s, a.task, ScanOf(s, a.task), a.choice, cfg); }
    hide Advance;
  }

  lemma KillCounts(s: State, t: nat, cfg: Config, e: nat, c: nat)
    ensures Count(Apply(s, Kill(t), cfg).entered, e) == Count(s.entered, e) && !LetsIn(s, Kill(t), cfg, e)
    ensures Count(Apply(s, Kill(t), cfg).deaths, c) == Count(s.deaths, c) + if DiesRiskily(s, Kill(t), c) then 1 else 0
  {
    hide Advance;
    hide HandOut;
    hide ClaimEntry;
  }

  lemma ApplyCounts(s: State, a: Action, cfg: Config, e: nat, c: nat)
    ensures Count(Apply(s, a, cfg).entered, e) == Count(s.entered, e) + if LetsIn(s, a, cfg, e) then 1 else 0
    ensures Count(Apply(s, a, cfg).deaths, c) == Count(s.deaths, c) + if DiesRiskily(s, a, c) then 1 else 0
  {
    hide Advance;
    match a
    case Step(_, _) => StepCounts(s, a, cfg, e, c);
    case Kill(t) => KillCounts(s, t, cfg, e, c);
    case _ => hide Vanish;
  }

  /** The counters count what they are said to: how often an entry was let in, and how many deaths inside a risky stage
      there were on a scan. */
  lemma {:induction false} BooksAreTrue(actions: seq<Action>, cfg: Config, e: nat, c: nat)
    ensures Count(Run(actions, cfg).entered, e) == LetIns(actions, cfg, e)
    ensures Count(Run(actions, cfg).deaths, c) == RiskyDeaths(actions, cfg, c)
  {
    if actions != [] {
      var n := |actions| - 1;
      BooksAreTrue(actions[..n], cfg, e, c);
      ApplyCounts(Run(actions[..n], cfg), actions[n], cfg, e, c);
      hide LetsIn;
      hide DiesRiskily;
      hide Apply;
    }
  }

  lemma ApplyStores(s: State, a: Action, cfg: Config, c: nat)
    requires c in Apply(s, a, cfg).stored && c !in s.stored
    ensures c in Apply(s, a, cfg).status
  {
    if a.Step? {
      if a.task in s.tasks { AdvanceKeepsBooks(s, a.task, ScanOf(s, a.task), a.choice, cfg); }
      hide Advance;
    }
  }

  /** A scan counts as stored only if at some time it had a status. */
  lemma {:induction false} StoredHadStatus(actions: seq<Action>, cfg: Config, c: nat)
    requires c in Run(actions, cfg).stored
    ensures exists i: nat :: i <= |actions| && c in At(actions, i, cfg).status
  {
    if actions != [] {
      var n := |actions| - 1;
      var front, a := actions[..n], actions[n];
      assert actions == front + [a];
      LastAt(front, a, cfg);
      if c in Run(front, cfg).stored {
        StoredHadStatus(front, cfg, c);
        var i: nat :| i <= |front| && c in At(front, i, cfg).status;
        AtMore(front, a, i, cfg);
        assert i <= |actions| && c in At(actions, i, cfg).status;
      } else {
        ApplyStores(Run(front, cfg), a, cfg, c);
        assert actions[..|actions|] == actions;
        assert c in At(actions, |actions|, cfg).status;
      }
    }
  }
}
