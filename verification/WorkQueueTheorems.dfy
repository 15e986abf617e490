/** What holds of every run of the queue protocol; and how often a file can take a worker down: the attempt
    journal stops it after the first time. */
module WorkQueueTheorems {
  import opened Common
  import opened WorkQueue

  /** In every run, whatever workers die at whatever step: every published entry is undelivered, pending
      or acknowledged, and exactly one of them; a readable entry is acknowledged only after a status was
      stored for its scan; and a status that asks for a human has its dead letter. */
  lemma NoJobIsLost(actions: seq<Action>, cfg: Config, e: nat)
    requires e in Run(actions, cfg).stream
    ensures var s := Run(actions, cfg);
            && (e in s.undelivered || e in s.pending || e in s.acked)
            && !(e in s.undelivered && e in s.pending) && !(e in s.undelivered && e in s.acked) && !(e in s.pending && e in s.acked)
            && (e in s.acked && s.stream[e].Job? ==> s.stream[e].scan in s.stored)
    ensures var s := Run(actions, cfg);
            forall c :: c in s.status && s.status[c] == ManualReview ==> HasLetter(s, c)
  {
    RunKeepsInv(actions, cfg);
    assert EntryOk(Run(actions, cfg), e, cfg);
  }

  /** In every run an entry is let in for processing at most once more than the delivery limit. */
  lemma RetriesAreBounded(actions: seq<Action>, cfg: Config, e: nat)
    ensures Count(Run(actions, cfg).entered, e) <= cfg.maxDeliveries + 1
  {
    RunKeepsInv(actions, cfg);
    var s := Run(actions, cfg);
    if e in s.entered {
      assert EntryOk(s, e, cfg);
    }
  }

  // ----- one death is enough -----

  /** Task `t` works on scan `c`. */
  predicate On(s: State, t: nat, c: nat) {
    t in s.tasks && s.tasks[t].entry in s.stream && s.stream[s.tasks[t].entry] == Job(c)
  }

  ghost predicate Idle(s: State, c: nat) {
    forall t :: t in s.tasks ==> !On(s, t, c)
  }

  predicate IsJob(s: State, e: nat, c: nat) { e in s.stream && s.stream[e] == Job(c) }

  ghost predicate Published(s: State, c: nat) { exists e :: IsJob(s, e, c) }

  /** What an action has to respect for the sake of scan `c`; of other scans nothing is asked. A task on `c`
      dies only while its file is being processed, attempts at `c` do not overlap, and its journal record does
      not expire. Its status may expire if `c` is published only once. */
  ghost predicate CarefulFor(s: State, a: Action, c: nat, once: bool) {
    match a
    case Publish(e, payload) => once && payload == Job(c) && e !in s.stream ==> !Published(s, c)
    case Hand(e, _) => IsJob(s, e, c) ==> Idle(s, c)
    case Claim(e, _) => IsJob(s, e, c) ==> Idle(s, c)
    case Step(_, _) => true
    case Kill(t) => On(s, t, c) ==> s.tasks[t].pc.Processing?
    case ExpireStatus(k) => k == c ==> once
    case ExpireJournal(k) => k != c
  }

  ghost predicate CarefulRunFor(actions: seq<Action>, cfg: Config, c: nat, once: bool) {
    forall i: nat :: i < |actions| ==> CarefulFor(Run(actions[..i], cfg), actions[i], c, once)
  }

  predicate Settled(s: State, c: nat) { c in s.status && Terminal(s.status[c]) }

  /** The journal remembers that the last attempt ended inside a risky stage. */
  predicate Remembered(s: State, c: nat) { c in s.journal && Risky(s.journal[c].stage) }

  /** Not yet past the look into the journal, or about to give up. */
  predicate Harmless(pc: Pc) {
    pc.Waiting? || pc.LoadJournal? || (pc.Finish? && pc.after.GiveUp?)
  }

  predicate GivingUp(pc: Pc) { pc.WriteLetter? || pc == Store(ManualReview) }

  /** The status is stored and the entry about to be acknowledged. */
  predicate Late(pc: Pc) { pc.Wrap? || pc.Ack? }

  /** A task whose scan is settled repeats or confirms that, and never processes. */
  predicate Confirming(pc: Pc) {
    pc.Waiting? || pc.Republish? || Late(pc) || (pc.Finish? && pc.after.GiveUp?) || GivingUp(pc)
  }

  predicate PcSound(s: State, c: nat, pc: Pc, once: bool) {
    && (pc.Begin? ==> pc.attempt >= 1)
    && (pc.Processing? ==>
          && pc.attempt >= 1 && c in s.journal && s.journal[c] == Attempt(pc.attempt, pc.marked)
          && (Risky(pc.stage) ==> Risky(pc.marked)))
    && (pc.Republish? ==> Terminal(pc.status))
    && (Settled(s, c) ==> Confirming(pc))
    && (once && c in s.status ==> Late(pc))
    && (Count(s.deaths, c) > 0 ==>
          (!once && Settled(s, c)) || (Remembered(s, c) && Harmless(pc)) || GivingUp(pc) || (once && Late(pc)))
  }

  /** An entry of the scan was acknowledged. */
  ghost predicate Closed(s: State, c: nat) { exists e :: e in s.acked && IsJob(s, e, c) }

  /** No attempt at the scan will be made any more. */
  ghost predicate Over(s: State, c: nat, once: bool) { if once then Closed(s, c) else Settled(s, c) }

  ghost predicate OnlyOne(s: State, c: nat) { forall t, u :: On(s, t, c) && On(s, u, c) ==> t == u }

  ghost predicate Unique(s: State, c: nat) { forall e, d :: IsJob(s, e, c) && IsJob(s, d, c) ==> e == d }

  /** With nobody at work on the scan. */
  ghost predicate RestOk(s: State, c: nat, once: bool) {
    && (Count(s.deaths, c) > 0 ==> Remembered(s, c) || Over(s, c, once))
    && (once && c in s.status ==> Closed(s, c))
  }

  ghost predicate ScanOk(s: State, c: nat, once: bool) {
    && OnlyOne(s, c) && (once ==> Unique(s, c))
    && (c in s.journal ==> s.journal[c].attempt >= 1)
    && Count(s.deaths, c) <= 1
    && (forall t :: On(s, t, c) ==> PcSound(s, c, s.tasks[t].pc, once))
    && (Idle(s, c) ==> RestOk(s, c, once))
  }

  /** Nothing about scan `c` differs between `s` and `s'`. */
  ghost predicate SameFor(s: State, s': State, c: nat) {
    && (forall t :: On(s, t, c) <==> On(s', t, c))
    && (forall t :: On(s, t, c) ==> s'.tasks[t] == s.tasks[t])
    && (forall e :: IsJob(s, e, c) <==> IsJob(s', e, c))
    && (forall e :: IsJob(s, e, c) && e in s.acked ==> e in s'.acked)
    && (c in s.status <==> c in s'.status) && (c in s.status ==> s.status[c] == s'.status[c])
    && (c in s.journal <==> c in s'.journal) && (c in s.journal ==> s.journal[c] == s'.journal[c])
    && Count(s.deaths, c) == Count(s'.deaths, c)
  }

  lemma SameStaysOk(s: State, s': State, c: nat, once: bool)
    requires ScanOk(s, c, once) && SameFor(s, s', c)
    ensures ScanOk(s', c, once)
  {
    hide Risky;
    forall t | On(s', t, c)
      ensures PcSound(s', c, s'.tasks[t].pc, once)
    {
      assert On(s, t, c);
    }
    if Idle(s', c) {
      assert Idle(s, c) by {
        forall t | t in s.tasks
          ensures !On(s, t, c)
        {
          assert t in s'.tasks ==> !On(s', t, c);
        }
      }
      if Closed(s, c) {
        var e :| e in s.acked && IsJob(s, e, c);
        assert e in s'.acked && IsJob(s', e, c);
      }
    }
  }

  ghost predicate SameBut<V(!new)>(m: map<nat, V>, m': map<nat, V>, k: nat) {
    forall j :: j != k ==> (j in m <==> j in m') && (j in m ==> m[j] == m'[j])
  }

  /** Only task `t` moved, on its entry. */
  ghost predicate OnlyTask(s: State, s': State, t: nat) {
    s'.stream == s.stream && SameBut(s.tasks, s'.tasks, t)
    && (t in s'.tasks ==> t in s.tasks && s'.tasks[t].entry == s.tasks[t].entry)
  }

  // ----- steps of the task on the scan -----

  /** What a task relies on when it takes a step of its own. */
  ghost predicate Ready(s: State, t: nat, c: nat, once: bool) {
    && On(s, t, c) && PcSound(s, c, s.tasks[t].pc, once)
    && (s.tasks[t].entry in s.pending || s.tasks[t].entry in s.acked)
    && (c in s.journal ==> s.journal[c].attempt >= 1)
  }

  ghost predicate StaysSound(s: State, s': State, t: nat, c: nat, once: bool) {
    && OnlyTask(s, s', t) && s'.deaths == s.deaths
    && (c in s'.journal ==> s'.journal[c].attempt >= 1)
    && (t in s'.tasks ==> PcSound(s', c, s'.tasks[t].pc, once))
    && (t !in s'.tasks ==> RestOk(s', c, once))
  }

  lemma OwnStepKeepsOk(s: State, s': State, t: nat, c: nat, once: bool)
    requires ScanOk(s, c, once) && On(s, t, c) && OnlyTask(s, s', t)
    requires Count(s'.deaths, c) <= 1 && (c in s'.journal ==> s'.journal[c].attempt >= 1)
    requires t in s'.tasks ==> PcSound(s', c, s'.tasks[t].pc, once)
    requires t !in s'.tasks ==> RestOk(s', c, once)
    ensures ScanOk(s', c, once)
  {
    hide PcSound;
    hide RestOk;
    forall u | On(s', u, c)
      ensures u == t
    {
      assert On(s, u, c);
    }
    assert t in s'.tasks ==> On(s', t, c);
    assert forall e :: IsJob(s', e, c) ==> IsJob(s, e, c);
  }

  lemma LookupStaysSound(s: State, t: nat, c: nat, choice: Choice, cfg: Config, once: bool)
    requires Ready(s, t, c, once) && s.tasks[t].pc.Waiting?
    ensures StaysSound(s, Advance(s, t, c, choice, cfg), t, c, once)
  {
    hide Risky;
    hide RestOk;
  }

  /** A scan that took a worker down once is given up here, and not processed again. */
  lemma JournalCheckStaysSound(s: State, t: nat, c: nat, choice: Choice, cfg: Config, once: bool)
    requires Ready(s, t, c, once) && cfg.maxCrashes == 1 && s.tasks[t].pc.LoadJournal?
    ensures StaysSound(s, Advance(s, t, c, choice, cfg), t, c, once)
    ensures Count(s.deaths, c) > 0 ==> Advance(s, t, c, choice, cfg) == To(s, t, Finish(GiveUp(ParserCrash)))
  {
    hide Risky;
    hide RestOk;
  }

  lemma BeginStaysSound(s: State, t: nat, c: nat, choice: Choice, cfg: Config, once: bool)
    requires Ready(s, t, c, once) && s.tasks[t].pc.Begin?
    ensures StaysSound(s, Advance(s, t, c, choice, cfg), t, c, once)
  {
    assert !Risky("fetch");
    hide Risky;
    hide RestOk;
  }

  lemma MarkStaysSound(s: State, t: nat, c: nat, x: string, once: bool)
    requires Ready(s, t, c, once) && s.tasks[t].pc.Processing? && Risky(x)
    ensures var pc := s.tasks[t].pc;
            StaysSound(s, To(s.(journal := s.journal[c := Attempt(pc.attempt, x)]), t, pc.(marked := x)), t, c, once)
  {
    hide Risky;
    hide RestOk;
    hide Count;
  }

  lemma MoveStaysSound(s: State, t: nat, c: nat, pc: Pc, once: bool)
    requires Ready(s, t, c, once) && PcSound(s, c, pc, once)
    ensures StaysSound(s, To(s, t, pc), t, c, once)
  {
    hide Risky;
    hide RestOk;
    hide Count;
  }

  lemma NoMoveStaysSound(s: State, t: nat, c: nat, once: bool)
    requires Ready(s, t, c, once)
    ensures StaysSound(s, s, t, c, once)
  {
    hide PcSound;
    hide RestOk;
  }

  lemma ProcessingStaysSound(s: State, t: nat, c: nat, choice: Choice, cfg: Config, once: bool)
    requires Ready(s, t, c, once) && s.tasks[t].pc.Processing?
    ensures StaysSound(s, Advance(s, t, c, choice, cfg), t, c, once)
  {
    var pc := s.tasks[t].pc;
    NoMoveStaysSound(s, t, c, once);
    match choice
    case MarkStage(x) =>
      if Risky(x) { MarkStaysSound(s, t, c, x, once); }
      hide StaysSound;
      hide To;
    case EnterStage(x) =>
      if !Risky(x) || pc.marked == x {
        MoveStaysSound(s, t, c, pc.(stage := x), once);
      }
      hide StaysSound;
      hide To;
    case Outcome(after) =>
      if after != Deliver(ManualReview) && (after.GiveUp? ==> after.reason == ScanFailed) {
        MoveStaysSound(s, t, c, Finish(after), once);
      }
      hide StaysSound;
      hide To;
    case Go =>
  }

  lemma StoringStaysSound(s: State, t: nat, c: nat, status: Status, once: bool)
    requires Ready(s, t, c, once) && (s.tasks[t].pc == Republish(status) || s.tasks[t].pc == Store(status))
    ensures StaysSound(s, StoreStatus(s, t, c, status), t, c, once)
  {
    hide Risky;
    hide RestOk;
  }

  lemma FinishStaysSound(s: State, t: nat, c: nat, choice: Choice, cfg: Config, once: bool)
    requires Ready(s, t, c, once) && s.tasks[t].pc.Finish? && !s.tasks[t].pc.after.Leave?
    ensures StaysSound(s, Advance(s, t, c, choice, cfg), t, c, once)
  {
    hide Risky;
    hide RestOk;
  }

  lemma LeaveStaysSound(s: State, t: nat, c: nat, choice: Choice, cfg: Config, once: bool)
    requires Ready(s, t, c, once) && s.tasks[t].pc == Finish(Leave)
    ensures StaysSound(s, Advance(s, t, c, choice, cfg), t, c, once)
  {
    hide Risky;
    hide Closed;
  }

  lemma LateStepStaysSound(s: State, t: nat, c: nat, choice: Choice, cfg: Config, once: bool)
    requires Ready(s, t, c, once) && (s.tasks[t].pc.WriteLetter? || s.tasks[t].pc.Wrap?)
    ensures StaysSound(s, Advance(s, t, c, choice, cfg), t, c, once)
  {
    hide Risky;
    hide RestOk;
  }

  lemma AckStaysSound(s: State, t: nat, c: nat, once: bool)
    requires Ready(s, t, c, once) && s.tasks[t].pc.Ack?
    ensures StaysSound(s, Acknowledge(s, t), t, c, once)
  {
    hide Risky;
    var e, s' := s.tasks[t].entry, Acknowledge(s, t);
    assert IsJob(s', e, c) && e in s'.acked;
    assert Closed(s', c);
    hide Closed;
  }

  lemma AdvanceStaysSound(s: State, t: nat, c: nat, choice: Choice, cfg: Config, once: bool)
    requires Ready(s, t, c, once) && cfg.maxCrashes == 1 && !s.tasks[t].pc.AckUnreadable?
    ensures StaysSound(s, Advance(s, t, c, choice, cfg), t, c, once)
  {
    hide StaysSound;
    hide PcSound;
    match s.tasks[t].pc
    case AckUnreadable =>
    case Waiting => LookupStaysSound(s, t, c, choice, cfg, once);
    case LoadJournal => JournalCheckStaysSound(s, t, c, choice, cfg, once);
    case Begin(_) => BeginStaysSound(s, t, c, choice, cfg, once);
    case Processing(_, _, _) => ProcessingStaysSound(s, t, c, choice, cfg, once);
    case Republish(status) => StoringStaysSound(s, t, c, status, once);
    case Store(status) => StoringStaysSound(s, t, c, status, once);
    case Finish(after) =>
      if after.Leave? {
        LeaveStaysSound(s, t, c, choice, cfg, once);
      } else {
        FinishStaysSound(s, t, c, choice, cfg, once);
      }
    case WriteLetter(_) => LateStepStaysSound(s, t, c, choice, cfg, once);
    case Wrap => LateStepStaysSound(s, t, c, choice, cfg, once);
    case Ack => AckStaysSound(s, t, c, once);
  }

  lemma OwnAdvanceKeepsOk(s: State, t: nat, c: nat, choice: Choice, cfg: Config, once: bool)
    requires ScanOk(s, c, once) && Inv(s, cfg) && On(s, t, c) && cfg.maxCrashes == 1
    ensures ScanOk(Apply(s, Step(t, choice), cfg), c, once)
  {
    hide Advance;
    hide PcSound;
    EntryOfTask(s, t, cfg);
    hide Inv;
    AdvanceStaysSound(s, t, c, choice, cfg, once);
    OwnStepKeepsOk(s, Advance(s, t, c, choice, cfg), t, c, once);
  }

  /** The entry of a task is in the stream, was handed out, and is readable unless the task only acknowledges. */
  lemma EntryOfTask(s: State, t: nat, cfg: Config)
    requires Inv(s, cfg) && t in s.tasks
    ensures var e := s.tasks[t].entry;
            && e in s.stream && (e in s.pending || e in s.acked)
            && (s.tasks[t].pc.AckUnreadable? <==> s.stream[e].Unreadable?)
  {
    assert TaskOk(s, t) && EntryOk(s, s.tasks[t].entry, cfg);
  }

  /** A death while processing: inside a risky stage the journal names that stage. */
  lemma OwnDeathKeepsOk(s: State, t: nat, c: nat, once: bool)
    requires ScanOk(s, c, once) && On(s, t, c) && s.tasks[t].pc.Processing?
    ensures ScanOk(Vanish(s, t), c, once)
  {
    hide Risky;
    assert PcSound(s, c, s.tasks[t].pc, once);
    hide Closed;
    OwnStepKeepsOk(s, Vanish(s, t), t, c, once);
  }

  // ----- steps elsewhere -----

  /** Task `t`, which works on scan `d`, changes nothing but what belongs to `d` and to its entry. */
  ghost predicate Touches(s: State, s': State, t: nat, d: nat) {
    && OnlyTask(s, s', t) && SameBut(s.status, s'.status, d) && SameBut(s.journal, s'.journal, d) && SameBut(s.deaths, s'.deaths, d)
    && (forall e :: e in s.acked ==> e in s'.acked)
  }

  lemma TouchesIsSameFor(s: State, s': State, t: nat, d: nat, c: nat)
    requires Touches(s, s', t, d) && d != c && t in s.tasks && !On(s, t, c)
    ensures SameFor(s, s', c)
  {
  }

  lemma MoveTouches(s: State, s': State, t: nat, d: nat, pc: Pc)
    requires t in s.tasks
    requires s' == To(s.(status := s'.status, journal := s'.journal, stored := s'.stored, letters := s'.letters), t, pc)
    requires SameBut(s.status, s'.status, d) && SameBut(s.journal, s'.journal, d)
    ensures Touches(s, s', t, d)
  {
  }

  lemma EndTouches(s: State, s': State, t: nat, d: nat)
    requires t in s.tasks
    requires s' == s.(tasks := s.tasks - {t}, pending := s'.pending, acked := s'.acked, journal := s'.journal, deaths := s'.deaths)
    requires SameBut(s.journal, s'.journal, d) && SameBut(s.deaths, s'.deaths, d) && (forall e :: e in s.acked ==> e in s'.acked)
    ensures Touches(s, s', t, d)
  {
  }

  lemma ToTouches(s: State, t: nat, d: nat, pc: Pc)
    requires t in s.tasks
    ensures Touches(s, To(s, t, pc), t, d)
  {
  }

  lemma LookupTouches(s: State, t: nat, d: nat, choice: Choice, cfg: Config)
    requires t in s.tasks && (s.tasks[t].pc.Waiting? || s.tasks[t].pc.LoadJournal?)
    ensures Touches(s, Advance(s, t, d, choice, cfg), t, d)
  {
    hide Touches;
    hide To;
    hide CrashedOnContent;
    if s.tasks[t].pc.Waiting? {
      ToTouches(s, t, d, LoadJournal);
      if d in s.status { ToTouches(s, t, d, Republish(s.status[d])); }
    } else {
      ToTouches(s, t, d, Begin(1));
      ToTouches(s, t, d, Finish(GiveUp(ParserCrash)));
      if d in s.journal { ToTouches(s, t, d, Begin(s.journal[d].attempt + 1)); }
    }
  }

  lemma BeginTouches(s: State, t: nat, d: nat, choice: Choice, cfg: Config)
    requires t in s.tasks && s.tasks[t].pc.Begin?
    ensures Touches(s, Advance(s, t, d, choice, cfg), t, d)
  {
    hide Touches;
    hide Risky;
    var s' := Advance(s, t, d, choice, cfg);
    MoveTouches(s, s', t, d, s'.tasks[t].pc);
  }

  lemma ProcessingTouches(s: State, t: nat, d: nat, choice: Choice, cfg: Config)
    requires t in s.tasks && s.tasks[t].pc.Processing?
    ensures Touches(s, Advance(s, t, d, choice, cfg), t, d)
  {
    hide Risky;
    hide Touches;
    var s' := Advance(s, t, d, choice, cfg);
    if s' == s {
      NoneTouches(s, t, d);
    } else {
      MoveTouches(s, s', t, d, s'.tasks[t].pc);
    }
  }

  lemma NoneTouches(s: State, t: nat, d: nat)
    requires t in s.tasks
    ensures Touches(s, s, t, d)
  {
  }

  lemma FinishTouches(s: State, t: nat, d: nat, choice: Choice, cfg: Config)
    requires t in s.tasks && s.tasks[t].pc.Finish?
    ensures Touches(s, Advance(s, t, d, choice, cfg), t, d)
  {
    hide Touches;
    var s' := Advance(s, t, d, choice, cfg);
    if s.tasks[t].pc.after.Leave? {
      EndTouches(s, s', t, d);
    } else {
      MoveTouches(s, s', t, d, s'.tasks[t].pc);
    }
  }

  lemma AckTouches(s: State, t: nat, d: nat)
    requires t in s.tasks
    ensures Touches(s, Acknowledge(s, t), t, d)
  {
    hide Touches;
    EndTouches(s, Acknowledge(s, t), t, d);
  }

  lemma StoreTouches(s: State, t: nat, d: nat, status: Status)
    requires t in s.tasks
    ensures Touches(s, StoreStatus(s, t, d, status), t, d)
  {
    hide Touches;
    MoveTouches(s, StoreStatus(s, t, d, status), t, d, Wrap);
  }

  lemma LetterTouches(s: State, t: nat, d: nat, reason: Reason)
    requires t in s.tasks
    ensures Touches(s, To(s.(letters := s.letters + [Letter(d, reason)]), t, Store(ManualReview)), t, d)
  {
  }

  lemma LateTouches(s: State, t: nat, d: nat, choice: Choice, cfg: Config)
    requires t in s.tasks
    requires var pc := s.tasks[t].pc; pc.Republish? || pc.Store? || pc.WriteLetter? || pc.Wrap? || pc.Ack?
    ensures Touches(s, Advance(s, t, d, choice, cfg), t, d)
  {
    hide Touches;
    hide To;
    hide StoreStatus;
    hide Acknowledge;
    match s.tasks[t].pc
    case Republish(status) => StoreTouches(s, t, d, status);
    case Store(status) => StoreTouches(s, t, d, status);
    case WriteLetter(reason) => LetterTouches(s, t, d, reason);
    case Wrap => ToTouches(s, t, d, Ack);
    case _ => AckTouches(s, t, d);
  }

  lemma AdvanceTouches(s: State, t: nat, d: nat, choice: Choice, cfg: Config)
    requires t in s.tasks && !s.tasks[t].pc.AckUnreadable?
    ensures Touches(s, Advance(s, t, d, choice, cfg), t, d)
  {
    hide Touches;
    match s.tasks[t].pc
    case AckUnreadable =>
    case Waiting => LookupTouches(s, t, d, choice, cfg);
    case LoadJournal => LookupTouches(s, t, d, choice, cfg);
    case Begin(_) => BeginTouches(s, t, d, choice, cfg);
    case Processing(_, _, _) => ProcessingTouches(s, t, d, choice, cfg);
    case Finish(_) => FinishTouches(s, t, d, choice, cfg);
    case Republish(_) => LateTouches(s, t, d, choice, cfg);
    case Store(_) => LateTouches(s, t, d, choice, cfg);
    case WriteLetter(_) => LateTouches(s, t, d, choice, cfg);
    case Wrap => LateTouches(s, t, d, choice, cfg);
    case Ack => LateTouches(s, t, d, choice, cfg);
  }

  lemma UnreadableAckElsewhere(s: State, t: nat, c: nat)
    requires t in s.tasks && !On(s, t, c)
    ensures SameFor(s, Acknowledge(s, t), c)
  {
    EndTouches(s, Acknowledge(s, t), t, c + 1);
    TouchesIsSameFor(s, Acknowledge(s, t), t, c + 1, c);
  }

  lemma OtherStepElsewhere(s: State, t: nat, c: nat, choice: Choice, cfg: Config)
    requires Inv(s, cfg) && t in s.tasks && !On(s, t, c)
    ensures SameFor(s, Apply(s, Step(t, choice), cfg), c)
  {
    EntryOfTask(s, t, cfg);
    hide Inv;
    hide Advance;
    hide SameFor;
    hide Touches;
    if s.tasks[t].pc.AckUnreadable? {
      UnreadableAckElsewhere(s, t, c);
    } else {
      AdvanceTouches(s, t, ScanOf(s, t), choice, cfg);
      TouchesIsSameFor(s, Advance(s, t, ScanOf(s, t), choice, cfg), t, ScanOf(s, t), c);
    }
  }

  lemma OtherDeathElsewhere(s: State, t: nat, c: nat, cfg: Config)
    requires Inv(s, cfg) && t in s.tasks && !On(s, t, c)
    ensures SameFor(s, Vanish(s, t), c)
  {
    EntryOfTask(s, t, cfg);
    hide Inv;
    hide Risky;
    if s.tasks[t].pc.AckUnreadable? {
      EndTouches(s, Vanish(s, t), t, c + 1);
      TouchesIsSameFor(s, Vanish(s, t), t, c + 1, c);
    } else {
      EndTouches(s, Vanish(s, t), t, ScanOf(s, t));
      TouchesIsSameFor(s, Vanish(s, t), t, ScanOf(s, t), c);
    }
  }

  /** A new task, on an entry of the scan that nobody works on, or on another entry. */
  lemma NewTaskKeepsOk(s: State, s': State, e: nat, t: nat, c: nat, pc: Pc, once: bool)
    requires ScanOk(s, c, once) && IsJob(s, e, c) && e !in s.acked && Idle(s, c) && t !in s.tasks
    requires pc == Waiting || pc == Finish(GiveUp(JobAbandoned))
    requires s'.stream == s.stream && s'.tasks == s.tasks[t := Task(e, pc)] && s'.acked == s.acked
    requires s'.status == s.status && s'.journal == s.journal && s'.deaths == s.deaths
    ensures ScanOk(s', c, once)
  {
    hide Risky;
    forall u | On(s', u, c)
      ensures u == t
    {
      assert u != t ==> On(s, u, c);
    }
    assert On(s', t, c);
    assert forall d :: IsJob(s', d, c) ==> IsJob(s, d, c);
    assert once ==> !Closed(s, c);
    hide Closed;
    assert PcSound(s', c, pc, once);
  }

  lemma NewTaskElsewhere(s: State, s': State, e: nat, t: nat, c: nat, pc: Pc)
    requires e in s.stream && !IsJob(s, e, c) && t !in s.tasks
    requires s'.stream == s.stream && s'.tasks == s.tasks[t := Task(e, pc)] && s'.acked == s.acked
    requires s'.status == s.status && s'.journal == s.journal && s'.deaths == s.deaths
    ensures SameFor(s, s', c)
  {
  }

  lemma DeliveryKeepsOk(s: State, s': State, e: nat, t: nat, c: nat, pc: Pc, once: bool)
    requires ScanOk(s, c, once) && e in s.stream && e !in s.acked && t !in s.tasks
    requires IsJob(s, e, c) ==> Idle(s, c) && (pc == Waiting || pc == Finish(GiveUp(JobAbandoned)))
    requires s'.stream == s.stream && s'.tasks == s.tasks[t := Task(e, pc)] && s'.acked == s.acked
    requires s'.status == s.status && s'.journal == s.journal && s'.deaths == s.deaths
    ensures ScanOk(s', c, once)
  {
    hide ScanOk;
    if IsJob(s, e, c) {
      NewTaskKeepsOk(s, s', e, t, c, pc, once);
    } else {
      NewTaskElsewhere(s, s', e, t, c, pc);
      SameStaysOk(s, s', c, once);
    }
  }

  lemma HandKeepsOk(s: State, e: nat, t: nat, cfg: Config, c: nat, once: bool)
    requires ScanOk(s, c, once) && Inv(s, cfg) && (IsJob(s, e, c) ==> Idle(s, c))
    ensures ScanOk(HandOut(s, e, t), c, once)
  {
    hide ScanOk;
    hide Idle;
    var s' := HandOut(s, e, t);
    if e in s.undelivered && e in s.stream && t !in s.tasks {
      InvEntry(s, e, cfg);
      hide Inv;
      DeliveryKeepsOk(s, s', e, t, c, if s.stream[e].Unreadable? then AckUnreadable else Waiting, once);
    }
  }

  lemma ClaimKeepsOk(s: State, e: nat, t: nat, cfg: Config, c: nat, once: bool)
    requires ScanOk(s, c, once) && Inv(s, cfg) && (IsJob(s, e, c) ==> Idle(s, c))
    ensures ScanOk(ClaimEntry(s, e, t, cfg), c, once)
  {
    hide ScanOk;
    hide Idle;
    if e in s.pending && e in s.stream && t !in s.tasks {
      InvEntry(s, e, cfg);
      hide Inv;
      DeliveryKeepsOk(s, ClaimEntry(s, e, t, cfg), e, t, c, ClaimedPc(s, e, cfg), once);
    }
  }

  lemma PublishKeepsOk(s: State, s': State, e: nat, payload: Payload, cfg: Config, c: nat, once: bool)
    requires ScanOk(s, c, once) && Inv(s, cfg) && e !in s.stream
    requires once && payload == Job(c) ==> !Published(s, c)
    requires s' == s.(stream := s.stream[e := payload], undelivered := s'.undelivered)
    ensures ScanOk(s', c, once)
  {
    hide Risky;
    assert forall t :: t in s.tasks ==> s.tasks[t].entry in s.stream by {
      forall t | t in s.tasks
        ensures s.tasks[t].entry in s.stream
      {
        EntryOfTask(s, t, cfg);
      }
    }
    hide Inv;
    assert forall t :: On(s, t, c) <==> On(s', t, c);
    assert forall d :: d != e ==> (IsJob(s, d, c) <==> IsJob(s', d, c));
    if Idle(s', c) && Closed(s, c) {
      var d :| d in s.acked && IsJob(s, d, c);
      assert IsJob(s', d, c);
    }
    assert Idle(s', c) ==> Idle(s, c);
  }

  /** Forgetting the status of a scan published once: it has been acknowledged, or is about to be. */
  lemma ExpiryKeepsOk(s: State, c: nat)
    requires ScanOk(s, c, true)
    ensures ScanOk(s.(status := s.status - {c}), c, true)
  {
    hide Risky;
    var s' := s.(status := s.status - {c});
    assert forall t :: On(s, t, c) <==> On(s', t, c);
    assert forall e :: IsJob(s, e, c) <==> IsJob(s', e, c);
    assert Idle(s', c) ==> Idle(s, c);
  }

  lemma OtherExpiryElsewhere(s: State, a: Action, cfg: Config, c: nat)
    requires (a.ExpireStatus? || a.ExpireJournal?) && a.scan != c
    ensures SameFor(s, Apply(s, a, cfg), c)
  {
  }

  lemma CarefulKeepsOk(s: State, a: Action, cfg: Config, c: nat, once: bool)
    requires ScanOk(s, c, once) && Inv(s, cfg) && CarefulFor(s, a, c, once) && cfg.maxCrashes == 1
    ensures ScanOk(Apply(s, a, cfg), c, once)
  {
    hide Inv;
    hide ScanOk;
    hide SameFor;
    hide Advance;
    match a
    case Publish(e, payload) => if e !in s.stream { PublishKeepsOk(s, Apply(s, a, cfg), e, payload, cfg, c, once); }
    case Hand(e, t) => HandKeepsOk(s, e, t, cfg, c, once);
    case Claim(e, t) => ClaimKeepsOk(s, e, t, cfg, c, once);
    case Step(t, choice) =>
      if t in s.tasks {
        if On(s, t, c) {
          OwnAdvanceKeepsOk(s, t, c, choice, cfg, once);
        } else {
          OtherStepElsewhere(s, t, c, choice, cfg);
          SameStaysOk(s, Apply(s, a, cfg), c, once);
        }
      }
    case Kill(t) =>
      if t in s.tasks {
        if On(s, t, c) {
          OwnDeathKeepsOk(s, t, c, once);
        } else {
          OtherDeathElsewhere(s, t, c, cfg);
          SameStaysOk(s, Apply(s, a, cfg), c, once);
        }
      }
    case ExpireStatus(k) =>
      if k == c {
        ExpiryKeepsOk(s, c);
      } else {
        OtherExpiryElsewhere(s, a, cfg, c);
        SameStaysOk(s, Apply(s, a, cfg), c, once);
      }
    case ExpireJournal(_) =>
      OtherExpiryElsewhere(s, a, cfg, c);
      SameStaysOk(s, Apply(s, a, cfg), c, once);
  }

  lemma {:induction false} RunKeepsOk(actions: seq<Action>, cfg: Config, c: nat, once: bool)
    requires CarefulRunFor(actions, cfg, c, once) && cfg.maxCrashes == 1
    ensures ScanOk(Run(actions, cfg), c, once)
  {
    hide Apply;
    if actions == [] {
      InitIsOk(c, once);
    } else {
      var n := |actions| - 1;
      forall i: nat | i < n
        ensures CarefulFor(Run(actions[..n][..i], cfg), actions[..n][i], c, once)
      {
        assert actions[..n][..i] == actions[..i];
        assert CarefulFor(Run(actions[..i], cfg), actions[i], c, once);
      }
      RunKeepsOk(actions[..n], cfg, c, once);
      RunKeepsInv(actions[..n], cfg);
      assert CarefulFor(Run(actions[..n], cfg), actions[n], c, once);
      CarefulKeepsOk(Run(actions[..n], cfg), actions[n], cfg, c, once);
    }
  }

  lemma InitIsOk(c: nat, once: bool)
    ensures ScanOk(Init, c, once)
  {
  }

  /** When tasks on a scan die only while processing its file, attempts at it do not overlap, its journal
      record does not expire and one crash is enough to give a file up: the scan has at most one hard death
      inside a risky stage. What happens to other scans does not matter. If the scan is published more than
      once, its status must not expire either. */
  lemma AtMostOneHardDeath(actions: seq<Action>, cfg: Config, c: nat, once: bool)
    requires CarefulRunFor(actions, cfg, c, once) && cfg.maxCrashes == 1
    ensures Count(Run(actions, cfg).deaths, c) <= 1
  {
    RunKeepsOk(actions, cfg, c, once);
  }

  // ----- why each condition is needed -----

  /** A condition that is given up: attempts may overlap, a task may die at any step, the journal record may
      expire, or the status may. */
  datatype Waived = Claims | Deaths | Records | Statuses | Nothing

  predicate Waives(v: Waived, a: Action) {
    match v
    case Claims => a.Claim?
    case Deaths => a.Kill?
    case Records => a.ExpireJournal?
    case Statuses => a.ExpireStatus?
    case Nothing => false
  }

  /** As careful for the sake of scan `c` as the bound above demands, but for one condition. */
  ghost predicate CarefulBut(actions: seq<Action>, cfg: Config, c: nat, v: Waived) {
    forall i: nat :: i < |actions| ==> Waives(v, actions[i]) || CarefulFor(Run(actions[..i], cfg), actions[i], c, false)
  }

  lemma RunSnoc(actions: seq<Action>, a: Action, cfg: Config, c: nat, v: Waived)
    requires CarefulBut(actions, cfg, c, v) && (Waives(v, a) || CarefulFor(Run(actions, cfg), a, c, false))
    ensures Run(actions + [a], cfg) == Apply(Run(actions, cfg), a, cfg)
    ensures CarefulBut(actions + [a], cfg, c, v)
  {
    hide Run;
    hide Waives;
    var longer := actions + [a];
    assert longer[..|actions|] == actions;
    forall i: nat | i < |longer|
      ensures Waives(v, longer[i]) || CarefulFor(Run(longer[..i], cfg), longer[i], c, false)
    {
      assert i < |actions| ==> longer[..i] == actions[..i];
    }
    LastStep(longer, cfg);
  }

  lemma LastStep(actions: seq<Action>, cfg: Config)
    requires actions != []
    ensures Run(actions, cfg) == Apply(Run(actions[..|actions| - 1], cfg), actions[|actions| - 1], cfg)
  {
  }

  lemma LookSteps(s: State, t: nat, c: nat, cfg: Config)
    requires On(s, t, c) && s.tasks[t].pc == Waiting && c !in s.status && c !in s.journal
    ensures Apply(Apply(s, Step(t, Go), cfg), Step(t, Go), cfg) == s.(tasks := s.tasks[t := s.tasks[t].(pc := Begin(1))])
  {
    var s1 := To(s, t, LoadJournal);
    assert Apply(s, Step(t, Go), cfg) == s1;
    assert To(s1, t, Begin(1)).tasks == s.tasks[t := s.tasks[t].(pc := Begin(1))];
  }

  /** The steps that bring a task past its look into the journal. */
  lemma PastTheJournal(actions: seq<Action>, t: nat, c: nat, cfg: Config, v: Waived) returns (longer: seq<Action>)
    requires On(Run(actions, cfg), t, c) && Run(actions, cfg).tasks[t].pc == Waiting
    requires c !in Run(actions, cfg).status && c !in Run(actions, cfg).journal
    requires CarefulBut(actions, cfg, c, v)
    ensures CarefulBut(longer, cfg, c, v)
    ensures var s := Run(actions, cfg); Run(longer, cfg) == s.(tasks := s.tasks[t := s.tasks[t].(pc := Begin(1))])
  {
    hide Run;
    hide Apply;
    hide CarefulBut;
    LookSteps(Run(actions, cfg), t, c, cfg);
    RunSnoc(actions, Step(t, Go), cfg, c, v);
    RunSnoc(actions + [Step(t, Go)], Step(t, Go), cfg, c, v);
    longer := actions + [Step(t, Go)] + [Step(t, Go)];
  }

  lemma DeathSteps(s: State, t: nat, c: nat, a: nat, cfg: Config)
    requires On(s, t, c) && s.tasks[t].pc == Begin(a)
    ensures var s1 := Apply(s, Step(t, Go), cfg);
            var s2 := Apply(s1, Step(t, MarkStage("yara")), cfg);
            var s3 := Apply(s2, Step(t, EnterStage("yara")), cfg);
            && t in s3.tasks && s3.tasks[t].pc.Processing?
            && Apply(s3, Kill(t), cfg) == s.(tasks := s.tasks - {t}, journal := s.journal[c := Attempt(a, "yara")],
                                             deaths := s.deaths[c := Count(s.deaths, c) + 1])
  {
    assert Risky("yara");
    hide Risky;
    var s1 := Apply(s, Step(t, Go), cfg);
    assert s1 == To(s.(journal := s.journal[c := Attempt(a, "fetch")]), t, Processing(a, "fetch", "fetch"));
    var s2 := Apply(s1, Step(t, MarkStage("yara")), cfg);
    assert s2.journal == s.journal[c := Attempt(a, "yara")];
    var s3 := Apply(s2, Step(t, EnterStage("yara")), cfg);
    assert s3.tasks - {t} == s.tasks - {t};
  }

  /** The steps of an attempt that dies in the parser. */
  lemma DiesInParser(actions: seq<Action>, t: nat, c: nat, a: nat, cfg: Config, v: Waived) returns (longer: seq<Action>)
    requires On(Run(actions, cfg), t, c) && Run(actions, cfg).tasks[t].pc == Begin(a)
    requires CarefulBut(actions, cfg, c, v)
    ensures CarefulBut(longer, cfg, c, v)
    ensures var s := Run(actions, cfg);
            Run(longer, cfg) == s.(tasks := s.tasks - {t}, journal := s.journal[c := Attempt(a, "yara")],
                                   deaths := s.deaths[c := Count(s.deaths, c) + 1])
  {
    hide Run;
    hide Apply;
    hide CarefulBut;
    var a1 := actions + [Step(t, Go)];
    var a2 := a1 + [Step(t, MarkStage("yara"))];
    var a3 := a2 + [Step(t, EnterStage("yara"))];
    longer := a3 + [Kill(t)];
    DeathSteps(Run(actions, cfg), t, c, a, cfg);
    RunSnoc(actions, Step(t, Go), cfg, c, v);
    RunSnoc(a1, Step(t, MarkStage("yara")), cfg, c, v);
    RunSnoc(a2, Step(t, EnterStage("yara")), cfg, c, v);
    RunSnoc(a3, Kill(t), cfg, c, v);
  }

  /** The books about scan `c`, and nobody at work. */
  predicate AtRest(s: State, c: nat, journal: map<nat, Attempt>, deaths: nat) {
    s.tasks == map[] && s.journal == journal && s.status == map[] && Count(s.deaths, c) == deaths
  }

  /** Entry `e` holds scan `c` and was delivered `n` times. */
  predicate Delivered(s: State, e: nat, c: nat, n: nat) {
    e in s.stream && s.stream[e] == Job(c) && e in s.pending && s.pending[e] == n
  }

  /** A scan is published and handed out. */
  lemma FirstDelivery(c: nat, cfg: Config, v: Waived) returns (start: seq<Action>)
    ensures CarefulBut(start, cfg, c, v)
    ensures var s := Run(start, cfg);
            && Delivered(s, 0, c, 1) && s.stream == map[0 := Job(c)] && s.undelivered == {} && s.tasks == map[0 := Task(0, Waiting)]
            && s.status == map[] && s.journal == map[] && s.deaths == map[]
  {
    var none: seq<Action> := [];
    var a1 := none + [Publish(0, Job(c))];
    start := a1 + [Hand(0, 0)];
    RunSnoc(none, Publish(0, Job(c)), cfg, c, v);
    RunSnoc(a1, Hand(0, 0), cfg, c, v);
  }

  /** A scan that is published, handed out, and takes its worker down. */
  lemma FirstDeath(c: nat, cfg: Config, v: Waived) returns (died: seq<Action>)
    ensures CarefulBut(died, cfg, c, v)
    ensures var s := Run(died, cfg);
            AtRest(s, c, map[c := Attempt(1, "yara")], 1) && Delivered(s, 0, c, 1) && s.stream == map[0 := Job(c)] && s.undelivered == {}
  {
    hide CarefulBut;
    hide Run;
    var start := FirstDelivery(c, cfg, v);
    var looked := PastTheJournal(start, 0, c, cfg, v);
    died := DiesInParser(looked, 0, c, 1, cfg, v);
    assert Run(died, cfg).tasks == map[];
  }

  /** An orphaned entry is claimed while nobody is at work. */
  lemma ClaimedAgain(actions: seq<Action>, e: nat, t: nat, c: nat, n: nat, cfg: Config, v: Waived) returns (longer: seq<Action>)
    requires CarefulBut(actions, cfg, c, v) && Run(actions, cfg).tasks == map[]
    requires Delivered(Run(actions, cfg), e, c, n) && n <= cfg.maxDeliveries
    ensures CarefulBut(longer, cfg, c, v)
    ensures var s, s' := Run(actions, cfg), Run(longer, cfg);
            && s'.tasks == map[t := Task(e, Waiting)] && Delivered(s', e, c, n + 1) && s'.stream == s.stream && s'.undelivered == s.undelivered
            && s'.status == s.status && s'.journal == s.journal && s'.deaths == s.deaths
  {
    hide Run;
    hide CarefulBut;
    longer := actions + [Claim(e, t)];
    RunSnoc(actions, Claim(e, t), cfg, c, v);
  }

  /** The steps that give a scan up after a crash, up to the dead letter, which is not yet written. */
  lemma GiveUpSteps(s: State, t: nat, c: nat, cfg: Config)
    requires On(s, t, c) && s.tasks[t].pc == Waiting && c !in s.status
    requires c in s.journal && CrashedOnContent(s.journal[c], cfg.maxCrashes)
    ensures var s1 := Apply(s, Step(t, Go), cfg);
            var s2 := Apply(s1, Step(t, Go), cfg);
            Apply(s2, Step(t, Go), cfg) == s.(journal := s.journal - {c}, tasks := s.tasks[t := s.tasks[t].(pc := WriteLetter(ParserCrash))])
  {
    hide CrashedOnContent;
    var s1 := To(s, t, LoadJournal);
    assert Apply(s, Step(t, Go), cfg) == s1;
    var s2 := To(s, t, Finish(GiveUp(ParserCrash)));
    assert Apply(s1, Step(t, Go), cfg).tasks == s2.tasks;
    assert Apply(s2, Step(t, Go), cfg).tasks == s.tasks[t := s.tasks[t].(pc := WriteLetter(ParserCrash))];
  }

  lemma GivesUp(actions: seq<Action>, t: nat, c: nat, cfg: Config, v: Waived) returns (longer: seq<Action>)
    requires CarefulBut(actions, cfg, c, v) && On(Run(actions, cfg), t, c) && Run(actions, cfg).tasks[t].pc == Waiting
    requires c !in Run(actions, cfg).status && c in Run(actions, cfg).journal
    requires CrashedOnContent(Run(actions, cfg).journal[c], cfg.maxCrashes)
    ensures CarefulBut(longer, cfg, c, v)
    ensures var s := Run(actions, cfg);
            Run(longer, cfg) == s.(journal := s.journal - {c}, tasks := s.tasks[t := s.tasks[t].(pc := WriteLetter(ParserCrash))])
  {
    hide Run;
    hide Apply;
    hide CarefulBut;
    hide CrashedOnContent;
    GiveUpSteps(Run(actions, cfg), t, c, cfg);
    RunSnoc(actions, Step(t, Go), cfg, c, v);
    RunSnoc(actions + [Step(t, Go)], Step(t, Go), cfg, c, v);
    RunSnoc(actions + [Step(t, Go)] + [Step(t, Go)], Step(t, Go), cfg, c, v);
    longer := actions + [Step(t, Go)] + [Step(t, Go)] + [Step(t, Go)];
  }

  /** Second attempts from a waiting task that finds nothing in the books. */
  lemma SecondDeath(actions: seq<Action>, t: nat, c: nat, cfg: Config, v: Waived) returns (longer: seq<Action>)
    requires CarefulBut(actions, cfg, c, v) && On(Run(actions, cfg), t, c) && Run(actions, cfg).tasks[t].pc == Waiting
    requires c !in Run(actions, cfg).status && c !in Run(actions, cfg).journal && Count(Run(actions, cfg).deaths, c) == 1
    ensures CarefulBut(longer, cfg, c, v) && Count(Run(longer, cfg).deaths, c) == 2
  {
    hide Run;
    hide CarefulBut;
    var looked := PastTheJournal(actions, t, c, cfg, v);
    longer := DiesInParser(looked, t, c, 1, cfg, v);
  }

  /** A claimed entry whose first attempt still lives: both attempts are past the journal before either
      dies, and the scan takes two workers down although one crash should be enough. Every other condition
      of the bound above holds: the workers die while processing, and nothing expires. */
  lemma OverlappingAttemptsDieTwice(c: nat) returns (actions: seq<Action>)
    ensures Count(Run(actions, Config(3, 1)).deaths, c) == 2
    ensures CarefulBut(actions, Config(3, 1), c, Claims)
  {
    hide CarefulBut;
    hide Run;
    var cfg := Config(3, 1);
    var start := FirstDelivery(c, cfg, Claims);
    var claimed := start + [Claim(0, 1)];
    RunSnoc(start, Claim(0, 1), cfg, c, Claims);
    assert Run(claimed, cfg).tasks == map[0 := Task(0, Waiting), 1 := Task(0, Waiting)];
    var first := PastTheJournal(claimed, 0, c, cfg, Claims);
    var both := PastTheJournal(first, 1, c, cfg, Claims);
    var died := DiesInParser(both, 0, c, 1, cfg, Claims);
    actions := DiesInParser(died, 1, c, 1, cfg, Claims);
  }

  /** The journal record expires between two attempts. */
  lemma ExpiredRecordDiesTwice(c: nat) returns (actions: seq<Action>)
    ensures Count(Run(actions, Config(3, 1)).deaths, c) == 2
    ensures CarefulBut(actions, Config(3, 1), c, Records)
  {
    hide CarefulBut;
    hide Run;
    var cfg := Config(3, 1);
    var died := FirstDeath(c, cfg, Records);
    var expired := died + [ExpireJournal(c)];
    RunSnoc(died, ExpireJournal(c), cfg, c, Records);
    var claimed := ClaimedAgain(expired, 0, 1, c, 1, cfg, Records);
    actions := SecondDeath(claimed, 1, c, cfg, Records);
  }

  /** The task that gives the scan up dies after the journal record went and before anything was stored. */
  lemma DeathInBetweenDiesTwice(c: nat) returns (actions: seq<Action>)
    ensures Count(Run(actions, Config(3, 1)).deaths, c) == 2
    ensures CarefulBut(actions, Config(3, 1), c, Deaths)
  {
    hide CarefulBut;
    hide Run;
    var cfg := Config(3, 1);
    var died := FirstDeath(c, cfg, Deaths);
    var claimed := ClaimedAgain(died, 0, 1, c, 1, cfg, Deaths);
    assert CrashedOnContent(Attempt(1, "yara"), cfg.maxCrashes);
    var given := GivesUp(claimed, 1, c, cfg, Deaths);
    var gone := given + [Kill(1)];
    RunSnoc(given, Kill(1), cfg, c, Deaths);
    assert Run(gone, cfg).tasks == map[];
    var again := ClaimedAgain(gone, 0, 2, c, 2, cfg, Deaths);
    actions := SecondDeath(again, 2, c, cfg, Deaths);
  }

  /** One crash is not enough to give a file up: the second attempt is made, as it should be. */
  lemma SecondChanceDiesTwice(c: nat) returns (actions: seq<Action>)
    ensures Count(Run(actions, Config(3, 2)).deaths, c) == 2
    ensures CarefulBut(actions, Config(3, 2), c, Nothing)
  {
    hide CarefulBut;
    hide Run;
    var cfg := Config(3, 2);
    var died := FirstDeath(c, cfg, Nothing);
    var claimed := ClaimedAgain(died, 0, 1, c, 1, cfg, Nothing);
    var a1 := claimed + [Step(1, Go)];
    RunSnoc(claimed, Step(1, Go), cfg, c, Nothing);
    var a2 := a1 + [Step(1, Go)];
    RunSnoc(a1, Step(1, Go), cfg, c, Nothing);
    assert !CrashedOnContent(Attempt(1, "yara"), cfg.maxCrashes);
    actions := DiesInParser(a2, 1, c, 2, cfg, Nothing);
  }

  /** From the dead letter to the acknowledgement. */
  lemma CloseSteps(s: State, t: nat, c: nat, e: nat, cfg: Config)
    requires On(s, t, c) && s.tasks == map[t := Task(e, WriteLetter(ParserCrash))] && e in s.pending
    ensures var s1 := Apply(s, Step(t, Go), cfg);
            var s2 := Apply(s1, Step(t, Go), cfg);
            var s3 := Apply(s2, Step(t, Go), cfg);
            var s4 := Apply(s3, Step(t, Go), cfg);
            && s4.tasks == map[] && s4.stream == s.stream && s4.undelivered == s.undelivered && s4.status == s.status[c := ManualReview]
            && s4.journal == s.journal && s4.deaths == s.deaths
  {
    var s1 := Apply(s, Step(t, Go), cfg);
    assert s1.tasks == map[t := Task(e, Store(ManualReview))];
    var s2 := Apply(s1, Step(t, Go), cfg);
    assert s2.tasks == map[t := Task(e, Wrap)];
    var s3 := Apply(s2, Step(t, Go), cfg);
    assert s3.tasks == map[t := Task(e, Ack)];
  }

  lemma Closes(actions: seq<Action>, t: nat, c: nat, e: nat, cfg: Config, v: Waived) returns (longer: seq<Action>)
    requires CarefulBut(actions, cfg, c, v) && On(Run(actions, cfg), t, c)
    requires Run(actions, cfg).tasks == map[t := Task(e, WriteLetter(ParserCrash))] && e in Run(actions, cfg).pending
    ensures CarefulBut(longer, cfg, c, v)
    ensures var s, s' := Run(actions, cfg), Run(longer, cfg);
            && s'.tasks == map[] && s'.stream == s.stream && s'.undelivered == s.undelivered && s'.status == s.status[c := ManualReview]
            && s'.journal == s.journal && s'.deaths == s.deaths
  {
    hide Run;
    hide Apply;
    hide CarefulBut;
    CloseSteps(Run(actions, cfg), t, c, e, cfg);
    var a1 := actions + [Step(t, Go)];
    var a2 := a1 + [Step(t, Go)];
    var a3 := a2 + [Step(t, Go)];
    longer := a3 + [Step(t, Go)];
    RunSnoc(actions, Step(t, Go), cfg, c, v);
    RunSnoc(a1, Step(t, Go), cfg, c, v);
    RunSnoc(a2, Step(t, Go), cfg, c, v);
    RunSnoc(a3, Step(t, Go), cfg, c, v);
  }

  /** The status of a scan that was given up expires, and the scan is published once more. */
  lemma ExpiredStatusDiesTwice(c: nat) returns (actions: seq<Action>)
    ensures Count(Run(actions, Config(3, 1)).deaths, c) == 2
    ensures CarefulBut(actions, Config(3, 1), c, Statuses)
  {
    hide CarefulBut;
    hide Run;
    var cfg := Config(3, 1);
    var died := FirstDeath(c, cfg, Statuses);
    var claimed := ClaimedAgain(died, 0, 1, c, 1, cfg, Statuses);
    assert CrashedOnContent(Attempt(1, "yara"), cfg.maxCrashes);
    var given := GivesUp(claimed, 1, c, cfg, Statuses);
    var closed := Closes(given, 1, c, 0, cfg, Statuses);
    actions := PublishedAgain(closed, c, cfg);
  }

  lemma PublishedAgain(actions: seq<Action>, c: nat, cfg: Config) returns (longer: seq<Action>)
    requires CarefulBut(actions, cfg, c, Statuses)
    requires var s := Run(actions, cfg);
             && s.tasks == map[] && 1 !in s.stream && s.undelivered == {} && c !in s.journal && Count(s.deaths, c) == 1
    ensures CarefulBut(longer, cfg, c, Statuses) && Count(Run(longer, cfg).deaths, c) == 2
  {
    hide CarefulBut;
    hide Run;
    var a1 := actions + [ExpireStatus(c)];
    RunSnoc(actions, ExpireStatus(c), cfg, c, Statuses);
    var a2 := a1 + [Publish(1, Job(c))];
    RunSnoc(a1, Publish(1, Job(c)), cfg, c, Statuses);
    var a3 := a2 + [Hand(1, 2)];
    RunSnoc(a2, Hand(1, 2), cfg, c, Statuses);
    assert Run(a3, cfg).tasks == map[2 := Task(1, Waiting)];
    longer := SecondDeath(a3, 2, c, cfg, Statuses);
  }
}
