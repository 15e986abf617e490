/** The worker's queue protocol as a step system: a stream with a consumer group, delivery counters,
    the attempt journal, stored statuses, dead letters and acknowledgements. Any number of workers act
    in any order, and a task may vanish between any two of its steps: its worker died, or an exception
    escaped and left the entry unacknowledged. */
module WorkQueue {
  import opened Common

  datatype Status = Done | Failed | ManualReview

  /** Outcomes after which a repeated scan is not needed. */
  predicate Terminal(s: Status) { s != Failed }

  datatype Attempt = Attempt(attempt: nat, stage: string)

  const RISKY_STAGES := {"structure", "yara", "cdr", "archive"}

  predicate Risky(stage: string) { stage in RISKY_STAGES }

  predicate CrashedOnContent(previous: Attempt, maxCrashes: nat) {
    Risky(previous.stage) && previous.attempt >= maxCrashes
  }

  datatype Reason = JobAbandoned | ParserCrash | ScanFailed

  datatype Letter = Letter(scan: nat, reason: Reason)

  /** What follows the removal of the journal record. */
  datatype After = Deliver(status: Status) | GiveUp(reason: Reason) | Leave

  /** What a task does next. */
  datatype Pc =
    | AckUnreadable
    | Waiting
    | Republish(status: Status)
    | LoadJournal
    | Begin(attempt: nat)
    | Processing(attempt: nat, marked: string, stage: string)
    | Finish(after: After)
    | WriteLetter(reason: Reason)
    | Store(status: Status)
    | Wrap
    | Ack

  datatype Task = Task(entry: nat, pc: Pc)

  /** The last three components only keep the books: scans that ever had a status stored, how often an
      entry was let in for processing, and deaths inside a risky stage by scan. */
  datatype State = State(
    stream: map<nat, Payload>,
    undelivered: set<nat>,
    pending: map<nat, nat>,
    acked: set<nat>,
    status: map<nat, Status>,
    journal: map<nat, Attempt>,
    letters: seq<Letter>,
    tasks: map<nat, Task>,
    stored: set<nat>,
    entered: map<nat, nat>,
    deaths: map<nat, nat>)

  const Init := State(map[], {}, map[], {}, map[], map[], [], map[], {}, map[], map[])

  datatype Config = Config(maxDeliveries: nat, maxCrashes: nat)

  datatype Choice = Go | MarkStage(stage: string) | EnterStage(stage: string) | Outcome(after: After)

  datatype Action =
    | Publish(entry: nat, payload: Payload)
    | Hand(entry: nat, task: nat)
    | Claim(entry: nat, task: nat)
    | Step(task: nat, choice: Choice)
    | Kill(task: nat)
    | ExpireStatus(scan: nat)
    | ExpireJournal(scan: nat)

  function Count(m: map<nat, nat>, k: nat): nat { if k in m then m[k] else 0 }

  /** XREADGROUP: a new entry is handed to a consumer, and counted as delivered once. */
  function HandOut(s: State, e: nat, t: nat): State {
    if e !in s.undelivered || e !in s.stream || t in s.tasks then s
    else
      var readable := s.stream[e].Job?;
      s.(undelivered := s.undelivered - {e}, pending := s.pending[e := 1],
         tasks := s.tasks[t := Task(e, if readable then Waiting else AckUnreadable)],
         entered := if readable then s.entered[e := Count(s.entered, e) + 1] else s.entered)
  }

  /** What a claimed entry's task does: past the delivery limit it gives up without processing. */
  function ClaimedPc(s: State, e: nat, cfg: Config): Pc
    requires e in s.pending && e in s.stream
  {
    if s.stream[e].Unreadable? then AckUnreadable
    else if s.pending[e] > cfg.maxDeliveries then Finish(GiveUp(JobAbandoned))
    else Waiting
  }

  /** A sweep's reading of the delivery count and its claim, as one step. Any pending entry may turn out
      to be orphaned. */
  function ClaimEntry(s: State, e: nat, t: nat, cfg: Config): State {
    if e !in s.pending || e !in s.stream || t in s.tasks then s
    else
      var pc := ClaimedPc(s, e, cfg);
      s.(pending := s.pending[e := s.pending[e] + 1], tasks := s.tasks[t := Task(e, pc)],
         entered := if pc == Waiting then s.entered[e := Count(s.entered, e) + 1] else s.entered)
  }

  function Acknowledge(s: State, t: nat): State
    requires t in s.tasks
  {
    var e := s.tasks[t].entry;
    var s' := s.(tasks := s.tasks - {t});
    if e in s.pending then s'.(pending := s.pending - {e}, acked := s.acked + {e}) else s'
  }

  function To(s: State, t: nat, pc: Pc): State
    requires t in s.tasks
  {
    s.(tasks := s.tasks[t := s.tasks[t].(pc := pc)])
  }

  function StoreStatus(s: State, t: nat, scan: nat, status: Status): State
    requires t in s.tasks
  {
    To(s.(status := s.status[scan := status], stored := s.stored + {scan}), t, Wrap)
  }

  /** One step of the task `t`, which handles the readable job of scan `c`. */
  function Advance(s: State, t: nat, c: nat, choice: Choice, cfg: Config): State
    requires t in s.tasks
  {
    match s.tasks[t].pc
    case AckUnreadable => s
    case Waiting =>
      if c in s.status && Terminal(s.status[c]) then To(s, t, Republish(s.status[c])) else To(s, t, LoadJournal)
    case Republish(status) => StoreStatus(s, t, c, status)
    case LoadJournal =>
      if c !in s.journal then To(s, t, Begin(1))
      else if CrashedOnContent(s.journal[c], cfg.maxCrashes) then To(s, t, Finish(GiveUp(ParserCrash)))
      else To(s, t, Begin(s.journal[c].attempt + 1))
    case Begin(a) => To(s.(journal := s.journal[c := Attempt(a, "fetch")]), t, Processing(a, "fetch", "fetch"))
    case Processing(a, marked, stage) =>
      (match choice
       case MarkStage(x) =>
         if Risky(x) then To(s.(journal := s.journal[c := Attempt(a, x)]), t, Processing(a, x, stage)) else s
       case EnterStage(x) => if Risky(x) && marked != x then s else To(s, t, Processing(a, marked, x))
       case Outcome(after) =>
         if after == Deliver(ManualReview) || (after.GiveUp? && after.reason != ScanFailed) then s
         else To(s, t, Finish(after))
       case Go => s)
    case Finish(after) =>
      var s' := s.(journal := s.journal - {c});
      (match after
       case Deliver(status) => To(s', t, Store(status))
       case GiveUp(reason) => To(s', t, WriteLetter(reason))
       case Leave => s'.(tasks := s.tasks - {t}))
    case WriteLetter(reason) => To(s.(letters := s.letters + [Letter(c, reason)]), t, Store(ManualReview))
    case Store(status) => StoreStatus(s, t, c, status)
    case Wrap => To(s, t, Ack)
    case Ack => Acknowledge(s, t)
  }

  predicate InRiskyStage(pc: Pc) { pc.Processing? && Risky(pc.stage) }

  function ScanOf(s: State, t: nat): nat
    requires t in s.tasks
  {
    var e := s.tasks[t].entry;
    if e in s.stream && s.stream[e].Job? then s.stream[e].scan else 0
  }

  function Vanish(s: State, t: nat): State {
    if t !in s.tasks then s
    else
      var c := ScanOf(s, t);
      s.(tasks := s.tasks - {t},
         deaths := if InRiskyStage(s.tasks[t].pc) then s.deaths[c := Count(s.deaths, c) + 1] else s.deaths)
  }

  function Apply(s: State, a: Action, cfg: Config): State {
    match a
    case Publish(e, payload) =>
      if e in s.stream then s else s.(stream := s.stream[e := payload], undelivered := s.undelivered + {e})
    case Hand(e, t) => HandOut(s, e, t)
    case Claim(e, t) => ClaimEntry(s, e, t, cfg)
    case Step(t, choice) =>
      if t !in s.tasks then s
      else if s.tasks[t].pc.AckUnreadable? then Acknowledge(s, t)
      else Advance(s, t, ScanOf(s, t), choice, cfg)
    case Kill(t) => Vanish(s, t)
    case ExpireStatus(c) => s.(status := s.status - {c})
    case ExpireJournal(c) => s.(journal := s.journal - {c})
  }

  function Run(actions: seq<Action>, cfg: Config): State {
    if actions == [] then Init else Apply(Run(actions[..|actions| - 1], cfg), actions[|actions| - 1], cfg)
  }

  // ----- no job is lost -----

  predicate HasLetter(s: State, c: nat) {
    exists i :: 0 <= i < |s.letters| && s.letters[i].scan == c
  }

  /** What each step of a task for scan `c` may rely on. */
  predicate PcOk(s: State, c: nat, pc: Pc) {
    match pc
    case Republish(status) => c in s.stored && Terminal(status) && (status == ManualReview ==> HasLetter(s, c))
    case Wrap => c in s.stored
    case Ack => c in s.stored
    case Store(status) => status == ManualReview ==> HasLetter(s, c)
    case Processing(_, _, _) => true
    case Finish(after) => after != Deliver(ManualReview)
    case _ => true
  }

  predicate TaskOk(s: State, t: nat)
    requires t in s.tasks
  {
    var task := s.tasks[t];
    && task.entry in s.stream && task.entry !in s.undelivered
    && (task.pc.AckUnreadable? <==> s.stream[task.entry].Unreadable?)
    && (s.stream[task.entry].Job? ==> PcOk(s, s.stream[task.entry].scan, task.pc))
  }

  predicate EntryOk(s: State, e: nat, cfg: Config)
    requires e in s.stream
  {
    && (e in s.undelivered || e in s.pending || e in s.acked)
    && !(e in s.undelivered && e in s.pending) && !(e in s.undelivered && e in s.acked) && !(e in s.pending && e in s.acked)
    && (e in s.acked && s.stream[e].Job? ==> s.stream[e].scan in s.stored)
    && (e in s.undelivered ==> Count(s.entered, e) == 0)
    && (e in s.pending ==> Count(s.entered, e) <= s.pending[e])
    && Count(s.entered, e) <= cfg.maxDeliveries + 1
  }

  ghost predicate Inv(s: State, cfg: Config) {
    && (forall e :: e in s.undelivered || e in s.pending || e in s.acked ==> e in s.stream)
    && (forall e :: e in s.stream ==> EntryOk(s, e, cfg))
    && (forall e :: e in s.entered ==> e in s.stream)
    && (forall t :: t in s.tasks ==> TaskOk(s, t))
    && (forall c :: c in s.status ==> c in s.stored && (s.status[c] == ManualReview ==> HasLetter(s, c)))
  }

  lemma LettersGrow(s: State, s': State, c: nat)
    requires s.letters <= s'.letters && HasLetter(s, c)
    ensures HasLetter(s', c)
  {
    var i :| 0 <= i < |s.letters| && s.letters[i].scan == c;
    assert s'.letters[i].scan == c;
  }

  /** A change that only adds statuses, letters and books keeps every other task and entry in order. */
  lemma PcStaysOk(s: State, s': State, c: nat, pc: Pc)
    requires PcOk(s, c, pc) && s.stored <= s'.stored && s.letters <= s'.letters
    ensures PcOk(s', c, pc)
  {
    if HasLetter(s, c) {
      LettersGrow(s, s', c);
    }
  }

  /** `s'` is `s` with task `t` moved on, and statuses, letters and journal changed on the way. */
  predicate MovedOn(s: State, s': State, t: nat, pc: Pc)
    requires t in s.tasks
  {
    && s'.stream == s.stream && s'.undelivered == s.undelivered && s'.pending == s.pending && s'.acked == s.acked
    && s'.entered == s.entered && s'.tasks == s.tasks[t := s.tasks[t].(pc := pc)]
    && s.stored <= s'.stored && s.letters <= s'.letters
  }

  lemma OtherTasksStayOk(s: State, s': State, u: nat)
    requires u in s.tasks && u in s'.tasks && s'.tasks[u] == s.tasks[u] && TaskOk(s, u)
    requires s'.stream == s.stream && s'.undelivered <= s.undelivered
    requires s.stored <= s'.stored && s.letters <= s'.letters
    ensures TaskOk(s', u)
  {
    var task := s.tasks[u];
    if s.stream[task.entry].Job? {
      PcStaysOk(s, s', s.stream[task.entry].scan, task.pc);
    }
  }

  lemma MovedOnKeepsInv(s: State, s': State, t: nat, c: nat, pc: Pc, cfg: Config)
    requires Inv(s, cfg) && t in s.tasks && s.stream[s.tasks[t].entry] == Job(c)
    requires MovedOn(s, s', t, pc) && !pc.AckUnreadable? && PcOk(s', c, pc)
    requires forall k :: k in s'.status ==> k in s'.stored && (s'.status[k] == ManualReview ==> HasLetter(s', k))
    ensures Inv(s', cfg)
  {
    forall u | u in s'.tasks
      ensures TaskOk(s', u)
    {
      assert TaskOk(s, u);
      if u != t {
        OtherTasksStayOk(s, s', u);
      }
    }
    forall e | e in s'.stream
      ensures EntryOk(s', e, cfg)
    {
      assert EntryOk(s, e, cfg);
    }
  }

  lemma StatusesStayOk(s: State, s': State, cfg: Config)
    requires Inv(s, cfg) && s'.status == s.status && s.stored <= s'.stored && s.letters <= s'.letters
    ensures forall k :: k in s'.status ==> k in s'.stored && (s'.status[k] == ManualReview ==> HasLetter(s', k))
  {
    forall k | k in s'.status && s'.status[k] == ManualReview
      ensures HasLetter(s', k)
    {
      LettersGrow(s, s', k);
    }
  }

  lemma StoreKeepsInv(s: State, t: nat, c: nat, status: Status, cfg: Config)
    requires Inv(s, cfg) && t in s.tasks && s.stream[s.tasks[t].entry] == Job(c)
    requires status == ManualReview ==> HasLetter(s, c)
    ensures Inv(StoreStatus(s, t, c, status), cfg)
  {
    var s' := StoreStatus(s, t, c, status);
    forall k | k in s'.status
      ensures k in s'.stored && (s'.status[k] == ManualReview ==> HasLetter(s', k))
    {
      if HasLetter(s, k) { LettersGrow(s, s', k); }
    }
    MovedOnKeepsInv(s, s', t, c, Wrap, cfg);
  }

  lemma WriteLetterKeepsInv(s: State, t: nat, c: nat, reason: Reason, cfg: Config)
    requires Inv(s, cfg) && t in s.tasks && s.stream[s.tasks[t].entry] == Job(c)
    ensures Inv(To(s.(letters := s.letters + [Letter(c, reason)]), t, Store(ManualReview)), cfg)
  {
    var s' := To(s.(letters := s.letters + [Letter(c, reason)]), t, Store(ManualReview));
    assert s'.letters[|s.letters|].scan == c;
    StatusesStayOk(s, s', cfg);
    MovedOnKeepsInv(s, s', t, c, Store(ManualReview), cfg);
  }

  lemma AckKeepsTasks(s: State, t: nat, u: nat, cfg: Config)
    requires Inv(s, cfg) && t in s.tasks && u in Acknowledge(s, t).tasks
    ensures TaskOk(Acknowledge(s, t), u)
  {
    hide Inv;
    hide TaskOk;
    InvTask(s, u, cfg);
    var s' := Acknowledge(s, t);
    assert s'.tasks == s.tasks - {t} && s'.stream == s.stream && s'.undelivered == s.undelivered;
    assert s'.stored == s.stored && s'.letters == s.letters;
    hide Acknowledge;
    OtherTasksStayOk(s, s', u);
  }

  lemma AckKeepsEntries(s: State, t: nat, e: nat, cfg: Config)
    requires Inv(s, cfg) && t in s.tasks && e in s.stream
    requires s.tasks[t].pc.Ack? || s.tasks[t].pc.AckUnreadable?
    ensures EntryOk(Acknowledge(s, t), e, cfg)
  {
    assert TaskOk(s, t);
    assert EntryOk(s, e, cfg);
  }

  lemma AckKeepsInv(s: State, t: nat, cfg: Config)
    requires Inv(s, cfg) && t in s.tasks
    requires s.tasks[t].pc.Ack? || s.tasks[t].pc.AckUnreadable?
    ensures Inv(Acknowledge(s, t), cfg)
  {
    hide TaskOk;
    hide EntryOk;
    hide HasLetter;
    var s' := Acknowledge(s, t);
    forall u | u in s'.tasks
      ensures TaskOk(s', u)
    {
      AckKeepsTasks(s, t, u, cfg);
    }
    forall e | e in s'.stream
      ensures EntryOk(s', e, cfg)
    {
      AckKeepsEntries(s, t, e, cfg);
    }
    StatusesStayOk(s, s', cfg);
  }

  lemma GoneKeepsInv(s: State, s': State, t: nat, cfg: Config)
    requires Inv(s, cfg) && t in s.tasks
    requires s' == s.(tasks := s.tasks - {t}, journal := s'.journal, deaths := s'.deaths)
    ensures Inv(s', cfg)
  {
    forall u | u in s'.tasks
      ensures TaskOk(s', u)
    {
      assert TaskOk(s, u);
      OtherTasksStayOk(s, s', u);
    }
    forall e | e in s'.stream
      ensures EntryOk(s', e, cfg)
    {
      assert EntryOk(s, e, cfg);
    }
    StatusesStayOk(s, s', cfg);
  }

  lemma QuietStepKeepsInv(s: State, s': State, t: nat, c: nat, pc: Pc, cfg: Config)
    requires Inv(s, cfg) && t in s.tasks && s.stream[s.tasks[t].entry] == Job(c)
    requires s' == To(s.(journal := s'.journal), t, pc)
    requires !pc.AckUnreadable? && PcOk(s, c, pc)
    ensures Inv(s', cfg)
  {
    hide Inv;
    StatusesStayOk(s, s', cfg);
    PcStaysOk(s, s', c, pc);
    MovedOnKeepsInv(s, s', t, c, pc, cfg);
  }

  /** Only the task and the journal change, to a point the task may rely on. */
  predicate QuietStep(s: State, s': State, t: nat, c: nat)
    requires t in s.tasks
  {
    s' == s ||
    (t in s'.tasks && s' == To(s.(journal := s'.journal), t, s'.tasks[t].pc)
     && !s'.tasks[t].pc.AckUnreadable? && PcOk(s, c, s'.tasks[t].pc))
  }

  lemma EarlyStepIsQuiet(s: State, t: nat, c: nat, choice: Choice, cfg: Config)
    requires t in s.tasks && s.tasks[t].pc.Waiting?
    requires c in s.status ==> c in s.stored && (s.status[c] == ManualReview ==> HasLetter(s, c))
    ensures QuietStep(s, Advance(s, t, c, choice, cfg), t, c)
  {
    hide HasLetter;
    hide CrashedOnContent;
    hide Risky;
  }

  lemma MoveIsQuiet(s: State, s': State, t: nat, c: nat, pc: Pc)
    requires t in s.tasks && s' == To(s.(journal := s'.journal), t, pc) && !pc.AckUnreadable? && PcOk(s, c, pc)
    ensures QuietStep(s, s', t, c)
  {
  }

  lemma JournalStepIsQuiet(s: State, t: nat, c: nat, choice: Choice, cfg: Config)
    requires t in s.tasks && (s.tasks[t].pc.LoadJournal? || s.tasks[t].pc.Begin?)
    ensures QuietStep(s, Advance(s, t, c, choice, cfg), t, c)
  {
    hide QuietStep;
    hide CrashedOnContent;
    hide HasLetter;
    var s' := Advance(s, t, c, choice, cfg);
    match s.tasks[t].pc
    case Begin(a) => MoveIsQuiet(s, s', t, c, Processing(a, "fetch", "fetch"));
    case LoadJournal =>
      if c !in s.journal {
        MoveIsQuiet(s, s', t, c, Begin(1));
      } else if CrashedOnContent(s.journal[c], cfg.maxCrashes) {
        MoveIsQuiet(s, s', t, c, Finish(GiveUp(ParserCrash)));
      } else {
        MoveIsQuiet(s, s', t, c, Begin(s.journal[c].attempt + 1));
      }
  }

  lemma ProcessingStepIsQuiet(s: State, t: nat, c: nat, choice: Choice, cfg: Config)
    requires t in s.tasks && s.tasks[t].pc.Processing?
    ensures QuietStep(s, Advance(s, t, c, choice, cfg), t, c)
  {
    hide Risky;
    hide HasLetter;
  }

  lemma EarlyStepKeepsInv(s: State, t: nat, c: nat, choice: Choice, cfg: Config)
    requires Inv(s, cfg) && t in s.tasks && s.stream[s.tasks[t].entry] == Job(c)
    requires s.tasks[t].pc.Waiting? || s.tasks[t].pc.LoadJournal? || s.tasks[t].pc.Begin? || s.tasks[t].pc.Processing?
    ensures Inv(Advance(s, t, c, choice, cfg), cfg)
  {
    hide Inv;
    hide Advance;
    var s' := Advance(s, t, c, choice, cfg);
    InvStatus(s, c, cfg);
    if s.tasks[t].pc.Processing? {
      ProcessingStepIsQuiet(s, t, c, choice, cfg);
    } else if s.tasks[t].pc.Waiting? {
      EarlyStepIsQuiet(s, t, c, choice, cfg);
    } else {
      JournalStepIsQuiet(s, t, c, choice, cfg);
    }
    if s' != s {
      QuietStepKeepsInv(s, s', t, c, s'.tasks[t].pc, cfg);
    }
  }

  lemma AdvanceKeepsInv(s: State, t: nat, c: nat, choice: Choice, cfg: Config)
    requires Inv(s, cfg) && t in s.tasks && s.stream[s.tasks[t].entry] == Job(c)
    ensures Inv(Advance(s, t, c, choice, cfg), cfg)
  {
    hide Inv;
    assert TaskOk(s, t) && PcOk(s, c, s.tasks[t].pc) by { InvTask(s, t, cfg); }
    hide HasLetter;
    hide Risky;
    hide CrashedOnContent;
    hide TaskOk;
    match s.tasks[t].pc
    case AckUnreadable =>
    case Waiting => EarlyStepKeepsInv(s, t, c, choice, cfg);
    case LoadJournal => EarlyStepKeepsInv(s, t, c, choice, cfg);
    case Begin(_) => EarlyStepKeepsInv(s, t, c, choice, cfg);
    case Processing(_, _, _) => EarlyStepKeepsInv(s, t, c, choice, cfg);
    case Republish(status) => StoreKeepsInv(s, t, c, status, cfg);
    case Finish(after) =>
      var s' := Advance(s, t, c, choice, cfg);
      if after.Leave? {
        GoneKeepsInv(s, s', t, cfg);
      } else {
        QuietStepKeepsInv(s, s', t, c, s'.tasks[t].pc, cfg);
      }
    case WriteLetter(reason) => WriteLetterKeepsInv(s, t, c, reason, cfg);
    case Store(status) => StoreKeepsInv(s, t, c, status, cfg);
    case Wrap => QuietStepKeepsInv(s, To(s, t, Ack), t, c, Ack, cfg);
    case Ack => AckKeepsInv(s, t, cfg);
  }

  lemma InvTask(s: State, t: nat, cfg: Config)
    requires Inv(s, cfg) && t in s.tasks
    ensures TaskOk(s, t)
  {
  }

  lemma InvStatus(s: State, c: nat, cfg: Config)
    requires Inv(s, cfg)
    ensures c in s.status ==> c in s.stored && (s.status[c] == ManualReview ==> HasLetter(s, c))
  {
  }

  /** Delivery, fresh or by a claim: one more delivery, and a new task on the entry. */
  lemma DeliveredKeepsInv(s: State, s': State, e: nat, t: nat, pc: Pc, cfg: Config)
    requires Inv(s, cfg) && e in s.stream && t !in s.tasks && e !in s.acked
    requires s' == s.(undelivered := s.undelivered - {e}, pending := s'.pending, tasks := s.tasks[t := Task(e, pc)], entered := s'.entered)
    requires s'.pending == s.pending[e := Count(s.pending, e) + 1]
    requires s'.entered == s.entered || s'.entered == s.entered[e := Count(s.entered, e) + 1]
    requires s'.entered != s.entered ==> Count(s.pending, e) <= cfg.maxDeliveries
    requires pc.AckUnreadable? <==> s.stream[e].Unreadable?
    requires s.stream[e].Job? ==> pc == Waiting || pc == Finish(GiveUp(JobAbandoned))
    ensures Inv(s', cfg)
  {
    forall u | u in s'.tasks
      ensures TaskOk(s', u)
    {
      if u != t {
        assert TaskOk(s, u);
        OtherTasksStayOk(s, s', u);
      }
    }
    assert EntryOk(s, e, cfg);
    forall d | d in s'.stream
      ensures EntryOk(s', d, cfg)
    {
      assert EntryOk(s, d, cfg);
    }
    StatusesStayOk(s, s', cfg);
  }

  lemma InvEntry(s: State, e: nat, cfg: Config)
    requires Inv(s, cfg) && e in s.stream
    ensures e in s.undelivered ==> e !in s.acked && e !in s.pending
    ensures e in s.pending ==> e !in s.acked && e !in s.undelivered
  {
  }

  lemma HandKeepsInv(s: State, e: nat, t: nat, cfg: Config)
    requires Inv(s, cfg)
    ensures Inv(HandOut(s, e, t), cfg)
  {
    hide Inv;
    var s' := HandOut(s, e, t);
    if e in s.undelivered && e in s.stream && t !in s.tasks {
      InvEntry(s, e, cfg);
      hide EntryOk;
      DeliveredKeepsInv(s, s', e, t, s'.tasks[t].pc, cfg);
    }
  }

  lemma ClaimKeepsInv(s: State, e: nat, t: nat, cfg: Config)
    requires Inv(s, cfg)
    ensures Inv(ClaimEntry(s, e, t, cfg), cfg)
  {
    hide Inv;
    var s' := ClaimEntry(s, e, t, cfg);
    if e in s.pending && e in s.stream && t !in s.tasks {
      InvEntry(s, e, cfg);
      hide EntryOk;
      assert s.undelivered - {e} == s.undelivered;
      DeliveredKeepsInv(s, s', e, t, ClaimedPc(s, e, cfg), cfg);
    }
  }

  lemma PublishKeepsInv(s: State, e: nat, payload: Payload, cfg: Config)
    requires Inv(s, cfg) && e !in s.stream
    ensures Inv(s.(stream := s.stream[e := payload], undelivered := s.undelivered + {e}), cfg)
  {
    var s' := s.(stream := s.stream[e := payload], undelivered := s.undelivered + {e});
    forall u | u in s'.tasks
      ensures TaskOk(s', u)
    {
      assert TaskOk(s, u);
      if s.stream[s.tasks[u].entry].Job? {
        PcStaysOk(s, s', s.stream[s.tasks[u].entry].scan, s.tasks[u].pc);
      }
    }
    forall d | d in s'.stream
      ensures EntryOk(s', d, cfg)
    {
      if d != e { assert EntryOk(s, d, cfg); }
    }
    StatusesStayOk(s, s', cfg);
  }

  lemma ExpiryKeepsInv(s: State, s': State, cfg: Config)
    requires Inv(s, cfg)
    requires s' == s.(status := s'.status, journal := s'.journal)
    requires forall c :: c in s'.status ==> c in s.status && s'.status[c] == s.status[c]
    ensures Inv(s', cfg)
  {
    forall u | u in s'.tasks
      ensures TaskOk(s', u)
    {
      assert TaskOk(s, u);
      OtherTasksStayOk(s, s', u);
    }
    forall e | e in s'.stream
      ensures EntryOk(s', e, cfg)
    {
      assert EntryOk(s, e, cfg);
    }
    forall k | k in s'.status
      ensures k in s'.stored && (s'.status[k] == ManualReview ==> HasLetter(s', k))
    {
      if HasLetter(s, k) { LettersGrow(s, s', k); }
    }
  }

  lemma ApplyKeepsInv(s: State, a: Action, cfg: Config)
    requires Inv(s, cfg)
    ensures Inv(Apply(s, a, cfg), cfg)
  {
    hide Advance;
    hide HandOut;
    hide ClaimEntry;
    match a
    case Publish(e, payload) => if e !in s.stream { PublishKeepsInv(s, e, payload, cfg); }
    case Hand(e, t) => HandKeepsInv(s, e, t, cfg);
    case Claim(e, t) => ClaimKeepsInv(s, e, t, cfg);
    case Step(t, choice) =>
      if t in s.tasks {
        assert TaskOk(s, t);
        if s.tasks[t].pc.AckUnreadable? {
          AckKeepsInv(s, t, cfg);
        } else {
          AdvanceKeepsInv(s, t, ScanOf(s, t), choice, cfg);
        }
      }
    case Kill(t) => if t in s.tasks { GoneKeepsInv(s, Vanish(s, t), t, cfg); }
    case ExpireStatus(c) => ExpiryKeepsInv(s, Apply(s, a, cfg), cfg);
    case ExpireJournal(c) => ExpiryKeepsInv(s, Apply(s, a, cfg), cfg);
  }

  lemma {:induction false} RunKeepsInv(actions: seq<Action>, cfg: Config)
    ensures Inv(Run(actions, cfg), cfg)
  {
    if actions != [] {
      RunKeepsInv(actions[..|actions| - 1], cfg);
      ApplyKeepsInv(Run(actions[..|actions| - 1], cfg), actions[|actions| - 1], cfg);
    }
  }
}
