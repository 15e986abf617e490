/** Waiting for a result: publishers store it and then signal, any number of waiters subscribe, check
    and wait, in any order of steps. One scan is modelled; times are in milliseconds. */
module ResultChannel {
  import opened Common

  datatype Publisher = Storing(result: nat) | Signalling | Finished

  datatype Pc =
    | Subscribing
    | Checking
    | Waiting(deadline: nat)
    | Loading(deadline: nat)
    | Returned(result: Option<nat>, at: nat, deadline: nat)

  /** `subscribed` is what the server knows, `confirmed` what the waiter was told; `signalled` says that a
      message lies in its inbox. */
  datatype Waiter = Waiter(timeout: int, subscribed: bool, confirmed: bool, signalled: bool, pc: Pc)

  /** `stored` and `finished` keep the books: all results ever stored, and when a publisher was done first. */
  datatype State = State(
    status: Option<nat>,
    publishers: map<nat, Publisher>,
    waiters: map<nat, Waiter>,
    now: nat,
    stored: set<nat>,
    finished: Option<nat>)

  const Init := State(None, map[], map[], 0, {}, None)

  datatype Action =
    | Publish(publisher: nat, result: nat)
    | PublisherStep(publisher: nat)
    | Join(waiter: nat, timeout: int)
    | Advance(waiter: nat, move: Move)
    | Tick(ms: nat)

  /** The server sees the subscription; the waiter is told, or goes on untold, or is told late; or it takes
      its next step. */
  datatype Move = Subscribe | Confirm | GoOnUnconfirmed | LateConfirmation | Go

  /** A signal reaches those whose subscription the server has seen. */
  function Signal(waiters: map<nat, Waiter>): map<nat, Waiter> {
    map w | w in waiters :: if waiters[w].subscribed then waiters[w].(signalled := true) else waiters[w]
  }

  /** First the status, then the signal. */
  function StepPublisher(s: State, p: nat): State
    requires p in s.publishers
  {
    match s.publishers[p]
    case Storing(result) =>
      s.(status := Some(result), stored := s.stored + {result}, publishers := s.publishers[p := Signalling])
    case Signalling =>
      s.(waiters := Signal(s.waiters), publishers := s.publishers[p := Finished],
         finished := if s.finished.None? then Some(s.now) else s.finished)
    case Finished => s
  }

  /** What a waiter does next: the check after subscribing, the wait for a message, the second look. */
  function NextPc(w: Waiter, status: Option<nat>, now: nat): Pc {
    match w.pc
    case Checking =>
      if status.Some? then Returned(status, now, now)
      else if w.timeout <= 0 then Returned(None, now, now)
      else Waiting(now + w.timeout)
    case Waiting(deadline) =>
      if w.signalled then Loading(deadline)
      else if now >= deadline then Returned(None, now, deadline)
      else w.pc
    case Loading(deadline) => Returned(status, now, deadline)
    case _ => w.pc
  }

  /** A confirmation that comes while waiting for a message ends the wait: it counts as no message. */
  function Moved(w: Waiter, move: Move, status: Option<nat>, now: nat): Waiter {
    match move
    case Subscribe => w.(subscribed := true)
    case Confirm => if w.pc.Subscribing? && w.subscribed then w.(confirmed := true, pc := Checking) else w
    case GoOnUnconfirmed => if w.pc.Subscribing? then w.(pc := Checking) else w
    case LateConfirmation =>
      if w.pc.Waiting? && w.subscribed && !w.confirmed then w.(pc := Returned(None, now, w.pc.deadline)) else w
    case Go => w.(pc := NextPc(w, status, now))
  }

  function With(s: State, w: nat, waiter: Waiter): State { s.(waiters := s.waiters[w := waiter]) }

  function Apply(s: State, a: Action): State {
    match a
    case Publish(p, result) => if p in s.publishers then s else s.(publishers := s.publishers[p := Storing(result)])
    case PublisherStep(p) => if p in s.publishers then StepPublisher(s, p) else s
    case Join(w, timeout) => if w in s.waiters then s else With(s, w, Waiter(timeout, false, false, false, Subscribing))
    case Tick(ms) => s.(now := s.now + ms)
    case Advance(w, move) => if w in s.waiters then With(s, w, Moved(s.waiters[w], move, s.status, s.now)) else s
  }

  function Run(actions: seq<Action>): State {
    if actions == [] then Init else Apply(Run(actions[..|actions| - 1]), actions[|actions| - 1])
  }

  // ----- no wake-up is lost -----

  predicate WaiterOk(w: Waiter, s: State) {
    && (w.confirmed ==> w.subscribed && !w.pc.Subscribing?)
    && (w.signalled ==> s.status.Some?)
    && (w.pc.Loading? ==> w.signalled)
    && (w.pc.Waiting? && w.confirmed && s.finished.Some? ==> w.signalled)
    && (w.pc.Returned? && w.pc.result.Some? ==> w.pc.result.value in s.stored)
    && (w.pc.Returned? && w.pc.result.None? && w.confirmed ==>
          w.pc.deadline <= w.pc.at <= s.now && (s.finished.Some? ==> w.pc.at <= s.finished.value))
  }

  ghost predicate Inv(s: State) {
    && (s.status.Some? ==> s.status.value in s.stored)
    && (s.finished.Some? ==> s.status.Some? && s.finished.value <= s.now)
    && (forall p :: p in s.publishers && s.publishers[p].Signalling? ==> s.status.Some?)
    && (forall w :: w in s.waiters ==> WaiterOk(s.waiters[w], s))
  }

  lemma MovedOk(w: Waiter, move: Move, s: State)
    requires Inv(s) && WaiterOk(w, s)
    ensures WaiterOk(Moved(w, move, s.status, s.now), s)
  {
  }

  lemma ApplyKeepsInv(s: State, a: Action)
    requires Inv(s)
    ensures Inv(Apply(s, a))
  {
    match a
    case Publish(_, _) =>
    case PublisherStep(_) =>
    case Join(_, _) =>
    case Tick(_) =>
      forall w | w in s.waiters
        ensures WaiterOk(s.waiters[w], Apply(s, a))
      {
        assert WaiterOk(s.waiters[w], s);
      }
    case Advance(w, move) =>
      if w in s.waiters {
        MovedOk(s.waiters[w], move, s);
      }
  }

  lemma {:induction false} RunKeepsInv(actions: seq<Action>)
    ensures Inv(Run(actions))
  {
    if actions != [] {
      RunKeepsInv(actions[..|actions| - 1]);
      ApplyKeepsInv(Run(actions[..|actions| - 1]), actions[|actions| - 1]);
    }
  }

  /** In every interleaving: a waiter whose subscription was confirmed comes back empty-handed only if its
      deadline had passed before any publisher was done; and what it brings back was stored. */
  lemma NoLostWakeUp(actions: seq<Action>, k: nat)
    requires var s := Run(actions); k in s.waiters && s.waiters[k].confirmed
    requires Run(actions).waiters[k].pc.Returned?
    ensures var s := Run(actions);
            var pc := s.waiters[k].pc;
            && (s.finished.Some? && s.finished.value < pc.deadline ==> pc.result.Some?)
            && (pc.result.Some? ==> pc.result.value in s.stored)
  {
    RunKeepsInv(actions);
    var s := Run(actions);
    assert WaiterOk(s.waiters[k], s);
  }

  ghost predicate Published(actions: seq<Action>, result: nat) {
    exists i :: 0 <= i < |actions| && actions[i].Publish? && actions[i].result == result
  }

  /** All that is kept comes from publishers. */
  ghost predicate Sourced(actions: seq<Action>, s: State) {
    && (forall r :: r in s.stored ==> Published(actions, r))
    && (forall p :: p in s.publishers && s.publishers[p].Storing? ==> Published(actions, s.publishers[p].result))
  }

  lemma PublishedStays(actions: seq<Action>, a: Action, result: nat)
    requires Published(actions, result)
    ensures Published(actions + [a], result)
  {
    var i :| 0 <= i < |actions| && actions[i].Publish? && actions[i].result == result;
    assert (actions + [a])[i] == actions[i];
  }

  lemma {:induction false} RunIsSourced(actions: seq<Action>)
    ensures Sourced(actions, Run(actions))
  {
    if actions != [] {
      var n := |actions| - 1;
      var front, a := actions[..n], actions[n];
      assert actions == front + [a];
      RunIsSourced(front);
      var s := Run(front);
      forall r | Published(front, r)
        ensures Published(actions, r)
      {
        PublishedStays(front, a, r);
      }
      assert a.Publish? ==> Published(actions, a.result) by { assert actions[n] == a; }
      hide Published;
    }
  }

  /** What a waiter brings back, some publisher was given to publish. */
  lemma ResultWasPublished(actions: seq<Action>, k: nat)
    requires var s := Run(actions); k in s.waiters && s.waiters[k].pc.Returned? && s.waiters[k].pc.result.Some?
    ensures Published(actions, Run(actions).waiters[k].pc.result.value)
  {
    RunKeepsInv(actions);
    RunIsSourced(actions);
    var s := Run(actions);
    assert WaiterOk(s.waiters[k], s);
    hide Published;
    hide Run;
  }

  /** Subscribing and being told so takes two moves, after which the waiter looks for a result; and whoever finds one
      then brings it back, also if it will not wait. */
  lemma SubscribedThenChecks(w: Waiter, status: Option<nat>, now: nat)
    requires w.pc.Subscribing?
    ensures var w' := Moved(Moved(w, Subscribe, status, now), Confirm, status, now);
            && w'.confirmed && w'.pc.Checking?
            && (status.Some? ==> Moved(w', Go, status, now).pc == Returned(status, now, now))
  {
  }

  /** The wait lasts as long as asked for, from the check after subscribing, in which no result was there. */
  lemma WaitBeginsAtCheck(w: Waiter, move: Move, status: Option<nat>, now: nat)
    requires !w.pc.Waiting? && Moved(w, move, status, now).pc.Waiting?
    ensures w.pc.Checking? && status.None? && Moved(w, move, status, now).pc.deadline == now + w.timeout
  {
  }

  /** When a waiter comes back empty-handed: if it would not wait, if its time is up without a signal, if there was
      nothing behind the signal, or if the confirmation it had gone on without comes while it waits. */
  lemma EmptyHandedExactly(w: Waiter, move: Move, status: Option<nat>, now: nat)
    requires !w.pc.Returned?
    ensures Moved(w, move, status, now).pc.Returned? && Moved(w, move, status, now).pc.result.None? <==>
            || (move.Go? && w.pc.Checking? && status.None? && w.timeout <= 0)
            || (move.Go? && w.pc.Waiting? && !w.signalled && now >= w.pc.deadline)
            || (move.Go? && w.pc.Loading? && status.None?)
            || (move.LateConfirmation? && w.pc.Waiting? && w.subscribed && !w.confirmed)
  {
  }

  /** Once a publisher is done, a confirmed waiter that has not returned holds the result after at most two
      steps of its own, whatever its deadline. */
  lemma ResultAtHand(actions: seq<Action>, k: nat)
    requires var s := Run(actions);
             k in s.waiters && s.waiters[k].confirmed && !s.waiters[k].pc.Returned? && s.finished.Some?
    ensures var later := Run(actions + [Advance(k, Go), Advance(k, Go)]);
            k in later.waiters && later.waiters[k].pc.Returned? && later.waiters[k].pc.result == Run(actions).status
            && Run(actions).status.Some?
  {
    RunKeepsInv(actions);
    var s := Run(actions);
    assert WaiterOk(s.waiters[k], s);
    var step := Advance(k, Go);
    var two := actions + [step, step];
    assert two[..|two| - 1] == actions + [step];
    assert (actions + [step])[..|actions|] == actions;
    assert Run(two) == Apply(Apply(s, step), step);
  }

  lemma Snoc(actions: seq<Action>, a: Action)
    ensures Run(actions + [a]) == Apply(Run(actions), a)
  {
    assert (actions + [a])[..|actions|] == actions;
  }

  /** The confirmation matters: a waiter that went on without it may miss the signal, although the publisher
      was done before its deadline. */
  lemma UnconfirmedMayMiss() returns (actions: seq<Action>)
    ensures var s := Run(actions);
            && 0 in s.waiters && s.waiters[0].timeout > 0 && !s.waiters[0].confirmed
            && s.finished == Some(0) && s.waiters[0].pc == Returned(None, 9, 9)
  {
    var lone := Waiter(9, false, false, false, Waiting(9));
    var early := WaitsUnconfirmed();
    var a1 := early + [Publish(0, 5)];
    var a2 := a1 + [PublisherStep(0)];
    var a3 := a2 + [PublisherStep(0)];
    var a4 := a3 + [Tick(9)];
    actions := a4 + [Advance(0, Go)];
    Snoc(early, Publish(0, 5));
    Snoc(a1, PublisherStep(0));
    Snoc(a2, PublisherStep(0));
    Snoc(a3, Tick(9));
    Snoc(a4, Advance(0, Go));
    hide Run;
    assert Signal(map[0 := lone]) == map[0 := lone];
    assert Run(a3) == State(Some(5), map[0 := Finished], map[0 := lone], 0, {5}, Some(0));
    assert NextPc(lone, Some(5), 9) == Returned(None, 9, 9);
  }

  lemma WaitsUnconfirmed() returns (actions: seq<Action>)
    ensures Run(actions) == State(None, map[], map[0 := Waiter(9, false, false, false, Waiting(9))], 0, {}, None)
  {
    var none: seq<Action> := [];
    var a1 := none + [Join(0, 9)];
    var a2 := a1 + [Advance(0, GoOnUnconfirmed)];
    actions := a2 + [Advance(0, Go)];
    Snoc(none, Join(0, 9));
    Snoc(a1, Advance(0, GoOnUnconfirmed));
    Snoc(a2, Advance(0, Go));
  }
}
