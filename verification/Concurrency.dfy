/** The limiter of scans at work at once: a sorted set of scans by the time they entered. */
module Concurrency {
  import opened Text

  /** Scans in the set, with the time each entered. */
  type Slots = map<string, real>

  function Evict(slots: Slots, upTo: real): Slots {
    map k | k in slots && !(0.0 <= slots[k] <= upTo) :: slots[k]
  }

  /** The order of a sorted set: by time, and by name among equals. */
  predicate Before(s: real, k: string, t: real, l: string) { s < t || (s == t && Less(k, l)) }

  function Rank(slots: Slots, scan: string): nat
    requires scan in slots
  {
    |set k | k in slots && Before(slots[k], k, slots[scan], scan)|
  }

  /** The steps that run as one: drop the stale, enter, and see the rank. */
  function Entered(slots: Slots, scan: string, now: real, stale: real): (r: Slots)
    ensures scan in r
  {
    Evict(slots, now - stale)[scan := now]
  }

  class ConcurrencyLimiter {
    var slots: Slots
    const stale: real

    constructor (stale: real)
      ensures slots == map[] && this.stale == stale
    {
      slots := map[];
      this.stale := stale;
    }

    method Enter(scan: string, now: real) returns (rank: nat)
      modifies this`slots
      ensures slots == Entered(old(slots), scan, now, stale) && rank == Rank(slots, scan)
    {
      slots := Evict(slots, now - stale)[scan := now];
      rank := |set k | k in slots && Before(slots[k], k, slots[scan], scan)|;
    }

    method Remove(scan: string)
      modifies this`slots
      ensures slots == old(slots) - {scan}
    {
      slots := slots - {scan};
    }

    /** A refused scan leaves nothing of its own behind. */
    method Acquire(scan: string, limit: int, now: real) returns (admitted: bool)
      modifies this`slots
      ensures limit <= 0 ==> admitted && slots == old(slots)
      ensures limit > 0 ==>
                var entered := Entered(old(slots), scan, now, stale);
                && admitted == (Rank(entered, scan) < limit)
                && slots == if admitted then entered else entered - {scan}
    {
      if limit <= 0 {
        return true;
      }
      var rank := Enter(scan, now);
      if rank >= limit {
        Remove(scan);
        return false;
      }
      return true;
    }
  }

  // ----- every interleaving -----

  datatype Action = Enter(scan: string, now: real) | Withdraw(scan: string) | Release(scan: string)

  /** `admitted` are the scans let in and not released, with their times; `refused` still have to withdraw;
      `used` and `now` are the names that appeared and the time of the last entry. */
  datatype State = State(slots: Slots, admitted: Slots, refused: set<string>, used: set<string>, now: real)

  /** Without a limit no scan enters the set. */
  type Limit = n: nat | n > 0 witness 1

  datatype Config = Config(limit: Limit, stale: real)

  function Apply(s: State, a: Action, cfg: Config): State {
    match a
    case Enter(scan, now) =>
      var slots := Entered(s.slots, scan, now, cfg.stale);
      var s' := s.(slots := slots, used := s.used + {scan}, now := now);
      if Rank(slots, scan) < cfg.limit then s'.(admitted := s.admitted[scan := now]) else s'.(refused := s.refused + {scan})
    case Withdraw(scan) =>
      if scan in s.refused then s.(slots := s.slots - {scan}, refused := s.refused - {scan}) else s
    case Release(scan) => s.(slots := s.slots - {scan}, admitted := s.admitted - {scan})
  }

  function Run(actions: seq<Action>, cfg: Config): State {
    if actions == [] then State(map[], map[], {}, {}, 0.0)
    else Apply(Run(actions[..|actions| - 1], cfg), actions[|actions| - 1], cfg)
  }

  /** A new scan comes in behind all that are there. */
  ghost predicate InTurn(s: State, scan: string, now: real) {
    && scan !in s.used && s.now <= now
    && forall k :: k in s.slots ==> Before(s.slots[k], k, now, scan)
  }

  ghost predicate Orderly(actions: seq<Action>, cfg: Config) {
    forall i: nat :: i < |actions| && actions[i].Enter? ==> InTurn(Run(actions[..i], cfg), actions[i].scan, actions[i].now)
  }

  /** Admitted, not released and not stale at the time `at`. */
  function Live(s: State, at: real, stale: real): set<string> {
    set k | k in s.admitted && s.admitted[k] > at - stale
  }

  ghost predicate Inv(s: State, cfg: Config) {
    && (forall k :: k in s.slots ==> k in s.used && s.slots[k] <= s.now)
    && (forall k :: k in s.admitted ==> k in s.used && k !in s.refused)
    && (forall k :: k in s.refused ==> k in s.used)
    && (forall k :: k in Live(s, s.now, cfg.stale) ==> k in s.slots && s.slots[k] == s.admitted[k])
    && |Live(s, s.now, cfg.stale)| <= cfg.limit
  }

  /** When a new scan comes in behind all others, its rank is the number of the others. */
  lemma RankOfLast(slots: Slots, scan: string, now: real)
    requires scan !in slots && forall k :: k in slots ==> Before(slots[k], k, now, scan)
    ensures Rank(slots[scan := now], scan) == |slots.Keys|
    ensures |slots[scan := now].Keys| == |slots.Keys| + 1
  {
    var more := slots[scan := now];
    LessIsTotal(scan, scan);
    assert (set k | k in more && Before(more[k], k, more[scan], scan)) == slots.Keys;
    assert more.Keys == slots.Keys + {scan};
  }

  lemma EnterKeepsCount(s: State, scan: string, now: real, cfg: Config)
    requires Inv(s, cfg) && InTurn(s, scan, now)
    ensures |Live(Apply(s, Enter(scan, now), cfg), now, cfg.stale)| <= cfg.limit
  {
    var live, live' := Live(s, s.now, cfg.stale), Live(Apply(s, Enter(scan, now), cfg), now, cfg.stale);
    SlotsAfterEntry(s, scan, now, cfg);
    hide Live;
    hide Rank;
    hide InTurn;
    if Rank(Entered(s.slots, scan, now, cfg.stale), scan) < cfg.limit {
      SubsetSize(live', Entered(s.slots, scan, now, cfg.stale).Keys);
    } else {
      assert live' - {scan} == live';
      SubsetSize(live', live);
    }
  }

  lemma SlotsAfterEntry(s: State, scan: string, now: real, cfg: Config)
    requires Inv(s, cfg) && InTurn(s, scan, now)
    ensures var entered := Entered(s.slots, scan, now, cfg.stale);
            |entered.Keys| == Rank(entered, scan) + 1
  {
    hide Rank;
    hide Live;
    hide Before;
    RankOfLast(Evict(s.slots, now - cfg.stale), scan, now);
  }

  lemma EnterKeepsInv(s: State, scan: string, now: real, cfg: Config)
    requires Inv(s, cfg) && InTurn(s, scan, now)
    ensures Inv(Apply(s, Enter(scan, now), cfg), cfg)
  {
    EnterKeepsCount(s, scan, now, cfg);
    hide Live;
    hide Rank;
    hide Before;
  }

  lemma LeaveKeepsInv(s: State, a: Action, cfg: Config)
    requires Inv(s, cfg) && !a.Enter?
    ensures Inv(Apply(s, a, cfg), cfg)
  {
    var s' := Apply(s, a, cfg);
    SubsetSize(Live(s', s'.now, cfg.stale), Live(s, s.now, cfg.stale));
  }

  lemma {:induction false} RunKeepsInv(actions: seq<Action>, cfg: Config)
    requires Orderly(actions, cfg)
    ensures Inv(Run(actions, cfg), cfg)
  {
    if actions != [] {
      var n := |actions| - 1;
      OrderlyBefore(actions, n, cfg);
      RunKeepsInv(actions[..n], cfg);
      if actions[n].Enter? {
        EnterKeepsInv(Run(actions[..n], cfg), actions[n].scan, actions[n].now, cfg);
      } else {
        LeaveKeepsInv(Run(actions[..n], cfg), actions[n], cfg);
      }
    }
  }

  lemma OrderlyBefore(actions: seq<Action>, n: nat, cfg: Config)
    requires Orderly(actions, cfg) && n <= |actions|
    ensures Orderly(actions[..n], cfg)
  {
    forall i: nat | i < n && actions[..n][i].Enter?
      ensures InTurn(Run(actions[..n][..i], cfg), actions[..n][i].scan, actions[..n][i].now)
    {
      assert actions[..n][..i] == actions[..i];
      assert actions[i].Enter?;
    }
  }

  /** In every interleaving of entering, withdrawing and releasing in which each new scan comes in behind
      those that are there: admitted, unreleased and fresh scans never exceed the limit. */
  lemma NeverMoreThanLimit(actions: seq<Action>, cfg: Config, at: real)
    requires Orderly(actions, cfg) && Run(actions, cfg).now <= at
    ensures |Live(Run(actions, cfg), at, cfg.stale)| <= cfg.limit
  {
    RunKeepsInv(actions, cfg);
    var s := Run(actions, cfg);
    SubsetSize(Live(s, at, cfg.stale), Live(s, s.now, cfg.stale));
  }

  // ----- clocks -----

  /** Names are new, and each entry has a later time than the one before. */
  ghost predicate StrictClock(actions: seq<Action>, cfg: Config) {
    forall i: nat :: i < |actions| && actions[i].Enter? ==>
      actions[i].scan !in Run(actions[..i], cfg).used && Run(actions[..i], cfg).now < actions[i].now
  }

  ghost predicate InThePast(s: State) { forall k :: k in s.slots ==> s.slots[k] <= s.now }

  lemma {:induction false} SlotsInThePast(actions: seq<Action>, cfg: Config, n: nat)
    requires StrictClock(actions, cfg) && n <= |actions|
    ensures InThePast(Run(actions[..n], cfg))
  {
    if n > 0 {
      SlotsInThePast(actions, cfg, n - 1);
      assert actions[..n][..n - 1] == actions[..n - 1];
      var before: nat := n - 1;
      assert actions[before].Enter? ==> Run(actions[..before], cfg).now < actions[before].now;
      hide StrictClock;
    }
  }

  /** Strictly increasing times are enough. */
  lemma StrictClockIsOrderly(actions: seq<Action>, cfg: Config)
    requires StrictClock(actions, cfg)
    ensures Orderly(actions, cfg)
  {
    forall i: nat | i < |actions| && actions[i].Enter?
      ensures InTurn(Run(actions[..i], cfg), actions[i].scan, actions[i].now)
    {
      SlotsInThePast(actions, cfg, i);
    }
  }

  /** With equal times the order of names decides, and a slot is given twice. */
  lemma EqualTimesOverrun() returns (actions: seq<Action>)
    ensures var s := Run(actions, Config(1, 300.0));
            |Live(s, s.now, 300.0)| == 2
  {
    var cfg := Config(1, 300.0);
    var none: seq<Action> := [];
    var first := none + [Enter("b", 400.0)];
    actions := first + [Enter("a", 400.0)];
    assert first[..0] == none && actions[..1] == first;
    assert Run(none, cfg) == State(map[], map[], {}, {}, 0.0);
    assert Run(first, cfg) == Apply(Run(none, cfg), Enter("b", 400.0), cfg);
    assert Run(actions, cfg) == Apply(Run(first, cfg), Enter("a", 400.0), cfg);
    FirstEnters(cfg);
    SecondEnters(Run(first, cfg), cfg);
    hide Apply;
    assert Live(Run(actions, cfg), 400.0, 300.0) == {"a", "b"};
  }

  lemma FirstEnters(cfg: Config)
    requires cfg == Config(1, 300.0)
    ensures var s := Apply(State(map[], map[], {}, {}, 0.0), Enter("b", 400.0), cfg);
            s.slots == map["b" := 400.0] && s.admitted == map["b" := 400.0]
  {
    RankOfLast(map[], "b", 400.0);
    hide Rank;
  }

  lemma SecondEnters(s: State, cfg: Config)
    requires cfg == Config(1, 300.0) && s.slots == map["b" := 400.0] && s.admitted == map["b" := 400.0]
    ensures var s' := Apply(s, Enter("a", 400.0), cfg);
            s'.now == 400.0 && s'.admitted == map["b" := 400.0, "a" := 400.0]
  {
    var slots := Entered(s.slots, "a", 400.0, 300.0);
    assert slots == map["b" := 400.0, "a" := 400.0];
    LessIsTotal("a", "b");
    LessIsTotal("a", "a");
    assert Less("a", "b");
    assert (set k | k in slots && Before(slots[k], k, slots["a"], "a")) == {};
  }

  /** Who comes before whom: the earlier, and of two at the same time the one with the smaller name; of two names
      always exactly one. */
  lemma BeforeExactly(s: real, k: string, t: real, l: string)
    ensures s < t ==> Before(s, k, t, l) && !Before(t, l, s, k)
    ensures s == t ==> (Before(s, k, t, l) <==> Less(k, l))
    ensures k != l ==> (Before(s, k, t, l) <==> !Before(t, l, s, k))
  {
    LessIsTotal(k, l);
  }

  /** A scan that is refused, once it has withdrawn, leaves the others as its entry left them; one that is admitted is
      in the set: together the two steps are what acquiring a slot does. */
  lemma AcquireInTwoSteps(s: State, scan: string, now: real, cfg: Config)
    requires scan !in s.refused
    ensures var entered := Entered(s.slots, scan, now, cfg.stale);
            var admitted := Rank(entered, scan) < cfg.limit;
            var s' := Apply(Apply(s, Enter(scan, now), cfg), Withdraw(scan), cfg);
            && s'.slots == (if admitted then entered else entered - {scan})
            && s'.admitted == (if admitted then s.admitted[scan := now] else s.admitted) && s'.refused == s.refused
  {
    hide Rank;
    hide Entered;
    assert s.refused + {scan} - {scan} == s.refused;
  }

  /** Whether a slot still counts. */
  predicate Fresh(slots: Slots, k: string, now: real, stale: real) { k in slots && (slots[k] < 0.0 || now - stale < slots[k]) }

  /** What is in the set once a scan has entered: itself with the time, and of the others those that are not stale, with
      the times they had. */
  lemma EntryExactly(slots: Slots, scan: string, now: real, stale: real, k: string)
    ensures var entered := Entered(slots, scan, now, stale);
            && entered[scan] == now
            && (k != scan ==> (k in entered <==> Fresh(slots, k, now, stale)))
            && (k != scan && k in entered ==> entered[k] == slots[k])
  {
  }

  /** A scan is refused only if as many others as the limit allows are in the set and not stale. */
  lemma RefusedMeansFull(slots: Slots, scan: string, now: real, cfg: Config)
    requires Rank(Entered(slots, scan, now, cfg.stale), scan) >= cfg.limit
    ensures |Evict(slots, now - cfg.stale).Keys - {scan}| >= cfg.limit
    ensures |set k | k in slots && k != scan && Fresh(slots, k, now, cfg.stale)| >= cfg.limit
  {
    var entered := Entered(slots, scan, now, cfg.stale);
    LessIsTotal(scan, scan);
    SubsetSize((set k | k in entered && Before(entered[k], k, entered[scan], scan)), Evict(slots, now - cfg.stale).Keys - {scan});
    assert Evict(slots, now - cfg.stale).Keys - {scan} == set k | k in slots && k != scan && Fresh(slots, k, now, cfg.stale);
  }

  /** The slots of scans whose workers died come free: when all others are stale, the scan is let in. */
  lemma StaleComeFree(slots: Slots, scan: string, now: real, cfg: Config)
    requires forall k :: k in slots && k != scan ==> !Fresh(slots, k, now, cfg.stale)
    ensures Rank(Entered(slots, scan, now, cfg.stale), scan) == 0
  {
    var entered := Entered(slots, scan, now, cfg.stale);
    LessIsTotal(scan, scan);
    forall k
      ensures !(k in entered && Before(entered[k], k, entered[scan], scan))
    {
      EntryExactly(slots, scan, now, cfg.stale, k);
    }
    assert (set k | k in entered && Before(entered[k], k, entered[scan], scan)) == {};
  }
}
