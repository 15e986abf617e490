/** The job stream with its consumer group, and the sweep that takes over the jobs of dead workers. */
module Reclaim {
  import opened Common

  /** An entry handed to a consumer and not acknowledged. Times are in milliseconds. */
  datatype Delivery = Delivery(consumer: string, since: nat, delivered: nat)

  datatype PendingEntry = PendingEntry(id: nat, consumer: string, idle: nat, delivered: nat)

  datatype ClaimedJob = ClaimedJob(id: nat, scan: nat, delivered: nat)

  type PendingList = map<nat, Delivery>

  function Idle(d: Delivery, now: nat): nat { if now < d.since then 0 else now - d.since }

  // ----- the list of pending entries, by id -----

  function View(id: nat, d: Delivery, now: nat): PendingEntry { PendingEntry(id, d.consumer, Idle(d, now), d.delivered) }

  /** The pending entries with ids below `n`, oldest first. */
  function Below(pending: PendingList, n: nat, now: nat): seq<PendingEntry> {
    if n == 0 then []
    else Below(pending, n - 1, now) + (if n - 1 in pending then [View(n - 1, pending[n - 1], now)] else [])
  }

  function Take<T>(s: seq<T>, n: nat): (r: seq<T>) { if |s| <= n then s else s[..n] }

  lemma {:induction false} BelowLists(pending: PendingList, n: nat, now: nat)
    ensures forall i :: 0 <= i < |Below(pending, n, now)| ==>
                          var p := Below(pending, n, now)[i];
                          p.id < n && p.id in pending && p == View(p.id, pending[p.id], now)
    ensures forall i, j :: 0 <= i < j < |Below(pending, n, now)| ==> Below(pending, n, now)[i].id < Below(pending, n, now)[j].id
  {
    if n > 0 {
      BelowLists(pending, n - 1, now);
    }
  }

  // ----- claiming -----

  predicate Claimable(pending: PendingList, id: nat, minIdle: nat, now: nat) {
    id in pending && Idle(pending[id], now) >= minIdle
  }

  function Claimed(pending: PendingList, ids: seq<nat>, minIdle: nat, now: nat): seq<nat> {
    if ids == [] then []
    else Claimed(pending, ids[..|ids| - 1], minIdle, now)
         + (if Claimable(pending, ids[|ids| - 1], minIdle, now) then [ids[|ids| - 1]] else [])
  }

  predicate Distinct(ids: seq<nat>) { forall i, j :: 0 <= i < j < |ids| ==> ids[i] != ids[j] }

  lemma {:induction false} ClaimedMembers(pending: PendingList, ids: seq<nat>, minIdle: nat, now: nat)
    ensures forall id :: id in Claimed(pending, ids, minIdle, now) <==> id in ids && Claimable(pending, id, minIdle, now)
    ensures Distinct(ids) ==> Distinct(Claimed(pending, ids, minIdle, now))
  {
    if ids != [] {
      var n := |ids| - 1;
      ClaimedMembers(pending, ids[..n], minIdle, now);
      assert ids == ids[..n] + [ids[n]];
      if Distinct(ids) {
        assert ids[n] !in ids[..n];
        assert ids[n] !in Claimed(pending, ids[..n], minIdle, now);
      }
    }
  }

  /** The scans of those claimed entries that can be read. */
  function Readable(log: seq<Payload>, ids: seq<nat>): seq<(nat, nat)> {
    if ids == [] then []
    else
      var id := ids[|ids| - 1];
      Readable(log, ids[..|ids| - 1]) + (if id < |log| && log[id].Job? then [(id, log[id].scan)] else [])
  }

  predicate IsJob(log: seq<Payload>, id: nat) { id < |log| && log[id].Job? }

  /** The pending list after a claim: the claimed entries belong to the claimer, were just handed out and
      count one delivery more; those that cannot be read are acknowledged; the others are as before. */
  ghost predicate TakenOver(log: seq<Payload>, before: PendingList, after: PendingList, taken: seq<nat>, consumer: string, now: nat) {
    forall id ::
      if id in taken && id in before then
        if IsJob(log, id) then id in after && after[id] == Delivery(consumer, now, before[id].delivered + 1) else id !in after
      else (id in after <==> id in before) && (id in before ==> after[id] == before[id])
  }

  class JobQueue {
    var log: seq<Payload>
    var next: nat
    var pending: PendingList
    var acked: set<nat>

    ghost predicate Valid()
      reads this
    {
      && next <= |log| && pending.Keys !! acked
      && (forall id: nat :: id < next <==> id in pending || id in acked)
    }

    constructor ()
      ensures Valid() && log == [] && next == 0 && pending == map[] && acked == {}
    {
      log, next, pending, acked := [], 0, map[], {};
    }

    method Publish(job: Payload) returns (id: nat)
      requires Valid()
      modifies this`log
      ensures Valid() && id == |old(log)| && log == old(log) + [job]
    {
      id := |log|;
      log := log + [job];
    }

    /** Acknowledging an entry that is not pending changes nothing. */
    method Ack(id: nat)
      requires Valid()
      modifies this`pending, this`acked
      ensures Valid() && pending == old(pending) - {id}
      ensures acked == if id in old(pending) then old(acked) + {id} else old(acked)
    {
      if id in pending {
        pending, acked := pending - {id}, acked + {id};
      }
    }

    /** The next entry that can be read, if there is one; those on the way are acknowledged. */
    method Consume(consumer: string, now: nat) returns (got: Option<(nat, nat)>)
      requires Valid()
      modifies this`next, this`pending, this`acked
      ensures Valid()
      ensures got.None? ==> next == |log| && forall k :: old(next) <= k < |log| ==> log[k].Unreadable?
      ensures got.Some? ==>
                var (id, scan) := got.value;
                && old(next) <= id < |log| && log[id] == Job(scan) && next == id + 1
                && forall k :: old(next) <= k < id ==> log[k].Unreadable?
      ensures pending == if got.Some? then old(pending)[got.value.0 := Delivery(consumer, now, 1)] else old(pending)
    {
      while next < |log|
        invariant Valid() && old(next) <= next && pending == old(pending)
        invariant forall k :: old(next) <= k < next ==> log[k].Unreadable?
      {
        var id := next;
        next, pending := next + 1, pending[id := Delivery(consumer, now, 1)];
        match log[id] {
          case Job(scan) => return Some((id, scan));
          case Unreadable =>
            Ack(id);
            assert pending == old(pending);
        }
      }
      got := None;
    }

    method Pending(count: nat, now: nat) returns (entries: seq<PendingEntry>)
      requires Valid()
      ensures entries == Take(Below(pending, next, now), count)
    {
      entries := [];
      var id := 0;
      while id < next && |entries| < count
        invariant id <= next && |entries| <= count
        invariant entries == Below(pending, id, now)
      {
        if id in pending { entries := entries + [View(id, pending[id], now)]; }
        id := id + 1;
      }
      BelowGrows(pending, id, next, now);
    }

    /** XCLAIM: the entries that have been idle long enough change hands. */
    method Transfer(consumer: string, ids: seq<nat>, minIdle: nat, now: nat) returns (taken: seq<nat>)
      requires Valid() && Distinct(ids)
      modifies this`pending
      ensures Valid() && taken == Claimed(old(pending), ids, minIdle, now)
      ensures Handed(old(pending), pending, taken, consumer, now)
    {
      ghost var before := pending;
      taken := [];
      for i := 0 to |ids|
        invariant pending.Keys == before.Keys && taken == Claimed(before, ids[..i], minIdle, now)
        invariant Handed(before, pending, taken, consumer, now)
      {
        assert ids[..i + 1][..i] == ids[..i];
        ClaimedMembers(before, ids[..i], minIdle, now);
        var id := ids[i];
        assert id !in ids[..i] && id !in taken;
        if id in pending && Idle(pending[id], now) >= minIdle {
          pending := pending[id := Delivery(consumer, now, pending[id].delivered + 1)];
          taken := taken + [id];
        }
      }
      assert ids[..|ids|] == ids;
    }

    /** Reads the entries handed over; what cannot be read is acknowledged. */
    method ReadTaken(taken: seq<nat>) returns (jobs: seq<(nat, nat)>)
      requires Valid() && forall i :: 0 <= i < |taken| ==> taken[i] < |log|
      modifies this`pending, this`acked
      ensures Valid() && jobs == Readable(log, taken) && Purged(log, old(pending), pending, taken)
    {
      hide Purged;
      jobs := [];
      PurgeNothing(log, pending);
      for i := 0 to |taken|
        invariant Valid() && jobs == Readable(log, taken[..i])
        invariant Purged(log, old(pending), pending, taken[..i])
      {
        assert taken[..i + 1][..i] == taken[..i];
        var id := taken[i];
        PurgeStep(log, old(pending), pending, taken, i);
        match log[id] {
          case Job(scan) => jobs := jobs + [(id, scan)];
          case Unreadable => Ack(id);
        }
      }
      assert taken[..|taken|] == taken;
    }

    method Claim(consumer: string, ids: seq<nat>, minIdle: nat, now: nat) returns (jobs: seq<(nat, nat)>)
      requires Valid() && Distinct(ids)
      modifies this`pending, this`acked
      ensures Valid()
      ensures jobs == Readable(log, Claimed(old(pending), ids, minIdle, now))
      ensures TakenOver(log, old(pending), pending, Claimed(old(pending), ids, minIdle, now), consumer, now)
    {
      var taken := Transfer(consumer, ids, minIdle, now);
      ClaimedMembers(old(pending), ids, minIdle, now);
      forall i | 0 <= i < |taken|
        ensures taken[i] < |log|
      {
        assert taken[i] in taken && taken[i] in old(pending);
      }
      jobs := ReadTaken(taken);
    }
  }

  ghost predicate Handed(before: PendingList, after: PendingList, taken: seq<nat>, consumer: string, now: nat) {
    after.Keys == before.Keys && forall id :: id in before ==>
      after[id] == if id in taken then Delivery(consumer, now, before[id].delivered + 1) else before[id]
  }

  ghost predicate Purged(log: seq<Payload>, before: PendingList, after: PendingList, taken: seq<nat>) {
    && (forall id :: id in after <==> id in before && !(id in taken && !IsJob(log, id)))
    && (forall id :: id in after ==> after[id] == before[id])
  }

  lemma PurgeNothing(log: seq<Payload>, before: PendingList)
    ensures Purged(log, before, before, [])
  {
  }

  lemma PurgeStep(log: seq<Payload>, before: PendingList, after: PendingList, taken: seq<nat>, i: nat)
    requires i < |taken| && Purged(log, before, after, taken[..i])
    ensures Purged(log, before, if IsJob(log, taken[i]) then after else after - {taken[i]}, taken[..i + 1])
  {
    assert forall id :: id in taken[..i + 1] <==> id in taken[..i] || id == taken[i];
  }

  lemma {:induction false} BelowGrows(pending: PendingList, m: nat, n: nat, now: nat)
    requires m <= n
    ensures |Below(pending, m, now)| <= |Below(pending, n, now)|
    ensures Below(pending, n, now)[..|Below(pending, m, now)|] == Below(pending, m, now)
  {
    if m < n { BelowGrows(pending, m, n - 1, now); }
  }

  // ----- the sweep -----

  /** The owner is gone: handed out long enough ago, and no sign of life. */
  predicate Orphaned(p: PendingEntry, minIdle: nat, alive: set<nat>) { p.idle >= minIdle && p.id !in alive }

  function Orphans(entries: seq<PendingEntry>, minIdle: nat, alive: set<nat>): seq<PendingEntry> {
    if entries == [] then []
    else
      var p := entries[|entries| - 1];
      Orphans(entries[..|entries| - 1], minIdle, alive) + (if Orphaned(p, minIdle, alive) then [p] else [])
  }

  function Ids(entries: seq<PendingEntry>): (ids: seq<nat>)
    ensures |ids| == |entries|
  {
    seq(|entries|, i requires 0 <= i < |entries| => entries[i].id)
  }

  /** What one look at the pending list decided. */
  datatype Plan = Plan(ids: seq<nat>, giveUp: set<nat>, delivered: map<nat, nat>)

  predicate Sorted(entries: seq<PendingEntry>) {
    forall i, j :: 0 <= i < j < |entries| ==> entries[i].id < entries[j].id
  }

  /** Exactly the orphans are to be claimed; those past the limit are to be given up. */
  ghost predicate Planned(plan: Plan, orphans: seq<PendingEntry>, maxDeliveries: nat) {
    && plan.ids == Ids(orphans) && Distinct(plan.ids)
    && (forall id :: id in plan.delivered <==> id in plan.ids)
    && (forall id :: id in plan.giveUp ==> id in plan.ids)
    && (forall i :: 0 <= i < |orphans| ==> orphans[i].id in plan.delivered && plan.delivered[orphans[i].id] == orphans[i].delivered)
    && (forall i :: 0 <= i < |orphans| ==> (orphans[i].id in plan.giveUp <==> orphans[i].delivered > maxDeliveries))
  }

  lemma {:induction false} OrphansSorted(entries: seq<PendingEntry>, minIdle: nat, alive: set<nat>)
    requires Sorted(entries)
    ensures Sorted(Orphans(entries, minIdle, alive))
    ensures forall i :: 0 <= i < |Orphans(entries, minIdle, alive)| ==> Orphans(entries, minIdle, alive)[i] in entries
    ensures forall i :: 0 <= i < |Orphans(entries, minIdle, alive)| ==> Orphaned(Orphans(entries, minIdle, alive)[i], minIdle, alive)
  {
    if entries != [] {
      var n := |entries| - 1;
      OrphansSorted(entries[..n], minIdle, alive);
      assert entries == entries[..n] + [entries[n]];
    }
  }

  lemma {:induction false} OrphanFound(entries: seq<PendingEntry>, minIdle: nat, alive: set<nat>, p: PendingEntry)
    requires p in entries && Orphaned(p, minIdle, alive)
    ensures p in Orphans(entries, minIdle, alive)
  {
    var n := |entries| - 1;
    if p != entries[n] {
      assert entries == entries[..n] + [entries[n]];
      OrphanFound(entries[..n], minIdle, alive, p);
    }
  }

  method Look(entries: seq<PendingEntry>, minIdle: nat, alive: set<nat>, maxDeliveries: nat) returns (plan: Plan)
    requires Sorted(entries)
    ensures Planned(plan, Orphans(entries, minIdle, alive), maxDeliveries)
  {
    var ids: seq<nat>, giveUp: set<nat>, delivered: map<nat, nat> := [], {}, map[];
    for i := 0 to |entries|
      invariant Planned(Plan(ids, giveUp, delivered), Orphans(entries[..i], minIdle, alive), maxDeliveries)
    {
      assert entries[..i + 1][..i] == entries[..i];
      EarlierOrphans(entries, i, minIdle, alive);
      ghost var orphans := Orphans(entries[..i], minIdle, alive);
      var p := entries[i];
      if Orphaned(p, minIdle, alive) {
        PlanOneMore(Plan(ids, giveUp, delivered), orphans, p, maxDeliveries);
        ids := ids + [p.id];
        delivered := delivered[p.id := p.delivered];
        if p.delivered > maxDeliveries { giveUp := giveUp + {p.id}; }
      }
    }
    assert entries[..|entries|] == entries;
    plan := Plan(ids, giveUp, delivered);
  }

  lemma EarlierOrphans(entries: seq<PendingEntry>, i: nat, minIdle: nat, alive: set<nat>)
    requires Sorted(entries) && i < |entries|
    ensures forall k :: 0 <= k < |Orphans(entries[..i], minIdle, alive)| ==> Orphans(entries[..i], minIdle, alive)[k].id < entries[i].id
  {
    OrphansSorted(entries[..i], minIdle, alive);
  }

  lemma PlanOneMore(plan: Plan, orphans: seq<PendingEntry>, p: PendingEntry, maxDeliveries: nat)
    requires Planned(plan, orphans, maxDeliveries)
    requires forall i :: 0 <= i < |orphans| ==> orphans[i].id < p.id
    ensures Planned(Plan(plan.ids + [p.id], if p.delivered > maxDeliveries then plan.giveUp + {p.id} else plan.giveUp,
                         plan.delivered[p.id := p.delivered]), orphans + [p], maxDeliveries)
  {
  }

  datatype SweepResult = SweepResult(reclaimed: seq<ClaimedJob>, abandoned: seq<ClaimedJob>)

  /** The jobs to give up, or those to process, of the ones claimed. */
  function SortedOut(jobs: seq<(nat, nat)>, plan: Plan, past: bool): seq<ClaimedJob> {
    if jobs == [] then []
    else
      var (id, scan) := jobs[|jobs| - 1];
      SortedOut(jobs[..|jobs| - 1], plan, past)
      + (if id in plan.delivered && ((id in plan.giveUp) == past) then [ClaimedJob(id, scan, plan.delivered[id])] else [])
  }

  method SortJobs(jobs: seq<(nat, nat)>, plan: Plan) returns (result: SweepResult)
    requires forall i :: 0 <= i < |jobs| ==> jobs[i].0 in plan.delivered
    ensures result == SweepResult(SortedOut(jobs, plan, false), SortedOut(jobs, plan, true))
  {
    var reclaimed, abandoned := [], [];
    for i := 0 to |jobs|
      invariant reclaimed == SortedOut(jobs[..i], plan, false) && abandoned == SortedOut(jobs[..i], plan, true)
    {
      assert jobs[..i + 1] == jobs[..i] + [jobs[i]];
      SortedOutSnoc(jobs[..i], jobs[i], plan, false);
      SortedOutSnoc(jobs[..i], jobs[i], plan, true);
      hide SortedOut;
      var (id, scan) := jobs[i];
      if id in plan.giveUp {
        abandoned := abandoned + [ClaimedJob(id, scan, plan.delivered[id])];
      } else {
        reclaimed := reclaimed + [ClaimedJob(id, scan, plan.delivered[id])];
      }
    }
    assert jobs[..|jobs|] == jobs;
    result := SweepResult(reclaimed, abandoned);
  }

  /** Claiming what was planned, whatever happened to the queue since the look. */
  method Collect(queue: JobQueue, plan: Plan, consumer: string, minIdle: nat, now: nat) returns (result: SweepResult)
    requires queue.Valid() && Distinct(plan.ids) && forall id :: id in plan.ids ==> id in plan.delivered
    modifies queue`pending, queue`acked
    ensures queue.Valid()
    ensures var taken := Claimed(old(queue.pending), plan.ids, minIdle, now);
            && TakenOver(queue.log, old(queue.pending), queue.pending, taken, consumer, now)
            && result == SweepResult(SortedOut(Readable(queue.log, taken), plan, false), SortedOut(Readable(queue.log, taken), plan, true))
  {
    var jobs := queue.Claim(consumer, plan.ids, minIdle, now);
    ReadableMembers(queue.log, Claimed(old(queue.pending), plan.ids, minIdle, now));
    ClaimedMembers(old(queue.pending), plan.ids, minIdle, now);
    hide TakenOver;
    hide SortedOut;
    hide Readable;
    hide Claimed;
    result := SortJobs(jobs, plan);
  }

  lemma {:induction false} ReadableMembers(log: seq<Payload>, ids: seq<nat>)
    ensures forall i :: 0 <= i < |Readable(log, ids)| ==>
              Readable(log, ids)[i].0 in ids && IsJob(log, Readable(log, ids)[i].0)
              && Readable(log, ids)[i].1 == log[Readable(log, ids)[i].0].scan
  {
    if ids != [] { ReadableMembers(log, ids[..|ids| - 1]); }
  }

  /** The jobs of the orphans that can be read, past the delivery limit or within it. */
  function JobsOf(log: seq<Payload>, orphans: seq<PendingEntry>, maxDeliveries: nat, past: bool): seq<ClaimedJob> {
    if orphans == [] then []
    else
      var p := orphans[|orphans| - 1];
      JobsOf(log, orphans[..|orphans| - 1], maxDeliveries, past)
      + (if IsJob(log, p.id) && ((p.delivered > maxDeliveries) == past) then [ClaimedJob(p.id, log[p.id].scan, p.delivered)] else [])
  }

  lemma SortedOutSnoc(jobs: seq<(nat, nat)>, job: (nat, nat), plan: Plan, past: bool)
    ensures SortedOut(jobs + [job], plan, past)
            == SortedOut(jobs, plan, past)
               + (if job.0 in plan.delivered && ((job.0 in plan.giveUp) == past) then [ClaimedJob(job.0, job.1, plan.delivered[job.0])] else [])
  {
    assert (jobs + [job])[..|jobs|] == jobs;
  }

  lemma OneMoreOrphan(log: seq<Payload>, orphans: seq<PendingEntry>, p: PendingEntry, maxDeliveries: nat, past: bool)
    ensures JobsOf(log, orphans + [p], maxDeliveries, past)
            == JobsOf(log, orphans, maxDeliveries, past)
               + (if IsJob(log, p.id) && ((p.delivered > maxDeliveries) == past) then [ClaimedJob(p.id, log[p.id].scan, p.delivered)] else [])
    ensures Readable(log, Ids(orphans + [p])) == Readable(log, Ids(orphans)) + (if IsJob(log, p.id) then [(p.id, log[p.id].scan)] else [])
  {
    assert (orphans + [p])[..|orphans|] == orphans;
    assert Ids(orphans + [p])[..|orphans|] == Ids(orphans);
  }

  lemma {:induction false} PlanYieldsJobs(log: seq<Payload>, plan: Plan, orphans: seq<PendingEntry>, k: nat, maxDeliveries: nat, past: bool)
    requires Planned(plan, orphans, maxDeliveries) && k <= |orphans|
    ensures SortedOut(Readable(log, Ids(orphans[..k])), plan, past) == JobsOf(log, orphans[..k], maxDeliveries, past)
  {
    if k == 0 {
    } else {
      PlanYieldsJobs(log, plan, orphans, k - 1, maxDeliveries, past);
      var p := orphans[k - 1];
      assert orphans[..k] == orphans[..k - 1] + [p];
      OneMoreOrphan(log, orphans[..k - 1], p, maxDeliveries, past);
      assert p.id in plan.delivered && plan.delivered[p.id] == p.delivered && (p.id in plan.giveUp <==> p.delivered > maxDeliveries);
      hide SortedOut;
      hide Readable;
      hide JobsOf;
      hide Planned;
      if IsJob(log, p.id) {
        SortedOutSnoc(Readable(log, Ids(orphans[..k - 1])), (p.id, log[p.id].scan), plan, past);
      } else {
        assert Readable(log, Ids(orphans[..k - 1])) + [] == Readable(log, Ids(orphans[..k - 1]));
      }
    }
  }

  lemma {:induction false} AllAreClaimed(pending: PendingList, ids: seq<nat>, minIdle: nat, now: nat)
    requires forall i :: 0 <= i < |ids| ==> Claimable(pending, ids[i], minIdle, now)
    ensures Claimed(pending, ids, minIdle, now) == ids
  {
    if ids != [] {
      AllAreClaimed(pending, ids[..|ids| - 1], minIdle, now);
    }
  }

  /** The orphans that a sweep sees. */
  function Seen(pending: PendingList, next: nat, batch: nat, minIdle: nat, alive: set<nat>, now: nat): seq<PendingEntry> {
    Orphans(Take(Below(pending, next, now), batch), minIdle, alive)
  }

  lemma SeenAreClaimable(pending: PendingList, next: nat, batch: nat, minIdle: nat, alive: set<nat>, now: nat)
    ensures Sorted(Take(Below(pending, next, now), batch))
    ensures Claimed(pending, Ids(Seen(pending, next, batch, minIdle, alive, now)), minIdle, now) == Ids(Seen(pending, next, batch, minIdle, alive, now))
  {
    var entries := Take(Below(pending, next, now), batch);
    BelowLists(pending, next, now);
    OrphansSorted(entries, minIdle, alive);
    var orphans := Orphans(entries, minIdle, alive);
    forall i | 0 <= i < |orphans|
      ensures Claimable(pending, Ids(orphans)[i], minIdle, now)
    {
      assert orphans[i] in entries;
      assert Orphaned(orphans[i], minIdle, alive);
    }
    AllAreClaimed(pending, Ids(orphans), minIdle, now);
  }

  /** One sweep, with nobody else at work between the look and the claim: every orphan it sees changes
      hands; those that can be read are returned, in order, to be given up or to be processed. */
  method Sweep(queue: JobQueue, consumer: string, minIdle: nat, maxDeliveries: nat, batch: nat, alive: set<nat>, now: nat)
    returns (result: SweepResult)
    requires queue.Valid()
    modifies queue`pending, queue`acked
    ensures queue.Valid()
    ensures var orphans := Seen(old(queue.pending), queue.next, batch, minIdle, alive, now);
            && TakenOver(queue.log, old(queue.pending), queue.pending, Ids(orphans), consumer, now)
            && result == SweepResult(JobsOf(queue.log, orphans, maxDeliveries, false), JobsOf(queue.log, orphans, maxDeliveries, true))
  {
    var entries := queue.Pending(batch, now);
    ghost var orphans := Seen(queue.pending, queue.next, batch, minIdle, alive, now);
    SeenAreClaimable(queue.pending, queue.next, batch, minIdle, alive, now);
    if entries == [] {
      return SweepResult([], []);
    }
    var plan := Look(entries, minIdle, alive, maxDeliveries);
    assert orphans[..|orphans|] == orphans;
    if plan.ids == [] {
      assert orphans == [];
      return SweepResult([], []);
    }
    PlanYieldsJobs(queue.log, plan, orphans, |orphans|, maxDeliveries, false);
    PlanYieldsJobs(queue.log, plan, orphans, |orphans|, maxDeliveries, true);
    result := Collect(queue, plan, consumer, minIdle, now);
  }

  // ----- what a sweep is for -----

  lemma {:induction false} JobListed(log: seq<Payload>, orphans: seq<PendingEntry>, maxDeliveries: nat, past: bool, p: PendingEntry)
    requires p in orphans && IsJob(log, p.id) && ((p.delivered > maxDeliveries) == past)
    ensures ClaimedJob(p.id, log[p.id].scan, p.delivered) in JobsOf(log, orphans, maxDeliveries, past)
  {
    var n := |orphans| - 1;
    if p != orphans[n] {
      assert orphans == orphans[..n] + [orphans[n]];
      JobListed(log, orphans[..n], maxDeliveries, past, p);
    }
  }

  lemma {:induction false} JobsAreOrphans(log: seq<Payload>, orphans: seq<PendingEntry>, maxDeliveries: nat, past: bool, j: ClaimedJob)
    requires j in JobsOf(log, orphans, maxDeliveries, past)
    ensures exists p :: p in orphans && p.id == j.id && p.delivered == j.delivered && IsJob(log, p.id) && log[p.id].scan == j.scan
                        && ((p.delivered > maxDeliveries) == past)
  {
    var n := |orphans| - 1;
    var p := orphans[n];
    assert p in orphans;
    if j in JobsOf(log, orphans[..n], maxDeliveries, past) {
      JobsAreOrphans(log, orphans[..n], maxDeliveries, past, j);
      var q :| q in orphans[..n] && q.id == j.id && q.delivered == j.delivered && IsJob(log, q.id) && log[q.id].scan == j.scan
               && ((q.delivered > maxDeliveries) == past);
      assert q in orphans;
    }
  }

  /** An entry stands in the list behind those with smaller ids. */
  lemma {:induction false} PlaceInList(pending: PendingList, next: nat, now: nat, id: nat)
    requires id in pending && id < next
    ensures |Below(pending, id, now)| < |Below(pending, next, now)|
    ensures Below(pending, next, now)[|Below(pending, id, now)|] == View(id, pending[id], now)
  {
    if id < next - 1 {
      PlaceInList(pending, next - 1, now, id);
    }
  }

  /** The batch reaches an entry if fewer pending entries than that stand before it. */
  lemma InBatchExactly(pending: PendingList, next: nat, now: nat, batch: nat, id: nat)
    requires id in pending && id < next
    ensures View(id, pending[id], now) in Take(Below(pending, next, now), batch) <==> |Below(pending, id, now)| < batch
  {
    PlaceInList(pending, next, now, id);
    BelowLists(pending, next, now);
    var entries, at := Below(pending, next, now), |Below(pending, id, now)|;
    hide Below;
    if at < batch {
      assert Take(entries, batch)[at] == entries[at];
    } else {
      forall i | 0 <= i < batch
        ensures entries[i] != entries[at]
      {
        assert entries[i].id < entries[at].id;
      }
    }
  }

  /** Whose jobs come out of a sweep: those within reach of its batch, idle long enough, not at work here and
      past the delivery limit or within it. */
  predicate Found(log: seq<Payload>, pending: PendingList, batch: nat, minIdle: nat, alive: set<nat>, now: nat,
                  maxDeliveries: nat, past: bool, id: nat) {
    && id in pending && |Below(pending, id, now)| < batch && id !in alive
    && (minIdle == 0 || pending[id].since + minIdle <= now)
    && IsJob(log, id) && ((pending[id].delivered > maxDeliveries) == past)
  }

  /** Exactly the dead workers' readable jobs that the batch reaches come out of a sweep: each as given up if
      it was delivered more often than allowed, and as reclaimed otherwise. */
  lemma SweepFindsExactly(log: seq<Payload>, pending: PendingList, next: nat, batch: nat, minIdle: nat, alive: set<nat>,
                          now: nat, maxDeliveries: nat, past: bool, id: nat)
    requires id < next
    ensures (exists j :: j in JobsOf(log, Seen(pending, next, batch, minIdle, alive, now), maxDeliveries, past) && j.id == id)
            <==> Found(log, pending, batch, minIdle, alive, now, maxDeliveries, past, id)
  {
    var all := Below(pending, next, now);
    var entries := Take(all, batch);
    var orphans := Orphans(entries, minIdle, alive);
    BelowLists(pending, next, now);
    OrphansSorted(entries, minIdle, alive);
    if Found(log, pending, batch, minIdle, alive, now, maxDeliveries, past, id) {
      InBatchExactly(pending, next, now, batch, id);
      var p := View(id, pending[id], now);
      OrphanFound(entries, minIdle, alive, p);
      JobListed(log, orphans, maxDeliveries, past, p);
    }
    forall j | j in JobsOf(log, orphans, maxDeliveries, past) && j.id == id
      ensures Found(log, pending, batch, minIdle, alive, now, maxDeliveries, past, id)
    {
      JobsAreOrphans(log, orphans, maxDeliveries, past, j);
      var p :| p in orphans && p.id == j.id && p.delivered == j.delivered && IsJob(log, p.id) && ((p.delivered > maxDeliveries) == past);
      assert p in entries && Orphaned(p, minIdle, alive);
      assert p in all;
      InBatchExactly(pending, next, now, batch, id);
    }
  }

  lemma JobComesFrom(log: seq<Payload>, orphans: seq<PendingEntry>, maxDeliveries: nat, past: bool, i: nat) returns (p: PendingEntry)
    requires i < |JobsOf(log, orphans, maxDeliveries, past)|
    ensures p in orphans && IsJob(log, p.id)
    ensures JobsOf(log, orphans, maxDeliveries, past)[i] == ClaimedJob(p.id, log[p.id].scan, p.delivered)
  {
    var j := JobsOf(log, orphans, maxDeliveries, past)[i];
    assert j in JobsOf(log, orphans, maxDeliveries, past);
    JobsAreOrphans(log, orphans, maxDeliveries, past, j);
    hide JobsOf;
    p :| p in orphans && p.id == j.id && p.delivered == j.delivered && IsJob(log, p.id) && log[p.id].scan == j.scan
         && ((p.delivered > maxDeliveries) == past);
  }

  /** Every claim counts as a delivery: an orphan that changes hands and is orphaned again is given up by the next sweep
      that reaches it exactly when it had been delivered as often as allowed before. */
  lemma ClaimsAreCounted(log: seq<Payload>, before: PendingList, after: PendingList, taken: seq<nat>, consumer: string, now: nat,
                         batch: nat, minIdle: nat, alive: set<nat>, later: nat, maxDeliveries: nat, id: nat)
    requires TakenOver(log, before, after, taken, consumer, now) && id in taken && id in before && IsJob(log, id)
    requires |Below(after, id, later)| < batch && id !in alive && now + minIdle <= later
    ensures Found(log, after, batch, minIdle, alive, later, maxDeliveries, true, id) <==> before[id].delivered >= maxDeliveries
    ensures after[id].consumer == consumer
  {
  }

  /** They come out oldest first, each once, with its scan and the number of its deliveries. */
  lemma {:induction false} SweptInOrder(log: seq<Payload>, orphans: seq<PendingEntry>, maxDeliveries: nat, past: bool, i: nat, j: nat)
    requires Sorted(orphans) && i < j < |JobsOf(log, orphans, maxDeliveries, past)|
    ensures JobsOf(log, orphans, maxDeliveries, past)[i].id < JobsOf(log, orphans, maxDeliveries, past)[j].id
  {
    var n := |orphans| - 1;
    var before := orphans[..n];
    assert orphans == before + [orphans[n]];
    if j < |JobsOf(log, before, maxDeliveries, past)| {
      SweptInOrder(log, before, maxDeliveries, past, i, j);
    } else {
      var p := JobComesFrom(log, before, maxDeliveries, past, i);
      var k :| 0 <= k < |before| && before[k] == p;
      assert orphans[k].id < orphans[n].id;
    }
  }

  /** Two sweeps cannot take the same entry: a claim starts its idle time anew, so a second claim within
      the idle limit gets none of the entries of the first. */
  lemma ClaimsAreExclusive(log: seq<Payload>, before: PendingList, after: PendingList, taken: seq<nat>, consumer: string, now: nat,
                           ids: seq<nat>, minIdle: nat, later: nat)
    requires TakenOver(log, before, after, taken, consumer, now) && (forall id :: id in taken ==> id in before)
    requires now <= later < now + minIdle
    ensures forall id :: id in taken ==> id !in Claimed(after, ids, minIdle, later)
  {
    ClaimedMembers(after, ids, minIdle, later);
    forall id | id in taken
      ensures id !in Claimed(after, ids, minIdle, later)
    {
      assert id in before;
    }
  }
}
