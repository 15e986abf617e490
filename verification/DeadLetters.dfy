/** Reading the newest dead letters of a tenant page by page, while new ones arrive. */
module DeadLetters {
  import opened Common

  const MAX_SEQ: nat := 18446744073709551615
  const PAGE: nat := 200

  /** The id of a stream entry: milliseconds, and a number within the millisecond. */
  datatype Id = Id(ms: nat, seqno: nat)

  predicate ValidId(id: Id) { id.seqno <= MAX_SEQ && id != Id(0, 0) }

  predicate Below(a: Id, b: Id) { a.ms < b.ms || (a.ms == b.ms && a.seqno < b.seqno) }

  predicate UpTo(a: Id, b: Id) { a == b || Below(a, b) }

  /** The largest id below the given one. */
  function StepBack(id: Id): Id
    requires id != Id(0, 0)
  {
    if id.seqno > 0 then Id(id.ms, id.seqno - 1) else Id(id.ms - 1, MAX_SEQ)
  }

  /** The border of the next page shuts out the last entry seen and nothing else. */
  lemma StepBackIsExact(a: Id, last: Id)
    requires ValidId(a) && ValidId(last)
    ensures UpTo(a, StepBack(last)) <==> Below(a, last)
    ensures StepBack(last).seqno <= MAX_SEQ
  {
  }

  /** Without the bound on numbers an entry would be skipped at a page border. */
  lemma BoundIsNeeded()
    ensures Below(Id(4, MAX_SEQ + 1), Id(5, 0)) && !UpTo(Id(4, MAX_SEQ + 1), StepBack(Id(5, 0)))
  {
  }

  datatype Letter = Letter(tenant: string, text: string)

  datatype Body = Unreadable | Readable(letter: Letter)

  datatype Entry = Entry(id: Id, payload: Body)

  predicate Sorted(stream: seq<Entry>) {
    && (forall i :: 0 <= i < |stream| ==> ValidId(stream[i].id))
    && (forall i, j :: 0 <= i < j < |stream| ==> Below(stream[i].id, stream[j].id))
  }

  function Reversed(s: seq<Entry>): (r: seq<Entry>)
    ensures |r| == |s|
  {
    seq(|s|, i requires 0 <= i < |s| => s[|s| - 1 - i])
  }

  /** How many entries have ids up to the cursor; no cursor means all. */
  function Reach(stream: seq<Entry>, cursor: Option<Id>): (k: nat)
    ensures k <= |stream|
  {
    if stream == [] then 0
    else if cursor.None? || UpTo(stream[|stream| - 1].id, cursor.value) then |stream|
    else Reach(stream[..|stream| - 1], cursor)
  }

  /** XREVRANGE: at most `n` entries up to the cursor, newest first. */
  function RevRange(stream: seq<Entry>, cursor: Option<Id>, n: nat): seq<Entry> {
    var k := Reach(stream, cursor);
    Reversed(stream[if k < n then 0 else k - n..k])
  }

  function Wanted(e: Entry, tenant: Option<string>): seq<Letter> {
    if e.payload.Unreadable? || (tenant.Some? && e.payload.letter.tenant != tenant.value) then [] else [e.payload.letter]
  }

  /** The readable letters of the tenant, or of all, in the given order. */
  function Matching(rows: seq<Entry>, tenant: Option<string>): seq<Letter> {
    if rows == [] then [] else Matching(rows[..|rows| - 1], tenant) + Wanted(rows[|rows| - 1], tenant)
  }

  function Take<T>(s: seq<T>, n: nat): seq<T> { if |s| <= n then s else s[..n] }

  lemma {:induction false} MatchingAppend(a: seq<Entry>, b: seq<Entry>, tenant: Option<string>)
    ensures Matching(a + b, tenant) == Matching(a, tenant) + Matching(b, tenant)
  {
    if b == [] {
      assert a + b == a;
    } else {
      assert (a + b)[..|a + b| - 1] == a + b[..|b| - 1];
      MatchingAppend(a, b[..|b| - 1], tenant);
    }
  }

  lemma ReversedSplit(s: seq<Entry>, k: nat, m: nat)
    requires k <= m <= |s|
    ensures Reversed(s[k..]) == Reversed(s[m..]) + Reversed(s[k..m])
  {
  }

  /** The stream as each page finds it: entries only come in at the end. */
  ghost predicate Growing(views: nat -> seq<Entry>) {
    (forall j :: Sorted(views(j))) && forall j: nat :: views(0) <= views(j)
  }

  lemma {:induction false} ReachOfBorder(stream: seq<Entry>, k: nat, n: nat)
    requires Sorted(stream) && k < n <= |stream|
    ensures Reach(stream[..n], Some(StepBack(stream[k].id))) == k
  {
    StepBackIsExact(stream[n - 1].id, stream[k].id);
    if k == n - 1 {
      if k > 0 {
        StepBackIsExact(stream[k - 1].id, stream[k].id);
        assert stream[..n][..n - 1] == stream[..k];
        assert UpTo(stream[..k][k - 1].id, StepBack(stream[k].id));
      }
    } else {
      assert stream[..n][..n - 1] == stream[..n - 1];
      ReachOfBorder(stream, k, n - 1);
    }
  }

  /** A page read at any later time is the next stretch of the first view. */
  lemma PageIsNext(views: nat -> seq<Entry>, j: nat, k: nat)
    requires Growing(views) && k < |views(0)|
    ensures RevRange(views(j), Some(StepBack(views(0)[k].id)), PAGE) == Reversed(views(0)[if k < PAGE then 0 else k - PAGE..k])
  {
    var stream, first := views(j), views(0);
    assert first <= stream;
    assert stream[k] == first[k];
    ReachOfBorder(stream, k, |stream|);
    assert stream[..|stream|] == stream;
    var from := if k < PAGE then 0 else k - PAGE;
    assert stream[from..k] == first[from..k];
  }

  lemma MatchingSnoc(rows: seq<Entry>, i: nat, tenant: Option<string>)
    requires i < |rows|
    ensures Matching(rows[..i + 1], tenant) == Matching(rows[..i], tenant) + Wanted(rows[i], tenant)
    ensures Matching(rows, tenant) == Matching(rows[..i + 1], tenant) + Matching(rows[i + 1..], tenant)
  {
    assert rows[..i + 1][..i] == rows[..i];
    MatchingAppend(rows[..i + 1], rows[i + 1..], tenant);
    assert rows[..i + 1] + rows[i + 1..] == rows;
  }

  // ----- which letters these are -----

  /** A readable entry of the tenant, or of anybody when none is asked for. */
  predicate Holds(e: Entry, tenant: Option<string>, letter: Letter) {
    e.payload == Readable(letter) && (tenant.Some? ==> letter.tenant == tenant.value)
  }

  /** Each letter stands in the stream at its place, newer ones first. */
  predicate StandAt(stream: seq<Entry>, tenant: Option<string>, found: seq<Letter>, places: seq<nat>) {
    && |places| == |found|
    && (forall i :: 0 <= i < |places| ==> places[i] < |stream| && Holds(stream[places[i]], tenant, found[i]))
    && (forall i, j :: 0 <= i < j < |places| ==> places[j] < places[i])
  }

  /** No entry of the tenant after the oldest one found is left out; and none at all, when fewer were found than asked for. */
  ghost predicate NoneMissed(stream: seq<Entry>, tenant: Option<string>, count: nat, places: seq<nat>) {
    forall p: nat, letter :: p < |stream| && Holds(stream[p], tenant, letter) ==>
      p in places || !(|places| < count || (places != [] && places[|places| - 1] < p))
  }

  ghost predicate Newest(stream: seq<Entry>, tenant: Option<string>, count: nat, found: seq<Letter>, places: seq<nat>) {
    |found| <= count && StandAt(stream, tenant, found, places) && NoneMissed(stream, tenant, count, places)
  }

  lemma WantedExactly(e: Entry, tenant: Option<string>)
    ensures |Wanted(e, tenant)| <= 1
    ensures forall letter :: Holds(e, tenant, letter) <==> Wanted(e, tenant) == [letter]
  {
  }

  /** The letters of the newest entries down to entry `k` of the stream. */
  lemma {:induction false} MatchingStands(stream: seq<Entry>, k: nat, tenant: Option<string>) returns (places: seq<nat>)
    requires k <= |stream|
    ensures StandAt(stream, tenant, From(stream, k, tenant), places)
    ensures forall p: nat :: p in places ==> k <= p
    ensures forall p: nat, letter :: k <= p < |stream| && Holds(stream[p], tenant, letter) ==> p in places
    decreases |stream| - k
  {
    if k == |stream| {
      FromAll(stream, tenant);
      places := [];
    } else {
      var later := MatchingStands(stream, k + 1, tenant);
      FromEarlier(stream, k, k + 1, tenant);
      OneReversed(stream, k, tenant);
      places := OneMoreStands(stream, k, tenant, From(stream, k + 1, tenant), later);
    }
  }

  lemma OneMoreStands(stream: seq<Entry>, k: nat, tenant: Option<string>, found: seq<Letter>, later: seq<nat>) returns (places: seq<nat>)
    requires k < |stream| && StandAt(stream, tenant, found, later) && forall p: nat :: p in later ==> k < p
    requires forall p: nat, letter :: k < p < |stream| && Holds(stream[p], tenant, letter) ==> p in later
    ensures StandAt(stream, tenant, found + Wanted(stream[k], tenant), places)
    ensures forall p: nat :: p in places ==> k <= p
    ensures forall p: nat, letter :: k <= p < |stream| && Holds(stream[p], tenant, letter) ==> p in places
  {
    var wanted := Wanted(stream[k], tenant);
    WantedExactly(stream[k], tenant);
    hide Wanted;
    if wanted == [] {
      places := later;
      assert found + [] == found;
      forall p: nat, letter | k <= p < |stream| && Holds(stream[p], tenant, letter)
        ensures p in places
      {
        assert p != k;
      }
    } else {
      places := later + [k];
      assert wanted == [wanted[0]] && Holds(stream[k], tenant, wanted[0]);
      forall i, j | 0 <= i < j < |places|
        ensures places[j] < places[i]
      {
        assert places[i] in later;
      }
      forall p: nat, letter | k <= p < |stream| && Holds(stream[p], tenant, letter)
        ensures p in places
      {
        assert p == k ==> places[|later|] == p;
      }
    }
  }

  lemma OneReversed(stream: seq<Entry>, k: nat, tenant: Option<string>)
    requires k < |stream|
    ensures Matching(Reversed(stream[k..k + 1]), tenant) == Wanted(stream[k], tenant)
  {
    var rows := Reversed(stream[k..k + 1]);
    assert rows == [stream[k]] && rows[..0] == [];
    assert Matching(rows[..0], tenant) == [];
  }

  lemma TakenStand(stream: seq<Entry>, tenant: Option<string>, all: seq<Letter>, places: seq<nat>, count: nat)
    requires StandAt(stream, tenant, all, places)
    requires forall p: nat, letter :: p < |stream| && Holds(stream[p], tenant, letter) ==> p in places
    ensures Newest(stream, tenant, count, Take(all, count), Take(places, count))
  {
    var taken := Take(places, count);
    assert StandAt(stream, tenant, Take(all, count), taken);
    hide StandAt;
    assert NoneMissed(stream, tenant, count, taken) by {
      hide Holds;
      forall p: nat, letter | p < |stream| && Holds(stream[p], tenant, letter)
        ensures p in taken || !(|taken| < count || (taken != [] && taken[|taken| - 1] < p))
      {
        OldestTaken(places, count, p);
      }
    }
  }

  /** Of places that go down, the first ones are those not below the last of them. */
  lemma OldestTaken(places: seq<nat>, count: nat, p: nat)
    requires p in places && forall i, j :: 0 <= i < j < |places| ==> places[j] < places[i]
    ensures var taken := Take(places, count);
            p in taken || !(|taken| < count || (taken != [] && taken[|taken| - 1] < p))
  {
    var i :| 0 <= i < |places| && places[i] == p;
    var taken := Take(places, count);
    if i < |taken| {
      assert taken[i] == p;
    } else if taken != [] {
      assert places[i] < places[|taken| - 1];
    }
  }

  /** What is found by taking from the front of the stream read backwards are the newest letters of the tenant. */
  lemma NewestExactly(stream: seq<Entry>, tenant: Option<string>, count: nat) returns (places: seq<nat>)
    ensures Newest(stream, tenant, count, Take(Matching(Reversed(stream), tenant), count), places)
  {
    var all := MatchingStands(stream, 0, tenant);
    FromAll(stream, tenant);
    hide From;
    hide Matching;
    hide StandAt;
    hide Newest;
    TakenStand(stream, tenant, Matching(Reversed(stream), tenant), all, count);
    places := Take(all, count);
  }

  // ----- page by page -----

  /** Reads one page into what was found; stops when enough was found. */
  method ReadPage(rows: seq<Entry>, tenant: Option<string>, count: nat, before: seq<Letter>) returns (found: seq<Letter>)
    requires |before| < count
    ensures found == Take(before + Matching(rows, tenant), count)
  {
    hide Matching;
    NothingMatches(tenant);
    found := before;
    assert rows[..0] == [] && before + [] == before;
    for i := 0 to |rows|
      invariant found == before + Matching(rows[..i], tenant) && |found| < count
    {
      MatchingSnoc(rows, i, tenant);
      match rows[i].payload {
        case Unreadable =>
        case Readable(letter) =>
          if tenant.None? || letter.tenant == tenant.value {
            ghost var earlier := found;
            found := found + [letter];
            assert found == before + Matching(rows[..i + 1], tenant);
            if |found| == count {
              assert before + Matching(rows, tenant) == found + Matching(rows[i + 1..], tenant);
              return;
            }
          }
      }
    }
    assert rows[..|rows|] == rows;
  }

  lemma NothingMatches(tenant: Option<string>)
    ensures Matching([], tenant) == []
  {
  }

  /** The letters wanted from the entries at `k` and later, newest first. */
  function From(stream: seq<Entry>, k: nat, tenant: Option<string>): seq<Letter>
    requires k <= |stream|
  {
    Matching(Reversed(stream[k..]), tenant)
  }

  lemma FromEarlier(stream: seq<Entry>, from: nat, k: nat, tenant: Option<string>)
    requires from <= k <= |stream|
    ensures From(stream, from, tenant) == From(stream, k, tenant) + Matching(Reversed(stream[from..k]), tenant)
  {
    ReversedSplit(stream, from, k);
    MatchingAppend(Reversed(stream[k..]), Reversed(stream[from..k]), tenant);
  }

  lemma FromAll(stream: seq<Entry>, tenant: Option<string>)
    ensures From(stream, 0, tenant) == Matching(Reversed(stream), tenant)
    ensures From(stream, |stream|, tenant) == []
  {
    assert stream[0..] == stream;
    assert Reversed(stream[|stream|..]) == [];
  }

  /** The border of the page that ends before entry `k`; the first page has none. */
  function CursorAt(first: seq<Entry>, k: nat): Option<Id>
    requires Sorted(first) && k <= |first|
  {
    if k == |first| then None else Some(StepBack(first[k].id))
  }

  function PageStart(k: nat): (r: nat)
    ensures r <= k
  {
    if k < PAGE then 0 else k - PAGE
  }

  /** The page read at time `j` from entry `k` downwards. */
  lemma PageAt(views: nat -> seq<Entry>, j: nat, k: nat)
    requires Growing(views) && k <= |views(0)| && (k == |views(0)| ==> j == 0)
    ensures RevRange(views(j), CursorAt(views(0), k), PAGE) == Reversed(views(0)[PageStart(k)..k])
  {
    if k < |views(0)| {
      PageIsNext(views, j, k);
    } else {
      assert Reach(views(0), None) == |views(0)|;
    }
  }

  /** The first `count` wanted letters of the stream as the first page found it, newest first. */
  method ReadPages(views: nat -> seq<Entry>, count: nat, tenant: Option<string>) returns (found: seq<Letter>)
    requires Growing(views)
    ensures found == Take(Matching(Reversed(views(0)), tenant), count)
  {
    ghost var first := views(0);
    assert Sorted(first);
    hide Growing;
    hide Sorted;
    hide From;
    hide RevRange;
    hide Matching;
    hide CursorAt;
    hide StepBack;
    ghost var k: nat := |first|;
    var cursor: Option<Id>, j := None, 0;
    found := [];
    FromAll(first, tenant);
    FirstCursor(first);
    while |found| < count
      invariant k <= |first| && |found| <= count
      invariant cursor == CursorAt(first, k) && (k == |first| ==> j == 0)
      invariant found == Take(From(first, k, tenant), count)
      decreases k, count - |found|
    {
      var rows := RevRange(views(j), cursor, PAGE);
      PageAt(views, j, k);
      FromEarlier(first, PageStart(k), k, tenant);
      if |rows| == 0 {
        break;
      }
      found := ReadPage(rows, tenant, count, found);
      k := PageStart(k);
      if |rows| < PAGE {
        break;
      }
      cursor := Some(StepBack(rows[|rows| - 1].id));
      j := j + 1;
    }
    FromEarlier(first, 0, k, tenant);
  }

  /** Exactly the newest `count` letters of the tenant, as the first page found the stream, newest first: none is
      another tenant's, and none is skipped or repeated at a page border, whatever arrives between the pages. */
  method Recent(views: nat -> seq<Entry>, count: nat, tenant: Option<string>) returns (found: seq<Letter>)
    requires Growing(views)
    ensures found == Take(Matching(Reversed(views(0)), tenant), count)
    ensures exists places :: Newest(views(0), tenant, count, found, places)
  {
    hide Matching;
    hide Newest;
    found := ReadPages(views, count, tenant);
    ghost var places := NewestExactly(views(0), tenant, count);
  }

  lemma FirstCursor(first: seq<Entry>)
    requires Sorted(first)
    ensures CursorAt(first, |first|) == None
  {
  }
}
