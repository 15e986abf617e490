/** Runs that hold any number of marks, cut into a run for each of them: the sanitizer does the same to both,
    and a run is deleted exactly when one of its pieces is. */
module FieldRuns {
  import opened Fields
  import opened FieldProofs
  import opened FieldTheorems

  // ----- a run for each mark -----

  /** An item cut into pieces: a run for each of its atoms. */
  function Pieces(item: Item): (pieces: Doc)
    ensures pieces != []
  {
    match item
    case Run(atoms) => if atoms == [] then [item] else seq(|atoms|, k requires 0 <= k < |atoms| => Run([atoms[k]]))
    case _ => [item]
  }

  function Explode(doc: Doc): Doc {
    if doc == [] then [] else Explode(doc[..|doc| - 1]) + Pieces(doc[|doc| - 1])
  }

  /** Where each piece comes from: the item, and the atom in it. */
  function Places(doc: Doc): (places: seq<(nat, nat)>)
    ensures |places| == |Explode(doc)|
  {
    if doc == [] then []
    else
      var r := |doc| - 1;
      Places(doc[..r]) + PlacesIn(r, |Pieces(doc[r])|)
  }

  function PlacesIn(r: nat, n: nat): (places: seq<(nat, nat)>)
    ensures |places| == n && forall k :: 0 <= k < n ==> places[k] == (r, k)
  {
    seq(n, k requires 0 <= k < n => (r, k))
  }

  /** The first piece of item `r`. */
  function First(doc: Doc, r: nat): nat
    requires r <= |doc|
  {
    |Explode(doc[..r])|
  }

  /** Where piece `k` of item `r` stands. */
  function Piece(doc: Doc, r: nat, k: nat): nat
    requires r <= |doc|
  {
    First(doc, r) + k
  }

  lemma {:induction false} ExplodePrefix(doc: Doc, r: nat)
    requires r <= |doc|
    ensures First(doc, r) <= |Explode(doc)|
    ensures Explode(doc)[..First(doc, r)] == Explode(doc[..r]) && Places(doc)[..First(doc, r)] == Places(doc[..r])
  {
    var n := |doc| - 1;
    if r == |doc| {
      assert doc[..r] == doc;
    } else {
      assert doc[..n][..r] == doc[..r];
      ExplodePrefix(doc[..n], r);
    }
  }

  lemma OneMoreItem(doc: Doc, r: nat)
    requires r < |doc|
    ensures Explode(doc[..r + 1]) == Explode(doc[..r]) + Pieces(doc[r])
    ensures Places(doc[..r + 1]) == Places(doc[..r]) + PlacesIn(r, |Pieces(doc[r])|)
  {
    assert doc[..r + 1][..r] == doc[..r];
  }

  lemma {:induction false} PieceAt(doc: Doc, r: nat, k: nat)
    requires r < |doc| && k < |Pieces(doc[r])|
    ensures var p := Piece(doc, r, k);
            p < |Explode(doc)| && Explode(doc)[p] == Pieces(doc[r])[k] && Places(doc)[p] == (r, k)
  {
    hide Pieces;
    var n := |doc| - 1;
    if r < n {
      var front := doc[..n];
      assert front[..r] == doc[..r] && front[r] == doc[r];
      PieceAt(front, r, k);
    }
  }

  lemma NextFirst(doc: Doc, r: nat)
    requires r < |doc|
    ensures First(doc, r + 1) == First(doc, r) + |Pieces(doc[r])|
  {
    OneMoreItem(doc, r);
    hide Explode;
    hide Places;
    hide Pieces;
  }

  lemma {:induction false} PlaceFound(doc: Doc, p: nat)
    requires p < |Places(doc)|
    ensures var place := Places(doc)[p];
            place.0 < |doc| && place.1 < |Pieces(doc[place.0])| && p == Piece(doc, place.0, place.1)
  {
    var n := |doc| - 1;
    if p < |Places(doc[..n])| {
      PlaceFound(doc[..n], p);
      var r := Places(doc[..n])[p].0;
      assert doc[..n][..r] == doc[..r];
    }
  }

  lemma {:induction false} ExplodedHasOneMark(doc: Doc)
    ensures OneMarkPerRun(Explode(doc))
  {
    if doc != [] {
      ExplodedHasOneMark(doc[..|doc| - 1]);
    }
  }

  // ----- the sanitizer on the pieces -----

  /** Some piece of run `r` is in the region. */
  ghost predicate From(region: seq<nat>, places: seq<(nat, nat)>, r: nat) {
    exists i :: 0 <= i < |region| && region[i] < |places| && places[region[i]].0 == r
  }

  /** The same field, its region listed in runs and in pieces. */
  ghost predicate SameField(f: OpenField, g: OpenField, places: seq<(nat, nat)>) {
    && g.instr == f.instr && g.nested == f.nested && g.separated == f.separated
    && (forall i :: 0 <= i < |g.region| ==> g.region[i] < |places|)
    && (forall r: nat :: r in f.region <==> From(g.region, places, r))
  }

  /** Likewise, when run `n` was entered and the next piece was not. */
  ghost predicate AlmostSame(f: OpenField, g: OpenField, places: seq<(nat, nat)>, n: nat) {
    && g.instr == f.instr && g.nested == f.nested && g.separated == f.separated
    && (forall i :: 0 <= i < |g.region| ==> g.region[i] < |places|)
    && (forall r: nat :: r in f.region <==> From(g.region, places, r) || (r == n && !f.separated))
  }

  ghost predicate SameFields(a: seq<OpenField>, b: seq<OpenField>, places: seq<(nat, nat)>) {
    |a| == |b| && forall j :: 0 <= j < |a| ==> SameField(a[j], b[j], places)
  }

  ghost predicate AlmostSameFields(a: seq<OpenField>, b: seq<OpenField>, places: seq<(nat, nat)>, n: nat) {
    |a| == |b| && forall j :: 0 <= j < |a| ==> AlmostSame(a[j], b[j], places, n)
  }

  /** Run `n` is in the region of every field that is still open. */
  ghost predicate Entered(stack: seq<OpenField>, n: nat) {
    forall j :: 0 <= j < |stack| && !stack[j].separated ==> n in stack[j].region
  }

  lemma FromMore(region: seq<nat>, places: seq<(nat, nat)>, place: (nat, nat), r: nat)
    requires forall i :: 0 <= i < |region| ==> region[i] < |places|
    ensures From(region, places + [place], r) <==> From(region, places, r)
    ensures From(region + [|places|], places + [place], r) <==> From(region, places, r) || r == place.0
  {
    var more, longer := places + [place], region + [|places|];
    if From(region, places, r) {
      var i :| 0 <= i < |region| && region[i] < |places| && places[region[i]].0 == r;
      assert more[region[i]] == places[region[i]] && longer[i] == region[i];
    }
    if r == place.0 {
      assert longer[|region|] == |places| && more[|places|] == place;
    }
  }

  /** Entering a piece makes up for the run that was entered. */
  lemma PieceEntered(f: OpenField, g: OpenField, places: seq<(nat, nat)>, n: nat, k: nat)
    requires AlmostSame(f, g, places, n)
    ensures SameField(f, if g.separated then g else g.(region := g.region + [|places|]), places + [(n, k)])
  {
    forall r: nat
      ensures From(g.region, places + [(n, k)], r) <==> From(g.region, places, r)
      ensures From(g.region + [|places|], places + [(n, k)], r) <==> From(g.region, places, r) || r == n
    {
      FromMore(g.region, places, (n, k), r);
    }
  }

  lemma Enlisted(f: OpenField, g: OpenField, places: seq<(nat, nat)>, n: nat, p: nat)
    requires SameField(f, g, places) && p < |places| && places[p].0 == n
    ensures SameField(f.(region := f.region + [n]), g.(region := g.region + [p]), places)
  {
    var more := g.region + [p];
    forall r: nat
      ensures From(more, places, r) <==> From(g.region, places, r) || r == n
    {
      if From(g.region, places, r) {
        var i :| 0 <= i < |g.region| && g.region[i] < |places| && places[g.region[i]].0 == r;
        assert more[i] == g.region[i];
      }
      assert more[|g.region|] == p;
    }
  }

  lemma Begun(places: seq<(nat, nat)>, n: nat, p: nat)
    requires p < |places| && places[p].0 == n
    ensures SameField(OpenField("", [n], false, false), OpenField("", [p], false, false), places)
  {
    assert [p][0] == p;
    assert From([p], places, n);
  }

  lemma PieceKeepsFields(st: StripState, g: StripState, n: nat, k: nat, p: nat, a: Atom, keepSafe: bool, places: seq<(nat, nat)>)
    requires SameFields(st.stack, g.stack, places) && SameFields(st.doomed, g.doomed, places)
    requires p < |places| && places[p].0 == n
    ensures var st', g' := StripAtom(st, n, k, a, keepSafe), StripAtom(g, p, 0, a, keepSafe);
            SameFields(st'.stack, g'.stack, places) && SameFields(st'.doomed, g'.doomed, places)
  {
    hide Blank;
    hide Classify;
    var top := |st.stack| - 1;
    Begun(places, n, p);
    if st.stack != [] {
      Enlisted(st.stack[top], g.stack[top], places, n, p);
    }
    hide From;
  }

  lemma AtomKeepsEntered(st: StripState, n: nat, k: nat, a: Atom, keepSafe: bool)
    requires Entered(st.stack, n)
    ensures Entered(StripAtom(st, n, k, a, keepSafe).stack, n)
  {
    hide Blank;
    hide Classify;
  }

  ghost predicate SameState(st: StripState, g: StripState, places: seq<(nat, nat)>) {
    SameFields(st.stack, g.stack, places) && SameFields(st.doomed, g.doomed, places)
  }

  /** Inside run `n`, before its next piece is entered. */
  ghost predicate Near(st: StripState, g: StripState, places: seq<(nat, nat)>, n: nat) {
    AlmostSameFields(st.stack, g.stack, places, n) && SameFields(st.doomed, g.doomed, places) && Entered(st.stack, n)
  }

  lemma AfterPiece(st: StripState, g: StripState, n: nat, k: nat, a: Atom, keepSafe: bool, places: seq<(nat, nat)>)
    requires Near(st, g, places, n)
    ensures var p, more := |places|, places + [(n, k)];
            var st', g' := StripAtom(st, n, k, a, keepSafe), StripAtom(g.(stack := EnterRun(g.stack, p)), p, 0, a, keepSafe);
            SameState(st', g', more) && Near(st', g', more, n)
  {
    var p, more := |places|, places + [(n, k)];
    forall j | 0 <= j < |st.stack|
      ensures SameField(st.stack[j], EnterRun(g.stack, p)[j], more)
    {
      PieceEntered(st.stack[j], g.stack[j], places, n, k);
    }
    MorePlaces(st.doomed, g.doomed, places, (n, k));
    hide SameField;
    hide AlmostSame;
    PieceKeepsFields(st, g.(stack := EnterRun(g.stack, p)), n, k, p, a, keepSafe, more);
    AtomKeepsEntered(st, n, k, a, keepSafe);
    hide StripAtom;
    NextPiece(StripAtom(st, n, k, a, keepSafe).stack, StripAtom(g.(stack := EnterRun(g.stack, p)), p, 0, a, keepSafe).stack, more, n);
  }

  lemma MorePlaces(a: seq<OpenField>, b: seq<OpenField>, places: seq<(nat, nat)>, place: (nat, nat))
    requires SameFields(a, b, places)
    ensures SameFields(a, b, places + [place])
  {
    forall j | 0 <= j < |a|
      ensures SameField(a[j], b[j], places + [place])
    {
      forall r: nat
        ensures From(b[j].region, places + [place], r) <==> From(b[j].region, places, r)
      {
        FromMore(b[j].region, places, place, r);
      }
    }
  }

  /** Between two pieces of one run. */
  lemma NextPiece(a: seq<OpenField>, b: seq<OpenField>, places: seq<(nat, nat)>, n: nat)
    requires SameFields(a, b, places) && Entered(a, n)
    ensures AlmostSameFields(a, b, places, n)
  {
    hide From;
  }

  /** Before the first piece of a run. */
  lemma FirstPiece(a: seq<OpenField>, b: seq<OpenField>, places: seq<(nat, nat)>, n: nat)
    requires SameFields(a, b, places)
    ensures AlmostSameFields(EnterRun(a, n), b, places, n) && Entered(EnterRun(a, n), n)
  {
    hide From;
  }

  /** The sanitizer inside run `r`, before its atom `k`. */
  function Inside(doc: Doc, r: nat, k: nat, keepSafe: bool): StripState
    requires r < |doc| && doc[r].Run? && k <= |doc[r].atoms|
  {
    var st := Walk(doc[..r], keepSafe);
    StripAtoms(st.(stack := EnterRun(st.stack, r)), r, doc[r].atoms[..k], keepSafe)
  }

  lemma InsideStep(doc: Doc, r: nat, k: nat, keepSafe: bool)
    requires r < |doc| && doc[r].Run? && k < |doc[r].atoms|
    ensures Inside(doc, r, k + 1, keepSafe) == StripAtom(Inside(doc, r, k, keepSafe), r, k, doc[r].atoms[k], keepSafe)
  {
    assert doc[r].atoms[..k + 1][..k] == doc[r].atoms[..k];
    hide StripAtom;
  }

  lemma InsideAll(doc: Doc, r: nat, keepSafe: bool)
    requires r < |doc| && doc[r].Run?
    ensures Walk(doc[..r + 1], keepSafe) == Inside(doc, r, |doc[r].atoms|, keepSafe)
  {
    assert doc[..r + 1][..r] == doc[..r] && doc[r].atoms[..|doc[r].atoms|] == doc[r].atoms;
    hide StripAtoms;
  }

  /** The sanitizer's state before item `p`. */
  function Before(all: Doc, p: nat, keepSafe: bool): StripState
    requires p <= |all|
  {
    Walk(all[..p], keepSafe)
  }

  lemma LoneAtom(all: Doc, p: nat, a: Atom, keepSafe: bool)
    requires p < |all| && all[p] == Run([a])
    ensures var g := Before(all, p, keepSafe);
            Before(all, p + 1, keepSafe) == StripAtom(g.(stack := EnterRun(g.stack, p)), p, 0, a, keepSafe)
  {
    var g := Walk(all[..p], keepSafe);
    RunStep(all, p, g, EnterRun(g.stack, p), keepSafe);
    StripTwoAtoms(g.(stack := EnterRun(g.stack, p)), p, a, a, keepSafe);
    hide StripAtom;
  }

  lemma PieceOfRun(doc: Doc, r: nat, k: nat)
    requires r < |doc| && doc[r].Run? && k < |doc[r].atoms|
    ensures var p := Piece(doc, r, k);
            p < |Explode(doc)| && Explode(doc)[p] == Run([doc[r].atoms[k]]) && Places(doc)[p] == (r, k)
    ensures First(doc, r + 1) == First(doc, r) + |doc[r].atoms|
  {
    PieceAt(doc, r, k);
    NextFirst(doc, r);
    hide Explode;
    hide Places;
  }

  /** The sanitizer on the exploded part, before piece `k` of item `r`. */
  function Outside(doc: Doc, r: nat, k: nat, keepSafe: bool): StripState
    requires r <= |doc| && Piece(doc, r, k) <= |Explode(doc)|
  {
    Before(Explode(doc), Piece(doc, r, k), keepSafe)
  }

  lemma OutsideStep(doc: Doc, r: nat, k: nat, keepSafe: bool)
    requires r < |doc| && doc[r].Run? && k < |doc[r].atoms| && Piece(doc, r, k + 1) <= |Explode(doc)|
    ensures var p, g := Piece(doc, r, k), Outside(doc, r, k, keepSafe);
            Outside(doc, r, k + 1, keepSafe) == StripAtom(g.(stack := EnterRun(g.stack, p)), p, 0, doc[r].atoms[k], keepSafe)
  {
    hide Before;
    hide Walk;
    hide StripAtom;
    hide EnterRun;
    hide First;
    hide Explode;
    hide Places;
    PieceOfRun(doc, r, k);
    LoneAtom(Explode(doc), Piece(doc, r, k), doc[r].atoms[k], keepSafe);
  }

  lemma OneMorePlace(places: seq<(nat, nat)>, p: nat)
    requires p < |places|
    ensures places[..p + 1] == places[..p] + [places[p]]
  {
  }

  ghost predicate NearInside(doc: Doc, r: nat, k: nat, keepSafe: bool)
    requires r < |doc| && doc[r].Run? && k <= |doc[r].atoms| && Piece(doc, r, k) <= |Explode(doc)|
  {
    Near(Inside(doc, r, k, keepSafe), Outside(doc, r, k, keepSafe), Places(doc)[..Piece(doc, r, k)], r)
  }

  ghost predicate SameInside(doc: Doc, r: nat, k: nat, keepSafe: bool)
    requires r < |doc| && doc[r].Run? && k <= |doc[r].atoms| && Piece(doc, r, k) <= |Explode(doc)|
  {
    SameState(Inside(doc, r, k, keepSafe), Outside(doc, r, k, keepSafe), Places(doc)[..Piece(doc, r, k)])
  }

  ghost predicate SameWalk(doc: Doc, keepSafe: bool) {
    SameState(Walk(doc, keepSafe), Walk(Explode(doc), keepSafe), Places(doc))
  }

  lemma FieldsInside(doc: Doc, r: nat, k: nat, keepSafe: bool)
    requires r < |doc| && doc[r].Run? && k < |doc[r].atoms| && Piece(doc, r, k + 1) <= |Explode(doc)|
    requires NearInside(doc, r, k, keepSafe)
    ensures NearInside(doc, r, k + 1, keepSafe) && SameInside(doc, r, k + 1, keepSafe)
  {
    hide Near;
    hide SameState;
    hide Walk;
    hide Explode;
    hide Places;
    OutsideStep(doc, r, k, keepSafe);
    PieceOfRun(doc, r, k);
    OneMorePlace(Places(doc), Piece(doc, r, k));
    InsideStep(doc, r, k, keepSafe);
    hide Inside;
    hide Outside;
    hide StripAtom;
    AfterPiece(Inside(doc, r, k, keepSafe), Outside(doc, r, k, keepSafe), r, k, doc[r].atoms[k], keepSafe, Places(doc)[..Piece(doc, r, k)]);
  }

  lemma InsideStarts(doc: Doc, r: nat, keepSafe: bool)
    requires r < |doc| && doc[r].Run? && SameWalk(doc[..r], keepSafe)
    ensures Piece(doc, r, 0) <= |Explode(doc)| && NearInside(doc, r, 0, keepSafe)
  {
    ExplodePrefix(doc, r);
    hide Walk;
    hide Explode;
    hide Places;
    hide SameFields;
    hide AlmostSameFields;
    hide Entered;
    var st := Walk(doc[..r], keepSafe);
    FirstPiece(st.stack, Walk(Explode(doc[..r]), keepSafe).stack, Places(doc[..r]), r);
    assert doc[r].atoms[..0] == [];
    assert Inside(doc, r, 0, keepSafe) == st.(stack := EnterRun(st.stack, r));
    hide Inside;
  }

  lemma {:induction false} InsideIsNear(doc: Doc, r: nat, k: nat, keepSafe: bool)
    requires r < |doc| && doc[r].Run? && k <= |doc[r].atoms| && SameWalk(doc[..r], keepSafe)
    ensures Piece(doc, r, k) <= |Explode(doc)| && NearInside(doc, r, k, keepSafe)
    ensures k > 0 ==> SameInside(doc, r, k, keepSafe)
  {
    hide NearInside;
    hide SameInside;
    hide SameWalk;
    hide Explode;
    if k == 0 {
      InsideStarts(doc, r, keepSafe);
    } else {
      InsideIsNear(doc, r, k - 1, keepSafe);
      PieceOfRun(doc, r, k - 1);
      FieldsInside(doc, r, k - 1, keepSafe);
    }
  }

  lemma {:induction false} WalkIsSame(doc: Doc, keepSafe: bool)
    ensures SameWalk(doc, keepSafe)
  {
    if doc == [] {
    } else {
      hide SameWalk;
      hide Walk;
      hide Explode;
      hide Places;
      var r := |doc| - 1;
      WalkIsSame(doc[..r], keepSafe);
      if doc[r].Run? && doc[r].atoms != [] {
        RunIsSame(doc, r, keepSafe);
      } else {
        ItemIsSame(doc, r, keepSafe);
      }
    }
  }

  lemma RunIsSame(doc: Doc, r: nat, keepSafe: bool)
    requires r == |doc| - 1 && doc[r].Run? && doc[r].atoms != [] && SameWalk(doc[..r], keepSafe)
    ensures SameWalk(doc, keepSafe)
  {
    hide SameState;
    hide Explode;
    hide Places;
    hide Walk;
    hide Near;
    var n := |doc[r].atoms|;
    InsideIsNear(doc, r, n, keepSafe);
    InsideAll(doc, r, keepSafe);
    hide Inside;
    PieceOfRun(doc, r, 0);
    assert doc[..r + 1] == doc;
    assert Piece(doc, r, n) == |Explode(doc)|;
    assert Explode(doc)[..|Explode(doc)|] == Explode(doc) && Places(doc)[..|Explode(doc)|] == Places(doc);
  }

  lemma LoneItem(doc: Doc, r: nat, keepSafe: bool)
    requires r == |doc| - 1 && (!doc[r].Run? || doc[r].atoms == [])
    ensures Places(doc) == Places(doc[..r]) + [(r, 0)]
    ensures Walk(doc, keepSafe) == StripItem(Walk(doc[..r], keepSafe), r, doc[r], keepSafe)
    ensures Walk(Explode(doc), keepSafe) == StripItem(Walk(Explode(doc[..r]), keepSafe), |Explode(doc[..r])|, doc[r], keepSafe)
  {
    var before := Explode(doc[..r]);
    assert Explode(doc) == before + [doc[r]];
    assert Explode(doc)[..|before|] == before;
    hide StripItem;
  }

  lemma ItemIsSame(doc: Doc, r: nat, keepSafe: bool)
    requires r == |doc| - 1 && (!doc[r].Run? || doc[r].atoms == []) && SameWalk(doc[..r], keepSafe)
    ensures SameWalk(doc, keepSafe)
  {
    hide Walk;
    hide Explode;
    hide Places;
    hide SameFields;
    hide AlmostSameFields;
    hide Entered;
    LoneItem(doc, r, keepSafe);
    var st, g, places := Walk(doc[..r], keepSafe), Walk(Explode(doc[..r]), keepSafe), Places(doc[..r]);
    if doc[r].Run? {
      FirstPiece(st.stack, g.stack, places, r);
      AfterPiece(st.(stack := EnterRun(st.stack, r)), g, r, 0, Text(""), keepSafe, places);
    } else {
      MorePlaces(st.stack, g.stack, places, (r, 0));
      MorePlaces(st.doomed, g.doomed, places, (r, 0));
    }
  }

  // ----- deleted runs -----

  /** Some piece of run `r` is deleted from the exploded part. */
  ghost predicate PieceGone(doc: Doc, r: nat, keepSafe: bool)
    requires r < |doc|
  {
    exists k :: 0 <= k < |Pieces(doc[r])| && Piece(doc, r, k) in Gone(Explode(doc), keepSafe)
  }

  lemma InGone(doc: Doc, j: nat, p: nat, keepSafe: bool)
    requires j < |Doomed(doc, keepSafe)| && p in Doomed(doc, keepSafe)[j].region
    ensures p in Gone(doc, keepSafe)
  {
    hide Doomed;
    assert Doomed(doc, keepSafe)[j] in Doomed(doc, keepSafe);
  }

  lemma GoneFrom(doc: Doc, p: nat, keepSafe: bool) returns (j: nat)
    requires p in Gone(doc, keepSafe)
    ensures j < |Doomed(doc, keepSafe)| && p in Doomed(doc, keepSafe)[j].region
  {
    hide Doomed;
    var f :| f in Doomed(doc, keepSafe) && p in f.region;
    j :| 0 <= j < |Doomed(doc, keepSafe)| && Doomed(doc, keepSafe)[j] == f;
  }

  lemma RegionGone(doc: Doc, j: nat, r: nat, keepSafe: bool)
    requires SameFields(Doomed(doc, keepSafe), Doomed(Explode(doc), keepSafe), Places(doc))
    requires r < |doc| && j < |Doomed(doc, keepSafe)| && r in Doomed(doc, keepSafe)[j].region
    ensures PieceGone(doc, r, keepSafe)
  {
    hide Doomed;
    hide Explode;
    hide Gone;
    hide Pieces;
    var region, places := Doomed(Explode(doc), keepSafe)[j].region, Places(doc);
    assert From(region, places, r);
    var i :| 0 <= i < |region| && region[i] < |places| && places[region[i]].0 == r;
    PlaceFound(doc, region[i]);
    hide Places;
    assert region[i] in region;
    InGone(Explode(doc), j, region[i], keepSafe);
    assert region[i] == Piece(doc, r, places[region[i]].1);
  }

  lemma RegionFromPiece(doc: Doc, j: nat, r: nat, k: nat, keepSafe: bool)
    requires SameFields(Doomed(doc, keepSafe), Doomed(Explode(doc), keepSafe), Places(doc))
    requires r < |doc| && j < |Doomed(Explode(doc), keepSafe)| && k < |Pieces(doc[r])|
    requires Piece(doc, r, k) in Doomed(Explode(doc), keepSafe)[j].region
    ensures r in Gone(doc, keepSafe)
  {
    hide Doomed;
    hide Explode;
    hide Gone;
    hide Pieces;
    hide Places;
    var region, p := Doomed(Explode(doc), keepSafe)[j].region, Piece(doc, r, k);
    PieceAt(doc, r, k);
    var i :| 0 <= i < |region| && region[i] == p;
    assert From(region, Places(doc), r);
    assert SameField(Doomed(doc, keepSafe)[j], Doomed(Explode(doc), keepSafe)[j], Places(doc));
    InGone(doc, j, r, keepSafe);
  }

  lemma DoomedIsSame(doc: Doc, keepSafe: bool)
    ensures SameFields(Doomed(doc, keepSafe), Doomed(Explode(doc), keepSafe), Places(doc))
  {
    WalkIsSame(doc, keepSafe);
    hide Walk;
    hide SameField;
    hide Explode;
    hide Places;
  }

  lemma GoneByPiece(doc: Doc, r: nat, keepSafe: bool)
    requires r < |doc|
    ensures r in Gone(doc, keepSafe) <==> PieceGone(doc, r, keepSafe)
  {
    DoomedIsSame(doc, keepSafe);
    hide Doomed;
    hide Explode;
    hide Gone;
    hide Pieces;
    hide SameFields;
    if r in Gone(doc, keepSafe) {
      var j := GoneFrom(doc, r, keepSafe);
      RegionGone(doc, j, r, keepSafe);
    }
    if PieceGone(doc, r, keepSafe) {
      var k :| 0 <= k < |Pieces(doc[r])| && Piece(doc, r, k) in Gone(Explode(doc), keepSafe);
      var j := GoneFrom(Explode(doc), Piece(doc, r, k), keepSafe);
      RegionFromPiece(doc, j, r, k, keepSafe);
    }
  }

  /** The atom `k` of run `r`, taken for itself, is part of the code of a removed field. */
  ghost predicate AtomInCode(doc: Doc, r: nat, k: nat, keepSafe: bool)
    requires r < |doc| && k < |Pieces(doc[r])|
  {
    var all, p := Explode(doc), Piece(doc, r, k);
    && p < |all| && all[p].Run?
    && InRemovedCode(Walk(all[..p], keepSafe).stack, p, MarkOf(all[p].atoms), Removed(all, keepSafe))
  }

  lemma AtomGoneExactly(doc: Doc, r: nat, k: nat, keepSafe: bool)
    requires r < |doc| && k < |Pieces(doc[r])|
    ensures Piece(doc, r, k) in Gone(Explode(doc), keepSafe) <==> AtomInCode(doc, r, k, keepSafe)
  {
    ExplodedHasOneMark(doc);
    PieceAt(doc, r, k);
    hide Explode;
    hide Gone;
    hide Walk;
    hide Removed;
    hide InRemovedCode;
    hide OneMarkPerRun;
    DeletedExactly(Explode(doc), Piece(doc, r, k), keepSafe);
  }

  ghost predicate RunInCode(doc: Doc, r: nat, keepSafe: bool)
    requires r < |doc|
  {
    exists k :: 0 <= k < |Pieces(doc[r])| && AtomInCode(doc, r, k, keepSafe)
  }

  /** Whatever its runs hold: a run is deleted exactly when one of its atoms is part of the code of a removed
      field. */
  lemma DeletedByAtom(doc: Doc, r: nat, keepSafe: bool)
    requires r < |doc|
    ensures r in Gone(doc, keepSafe) <==> RunInCode(doc, r, keepSafe)
  {
    GoneByPiece(doc, r, keepSafe);
    hide Gone;
    hide Explode;
    hide AtomInCode;
    hide Pieces;
    forall k: nat | k < |Pieces(doc[r])|
      ensures Piece(doc, r, k) in Gone(Explode(doc), keepSafe) <==> AtomInCode(doc, r, k, keepSafe)
    {
      AtomGoneExactly(doc, r, k, keepSafe);
    }
  }
}
