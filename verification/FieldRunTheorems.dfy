/** What holds of parts whose runs hold any number of marks: some theorems for all of them, the others as long as
    no deleted run holds anything of a field that stays. */
module FieldRunTheorems {
  import opened Fields
  import opened FieldProofs
  import opened FieldTheorems
  import opened FieldRuns

  // ----- stray fragments -----

  ghost predicate StraysAreFragments(doc: Doc, strays: set<(nat, nat)>) {
    forall q :: q in strays ==>
      q.0 < |doc| && doc[q.0].Run? && q.1 < |doc[q.0].atoms| && doc[q.0].atoms[q.1].Instr?
  }

  lemma {:induction false} AtomsStrays(st: StripState, r: nat, atoms: seq<Atom>, keepSafe: bool)
    ensures st.strays <= StripAtoms(st, r, atoms, keepSafe).strays
    ensures forall q :: q in StripAtoms(st, r, atoms, keepSafe).strays ==>
              q in st.strays || (q.0 == r && q.1 < |atoms| && atoms[q.1].Instr?)
  {
    if atoms != [] {
      AtomsStrays(st, r, atoms[..|atoms| - 1], keepSafe);
    }
  }

  lemma {:induction false} WalkStrays(doc: Doc, keepSafe: bool)
    ensures StraysAreFragments(doc, Walk(doc, keepSafe).strays)
  {
    if doc != [] {
      var r := |doc| - 1;
      WalkStrays(doc[..r], keepSafe);
      if doc[r].Run? {
        var st := Walk(doc[..r], keepSafe);
        AtomsStrays(st.(stack := EnterRun(st.stack, r)), r, doc[r].atoms, keepSafe);
      }
    }
  }

  lemma AtomStray(st: StripState, r: nat, k: nat, a: Atom, keepSafe: bool)
    ensures StripAtom(st, r, k, a, keepSafe).strays == st.strays + if Stray(st.stack, a) then {(r, k)} else {}
  {
  }

  lemma {:induction false} StrayAmongAtoms(st: StripState, r: nat, atoms: seq<Atom>, k: nat, keepSafe: bool)
    requires (forall q :: q in st.strays ==> q.0 < r) && k < |atoms|
    ensures (r, k) in StripAtoms(st, r, atoms, keepSafe).strays
            <==> Stray(StripAtoms(st, r, atoms[..k], keepSafe).stack, atoms[k])
  {
    var n := |atoms| - 1;
    AtomStray(StripAtoms(st, r, atoms[..n], keepSafe), r, n, atoms[n], keepSafe);
    AtomsStrays(st, r, atoms[..n], keepSafe);
    if k < n {
      StrayAmongAtoms(st, r, atoms[..n], k, keepSafe);
      assert atoms[..n][..k] == atoms[..k];
    }
  }

  lemma {:induction false} StraysLater(doc: Doc, n: nat, q: (nat, nat), keepSafe: bool)
    requires q.0 < n <= |doc|
    ensures q in Walk(doc[..n], keepSafe).strays <==> q in Walk(doc, keepSafe).strays
  {
    if n == |doc| {
      assert doc[..n] == doc;
    } else {
      var r := |doc| - 1;
      assert doc[..r][..n] == doc[..n];
      StraysLater(doc[..r], n, q, keepSafe);
      if doc[r].Run? {
        var st := Walk(doc[..r], keepSafe);
        AtomsStrays(st.(stack := EnterRun(st.stack, r)), r, doc[r].atoms, keepSafe);
      }
    }
  }

  lemma StrayInRun(doc: Doc, r: nat, k: nat, keepSafe: bool)
    requires r < |doc| && doc[r].Run? && k < |doc[r].atoms|
    ensures (r, k) in Walk(doc, keepSafe).strays <==> Stray(Inside(doc, r, k, keepSafe).stack, doc[r].atoms[k])
  {
    var st := Walk(doc[..r], keepSafe);
    WalkStrays(doc[..r], keepSafe);
    StrayAmongAtoms(st.(stack := EnterRun(st.stack, r)), r, doc[r].atoms, k, keepSafe);
    InsideAll(doc, r, keepSafe);
    assert doc[r].atoms[..|doc[r].atoms|] == doc[r].atoms;
    hide Walk;
    hide StripAtoms;
    hide Stray;
    StraysLater(doc, r + 1, (r, k), keepSafe);
  }

  /** As many fields, the top one separated alike. */
  predicate SameTop(a: seq<OpenField>, b: seq<OpenField>) {
    |a| == |b| && (a != [] ==> a[|a| - 1].separated == b[|b| - 1].separated)
  }

  lemma TopInside(doc: Doc, r: nat, k: nat, keepSafe: bool)
    requires r < |doc| && doc[r].Run? && k < |doc[r].atoms|
    ensures Piece(doc, r, k) < |Explode(doc)|
    ensures SameTop(Inside(doc, r, k, keepSafe).stack, Outside(doc, r, k, keepSafe).stack)
  {
    PieceOfRun(doc, r, k);
    WalkIsSame(doc[..r], keepSafe);
    hide SameWalk;
    hide Walk;
    hide Explode;
    hide Places;
    hide Inside;
    hide Outside;
    InsideIsNear(doc, r, k, keepSafe);
    hide SameFields;
    hide Entered;
    hide From;
    assert AlmostSameFields(Inside(doc, r, k, keepSafe).stack, Outside(doc, r, k, keepSafe).stack, Places(doc)[..Piece(doc, r, k)], r);
  }

  lemma StrayPiece(all: Doc, p: nat, a: Atom, keepSafe: bool)
    requires p < |all| && all[p] == Run([a])
    ensures (p, 0) in Walk(all, keepSafe).strays <==> Stray(Before(all, p, keepSafe).stack, a)
  {
    StrayInRun(all, p, 0, keepSafe);
    assert all[p].atoms[..0] == [];
    assert Inside(all, p, 0, keepSafe).stack == EnterRun(Before(all, p, keepSafe).stack, p);
    hide Walk;
  }

  lemma StraySame(doc: Doc, r: nat, k: nat, keepSafe: bool)
    requires r < |doc| && doc[r].Run? && k < |doc[r].atoms|
    ensures (r, k) in Walk(doc, keepSafe).strays <==> (Piece(doc, r, k), 0) in Walk(Explode(doc), keepSafe).strays
  {
    TopInside(doc, r, k, keepSafe);
    StrayInRun(doc, r, k, keepSafe);
    PieceOfRun(doc, r, k);
    hide Walk;
    hide Explode;
    hide Places;
    hide Inside;
    hide First;
    hide Before;
    StrayPiece(Explode(doc), Piece(doc, r, k), doc[r].atoms[k], keepSafe);
  }

  // ----- scanning what is left -----

  /** The atom belongs to no open field. */
  predicate NoPart(stack: seq<OpenField>, a: Atom) {
    a.Text? || Stray(stack, a) || (stack == [] && !a.Begin?)
  }

  /** No deleted run holds anything of a field that stays: each of its atoms belongs to no field, or would be
      deleted if it had a run for itself. */
  ghost predicate Apart(doc: Doc, keepSafe: bool) {
    forall r: nat, k: nat :: r in Gone(doc, keepSafe) && r < |doc| && doc[r].Run? && k < |doc[r].atoms| ==>
      NoPart(Inside(doc, r, k, keepSafe).stack, doc[r].atoms[k]) || AtomInCode(doc, r, k, keepSafe)
  }

  /** The scanner on what stripping leaves of the first `n` items. */
  function Rescan(doc: Doc, n: nat, keepSafe: bool): ScanState
    requires n <= |doc|
  {
    ScanDoc(Stripped(doc, n, keepSafe))
  }

  lemma RescanItem(doc: Doc, r: nat, keepSafe: bool)
    requires r < |doc|
    ensures var sc := Rescan(doc, r, keepSafe);
            Rescan(doc, r + 1, keepSafe) ==
            match doc[r]
            case Run(atoms) =>
              if r in Gone(doc, keepSafe) then sc else ScanAtoms(sc, WithoutStrays(atoms, r, Walk(doc, keepSafe).strays))
            case SimpleStart(instr) => if KeepsSimple(instr, keepSafe) then sc.(found := sc.found + [Code(instr, false)]) else sc
            case SimpleEnd(_) => sc
  {
    StrippedStep(doc, r + 1, keepSafe);
    hide Stripped;
    hide Gone;
    hide Walk;
    var out := Stripped(doc, r, keepSafe);
    ScanOneMore(out, doc[r]);
    if doc[r].Run? {
      ScanOneMore(out, Run(WithoutStrays(doc[r].atoms, r, Walk(doc, keepSafe).strays)));
    }
    hide ScanDoc;
    hide ScanAtoms;
  }

  lemma RescanAtom(all: Doc, p: nat, a: Atom, keepSafe: bool)
    requires p < |all| && all[p] == Run([a])
    ensures var sc := Rescan(all, p, keepSafe);
            Rescan(all, p + 1, keepSafe)
            == if p in Gone(all, keepSafe) || Stray(Before(all, p, keepSafe).stack, a) then sc else ScanAtom(sc, a)
  {
    RescanItem(all, p, keepSafe);
    StrayPiece(all, p, a, keepSafe);
    var sc, strays := Rescan(all, p, keepSafe), Walk(all, keepSafe).strays;
    hide Rescan;
    hide Gone;
    hide Walk;
    hide Before;
    hide Stray;
    LoneWithoutStray(sc, a, p, strays);
    hide ScanAtoms;
    hide ScanAtom;
  }

  lemma LoneWithoutStray(sc: ScanState, a: Atom, p: nat, strays: set<(nat, nat)>)
    ensures ScanAtoms(sc, WithoutStrays([a], p, strays)) == if (p, 0) in strays then sc else ScanAtom(sc, a)
  {
    assert [a][..0] == [];
    ScanAppend(sc, [], a);
    assert [] + [a] == [a];
    hide ScanAtom;
  }

  lemma OneMoreKept(atoms: seq<Atom>, k: nat, r: nat, strays: set<(nat, nat)>)
    requires k < |atoms|
    ensures WithoutStrays(atoms[..k + 1], r, strays)
            == WithoutStrays(atoms[..k], r, strays) + if (r, k) in strays then [] else [atoms[k]]
  {
    assert atoms[..k + 1][..k] == atoms[..k];
  }

  lemma KeptAtom(start: ScanState, before: seq<Atom>, a: Atom, stray: bool)
    ensures ScanAtoms(start, before + if stray then [] else [a])
            == if stray then ScanAtoms(start, before) else ScanAtom(ScanAtoms(start, before), a)
  {
    assert before + [] == before;
    ScanAppend(start, before, a);
    hide ScanAtoms;
    hide ScanAtom;
  }

  lemma KeptPiece(doc: Doc, r: nat, k: nat, keepSafe: bool)
    requires r < |doc| && doc[r].Run? && k < |doc[r].atoms| && r !in Gone(doc, keepSafe)
    ensures Piece(doc, r, k) + 1 <= |Explode(doc)|
    ensures var all, p := Explode(doc), Piece(doc, r, k);
            Rescan(all, p + 1, keepSafe)
            == if (r, k) in Walk(doc, keepSafe).strays then Rescan(all, p, keepSafe) else ScanAtom(Rescan(all, p, keepSafe), doc[r].atoms[k])
  {
    hide Gone;
    hide Walk;
    hide Explode;
    hide Rescan;
    hide Places;
    hide Stray;
    hide ScanAtom;
    hide Before;
    hide First;
    PieceStays(doc, r, k, keepSafe);
    PieceOfRun(doc, r, k);
    StraySame(doc, r, k, keepSafe);
    RescanAtom(Explode(doc), Piece(doc, r, k), doc[r].atoms[k], keepSafe);
    StrayPiece(Explode(doc), Piece(doc, r, k), doc[r].atoms[k], keepSafe);
  }

  /** The scanner inside run `r` of what is left, before its atom `k`. */
  function RescanInside(doc: Doc, r: nat, k: nat, start: ScanState, keepSafe: bool): ScanState
    requires r < |doc| && doc[r].Run? && k <= |doc[r].atoms|
  {
    ScanAtoms(start, WithoutStrays(doc[r].atoms[..k], r, Walk(doc, keepSafe).strays))
  }

  lemma RescanInsideStep(doc: Doc, r: nat, k: nat, start: ScanState, keepSafe: bool)
    requires r < |doc| && doc[r].Run? && k < |doc[r].atoms|
    ensures var sc := RescanInside(doc, r, k, start, keepSafe);
            RescanInside(doc, r, k + 1, start, keepSafe)
            == if (r, k) in Walk(doc, keepSafe).strays then sc else ScanAtom(sc, doc[r].atoms[k])
  {
    hide Walk;
    var strays := Walk(doc, keepSafe).strays;
    OneMoreKept(doc[r].atoms, k, r, strays);
    KeptAtom(start, WithoutStrays(doc[r].atoms[..k], r, strays), doc[r].atoms[k], (r, k) in strays);
    hide WithoutStrays;
    hide ScanAtoms;
    hide ScanAtom;
  }

  /** A run that is not deleted is scanned like its pieces. */
  lemma {:induction false} KeptPieces(doc: Doc, r: nat, k: nat, keepSafe: bool)
    requires r < |doc| && doc[r].Run? && k <= |doc[r].atoms| && r !in Gone(doc, keepSafe)
    ensures First(doc, r) <= |Explode(doc)| && Piece(doc, r, k) <= |Explode(doc)|
    ensures RescanInside(doc, r, k, Rescan(Explode(doc), First(doc, r), keepSafe), keepSafe) == Rescan(Explode(doc), Piece(doc, r, k), keepSafe)
  {
    hide Gone;
    hide Walk;
    hide Explode;
    hide Rescan;
    hide Places;
    if k == 0 {
      ExplodePrefix(doc, r);
    } else {
      KeptPieces(doc, r, k - 1, keepSafe);
      KeptPiece(doc, r, k - 1, keepSafe);
      hide RescanInside;
      hide ScanAtom;
      RescanInsideStep(doc, r, k - 1, Rescan(Explode(doc), First(doc, r), keepSafe), keepSafe);
    }
  }

  lemma PieceStays(doc: Doc, r: nat, k: nat, keepSafe: bool)
    requires r < |doc| && doc[r].Run? && k < |doc[r].atoms| && r !in Gone(doc, keepSafe)
    ensures Piece(doc, r, k) !in Gone(Explode(doc), keepSafe)
  {
    GoneByPiece(doc, r, keepSafe);
    hide Gone;
    hide Explode;
  }

  lemma NoFieldNoEffect(all: Doc, p: nat, a: Atom, keepSafe: bool)
    requires OneMarkPerRun(all) && p <= |all| && Before(all, p, keepSafe).stack == [] && !a.Begin?
    ensures ScanAtom(Rescan(all, p, keepSafe), a) == Rescan(all, p, keepSafe)
  {
    Simulation(all, p, keepSafe);
    assert AliveAt(all, p, keepSafe) == [];
    hide Stripped;
    hide OneMarkPerRun;
    hide AliveAt;
    hide KeptCodes;
  }

  lemma NoPartNoEffect(all: Doc, p: nat, a: Atom, keepSafe: bool)
    requires OneMarkPerRun(all) && p < |all| && all[p] == Run([a]) && NoPart(Before(all, p, keepSafe).stack, a)
    ensures Rescan(all, p + 1, keepSafe) == Rescan(all, p, keepSafe)
  {
    RescanAtom(all, p, a, keepSafe);
    if Before(all, p, keepSafe).stack == [] && !a.Begin? {
      NoFieldNoEffect(all, p, a, keepSafe);
    }
    hide OneMarkPerRun;
    hide Rescan;
    hide Gone;
    hide Before;
  }

  lemma NoPartSame(doc: Doc, r: nat, k: nat, keepSafe: bool)
    requires r < |doc| && doc[r].Run? && k < |doc[r].atoms| && NoPart(Inside(doc, r, k, keepSafe).stack, doc[r].atoms[k])
    ensures Piece(doc, r, k) < |Explode(doc)| && NoPart(Before(Explode(doc), Piece(doc, r, k), keepSafe).stack, doc[r].atoms[k])
  {
    hide Before;
    hide Inside;
    hide Explode;
    hide First;
    TopInside(doc, r, k, keepSafe);
  }

  lemma FreePiece(doc: Doc, r: nat, k: nat, keepSafe: bool)
    requires r < |doc| && doc[r].Run? && k < |doc[r].atoms| && NoPart(Inside(doc, r, k, keepSafe).stack, doc[r].atoms[k])
    ensures Piece(doc, r, k) + 1 <= |Explode(doc)|
    ensures Rescan(Explode(doc), Piece(doc, r, k) + 1, keepSafe) == Rescan(Explode(doc), Piece(doc, r, k), keepSafe)
  {
    hide Before;
    hide Inside;
    hide Explode;
    hide Places;
    hide First;
    hide Rescan;
    hide OneMarkPerRun;
    NoPartSame(doc, r, k, keepSafe);
    hide NoPart;
    PieceOfRun(doc, r, k);
    ExplodedHasOneMark(doc);
    NoPartNoEffect(Explode(doc), Piece(doc, r, k), doc[r].atoms[k], keepSafe);
  }

  lemma CodePiece(doc: Doc, r: nat, k: nat, keepSafe: bool)
    requires r < |doc| && doc[r].Run? && k < |doc[r].atoms| && k < |Pieces(doc[r])| && AtomInCode(doc, r, k, keepSafe)
    ensures Piece(doc, r, k) + 1 <= |Explode(doc)|
    ensures Rescan(Explode(doc), Piece(doc, r, k) + 1, keepSafe) == Rescan(Explode(doc), Piece(doc, r, k), keepSafe)
  {
    hide AtomInCode;
    hide Explode;
    hide Places;
    hide First;
    hide Rescan;
    hide Gone;
    hide Before;
    PieceOfRun(doc, r, k);
    AtomGoneExactly(doc, r, k, keepSafe);
    RescanItem(Explode(doc), Piece(doc, r, k), keepSafe);
  }

  lemma ApartAtom(doc: Doc, r: nat, k: nat, keepSafe: bool)
    requires Apart(doc, keepSafe) && r in Gone(doc, keepSafe) && r < |doc| && doc[r].Run? && k < |doc[r].atoms|
    ensures NoPart(Inside(doc, r, k, keepSafe).stack, doc[r].atoms[k]) || AtomInCode(doc, r, k, keepSafe)
  {
    hide Gone;
    hide Inside;
    hide NoPart;
    hide AtomInCode;
  }

  /** An atom of a deleted run, taken for itself, has no effect on the scanner. */
  lemma GonePiece(doc: Doc, r: nat, k: nat, keepSafe: bool)
    requires Apart(doc, keepSafe) && r in Gone(doc, keepSafe) && r < |doc| && doc[r].Run? && k < |doc[r].atoms|
    ensures Piece(doc, r, k) + 1 <= |Explode(doc)|
    ensures Rescan(Explode(doc), Piece(doc, r, k) + 1, keepSafe) == Rescan(Explode(doc), Piece(doc, r, k), keepSafe)
  {
    hide Apart;
    hide Gone;
    hide AtomInCode;
    hide NoPart;
    hide Inside;
    hide Explode;
    hide First;
    hide Rescan;
    ApartAtom(doc, r, k, keepSafe);
    if AtomInCode(doc, r, k, keepSafe) {
      CodePiece(doc, r, k, keepSafe);
    } else {
      FreePiece(doc, r, k, keepSafe);
    }
  }

  lemma {:induction false} GonePieces(doc: Doc, r: nat, k: nat, keepSafe: bool)
    requires Apart(doc, keepSafe) && r in Gone(doc, keepSafe) && r < |doc| && doc[r].Run? && k <= |doc[r].atoms|
    ensures First(doc, r) <= |Explode(doc)| && Piece(doc, r, k) <= |Explode(doc)|
    ensures Rescan(Explode(doc), Piece(doc, r, k), keepSafe) == Rescan(Explode(doc), First(doc, r), keepSafe)
  {
    hide Apart;
    hide Gone;
    hide Explode;
    hide Rescan;
    if k == 0 {
      ExplodePrefix(doc, r);
    } else {
      GonePieces(doc, r, k - 1, keepSafe);
      GonePiece(doc, r, k - 1, keepSafe);
    }
  }

  /** Something with one piece only. */
  lemma LonePieceScanned(doc: Doc, r: nat, keepSafe: bool)
    requires r < |doc| && (!doc[r].Run? || doc[r].atoms == [])
    requires First(doc, r) <= |Explode(doc)| && Rescan(doc, r, keepSafe) == Rescan(Explode(doc), First(doc, r), keepSafe)
    ensures First(doc, r + 1) <= |Explode(doc)| && Rescan(doc, r + 1, keepSafe) == Rescan(Explode(doc), First(doc, r + 1), keepSafe)
  {
    hide Gone;
    hide Explode;
    hide Places;
    hide Rescan;
    hide Walk;
    PieceAt(doc, r, 0);
    NextFirst(doc, r);
    hide First;
    RescanItem(doc, r, keepSafe);
    RescanItem(Explode(doc), Piece(doc, r, 0), keepSafe);
  }

  /** Scanning what is left of the part is scanning what is left of its pieces. */
  lemma {:induction false} ScansAgree(doc: Doc, n: nat, keepSafe: bool)
    requires Apart(doc, keepSafe) && n <= |doc|
    ensures First(doc, n) <= |Explode(doc)| && Rescan(doc, n, keepSafe) == Rescan(Explode(doc), First(doc, n), keepSafe)
  {
    if n == 0 {
      assert doc[..0] == [];
    } else {
      hide Apart;
      hide Gone;
      hide Explode;
      hide Rescan;
      var r := n - 1;
      ScansAgree(doc, r, keepSafe);
      if !doc[r].Run? || doc[r].atoms == [] {
        LonePieceScanned(doc, r, keepSafe);
      } else {
        RunScanned(doc, r, keepSafe);
      }
    }
  }

  lemma RunScanned(doc: Doc, r: nat, keepSafe: bool)
    requires Apart(doc, keepSafe) && r < |doc| && doc[r].Run? && doc[r].atoms != []
    requires First(doc, r) <= |Explode(doc)| && Rescan(doc, r, keepSafe) == Rescan(Explode(doc), First(doc, r), keepSafe)
    ensures First(doc, r + 1) <= |Explode(doc)| && Rescan(doc, r + 1, keepSafe) == Rescan(Explode(doc), First(doc, r + 1), keepSafe)
  {
    hide Apart;
    hide Gone;
    hide Explode;
    hide Rescan;
    hide Walk;
    hide ScanAtoms;
    var atoms := doc[r].atoms;
    PieceOfRun(doc, r, 0);
    assert First(doc, r + 1) == Piece(doc, r, |atoms|);
    hide First;
    RescanItem(doc, r, keepSafe);
    assert atoms[..|atoms|] == atoms;
    if r in Gone(doc, keepSafe) {
      GonePieces(doc, r, |atoms|, keepSafe);
    } else {
      KeptPieces(doc, r, |atoms|, keepSafe);
    }
  }

  /** The fields that stay, with their instructions as the scanner reads them. */
  function FieldsThatStay(doc: Doc, keepSafe: bool): seq<Code> {
    KeptCodes(Explode(doc), |Explode(doc)|, keepSafe)
  }

  /** What the checker sees of a stripped part whose deleted runs hold nothing of a field that stays: exactly the
      fields that stay, in order, and none left open. */
  lemma ScanWhenApart(doc: Doc, keepSafe: bool)
    requires Apart(doc, keepSafe)
    ensures ScanDoc(Strip(doc, keepSafe)) == ScanState(FieldsThatStay(doc, keepSafe), [])
    ensures Scan(Strip(doc, keepSafe)) == FieldsThatStay(doc, keepSafe)
  {
    var all := Explode(doc);
    ScansAgree(doc, |doc|, keepSafe);
    assert doc[..|doc|] == doc && all[..|all|] == all;
    assert Rescan(doc, |doc|, keepSafe) == ScanDoc(Strip(doc, keepSafe));
    assert Rescan(all, |all|, keepSafe) == ScanDoc(Strip(all, keepSafe));
    ExplodedHasOneMark(doc);
    hide Apart;
    hide Strip;
    hide Explode;
    hide Rescan;
    hide OneMarkPerRun;
    ScanAfterStrip(all, keepSafe);
    var codes := FieldsThatStay(doc, keepSafe);
    hide KeptCodes;
    hide ScanDoc;
    assert codes + [] == codes;
  }

  // ----- which parts are like that -----

  /** A removed field whose code runs on behind an atom was open before it, or begins with it. */
  lemma ClearBack(all: Doc, p: nat, a: Atom, keepSafe: bool, removed: set<nat>)
    requires OneMarkPerRun(all) && p < |all| && all[p] == Run([a]) && !Clear(Before(all, p + 1, keepSafe).stack, removed)
    ensures InRemovedCode(Before(all, p, keepSafe).stack, p, a, removed)
  {
    WalkWellFormed(all[..p], keepSafe);
    LoneAtom(all, p, a, keepSafe);
    var st := Before(all, p, keepSafe);
    assert HasRegions(st.stack);
    hide Walk;
    hide OneMarkPerRun;
    hide WellFormed;
    hide Before;
    AtomClearBack(st, p, a, keepSafe, removed);
  }

  lemma AtomClearBack(st: StripState, p: nat, a: Atom, keepSafe: bool, removed: set<nat>)
    requires HasRegions(st.stack)
    requires !Clear(StripAtom(st.(stack := EnterRun(st.stack, p)), p, 0, a, keepSafe).stack, removed)
    ensures InRemovedCode(st.stack, p, a, removed)
  {
    hide Classify;
    hide Blank;
    EnterRunKeeps(st.stack, p);
    var after := StripAtom(st.(stack := EnterRun(st.stack, p)), p, 0, a, keepSafe).stack;
    var j :| 0 <= j < |after| && At(after[j]) in removed && !after[j].separated;
    if j < |st.stack| {
      assert At(after[j]) == At(st.stack[j]) && !st.stack[j].separated;
    }
  }

  /** Text changes nothing about open fields. */
  lemma TextKeepsClear(all: Doc, p: nat, a: Atom, keepSafe: bool, removed: set<nat>)
    requires OneMarkPerRun(all) && p < |all| && all[p] == Run([a]) && a.Text? && !Clear(Before(all, p, keepSafe).stack, removed)
    ensures !Clear(Before(all, p + 1, keepSafe).stack, removed)
  {
    WalkWellFormed(all[..p], keepSafe);
    LoneAtom(all, p, a, keepSafe);
    var stack := Before(all, p, keepSafe).stack;
    assert HasRegions(stack);
    hide Walk;
    hide OneMarkPerRun;
    hide WellFormed;
    hide Before;
    EnterRunKeeps(stack, p);
    var j :| 0 <= j < |stack| && At(stack[j]) in removed && !stack[j].separated;
    assert Ats(EnterRun(stack, p))[j] == Ats(stack)[j];
    assert At(EnterRun(stack, p)[j]) in removed && !EnterRun(stack, p)[j].separated;
  }

  ghost predicate ClearAt(doc: Doc, r: nat, k: nat, keepSafe: bool)
    requires r <= |doc| && Piece(doc, r, k) <= |Explode(doc)|
  {
    Clear(Before(Explode(doc), Piece(doc, r, k), keepSafe).stack, Removed(Explode(doc), keepSafe))
  }

  lemma InCodeWhen(doc: Doc, r: nat, k: nat, keepSafe: bool)
    requires r < |doc| && doc[r].Run? && k < |doc[r].atoms|
    ensures Piece(doc, r, k) + 1 <= |Explode(doc)|
    ensures AtomInCode(doc, r, k, keepSafe)
            <==> InRemovedCode(Before(Explode(doc), Piece(doc, r, k), keepSafe).stack, Piece(doc, r, k), doc[r].atoms[k], Removed(Explode(doc), keepSafe))
  {
    PieceOfRun(doc, r, k);
    hide Explode;
    hide Places;
    hide First;
    hide Walk;
    hide Removed;
    LoneMark(doc[r].atoms[k]);
  }

  lemma LoneMark(a: Atom)
    ensures if a.Text? then MarkOf([a]).Text? else MarkOf([a]) == a
  {
  }

  lemma OneBack(doc: Doc, r: nat, q: nat, keepSafe: bool)
    requires r < |doc| && doc[r].Run? && q < |doc[r].atoms| && Piece(doc, r, q + 1) <= |Explode(doc)| && !ClearAt(doc, r, q + 1, keepSafe)
    ensures AtomInCode(doc, r, q, keepSafe) && (doc[r].atoms[q].Text? ==> !ClearAt(doc, r, q, keepSafe))
  {
    hide Explode;
    hide Places;
    hide First;
    hide Removed;
    hide Before;
    hide OneMarkPerRun;
    hide AtomInCode;
    hide Clear;
    PieceOfRun(doc, r, q);
    ExplodedHasOneMark(doc);
    ClearBack(Explode(doc), Piece(doc, r, q), doc[r].atoms[q], keepSafe, Removed(Explode(doc), keepSafe));
    InCodeWhen(doc, r, q, keepSafe);
  }

  /** From an atom in removed code back to the only mark before it, all between being text. */
  lemma {:induction false} CodeBefore(doc: Doc, r: nat, k: nat, q: nat, keepSafe: bool)
    requires r < |doc| && doc[r].Run? && k < q <= |doc[r].atoms| && Piece(doc, r, q) <= |Explode(doc)| && !ClearAt(doc, r, q, keepSafe)
    requires forall i :: k < i < q ==> doc[r].atoms[i].Text?
    ensures AtomInCode(doc, r, k, keepSafe)
  {
    hide AtomInCode;
    hide ClearAt;
    hide Explode;
    hide First;
    OneBack(doc, r, q - 1, keepSafe);
    if k < q - 1 {
      CodeBefore(doc, r, k, q - 1, keepSafe);
    }
  }

  lemma {:induction false} CodeAfter(doc: Doc, r: nat, q: nat, k: nat, keepSafe: bool)
    requires r < |doc| && doc[r].Run? && q <= k < |doc[r].atoms| && Piece(doc, r, q) <= |Explode(doc)| && !ClearAt(doc, r, q, keepSafe)
    requires forall i :: q <= i < k ==> doc[r].atoms[i].Text?
    ensures AtomInCode(doc, r, k, keepSafe)
    decreases k - q
  {
    hide Explode;
    hide Places;
    hide First;
    hide Removed;
    hide Before;
    hide OneMarkPerRun;
    hide AtomInCode;
    hide Clear;
    if q == k {
      InCodeWhen(doc, r, k, keepSafe);
    } else {
      PieceOfRun(doc, r, q);
      ExplodedHasOneMark(doc);
      TextKeepsClear(Explode(doc), Piece(doc, r, q), doc[r].atoms[q], keepSafe, Removed(Explode(doc), keepSafe));
      CodeAfter(doc, r, q + 1, k, keepSafe);
    }
  }

  lemma OnlyMarkInCode(doc: Doc, r: nat, k: nat, q: nat, keepSafe: bool)
    requires r < |doc| && doc[r].Run? && OneMark(doc[r].atoms) && k < |doc[r].atoms| && !doc[r].atoms[k].Text?
    requires q < |doc[r].atoms| && AtomInCode(doc, r, q, keepSafe)
    ensures AtomInCode(doc, r, k, keepSafe)
  {
    hide AtomInCode;
    hide Explode;
    hide Before;
    hide Removed;
    hide First;
    if q != k {
      assert doc[r].atoms[q].Text?;
      InCodeWhen(doc, r, q, keepSafe);
      hide Clear;
      if q < k {
        CodeAfter(doc, r, q, k, keepSafe);
      } else {
        CodeBefore(doc, r, k, q, keepSafe);
      }
    }
  }

  /** With one mark per run no deleted run holds anything of a field that stays. */
  lemma OneMarkIsApart(doc: Doc, keepSafe: bool)
    requires OneMarkPerRun(doc)
    ensures Apart(doc, keepSafe)
  {
    forall r: nat, k: nat | r in Gone(doc, keepSafe) && r < |doc| && doc[r].Run? && k < |doc[r].atoms|
      ensures NoPart(Inside(doc, r, k, keepSafe).stack, doc[r].atoms[k]) || AtomInCode(doc, r, k, keepSafe)
    {
      MarkOfGoneRun(doc, r, k, keepSafe);
    }
  }

  lemma MarkOfGoneRun(doc: Doc, r: nat, k: nat, keepSafe: bool)
    requires OneMarkPerRun(doc) && r in Gone(doc, keepSafe) && r < |doc| && doc[r].Run? && k < |doc[r].atoms|
    ensures doc[r].atoms[k].Text? || AtomInCode(doc, r, k, keepSafe)
  {
    assert OneMark(doc[r].atoms);
    hide OneMark;
    hide OneMarkPerRun;
    hide Gone;
    hide AtomInCode;
    DeletedByAtom(doc, r, keepSafe);
    var q :| 0 <= q < |Pieces(doc[r])| && AtomInCode(doc, r, q, keepSafe);
    if !doc[r].atoms[k].Text? {
      OnlyMarkInCode(doc, r, k, q, keepSafe);
    }
  }

  lemma MarkOfField(all: Doc, p: nat, a: Atom)
    requires OneMarkPerRun(all) && p < |all| && all[p] == Run([a]) && !NoPart(Before(all, p, false).stack, a)
    ensures InRemovedCode(Before(all, p, false).stack, p, a, Removed(all, false))
  {
    var stack := Before(all, p, false).stack;
    var top := |stack| - 1;
    if a.Begin? {
      LoneAtom(all, p, a, false);
      var after := Before(all, p + 1, false).stack;
      NestedIsRemoved(all, p + 1, |after| - 1, false);
      hide Removed;
      hide Walk;
      assert after[|after| - 1].region == [p];
    } else {
      NestedIsRemoved(all, p, top, false);
      hide Removed;
      hide Walk;
    }
  }

  /** Nor does any when safe fields are removed too, whatever the runs hold. */
  lemma AllGoneIsApart(doc: Doc)
    ensures Apart(doc, false)
  {
    forall r: nat, k: nat | r in Gone(doc, false) && r < |doc| && doc[r].Run? && k < |doc[r].atoms|
      ensures NoPart(Inside(doc, r, k, false).stack, doc[r].atoms[k]) || AtomInCode(doc, r, k, false)
    {
      FieldMarkInCode(doc, r, k);
    }
  }

  lemma FieldMarkInCode(doc: Doc, r: nat, k: nat)
    requires r < |doc| && doc[r].Run? && k < |doc[r].atoms|
    ensures NoPart(Inside(doc, r, k, false).stack, doc[r].atoms[k]) || AtomInCode(doc, r, k, false)
  {
    hide AtomInCode;
    hide Inside;
    hide Before;
    hide Explode;
    hide Places;
    hide First;
    hide Removed;
    hide OneMarkPerRun;
    TopInside(doc, r, k, false);
    PieceOfRun(doc, r, k);
    ExplodedHasOneMark(doc);
    InCodeWhen(doc, r, k, false);
    hide InRemovedCode;
    if !NoPart(Inside(doc, r, k, false).stack, doc[r].atoms[k]) {
      MarkOfField(Explode(doc), Piece(doc, r, k), doc[r].atoms[k]);
    }
  }

  // ----- what is left is safe -----

  lemma WholeExplodes(doc: Doc)
    requires Whole(doc)
    ensures Whole(Explode(doc))
  {
    forall p | 0 <= p < |Explode(doc)| && Explode(doc)[p].Run?
      ensures WholeAtoms(Explode(doc)[p].atoms)
    {
      var (r, k) := Places(doc)[p];
      PlaceFound(doc, p);
      PieceAt(doc, r, k);
      hide Explode;
      assert doc[r].Run? ==> WholeAtoms(doc[r].atoms);
    }
  }

  /** The checker finds only safe fields in what is left if and only if every field that stays is safe as the
      checker reads its instruction, which may be more of it than the sanitizer reads. */
  lemma SafeExactly(doc: Doc, keepSafe: bool)
    requires Apart(doc, keepSafe)
    ensures (forall c :: c in Classes(Scan(Strip(doc, keepSafe))) ==> c == Safe) <==> AllSafe(FieldsThatStay(doc, keepSafe))
  {
    ScanWhenApart(doc, keepSafe);
    var codes := FieldsThatStay(doc, keepSafe);
    hide Apart;
    hide Scan;
    hide Strip;
    hide FieldsThatStay;
    forall i | 0 <= i < |codes|
      ensures Classes(codes)[i] == Safe <==> SafeCode(codes[i])
    {
    }
    assert forall i :: 0 <= i < |codes| ==> Classes(codes)[i] in Classes(codes);
  }

  lemma WholeFieldsAreKept(doc: Doc, keepSafe: bool)
    requires Whole(doc)
    ensures AllKept(FieldsThatStay(doc, keepSafe), keepSafe) && AllSafe(FieldsThatStay(doc, keepSafe))
  {
    WholeExplodes(doc);
    ExplodedHasOneMark(doc);
    hide Explode;
    hide KeptCodes;
    hide OneMarkPerRun;
    hide Whole;
    AllSafeIsKept(Explode(doc), keepSafe);
    hide SafeCode;
  }

  /** With whole fragments the checker finds only safe fields in what is left. */
  lemma OnlySafeIsLeft(doc: Doc, keepSafe: bool)
    requires Apart(doc, keepSafe) && Whole(doc)
    ensures forall c :: c in Classes(Scan(Strip(doc, keepSafe))) ==> c == Safe
  {
    hide Apart;
    hide Whole;
    hide FieldsThatStay;
    hide AllSafe;
    hide Scan;
    hide Strip;
    SafeExactly(doc, keepSafe);
    WholeFieldsAreKept(doc, keepSafe);
  }

  /** In a part that is crowded a deleted run does hold something of a field that stays: the condition is needed. */
  lemma ApartIsNeeded(s: string)
    requires !Blank(s) && Classify(s, false) == Safe
    ensures !Apart(Crowded(s), true)
    ensures Classes(Scan(Strip(Crowded(s), true))) == [Other]
  {
    OneMarkIsNeeded(s);
    hide Apart;
    hide Scan;
    hide Strip;
    assert Other in Classes(Scan(Strip(Crowded(s), true)));
    assert Whole(Crowded(s));
    hide Whole;
    if Apart(Crowded(s), true) {
      OnlySafeIsLeft(Crowded(s), true);
    }
  }

  /** A part with nothing to remove, however its marks share runs. */
  lemma NothingDoomedIsApart(doc: Doc, keepSafe: bool)
    requires Doomed(doc, keepSafe) == []
    ensures Apart(doc, keepSafe)
  {
    hide Inside;
    hide AtomInCode;
    hide Walk;
    assert Gone(doc, keepSafe) == {};
  }

  /** A field written in one run. */
  function Compact(head: string, rest: string): Doc { [Run([Begin, Instr(head, rest), End])] }

  lemma CompactExplodes(head: string, rest: string)
    ensures Explode(Compact(head, rest)) == Torn(head, rest)
    ensures forall k: nat :: Piece(Compact(head, rest), 0, k) == k
  {
    var doc := Compact(head, rest);
    assert doc[..0] == [] && Explode(doc[..0]) == [];
    assert Pieces(doc[0]) == Torn(head, rest);
  }

  lemma TornGone(head: string, rest: string)
    requires Classify(head, false) != Safe
    ensures 0 in Gone(Torn(head, rest), true) && 1 in Gone(Torn(head, rest), true) && 2 in Gone(Torn(head, rest), true)
  {
    TornDoomed(head, rest);
    var f := OpenField(head, [0, 1] + [2] + [2], false, false);
    assert Doomed(Torn(head, rest), true) == [f];
    hide Walk;
    hide Torn;
    assert f in Doomed(Torn(head, rest), true);
    assert f.region[0] == 0 && f.region[1] == 1 && f.region[2] == 2;
    assert 0 in f.region && 1 in f.region && 2 in f.region;
  }

  /** It goes as a whole or stays as a whole. */
  lemma CompactIsApart(head: string, rest: string)
    ensures !OneMarkPerRun(Compact(head, rest)) && Apart(Compact(head, rest), true)
  {
    var doc := Compact(head, rest);
    assert doc[0].Run? && !OneMark(doc[0].atoms) by {
      assert !doc[0].atoms[0].Text? && !doc[0].atoms[1].Text?;
    }
    CompactExplodes(head, rest);
    if Classify(head, false) == Safe {
      TornWalk(head, rest);
      GoneWithPieces(doc);
    } else {
      TornGone(head, rest);
      hide Classify;
      hide Gone;
      hide Inside;
      hide Explode;
      forall k: nat | k < 3
        ensures AtomInCode(doc, 0, k, true)
      {
        AtomGoneExactly(doc, 0, k, true);
      }
      hide AtomInCode;
    }
  }

  lemma GoneWithPieces(doc: Doc)
    requires Doomed(Explode(doc), true) == []
    ensures Apart(doc, true)
  {
    DoomedIsSame(doc, true);
    hide Walk;
    hide Explode;
    NothingDoomedIsApart(doc, true);
  }

  // ----- a second pass finds nothing to do -----

  lemma BareAppend(a: Doc, b: Doc)
    ensures BareDoc(a + b) == BareDoc(a) + BareDoc(b)
  {
    hide BareItem;
  }

  lemma {:induction false} BareExplode(doc: Doc)
    ensures Explode(BareDoc(doc)) == BareDoc(Explode(doc))
  {
    if doc != [] {
      var r := |doc| - 1;
      assert BareDoc(doc)[..r] == BareDoc(doc[..r]) && BareDoc(doc)[r] == BareItem(doc[r]);
      BareExplode(doc[..r]);
      BarePieces(doc[r]);
      hide Pieces;
      hide BareDoc;
      BareAppend(Explode(doc[..r]), Pieces(doc[r]));
    }
  }

  lemma BarePieces(item: Item)
    ensures Pieces(BareItem(item)) == BareDoc(Pieces(item))
  {
    if item.Run? {
      forall k | 0 <= k < |item.atoms|
        ensures BareAtoms([item.atoms[k]]) == [BareAtoms(item.atoms)[k]]
      {
      }
      assert item.atoms != [] ==> |Pieces(BareItem(item))| == |item.atoms|;
      assert item.atoms == [] ==> BareAtoms([]) == [];
    }
  }

  lemma BareGone(doc: Doc, keepSafe: bool)
    ensures Gone(BareDoc(doc), keepSafe) == Gone(doc, keepSafe)
  {
    BareWalk(doc, keepSafe);
    hide Walk;
    hide BareDoc;
    assert Doomed(BareDoc(doc), keepSafe) == Doomed(doc, keepSafe);
  }

  lemma BareInside(doc: Doc, r: nat, k: nat, keepSafe: bool)
    requires r < |doc| && doc[r].Run? && k <= |doc[r].atoms|
    ensures Inside(BareDoc(doc), r, k, keepSafe) == Inside(doc, r, k, keepSafe)
    ensures Piece(BareDoc(doc), r, k) == Piece(doc, r, k)
  {
    var st := Walk(doc[..r], keepSafe);
    assert BareDoc(doc)[..r] == BareDoc(doc[..r]);
    BareExplode(doc[..r]);
    BareWalk(doc[..r], keepSafe);
    hide Walk;
    hide Explode;
    assert BareAtoms(doc[r].atoms)[..k] == BareAtoms(doc[r].atoms[..k]);
    BareStripAtoms(st.(stack := EnterRun(st.stack, r)), r, doc[r].atoms[..k], keepSafe);
    hide StripAtoms;
  }

  lemma BareInCode(doc: Doc, r: nat, k: nat, keepSafe: bool)
    requires r < |doc| && doc[r].Run? && k < |doc[r].atoms|
    ensures AtomInCode(BareDoc(doc), r, k, keepSafe) <==> AtomInCode(doc, r, k, keepSafe)
  {
    BareInside(doc, r, k, keepSafe);
    BareExplode(doc);
    BareGone(Explode(doc), keepSafe);
    hide AtomInCode;
    hide Explode;
    hide Gone;
    hide First;
    AtomGoneExactly(doc, r, k, keepSafe);
    AtomGoneExactly(BareDoc(doc), r, k, keepSafe);
  }

  lemma BareApart(doc: Doc, keepSafe: bool)
    requires Apart(doc, keepSafe)
    ensures Apart(BareDoc(doc), keepSafe)
  {
    var bare := BareDoc(doc);
    BareGone(doc, keepSafe);
    hide Gone;
    hide AtomInCode;
    hide Inside;
    forall r: nat, k: nat | r in Gone(bare, keepSafe) && r < |bare| && bare[r].Run? && k < |bare[r].atoms|
      ensures NoPart(Inside(bare, r, k, keepSafe).stack, bare[r].atoms[k]) || AtomInCode(bare, r, k, keepSafe)
    {
      ApartAtom(doc, r, k, keepSafe);
      BareInside(doc, r, k, keepSafe);
      BareInCode(doc, r, k, keepSafe);
    }
  }

  /** The sanitizer walks over what it left without removing anything. */
  lemma NothingIsDoomed(doc: Doc, keepSafe: bool)
    requires Apart(doc, keepSafe)
    ensures Walk(Strip(doc, keepSafe), keepSafe).doomed == [] && Walk(Strip(doc, keepSafe), keepSafe).stack == []
  {
    var bare, out := BareDoc(doc), Strip(doc, keepSafe);
    BareApart(doc, keepSafe);
    BareStrip(doc, keepSafe);
    BareStrip(out, keepSafe);
    BareWalk(out, keepSafe);
    hide Apart;
    hide Strip;
    hide BareDoc;
    hide Walk;
    hide OneMarkPerRun;
    hide Whole;
    hide FieldsThatStay;
    ScanWhenApart(bare, keepSafe);
    WholeFieldsAreKept(bare, keepSafe);
    MachinesAgree(BareDoc(out), keepSafe);
    assert |Walk(out, keepSafe).stack| == |Erase(Walk(out, keepSafe).stack)| == 0;
  }

  /** The sanitizer inside a run of its own output, before what is left of its atom `k`. */
  function Again(doc: Doc, r: nat, k: nat, keepSafe: bool): StripState
    requires r < |doc| && doc[r].Run? && k <= |doc[r].atoms|
  {
    var out := Stripped(doc, r, keepSafe);
    var st := Walk(out, keepSafe);
    StripAtoms(st.(stack := EnterRun(st.stack, |out|)), |out|, WithoutStrays(doc[r].atoms[..k], r, Walk(doc, keepSafe).strays), keepSafe)
  }

  lemma AgainInShape(doc: Doc, r: nat, k: nat, keepSafe: bool)
    requires r < |doc| && doc[r].Run? && k <= |doc[r].atoms|
    ensures SameShape(Again(doc, r, k, keepSafe).stack, RescanInside(doc, r, k, Rescan(doc, r, keepSafe), keepSafe).fields)
  {
    var out := Stripped(doc, r, keepSafe);
    ShapesAgree(out, keepSafe);
    hide Stripped;
    hide ScanDoc;
    hide WithoutStrays;
    var st := Walk(out, keepSafe);
    assert SameShape(EnterRun(st.stack, |out|), ScanDoc(out).fields);
    hide SameShape;
    var kept := WithoutStrays(doc[r].atoms[..k], r, Walk(doc, keepSafe).strays);
    hide Walk;
    AtomsKeepShape(st.(stack := EnterRun(st.stack, |out|)), |out|, kept, keepSafe, ScanDoc(out));
  }

  /** The scanner is in the instruction of an open field before a fragment that is left. */
  lemma FragmentInside(doc: Doc, r: nat, k: nat, keepSafe: bool)
    requires Apart(doc, keepSafe) && r < |doc| && doc[r].Run? && k < |doc[r].atoms| && r !in Gone(doc, keepSafe)
    requires doc[r].atoms[k].Instr? && (r, k) !in Walk(doc, keepSafe).strays
    ensures var fields := RescanInside(doc, r, k, Rescan(doc, r, keepSafe), keepSafe).fields;
            fields != [] && !fields[|fields| - 1].inResult
  {
    hide Apart;
    hide Gone;
    hide Walk;
    hide Explode;
    hide Places;
    hide First;
    hide Rescan;
    hide RescanInside;
    hide Stray;
    hide Before;
    hide OneMarkPerRun;
    ScansAgree(doc, r, keepSafe);
    KeptPieces(doc, r, k, keepSafe);
    PieceStays(doc, r, k, keepSafe);
    StraySame(doc, r, k, keepSafe);
    PieceOfRun(doc, r, k);
    ExplodedHasOneMark(doc);
    StrayPiece(Explode(doc), Piece(doc, r, k), doc[r].atoms[k], keepSafe);
    OpenAtPiece(Explode(doc), Piece(doc, r, k), doc[r].atoms[k], keepSafe);
  }

  lemma OpenAtPiece(all: Doc, p: nat, a: Atom, keepSafe: bool)
    requires OneMarkPerRun(all) && p < |all| && all[p] == Run([a]) && a.Instr? && p !in Gone(all, keepSafe)
    requires !Stray(Before(all, p, keepSafe).stack, a)
    ensures var fields := Rescan(all, p, keepSafe).fields;
            fields != [] && !fields[|fields| - 1].inResult
  {
    LoneMark(a);
    hide OneMarkPerRun;
    hide Gone;
    hide Walk;
    hide Stripped;
    hide ScanDoc;
    FragmentIsOpen(all, p, keepSafe);
  }

  lemma AgainStep(doc: Doc, r: nat, k: nat, keepSafe: bool)
    requires r < |doc| && doc[r].Run? && k < |doc[r].atoms|
    ensures var st := Again(doc, r, k, keepSafe);
            Again(doc, r, k + 1, keepSafe).strays
            == if (r, k) in Walk(doc, keepSafe).strays || !Stray(st.stack, doc[r].atoms[k]) then st.strays
               else st.strays + {(|Stripped(doc, r, keepSafe)|, |WithoutStrays(doc[r].atoms[..k], r, Walk(doc, keepSafe).strays)|)}
  {
    var strays := Walk(doc, keepSafe).strays;
    var kept := WithoutStrays(doc[r].atoms[..k], r, strays);
    hide Walk;
    hide Stripped;
    hide Stray;
    OneMoreKept(doc[r].atoms, k, r, strays);
    hide WithoutStrays;
    assert kept + [] == kept;
    assert (kept + [doc[r].atoms[k]])[..|kept|] == kept;
    var out := Stripped(doc, r, keepSafe);
    AtomStray(Again(doc, r, k, keepSafe), |out|, |kept|, doc[r].atoms[k], keepSafe);
    hide StripAtom;
  }

  lemma NotStrayAgain(doc: Doc, r: nat, k: nat, keepSafe: bool)
    requires Apart(doc, keepSafe) && r < |doc| && doc[r].Run? && k < |doc[r].atoms| && r !in Gone(doc, keepSafe)
    requires (r, k) !in Walk(doc, keepSafe).strays
    ensures !Stray(Again(doc, r, k, keepSafe).stack, doc[r].atoms[k])
  {
    hide Apart;
    hide Gone;
    hide Again;
    hide Walk;
    hide RescanInside;
    hide Rescan;
    hide Blank;
    if doc[r].atoms[k].Instr? {
      AgainInShape(doc, r, k, keepSafe);
      FragmentInside(doc, r, k, keepSafe);
    }
  }

  lemma AgainStarts(doc: Doc, r: nat, keepSafe: bool)
    requires r < |doc| && doc[r].Run?
    ensures Again(doc, r, 0, keepSafe).strays == Walk(Stripped(doc, r, keepSafe), keepSafe).strays
  {
    hide Walk;
    hide Stripped;
    assert doc[r].atoms[..0] == [];
  }

  /** What is left of an atom is not stray. */
  lemma NextNotStray(doc: Doc, r: nat, k: nat, keepSafe: bool)
    requires Apart(doc, keepSafe) && r < |doc| && doc[r].Run? && k < |doc[r].atoms| && r !in Gone(doc, keepSafe)
    ensures Again(doc, r, k + 1, keepSafe).strays == Again(doc, r, k, keepSafe).strays
  {
    hide Apart;
    hide Gone;
    hide Walk;
    hide Stripped;
    hide Again;
    hide WithoutStrays;
    hide Stray;
    AgainStep(doc, r, k, keepSafe);
    if (r, k) !in Walk(doc, keepSafe).strays {
      NotStrayAgain(doc, r, k, keepSafe);
    }
  }

  lemma {:induction false} NoStraysInRun(doc: Doc, r: nat, k: nat, keepSafe: bool)
    requires Apart(doc, keepSafe) && r < |doc| && doc[r].Run? && k <= |doc[r].atoms| && r !in Gone(doc, keepSafe)
    requires Walk(Stripped(doc, r, keepSafe), keepSafe).strays == {}
    ensures Again(doc, r, k, keepSafe).strays == {}
  {
    hide Apart;
    hide Gone;
    hide Walk;
    hide Stripped;
    hide Again;
    if k == 0 {
      AgainStarts(doc, r, keepSafe);
    } else {
      NoStraysInRun(doc, r, k - 1, keepSafe);
      NextNotStray(doc, r, k - 1, keepSafe);
    }
  }

  lemma WalkOneMore(out: Doc, atoms: seq<Atom>, keepSafe: bool)
    ensures var st := Walk(out, keepSafe);
            Walk(out + [Run(atoms)], keepSafe) == StripAtoms(st.(stack := EnterRun(st.stack, |out|)), |out|, atoms, keepSafe)
  {
    assert (out + [Run(atoms)])[..|out|] == out;
    hide StripAtoms;
  }

  lemma {:induction false} NoStraysLeft(doc: Doc, n: nat, keepSafe: bool)
    requires Apart(doc, keepSafe) && n <= |doc|
    ensures Walk(Stripped(doc, n, keepSafe), keepSafe).strays == {}
  {
    if n > 0 {
      var r := n - 1;
      hide Apart;
      hide Gone;
      hide Stripped;
      hide Walk;
      NoStraysLeft(doc, r, keepSafe);
      StrippedStep(doc, n, keepSafe);
      var out := Stripped(doc, r, keepSafe);
      if doc[r].Run? && r !in Gone(doc, keepSafe) {
        var atoms := doc[r].atoms;
        NoStraysInRun(doc, r, |atoms|, keepSafe);
        assert atoms[..|atoms|] == atoms;
        WalkOneMore(out, WithoutStrays(atoms, r, Walk(doc, keepSafe).strays), keepSafe);
        hide WithoutStrays;
        hide StripAtoms;
      } else {
        WalkSimple(out, doc[r], keepSafe);
      }
    }
  }

  /** Stripping is idempotent: a second pass removes nothing, returns 0 and changes nothing. */
  lemma StripIsIdempotent(doc: Doc, keepSafe: bool)
    requires Apart(doc, keepSafe)
    ensures var out := Strip(doc, keepSafe);
            Strip(out, keepSafe) == out && RemovedCount(out, keepSafe) == 0
  {
    var out := Strip(doc, keepSafe);
    assert doc[..|doc|] == doc;
    NoStraysLeft(doc, |doc|, keepSafe);
    NothingIsDoomed(doc, keepSafe);
    hide Apart;
    OutputKeepsSimples(doc, keepSafe, Gone(doc, keepSafe), Walk(doc, keepSafe).strays);
    assert Stripped(doc, |doc|, keepSafe) == out;
    assert SimplesKept(out, keepSafe);
    hide Strip;
    hide Walk;
    hide SimplesKept;
    assert Doomed(out, keepSafe) == [];
    assert Gone(out, keepSafe) == {};
    NothingToOutput(out, keepSafe);
    NothingToUnwrap(out, keepSafe);
    StripOf(out, keepSafe);
  }

  lemma StripOf(doc: Doc, keepSafe: bool)
    ensures Strip(doc, keepSafe) == Output(doc, keepSafe, Gone(doc, keepSafe), Walk(doc, keepSafe).strays)
  {
  }

  /** With `keepSafe` off no field of either kind begins in what is left, and no fragment of an instruction
      lies outside a field; for every part, whatever its runs hold. */
  lemma NoFieldIsLeft(doc: Doc)
    ensures Begins(Strip(doc, false)) == 0 && Walk(Strip(doc, false), false).strays == {}
  {
    AllGoneIsApart(doc);
    hide Apart;
    ScanWhenApart(doc, false);
    KeptNeedsKeepSafe(Explode(doc), |Explode(doc)|);
    ScanMissesNothing(Strip(doc, false));
    NoStraysLeft(doc, |doc|, false);
    assert doc[..|doc|] == doc;
    assert Stripped(doc, |doc|, false) == Strip(doc, false);
    hide Strip;
    hide Walk;
    hide Explode;
    hide KeptCodes;
  }

  // ----- visible text -----

  function TextsIn(atoms: seq<Atom>): seq<string> {
    if atoms == [] then []
    else
      var n := |atoms| - 1;
      TextsIn(atoms[..n]) + if atoms[n].Text? then [atoms[n].text] else []
  }

  function Texts(doc: Doc): seq<string> {
    if doc == [] then []
    else
      var r := |doc| - 1;
      Texts(doc[..r]) + if doc[r].Run? then TextsIn(doc[r].atoms) else []
  }

  function TextsOf(item: Item, deleted: bool): seq<string> {
    if item.Run? && !deleted then TextsIn(item.atoms) else []
  }

  /** The texts of the runs none of whose atoms is part of the code of a removed field. */
  ghost function VisibleTexts(doc: Doc, n: nat, keepSafe: bool): seq<string>
    requires n <= |doc|
  {
    if n == 0 then []
    else
      var r := n - 1;
      VisibleTexts(doc, r, keepSafe) + TextsOf(doc[r], RunInCode(doc, r, keepSafe))
  }

  lemma {:induction false} TextsWithoutStrays(atoms: seq<Atom>, r: nat, strays: set<(nat, nat)>)
    requires forall k :: 0 <= k < |atoms| && (r, k) in strays ==> atoms[k].Instr?
    ensures TextsIn(WithoutStrays(atoms, r, strays)) == TextsIn(atoms)
  {
    if atoms != [] {
      var n := |atoms| - 1;
      TextsWithoutStrays(atoms[..n], r, strays);
      var init := WithoutStrays(atoms[..n], r, strays);
      assert (init + [atoms[n]])[..|init|] == init;
      assert init + [] == init;
    }
  }

  lemma TextsOneMore(out: Doc, item: Item)
    ensures Texts(out + [item]) == Texts(out) + if item.Run? then TextsIn(item.atoms) else []
    ensures Texts(out + []) == Texts(out)
  {
    assert (out + [item])[..|out|] == out;
    assert out + [] == out;
  }

  lemma TextOfItem(doc: Doc, r: nat, keepSafe: bool, out: Doc)
    requires r < |doc|
    ensures var item := OutputItem(doc[r], r, keepSafe, Gone(doc, keepSafe), Walk(doc, keepSafe).strays);
            Texts(out + item) == Texts(out) + if doc[r].Run? && r !in Gone(doc, keepSafe) then TextsIn(doc[r].atoms) else []
  {
    var strays := Walk(doc, keepSafe).strays;
    if doc[r].Run? {
      WalkStrays(doc, keepSafe);
      hide Walk;
      hide Gone;
      TextsWithoutStrays(doc[r].atoms, r, strays);
      TextsOneMore(out, Run(WithoutStrays(doc[r].atoms, r, strays)));
    } else {
      TextsOneMore(out, doc[r]);
    }
  }

  /** The texts left of the first `n` items. */
  function TextsLeft(doc: Doc, n: nat, keepSafe: bool): seq<string>
    requires n <= |doc|
  {
    Texts(Stripped(doc, n, keepSafe))
  }

  lemma TextsLeftStep(doc: Doc, r: nat, keepSafe: bool)
    requires r < |doc|
    ensures TextsLeft(doc, r + 1, keepSafe)
            == TextsLeft(doc, r, keepSafe) + TextsOf(doc[r], r in Gone(doc, keepSafe))
  {
    hide Stripped;
    hide Gone;
    hide Walk;
    hide Texts;
    hide OutputItem;
    StrippedStep(doc, r + 1, keepSafe);
    TextOfItem(doc, r, keepSafe, Stripped(doc, r, keepSafe));
  }

  lemma VisibleStep(doc: Doc, r: nat, keepSafe: bool)
    requires r < |doc|
    ensures VisibleTexts(doc, r + 1, keepSafe) == VisibleTexts(doc, r, keepSafe) + TextsOf(doc[r], r in Gone(doc, keepSafe))
  {
    hide Gone;
    hide RunInCode;
    hide TextsOf;
    DeletedByAtom(doc, r, keepSafe);
  }

  lemma NoTexts(doc: Doc, keepSafe: bool)
    ensures TextsLeft(doc, 0, keepSafe) == VisibleTexts(doc, 0, keepSafe)
  {
    assert Stripped(doc, 0, keepSafe) == [];
  }

  lemma {:induction false} TextsLeftAreVisible(doc: Doc, n: nat, keepSafe: bool)
    requires n <= |doc|
    ensures TextsLeft(doc, n, keepSafe) == VisibleTexts(doc, n, keepSafe)
  {
    hide TextsLeft;
    hide VisibleTexts;
    hide TextsOf;
    hide Gone;
    if n == 0 {
      NoTexts(doc, keepSafe);
    } else {
      TextsLeftAreVisible(doc, n - 1, keepSafe);
      TextsLeftStep(doc, n - 1, keepSafe);
      VisibleStep(doc, n - 1, keepSafe);
    }
  }

  /** Stripping conserves visible text, whatever the runs hold: what is left is, in order, every text of the
      part except those of runs with something of the code of a removed field. */
  lemma TextIsConserved(doc: Doc, keepSafe: bool)
    ensures Texts(Strip(doc, keepSafe)) == VisibleTexts(doc, |doc|, keepSafe)
  {
    assert doc[..|doc|] == doc;
    assert TextsLeft(doc, |doc|, keepSafe) == Texts(Strip(doc, keepSafe));
    TextsLeftAreVisible(doc, |doc|, keepSafe);
  }
}
