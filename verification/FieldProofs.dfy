/** Scanning what stripping leaves: the two stack machines of `Fields` agree. */
module FieldProofs {
  import opened Fields

  // ----- one field mark or instruction fragment per run -----

  predicate OneMark(atoms: seq<Atom>) {
    forall j, k :: 0 <= j < k < |atoms| ==> atoms[j].Text? || atoms[k].Text?
  }

  /** Every run holds at most one mark or instruction fragment, and any amount of text. */
  predicate OneMarkPerRun(doc: Doc) {
    forall i :: 0 <= i < |doc| && doc[i].Run? ==> OneMark(doc[i].atoms)
  }

  /** Position of the last mark or fragment of a run; `|atoms|` when it holds only text. */
  function MarkIndex(atoms: seq<Atom>): (k: nat)
    ensures k <= |atoms| && (k < |atoms| ==> !atoms[k].Text?)
  {
    if atoms == [] then 0
    else if !atoms[|atoms| - 1].Text? then |atoms| - 1
    else
      var k := MarkIndex(atoms[..|atoms| - 1]);
      if k == |atoms| - 1 then |atoms| else k
  }

  function MarkOf(atoms: seq<Atom>): Atom {
    if MarkIndex(atoms) < |atoms| then atoms[MarkIndex(atoms)] else Text("")
  }

  lemma ScanAppend(st: ScanState, atoms: seq<Atom>, a: Atom)
    ensures ScanAtoms(st, atoms + [a]) == ScanAtom(ScanAtoms(st, atoms), a)
  {
    assert (atoms + [a])[..|atoms|] == atoms;
  }

  lemma {:induction false} OnlyText(atoms: seq<Atom>, st: StripState, r: nat, keepSafe: bool)
    requires forall k :: 0 <= k < |atoms| ==> atoms[k].Text?
    ensures StripAtoms(st, r, atoms, keepSafe) == st
  {
    if atoms != [] {
      OnlyText(atoms[..|atoms| - 1], st, r, keepSafe);
    }
  }

  /** A run with one mark does to the sanitizer what its mark does. */
  lemma {:induction false} StripOneMark(st: StripState, r: nat, atoms: seq<Atom>, keepSafe: bool)
    requires OneMark(atoms)
    ensures StripAtoms(st, r, atoms, keepSafe) == StripAtom(st, r, MarkIndex(atoms), MarkOf(atoms), keepSafe)
  {
    if atoms != [] {
      var n := |atoms| - 1;
      if atoms[n].Text? {
        StripOneMark(st, r, atoms[..n], keepSafe);
      } else {
        OnlyText(atoms[..n], st, r, keepSafe);
      }
    }
  }

  function Marks(atoms: seq<Atom>): seq<Atom> {
    if atoms == [] then []
    else
      var n := |atoms| - 1;
      Marks(atoms[..n]) + if atoms[n].Text? then [] else [atoms[n]]
  }

  lemma {:induction false} ScanSeesOnlyMarks(st: ScanState, atoms: seq<Atom>)
    ensures ScanAtoms(st, atoms) == ScanAtoms(st, Marks(atoms))
  {
    if atoms != [] {
      var n := |atoms| - 1;
      ScanSeesOnlyMarks(st, atoms[..n]);
      if atoms[n].Text? {
        assert Marks(atoms) == Marks(atoms[..n]);
      } else {
        ScanAppend(st, Marks(atoms[..n]), atoms[n]);
      }
    }
  }

  lemma {:induction false} MarksWithoutStrays(atoms: seq<Atom>, r: nat, strays: set<(nat, nat)>)
    requires OneMark(atoms)
    ensures Marks(WithoutStrays(atoms, r, strays))
            == if MarkIndex(atoms) == |atoms| || (r, MarkIndex(atoms)) in strays then [] else [MarkOf(atoms)]
  {
    if atoms != [] {
      var n := |atoms| - 1;
      MarksWithoutStrays(atoms[..n], r, strays);
      var init := WithoutStrays(atoms[..n], r, strays);
      assert (init + [atoms[n]])[..|init|] == init;
      assert init + [] == init;
      if atoms[n].Text? {
        assert Marks(WithoutStrays(atoms, r, strays)) == Marks(init) + [];
      } else {
        AllTextHasNoMark(atoms[..n]);
        assert Marks(WithoutStrays(atoms, r, strays)) == Marks(init) + if (r, n) in strays then [] else [atoms[n]];
      }
    }
  }

  /** And to the scanner, whatever stray fragments were taken out of the run. */
  lemma ScanOneMark(st: ScanState, r: nat, atoms: seq<Atom>, strays: set<(nat, nat)>)
    requires OneMark(atoms)
    ensures ScanAtoms(st, WithoutStrays(atoms, r, strays))
            == if (r, MarkIndex(atoms)) in strays then st else ScanAtom(st, MarkOf(atoms))
  {
    ScanSeesOnlyMarks(st, WithoutStrays(atoms, r, strays));
    MarksWithoutStrays(atoms, r, strays);
    ScanAppend(st, [], MarkOf(atoms));
    assert [] + [MarkOf(atoms)] == [MarkOf(atoms)];
  }

  lemma {:induction false} NothingStray(atoms: seq<Atom>, r: nat)
    ensures WithoutStrays(atoms, r, {}) == atoms
  {
    if atoms != [] {
      NothingStray(atoms[..|atoms| - 1], r);
    }
  }

  /** The scanner's state after item `r`, from the state before it. */
  lemma ScanStep(doc: Doc, r: nat)
    requires OneMarkPerRun(doc) && r < |doc|
    ensures doc[r].Run? ==> ScanDoc(doc[..r + 1]) == ScanAtom(ScanDoc(doc[..r]), MarkOf(doc[r].atoms))
    ensures !doc[r].Run? ==> ScanDoc(doc[..r + 1]).fields == ScanDoc(doc[..r]).fields
  {
    assert doc[..r + 1][..r] == doc[..r];
    if doc[r].Run? {
      NothingStray(doc[r].atoms, r);
      ScanOneMark(ScanDoc(doc[..r]), r, doc[r].atoms, {});
    }
  }

  lemma {:induction false} AllTextHasNoMark(atoms: seq<Atom>)
    requires forall k :: 0 <= k < |atoms| ==> atoms[k].Text?
    ensures MarkIndex(atoms) == |atoms|
  {
    if atoms != [] {
      AllTextHasNoMark(atoms[..|atoms| - 1]);
    }
  }

  // ----- what every run of the sanitizer keeps -----

  /** A field is known by the run it begins in. */
  function At(f: OpenField): nat { if f.region == [] then 0 else f.region[0] }

  function Ats(fields: seq<OpenField>): seq<nat> {
    seq(|fields|, j requires 0 <= j < |fields| => At(fields[j]))
  }

  /** A field covered by another one has an instruction by then, or is marked as nested-first. */
  predicate Named(f: OpenField) { f.separated || f.nested || !Blank(f.instr) }

  ghost predicate HasRegions(fields: seq<OpenField>) {
    forall j :: 0 <= j < |fields| ==> fields[j].region != []
  }

  ghost predicate WellFormed(st: StripState, n: nat) {
    && HasRegions(st.stack) && HasRegions(st.doomed)
    && (forall j :: 0 <= j < |st.stack| ==> Ats(st.stack)[j] < n)
    && (forall d :: 0 <= d < |st.doomed| ==> Ats(st.doomed)[d] < n)
    && (forall j, k :: 0 <= j < k < |st.stack| ==> Ats(st.stack)[j] < Ats(st.stack)[k])
    && (forall d, j :: 0 <= d < |st.doomed| && 0 <= j < |st.stack| ==> Ats(st.doomed)[d] != Ats(st.stack)[j])
    && (forall p :: p in st.strays ==> p.0 < n)
    && (forall j :: 0 <= j < |st.stack| - 1 ==> Named(st.stack[j]))
  }

  lemma EnterRunKeeps(stack: seq<OpenField>, r: nat)
    requires HasRegions(stack)
    ensures |EnterRun(stack, r)| == |stack|
    ensures forall j :: 0 <= j < |stack| ==>
              && EnterRun(stack, r)[j] == stack[j].(region := EnterRun(stack, r)[j].region)
              && EnterRun(stack, r)[j].region == stack[j].region + if stack[j].separated then [] else [r]
    ensures Ats(EnterRun(stack, r)) == Ats(stack)
  {
  }

  lemma EnterWellFormed(st: StripState, n: nat)
    requires WellFormed(st, n)
    ensures WellFormed(st.(stack := EnterRun(st.stack, n)), n)
  {
    EnterRunKeeps(st.stack, n);
  }

  lemma EndWellFormed(st: StripState, n: nat, k: nat, keepSafe: bool)
    requires WellFormed(st, n) && st.stack != []
    ensures WellFormed(StripAtom(st, n, k, End, keepSafe), n + 1)
  {
    var st', top := StripAtom(st, n, k, End, keepSafe), |st.stack| - 1;
    var done := st.stack[top].(region := st.stack[top].region + [n]);
    assert Ats(st'.stack) == Ats(st.stack)[..top];
    assert At(done) == Ats(st.stack)[top];
    assert Ats(st'.doomed) == Ats(st.doomed) + if Keeps(done, keepSafe) then [] else [At(done)];
  }

  lemma TopWellFormed(st: StripState, n: nat, f: OpenField)
    requires WellFormed(st, n) && st.stack != []
    requires f.region != [] && At(f) == At(st.stack[|st.stack| - 1])
    ensures WellFormed(st.(stack := st.stack[|st.stack| - 1 := f]), n)
  {
    assert Ats(st.stack[|st.stack| - 1 := f]) == Ats(st.stack);
  }

  lemma PushWellFormed(st: StripState, n: nat)
    requires WellFormed(st, n)
    requires st.stack != [] ==> Named(st.stack[|st.stack| - 1])
    ensures WellFormed(st.(stack := st.stack + [OpenField("", [n], false, false)]), n + 1)
  {
    assert Ats(st.stack + [OpenField("", [n], false, false)]) == Ats(st.stack) + [n];
  }

  lemma StepWellFormed(st: StripState, n: nat, k: nat, a: Atom, keepSafe: bool)
    requires WellFormed(st, n)
    ensures WellFormed(StripAtom(st, n, k, a, keepSafe), n + 1)
  {
    var top := |st.stack| - 1;
    match a {
      case Begin =>
        if st.stack != [] && !Named(st.stack[top]) {
          var f := st.stack[top].(nested := true);
          TopWellFormed(st, n, f);
          PushWellFormed(st.(stack := st.stack[top := f]), n);
        } else {
          if top >= 0 {
            TopWellFormed(st, n, st.stack[top].(nested := true));
            PushWellFormed(st.(stack := st.stack[top := st.stack[top].(nested := true)]), n);
          }
          PushWellFormed(st, n);
        }
      case Separate =>
        if top >= 0 {
          TopWellFormed(st, n, st.stack[top].(separated := true, region := st.stack[top].region + [n]));
        }
      case End =>
        if top >= 0 {
          EndWellFormed(st, n, k, keepSafe);
        }
      case Instr(head, _) =>
        if top >= 0 && !st.stack[top].separated {
          TopWellFormed(st, n, st.stack[top].(instr := st.stack[top].instr + head));
        }
      case Text(_) =>
    }
  }

  lemma {:induction false} WalkWellFormed(doc: Doc, keepSafe: bool)
    requires OneMarkPerRun(doc)
    ensures WellFormed(Walk(doc, keepSafe), |doc|)
  {
    if doc != [] {
      var r := |doc| - 1;
      WalkWellFormed(doc[..r], keepSafe);
      var st := Walk(doc[..r], keepSafe);
      if doc[r].Run? {
        var atoms := doc[r].atoms;
        StripOneMark(st.(stack := EnterRun(st.stack, r)), r, atoms, keepSafe);
        EnterWellFormed(st, r);
        StepWellFormed(st.(stack := EnterRun(st.stack, r)), r, MarkIndex(atoms), MarkOf(atoms), keepSafe);
      }
    }
  }

  /** The state after item `r`, from the state before it. */
  lemma WalkStep(doc: Doc, r: nat, keepSafe: bool)
    requires OneMarkPerRun(doc) && r < |doc|
    ensures var st := Walk(doc[..r], keepSafe);
            Walk(doc[..r + 1], keepSafe) ==
            match doc[r]
            case Run(atoms) => StripAtom(st.(stack := EnterRun(st.stack, r)), r, MarkIndex(atoms), MarkOf(atoms), keepSafe)
            case _ => st
  {
    assert doc[..r + 1][..r] == doc[..r];
    if doc[r].Run? {
      var st := Walk(doc[..r], keepSafe);
      StripOneMark(st.(stack := EnterRun(st.stack, r)), r, doc[r].atoms, keepSafe);
    }
  }

  // ----- which runs are deleted -----

  /** Run `r` is part of the code of the field beginning at `b`: the field is open before `r` and not
      yet at its separator, or `r` holds its start, its separator or its end. */
  predicate InCode(doc: Doc, b: nat, r: nat, keepSafe: bool)
    requires r < |doc|
  {
    && doc[r].Run?
    && var stack := Walk(doc[..r], keepSafe).stack;
       var m := MarkOf(doc[r].atoms);
       || (exists j :: 0 <= j < |stack| && !stack[j].separated && At(stack[j]) == b)
       || (m.Begin? && b == r)
       || ((m.Separate? || m.End?) && |stack| > 0 && At(stack[|stack| - 1]) == b)
  }

  ghost predicate RegionIsCode(doc: Doc, f: OpenField, keepSafe: bool) {
    forall r: nat :: r in f.region <==> r < |doc| && InCode(doc, At(f), r, keepSafe)
  }

  ghost predicate RegionsAreCode(doc: Doc, keepSafe: bool) {
    var st := Walk(doc, keepSafe);
    && (forall j :: 0 <= j < |st.stack| ==> RegionIsCode(doc, st.stack[j], keepSafe))
    && (forall d :: 0 <= d < |st.doomed| ==> RegionIsCode(doc, st.doomed[d], keepSafe))
  }

  lemma ExtendRegion(doc: Doc, f: OpenField, f': OpenField, keepSafe: bool)
    requires |doc| > 0 && RegionIsCode(doc[..|doc| - 1], f, keepSafe)
    requires f.region != [] && f.region <= f'.region
    requires forall r :: r in f'.region[|f.region|..] ==> r == |doc| - 1
    requires |f'.region| > |f.region| <==> InCode(doc, At(f), |doc| - 1, keepSafe)
    ensures RegionIsCode(doc, f', keepSafe)
  {
    var n := |doc| - 1;
    assert f'.region == f.region + f'.region[|f.region|..];
    forall r: nat
      ensures r in f'.region <==> r < |doc| && InCode(doc, At(f'), r, keepSafe)
    {
      if r < n {
        assert doc[..n][..r] == doc[..r];
      } else if r == n && |f'.region| > |f.region| {
        assert f'.region[|f.region|] in f'.region[|f.region|..];
      }
    }
  }

  lemma FrameInCode(doc: Doc, j: nat, keepSafe: bool)
    requires OneMarkPerRun(doc) && |doc| > 0 && WellFormed(Walk(doc[..|doc| - 1], keepSafe), |doc| - 1)
    requires j < |Walk(doc[..|doc| - 1], keepSafe).stack|
    ensures var n := |doc| - 1;
            var stack := Walk(doc[..n], keepSafe).stack;
            InCode(doc, At(stack[j]), n, keepSafe) <==>
              && doc[n].Run?
              && (!stack[j].separated ||
                  (j == |stack| - 1 && (MarkOf(doc[n].atoms).Separate? || MarkOf(doc[n].atoms).End?)))
  {
    var stack := Walk(doc[..|doc| - 1], keepSafe).stack;
    assert forall i :: 0 <= i < |stack| ==> Ats(stack)[i] == At(stack[i]);
    assert stack[j] in stack;
  }

  lemma DoomedNotInCode(doc: Doc, d: nat, keepSafe: bool)
    requires |doc| > 0 && WellFormed(Walk(doc[..|doc| - 1], keepSafe), |doc| - 1)
    requires d < |Walk(doc[..|doc| - 1], keepSafe).doomed|
    ensures !InCode(doc, At(Walk(doc[..|doc| - 1], keepSafe).doomed[d]), |doc| - 1, keepSafe)
  {
    var stack, doomed := Walk(doc[..|doc| - 1], keepSafe).stack, Walk(doc[..|doc| - 1], keepSafe).doomed;
    assert Ats(doomed)[d] == At(doomed[d]) < |doc| - 1;
    assert forall i :: 0 <= i < |stack| ==> Ats(stack)[i] == At(stack[i]);
  }

  lemma NewRegion(doc: Doc, f: OpenField, keepSafe: bool)
    requires OneMarkPerRun(doc) && |doc| > 0
    requires doc[|doc| - 1].Run? && MarkOf(doc[|doc| - 1].atoms).Begin? && f.region == [|doc| - 1]
    ensures RegionIsCode(doc, f, keepSafe)
  {
    var n := |doc| - 1;
    forall r: nat | r < n
      ensures !InCode(doc, n, r, keepSafe)
    {
      WalkWellFormed(doc[..r], keepSafe);
      var stack := Walk(doc[..r], keepSafe).stack;
      assert forall i :: 0 <= i < |stack| ==> Ats(stack)[i] == At(stack[i]);
    }
  }

  /** `f'` is `f` with run `n` added to its region, once or twice. */
  predicate Touched(f: OpenField, f': OpenField, n: nat) {
    f'.region == f.region + [n] || f'.region == f.region + [n] + [n]
  }

  lemma StackStep(st: StripState, n: nat, k: nat, a: Atom, keepSafe: bool, j: nat)
    requires HasRegions(st.stack)
    requires j < |StripAtom(st.(stack := EnterRun(st.stack, n)), n, k, a, keepSafe).stack|
    ensures var f' := StripAtom(st.(stack := EnterRun(st.stack, n)), n, k, a, keepSafe).stack[j];
            if j >= |st.stack| then a.Begin? && f'.region == [n]
            else if !st.stack[j].separated || (j == |st.stack| - 1 && a.Separate?) then Touched(st.stack[j], f', n)
            else f'.region == st.stack[j].region
    ensures a.End? ==> j < |st.stack| - 1
  {
    EnterRunKeeps(st.stack, n);
  }

  lemma DoomedStep(st: StripState, n: nat, k: nat, a: Atom, keepSafe: bool, d: nat)
    requires HasRegions(st.stack)
    requires d < |StripAtom(st.(stack := EnterRun(st.stack, n)), n, k, a, keepSafe).doomed|
    ensures var f' := StripAtom(st.(stack := EnterRun(st.stack, n)), n, k, a, keepSafe).doomed[d];
            if d < |st.doomed| then f' == st.doomed[d]
            else a.End? && st.stack != [] && Touched(st.stack[|st.stack| - 1], f', n)
  {
    EnterRunKeeps(st.stack, n);
  }

  lemma StackRegions(doc: Doc, j: nat, keepSafe: bool)
    requires OneMarkPerRun(doc) && |doc| > 0
    requires RegionsAreCode(doc[..|doc| - 1], keepSafe) && WellFormed(Walk(doc[..|doc| - 1], keepSafe), |doc| - 1)
    requires j < |Walk(doc, keepSafe).stack|
    ensures RegionIsCode(doc, Walk(doc, keepSafe).stack[j], keepSafe)
  {
    var n := |doc| - 1;
    var st, st' := Walk(doc[..n], keepSafe), Walk(doc, keepSafe);
    WalkStep(doc, n, keepSafe);
    assert doc[..n + 1] == doc;
    if doc[n].Run? {
      StackStep(st, n, MarkIndex(doc[n].atoms), MarkOf(doc[n].atoms), keepSafe, j);
    }
    if j < |st.stack| {
      FrameInCode(doc, j, keepSafe);
      ExtendRegion(doc, st.stack[j], st'.stack[j], keepSafe);
    } else {
      NewRegion(doc, st'.stack[j], keepSafe);
    }
  }

  lemma DoomedRegions(doc: Doc, d: nat, keepSafe: bool)
    requires OneMarkPerRun(doc) && |doc| > 0
    requires RegionsAreCode(doc[..|doc| - 1], keepSafe) && WellFormed(Walk(doc[..|doc| - 1], keepSafe), |doc| - 1)
    requires d < |Walk(doc, keepSafe).doomed|
    ensures RegionIsCode(doc, Walk(doc, keepSafe).doomed[d], keepSafe)
  {
    var n := |doc| - 1;
    var st, st' := Walk(doc[..n], keepSafe), Walk(doc, keepSafe);
    WalkStep(doc, n, keepSafe);
    assert doc[..n + 1] == doc;
    if doc[n].Run? {
      DoomedStep(st, n, MarkIndex(doc[n].atoms), MarkOf(doc[n].atoms), keepSafe, d);
    }
    hide StripAtom;
    hide Walk;
    if d < |st.doomed| {
      DoomedNotInCode(doc, d, keepSafe);
      ExtendRegion(doc, st.doomed[d], st'.doomed[d], keepSafe);
    } else {
      FrameInCode(doc, |st.stack| - 1, keepSafe);
      ExtendRegion(doc, st.stack[|st.stack| - 1], st'.doomed[d], keepSafe);
    }
  }

  lemma {:induction false} WalkRegions(doc: Doc, keepSafe: bool)
    requires OneMarkPerRun(doc)
    ensures RegionsAreCode(doc, keepSafe)
  {
    if doc != [] {
      WalkRegions(doc[..|doc| - 1], keepSafe);
      WalkWellFormed(doc[..|doc| - 1], keepSafe);
      forall j | 0 <= j < |Walk(doc, keepSafe).stack|
        ensures RegionIsCode(doc, Walk(doc, keepSafe).stack[j], keepSafe)
      {
        StackRegions(doc, j, keepSafe);
      }
      forall d | 0 <= d < |Walk(doc, keepSafe).doomed|
        ensures RegionIsCode(doc, Walk(doc, keepSafe).doomed[d], keepSafe)
      {
        DoomedRegions(doc, d, keepSafe);
      }
    }
  }

  /** The fields removed, each known by the run it begins in. */
  function Removed(doc: Doc, keepSafe: bool): set<nat> {
    set f | f in Doomed(doc, keepSafe) :: At(f)
  }

  /** No removed field is open with its code still running. */
  predicate Clear(stack: seq<OpenField>, removed: set<nat>) {
    forall j :: 0 <= j < |stack| && At(stack[j]) in removed ==> stack[j].separated
  }

  /** Whether a run with mark `m`, met with `stack` open, is part of the code of a removed field. */
  predicate InRemovedCode(stack: seq<OpenField>, r: nat, m: Atom, removed: set<nat>) {
    || !Clear(stack, removed)
    || (m.Begin? && r in removed)
    || ((m.Separate? || m.End?) && |stack| > 0 && At(stack[|stack| - 1]) in removed)
  }

  /** A run is deleted exactly when it belongs to the code of a removed field. */
  lemma DeletedExactly(doc: Doc, r: nat, keepSafe: bool)
    requires OneMarkPerRun(doc) && r < |doc|
    ensures r in Gone(doc, keepSafe) <==>
            && doc[r].Run?
            && InRemovedCode(Walk(doc[..r], keepSafe).stack, r, MarkOf(doc[r].atoms), Removed(doc, keepSafe))
  {
    WalkRegions(doc, keepSafe);
    var doomed, stack := Doomed(doc, keepSafe), Walk(doc[..r], keepSafe).stack;
    assert forall f :: f in doomed ==> RegionIsCode(doc, f, keepSafe);
    if r in Gone(doc, keepSafe) {
      var f :| f in doomed && r in f.region;
      assert InCode(doc, At(f), r, keepSafe) && At(f) in Removed(doc, keepSafe);
    }
    if doc[r].Run? && InRemovedCode(stack, r, MarkOf(doc[r].atoms), Removed(doc, keepSafe)) {
      var b :| b in Removed(doc, keepSafe) && InCode(doc, b, r, keepSafe);
      var f :| f in doomed && At(f) == b;
      assert r in f.region;
    }
  }

  lemma {:induction false} DoomedStays(doc: Doc, i: nat, keepSafe: bool)
    requires OneMarkPerRun(doc) && i <= |doc|
    ensures forall f :: f in Walk(doc[..i], keepSafe).doomed ==> f in Walk(doc, keepSafe).doomed
    decreases |doc| - i
  {
    if i < |doc| {
      DoomedStays(doc, i + 1, keepSafe);
      WalkStep(doc, i, keepSafe);
    } else {
      assert doc[..i] == doc;
    }
  }

  lemma NestedStep(st: StripState, n: nat, k: nat, a: Atom, keepSafe: bool, j: nat)
    requires HasRegions(st.stack)
    requires j < |st.stack| && (st.stack[j].nested || !keepSafe)
    ensures var st' := StripAtom(st.(stack := EnterRun(st.stack, n)), n, k, a, keepSafe);
            if j < |st'.stack| then At(st'.stack[j]) == At(st.stack[j]) && (st'.stack[j].nested || !keepSafe)
            else exists f :: f in st'.doomed && At(f) == At(st.stack[j])
  {
    EnterRunKeeps(st.stack, n);
    var st' := StripAtom(st.(stack := EnterRun(st.stack, n)), n, k, a, keepSafe);
    if j >= |st'.stack| {
      var done := st'.doomed[|st'.doomed| - 1];
      assert done in st'.doomed && At(done) == At(st.stack[j]);
    }
  }

  /** A field whose instruction starts with another field is never kept; nor is any, when safe fields go too. */
  lemma {:induction false} NestedIsRemoved(doc: Doc, i: nat, j: nat, keepSafe: bool)
    requires OneMarkPerRun(doc) && i <= |doc|
    requires j < |Walk(doc[..i], keepSafe).stack| && (Walk(doc[..i], keepSafe).stack[j].nested || !keepSafe)
    ensures At(Walk(doc[..i], keepSafe).stack[j]) in Removed(doc, keepSafe)
    decreases |doc| - i
  {
    var st := Walk(doc[..i], keepSafe);
    if i == |doc| {
      assert doc[..i] == doc;
      assert st.stack[j] in Doomed(doc, keepSafe);
    } else {
      WalkStep(doc, i, keepSafe);
      WalkWellFormed(doc[..i], keepSafe);
      if doc[i].Run? {
        NestedStep(st, i, MarkIndex(doc[i].atoms), MarkOf(doc[i].atoms), keepSafe, j);
      }
      if j < |Walk(doc[..i + 1], keepSafe).stack| {
        NestedIsRemoved(doc, i + 1, j, keepSafe);
      } else {
        DoomedStays(doc, i + 1, keepSafe);
      }
    }
  }

  predicate Stray(stack: seq<OpenField>, m: Atom) {
    m.Instr? && (stack == [] || stack[|stack| - 1].separated)
  }

  lemma StrayStep(st: StripState, n: nat, k: nat, a: Atom, keepSafe: bool)
    ensures StripAtom(st.(stack := EnterRun(st.stack, n)), n, k, a, keepSafe).strays
            == st.strays + if Stray(st.stack, a) then {(n, k)} else {}
  {
    assert st.stack != [] ==> EnterRun(st.stack, n)[|st.stack| - 1].separated == st.stack[|st.stack| - 1].separated;
  }

  lemma {:induction false} StrayExactly(doc: Doc, n: nat, r: nat, keepSafe: bool)
    requires OneMarkPerRun(doc) && r < n <= |doc| && doc[r].Run?
    ensures (r, MarkIndex(doc[r].atoms)) in Walk(doc[..n], keepSafe).strays <==>
            Stray(Walk(doc[..r], keepSafe).stack, MarkOf(doc[r].atoms))
    decreases n
  {
    var st := Walk(doc[..n - 1], keepSafe);
    WalkStep(doc, n - 1, keepSafe);
    if doc[n - 1].Run? {
      StrayStep(st, n - 1, MarkIndex(doc[n - 1].atoms), MarkOf(doc[n - 1].atoms), keepSafe);
    }
    if r < n - 1 {
      StrayExactly(doc, n - 1, r, keepSafe);
    } else {
      WalkWellFormed(doc[..r], keepSafe);
    }
  }

  // ----- the same fields are open on both sides -----

  /** The scanner and the sanitizer, on the same document: as many fields, separated alike; and a field that
      has an instruction for the sanitizer has one for the scanner, which reads more of it. */
  ghost predicate SameShape(stack: seq<OpenField>, fields: seq<Field>) {
    && |stack| == |fields|
    && (forall j :: 0 <= j < |stack| ==>
          fields[j].inResult == stack[j].separated && (!Blank(stack[j].instr) ==> !Blank(fields[j].instr)))
  }

  lemma MoreIsNotBlank(instr: string, read: string, head: string, rest: string)
    requires !Blank(instr) ==> !Blank(read)
    ensures !Blank(instr + head) ==> !Blank(read + (head + rest))
  {
    if !Blank(instr) {
      var c :| c in read && !IsSpace(c);
      assert c in read + (head + rest);
    } else if !Blank(instr + head) {
      var c :| c in instr + head && !IsSpace(c);
      assert c in head && c in head + rest;
      assert c in read + (head + rest);
    }
  }

  lemma AtomKeepsShape(st: StripState, r: nat, k: nat, a: Atom, keepSafe: bool, sc: ScanState)
    requires SameShape(st.stack, sc.fields)
    ensures SameShape(StripAtom(st, r, k, a, keepSafe).stack, ScanAtom(sc, a).fields)
  {
    hide Classify;
    hide Blank;
    var top := |st.stack| - 1;
    match a
    case Begin =>
      assert !Blank("") ==> !Blank("");
    case Instr(head, rest) =>
      if st.stack != [] {
        MoreIsNotBlank(st.stack[top].instr, sc.fields[top].instr, head, rest);
      }
    case _ =>
  }

  lemma {:induction false} AtomsKeepShape(st: StripState, r: nat, atoms: seq<Atom>, keepSafe: bool, sc: ScanState)
    requires SameShape(st.stack, sc.fields)
    ensures SameShape(StripAtoms(st, r, atoms, keepSafe).stack, ScanAtoms(sc, atoms).fields)
  {
    if atoms != [] {
      var k := |atoms| - 1;
      AtomsKeepShape(st, r, atoms[..k], keepSafe, sc);
      AtomKeepsShape(StripAtoms(st, r, atoms[..k], keepSafe), r, k, atoms[k], keepSafe, ScanAtoms(sc, atoms[..k]));
    }
  }

  /** On any document, whatever its runs and fragments hold. */
  lemma {:induction false} ShapesAgree(doc: Doc, keepSafe: bool)
    ensures SameShape(Walk(doc, keepSafe).stack, ScanDoc(doc).fields)
  {
    if doc != [] {
      var r := |doc| - 1;
      ShapesAgree(doc[..r], keepSafe);
      if doc[r].Run? {
        var st := Walk(doc[..r], keepSafe);
        AtomsKeepShape(st.(stack := EnterRun(st.stack, r)), r, doc[r].atoms, keepSafe, ScanDoc(doc[..r]));
      }
    }
  }

  // ----- the simulation -----

  function Instrs(fields: seq<Field>): (texts: seq<string>)
    ensures |texts| == |fields|
  {
    seq(|fields|, j requires 0 <= j < |fields| => fields[j].instr)
  }

  /** What the scanner has open on the stripped document when on the original the sanitizer has `stack` open
      and the scanner has read `texts`: the fields that are kept and lie outside the code of every removed
      field, with all the text of their instructions. */
  function Alive(stack: seq<OpenField>, texts: seq<string>, removed: set<nat>): seq<Field>
    requires |texts| == |stack|
  {
    if stack == [] then []
    else
      var n := |stack| - 1;
      var f, below := stack[n], stack[..n];
      Alive(below, texts[..n], removed)
      + if At(f) !in removed && Clear(below, removed) then [Field(texts[n], f.nested, f.separated)] else []
  }

  lemma {:induction false} AliveSame(a: seq<OpenField>, b: seq<OpenField>, texts: seq<string>, removed: set<nat>)
    requires |a| == |b| == |texts|
    requires forall j :: 0 <= j < |a| ==> At(a[j]) == At(b[j]) && a[j] == b[j].(region := a[j].region)
    ensures Alive(a, texts, removed) == Alive(b, texts, removed) && (Clear(a, removed) <==> Clear(b, removed))
  {
    if a != [] {
      AliveSame(a[..|a| - 1], b[..|b| - 1], texts[..|a| - 1], removed);
    }
  }

  /** A field with an instruction for the sanitizer has one for the scanner. */
  ghost predicate Reads(stack: seq<OpenField>, texts: seq<string>) {
    |texts| == |stack| && forall j :: 0 <= j < |stack| && !Blank(stack[j].instr) ==> !Blank(texts[j])
  }

  lemma {:induction false} AliveIsNamed(stack: seq<OpenField>, texts: seq<string>, removed: set<nat>, f: Field)
    requires Reads(stack, texts)
    requires forall j :: 0 <= j < |stack| ==> Named(stack[j]) && (stack[j].nested ==> At(stack[j]) in removed)
    requires f in Alive(stack, texts, removed)
    ensures f.inResult || !Blank(f.instr)
  {
    hide Blank;
    var n := |stack| - 1;
    if f in Alive(stack[..n], texts[..n], removed) {
      AliveIsNamed(stack[..n], texts[..n], removed, f);
    }
  }

  lemma AliveBegin(stack: seq<OpenField>, texts: seq<string>, removed: set<nat>)
    requires Reads(stack, texts)
    requires forall j :: 0 <= j < |stack| - 1 ==> Named(stack[j])
    requires forall j :: 0 <= j < |stack| && stack[j].nested ==> At(stack[j]) in removed
    requires stack != [] && !stack[|stack| - 1].separated && Blank(stack[|stack| - 1].instr) ==>
               At(stack[|stack| - 1]) in removed
    ensures var fields := Alive(stack, texts, removed);
            Clear(stack, removed) && fields != [] ==>
              fields[|fields| - 1].inResult || !Blank(fields[|fields| - 1].instr)
  {
    hide Blank;
    var fields := Alive(stack, texts, removed);
    if stack != [] && fields != [] {
      var n := |stack| - 1;
      var last := fields[|fields| - 1];
      if last in Alive(stack[..n], texts[..n], removed) {
        AliveIsNamed(stack[..n], texts[..n], removed, last);
      }
    }
  }

  /** One mark on both sides: the scanner, on the stripped document, does what the sanitizer does on
      the original to the fields that stay; `sc0` is the scanner on the original. */
  ghost predicate Simulates(st: StripState, r: nat, k: nat, m: Atom, keepSafe: bool, removed: set<nat>, sc0: ScanState, sc: ScanState)
    requires SameShape(st.stack, sc0.fields)
  {
    var sc' := if InRemovedCode(st.stack, r, m, removed) || Stray(st.stack, m) then sc else ScanAtom(sc, m);
    var stack', read' := StripAtom(st, r, k, m, keepSafe).stack, ScanAtom(sc0, m).fields;
    && |stack'| == |read'| && sc'.fields == Alive(stack', Instrs(read'), removed)
    && sc'.found == sc.found +
       if m.End? && st.stack != [] && !InRemovedCode(st.stack, r, m, removed)
       then [Code(sc0.fields[|st.stack| - 1].instr, st.stack[|st.stack| - 1].nested)] else []
  }

  ghost predicate Ready(st: StripState, removed: set<nat>, sc0: ScanState, sc: ScanState) {
    && HasRegions(st.stack) && SameShape(st.stack, sc0.fields)
    && (forall j :: 0 <= j < |st.stack| - 1 ==> Named(st.stack[j]))
    && (forall j :: 0 <= j < |st.stack| && st.stack[j].nested ==> At(st.stack[j]) in removed)
    && sc.fields == Alive(st.stack, Instrs(sc0.fields), removed)
  }

  lemma AliveNestedTop(stack: seq<OpenField>, texts: seq<string>, removed: set<nat>)
    requires stack != [] && |texts| == |stack| && stack[|stack| - 1].region != [] && At(stack[|stack| - 1]) in removed
    ensures var stack' := stack[|stack| - 1 := stack[|stack| - 1].(nested := true)];
            Alive(stack', texts, removed) == Alive(stack, texts, removed) && (Clear(stack', removed) <==> Clear(stack, removed))
  {
    var stack' := stack[|stack| - 1 := stack[|stack| - 1].(nested := true)];
    assert stack'[..|stack| - 1] == stack[..|stack| - 1];
  }

  /** The open fields below a field that begins: the top one is marked if it has no name yet. */
  function BelowBegin(stack: seq<OpenField>): (below: seq<OpenField>)
    ensures |below| == |stack|
  {
    var n := |stack|;
    if n > 0 && !stack[n - 1].separated && Blank(stack[n - 1].instr)
    then stack[n - 1 := stack[n - 1].(nested := true)] else stack
  }

  lemma AlivePush(below: seq<OpenField>, texts: seq<string>, r: nat, removed: set<nat>)
    requires |texts| == |below|
    ensures Alive(below + [OpenField("", [r], false, false)], texts + [""], removed)
            == Alive(below, texts, removed) + if r !in removed && Clear(below, removed) then [Field("", false, false)] else []
  {
    assert (below + [OpenField("", [r], false, false)])[..|below|] == below;
    assert (texts + [""])[..|texts|] == texts;
  }

  lemma BelowBeginAlive(stack: seq<OpenField>, texts: seq<string>, removed: set<nat>)
    requires HasRegions(stack) && |texts| == |stack|
    requires forall j :: 0 <= j < |stack| && BelowBegin(stack)[j].nested ==> At(BelowBegin(stack)[j]) in removed
    ensures Alive(BelowBegin(stack), texts, removed) == Alive(stack, texts, removed)
    ensures Clear(BelowBegin(stack), removed) <==> Clear(stack, removed)
    ensures stack != [] && !stack[|stack| - 1].separated && Blank(stack[|stack| - 1].instr) ==>
              At(stack[|stack| - 1]) in removed
  {
    var top := |stack| - 1;
    if stack != [] && !stack[top].separated && Blank(stack[top].instr) {
      assert BelowBegin(stack)[top].nested && At(BelowBegin(stack)[top]) == At(stack[top]);
      AliveNestedTop(stack, texts, removed);
    }
  }

  lemma ScanBegin(sc: ScanState)
    requires sc.fields != [] ==> sc.fields[|sc.fields| - 1].inResult || !Blank(sc.fields[|sc.fields| - 1].instr)
    ensures ScanAtom(sc, Begin) == sc.(fields := sc.fields + [Field("", false, false)])
  {
  }

  lemma BeginFields(stack: seq<OpenField>, texts: seq<string>, r: nat, removed: set<nat>, sc: ScanState)
    requires |texts| == |stack| && sc.fields == Alive(stack, texts, removed)
    requires Alive(BelowBegin(stack), texts, removed) == Alive(stack, texts, removed)
    requires Clear(BelowBegin(stack), removed) <==> Clear(stack, removed)
    requires Clear(stack, removed) && sc.fields != [] ==>
               sc.fields[|sc.fields| - 1].inResult || !Blank(sc.fields[|sc.fields| - 1].instr)
    ensures var sc' := if InRemovedCode(stack, r, Begin, removed) then sc else ScanAtom(sc, Begin);
            && sc'.fields == Alive(BelowBegin(stack) + [OpenField("", [r], false, false)], texts + [""], removed)
            && sc'.found == sc.found
  {
    AlivePush(BelowBegin(stack), texts, r, removed);
    if !InRemovedCode(stack, r, Begin, removed) {
      ScanBegin(sc);
    }
  }

  lemma BeginStack(st: StripState, r: nat, k: nat, keepSafe: bool)
    ensures StripAtom(st, r, k, Begin, keepSafe)
            == st.(stack := BelowBegin(st.stack) + [OpenField("", [r], false, false)])
  {
  }

  ghost predicate NestedRemoved(stack: seq<OpenField>, removed: set<nat>) {
    forall j :: 0 <= j < |stack| && stack[j].nested ==> At(stack[j]) in removed
  }

  lemma BeginInstrs(sc0: ScanState)
    ensures Instrs(ScanAtom(sc0, Begin).fields) == Instrs(sc0.fields) + [""]
  {
  }

  lemma SimulateBegin(st: StripState, r: nat, k: nat, keepSafe: bool, removed: set<nat>, sc0: ScanState, sc: ScanState)
    requires Ready(st, removed, sc0, sc)
    requires NestedRemoved(BelowBegin(st.stack), removed)
    ensures Simulates(st, r, k, Begin, keepSafe, removed, sc0, sc)
  {
    var texts := Instrs(sc0.fields);
    BelowBeginAlive(st.stack, texts, removed);
    AliveBegin(st.stack, texts, removed);
    BeginFields(st.stack, texts, r, removed, sc);
    BeginStack(st, r, k, keepSafe);
    BeginInstrs(sc0);
    assert sc.found + [] == sc.found;
    hide Blank;
    hide BelowBegin;
    hide Clear;
    hide Alive;
  }

  lemma TopIsClear(stack: seq<OpenField>, removed: set<nat>)
    requires stack != []
    ensures Clear(stack, removed) ==> Clear(stack[..|stack| - 1], removed)
    ensures At(stack[|stack| - 1]) !in removed && Clear(stack[..|stack| - 1], removed) ==> Clear(stack, removed)
  {
  }

  lemma SimulateSeparate(st: StripState, r: nat, k: nat, keepSafe: bool, removed: set<nat>, sc0: ScanState, sc: ScanState)
    requires Ready(st, removed, sc0, sc)
    ensures Simulates(st, r, k, Separate, keepSafe, removed, sc0, sc)
  {
    var stack', top := StripAtom(st, r, k, Separate, keepSafe).stack, |st.stack| - 1;
    if st.stack != [] {
      assert stack'[..top] == st.stack[..top];
      assert Instrs(ScanAtom(sc0, Separate).fields) == Instrs(sc0.fields);
      TopIsClear(st.stack, removed);
    }
  }

  lemma SimulateEnd(st: StripState, r: nat, k: nat, keepSafe: bool, removed: set<nat>, sc0: ScanState, sc: ScanState)
    requires Ready(st, removed, sc0, sc)
    ensures Simulates(st, r, k, End, keepSafe, removed, sc0, sc)
  {
    var top := |st.stack| - 1;
    if st.stack != [] {
      assert Instrs(ScanAtom(sc0, End).fields) == Instrs(sc0.fields)[..top];
      TopIsClear(st.stack, removed);
    }
  }

  lemma SimulateInstr(st: StripState, r: nat, k: nat, m: Atom, keepSafe: bool, removed: set<nat>, sc0: ScanState, sc: ScanState)
    requires Ready(st, removed, sc0, sc) && m.Instr?
    ensures Simulates(st, r, k, m, keepSafe, removed, sc0, sc)
  {
    var stack', top := StripAtom(st, r, k, m, keepSafe).stack, |st.stack| - 1;
    if st.stack != [] {
      assert stack'[..top] == st.stack[..top];
      assert Instrs(ScanAtom(sc0, m).fields)[..top] == Instrs(sc0.fields)[..top];
      TopIsClear(st.stack, removed);
    }
  }

  lemma SimulateMark(st: StripState, r: nat, k: nat, m: Atom, keepSafe: bool, removed: set<nat>, sc0: ScanState, sc: ScanState)
    requires Ready(st, removed, sc0, sc)
    requires forall f :: f in StripAtom(st, r, k, m, keepSafe).stack && f.nested ==> At(f) in removed
    ensures Simulates(st, r, k, m, keepSafe, removed, sc0, sc)
  {
    match m
    case Begin =>
      BeginStack(st, r, k, keepSafe);
      var below := BelowBegin(st.stack);
      assert forall j :: 0 <= j < |below| ==> below[j] in StripAtom(st, r, k, Begin, keepSafe).stack;
      SimulateBegin(st, r, k, keepSafe, removed, sc0, sc);
    case Separate => SimulateSeparate(st, r, k, keepSafe, removed, sc0, sc);
    case End => SimulateEnd(st, r, k, keepSafe, removed, sc0, sc);
    case Instr(_, _) => SimulateInstr(st, r, k, m, keepSafe, removed, sc0, sc);
    case Text(_) =>
  }

  // ----- the fields that stay -----

  /** The field closed by item `r`, if it stays: safe, and outside the code of every removed field. Its
      instruction is given as the scanner reads it. */
  function KeptHere(doc: Doc, r: nat, keepSafe: bool): seq<Code>
    requires r < |doc|
  {
    match doc[r]
    case Run(atoms) =>
      var stack, read := Walk(doc[..r], keepSafe).stack, ScanDoc(doc[..r]).fields;
      var top := |stack| - 1;
      if MarkOf(atoms).End? && stack != [] && |read| == |stack| && Keeps(stack[top], keepSafe)
         && Clear(stack[..top], Removed(doc, keepSafe))
      then [Code(read[top].instr, stack[top].nested)] else []
    case SimpleStart(instr) => if KeepsSimple(instr, keepSafe) then [Code(instr, false)] else []
    case SimpleEnd(_) => []
  }

  function KeptCodes(doc: Doc, n: nat, keepSafe: bool): seq<Code>
    requires n <= |doc|
  {
    if n == 0 then [] else KeptCodes(doc, n - 1, keepSafe) + KeptHere(doc, n - 1, keepSafe)
  }

  /** No field beginning at `b` is open or doomed. */
  ghost predicate Forgotten(st: StripState, b: nat) {
    && (forall j :: 0 <= j < |st.stack| ==> At(st.stack[j]) != b)
    && (forall d :: 0 <= d < |st.doomed| ==> At(st.doomed[d]) != b)
  }

  lemma EnterForgotten(st: StripState, n: nat, b: nat)
    requires HasRegions(st.stack)
    requires Forgotten(st, b)
    ensures Forgotten(st.(stack := EnterRun(st.stack, n)), b)
  {
    EnterRunKeeps(st.stack, n);
    var entered := EnterRun(st.stack, n);
    forall j | 0 <= j < |entered|
      ensures At(entered[j]) != b
    {
      assert Ats(entered)[j] == Ats(st.stack)[j] == At(st.stack[j]);
    }
  }

  lemma StaysForgotten(st: StripState, n: nat, k: nat, a: Atom, keepSafe: bool, b: nat)
    requires HasRegions(st.stack)
    requires Forgotten(st, b) && b != n
    ensures Forgotten(StripAtom(st, n, k, a, keepSafe), b)
  {
  }

  lemma KeptLeavesNoTrace(st: StripState, n: nat, k: nat, keepSafe: bool)
    requires WellFormed(st, n)
    requires st.stack != [] && Keeps(st.stack[|st.stack| - 1], keepSafe)
    ensures Forgotten(StripAtom(st, n, k, End, keepSafe), At(st.stack[|st.stack| - 1]))
  {
    var st', top := StripAtom(st, n, k, End, keepSafe), |st.stack| - 1;
    assert forall j :: 0 <= j < |st.stack| ==> Ats(st.stack)[j] == At(st.stack[j]);
    assert forall j :: 0 <= j < |st'.stack| ==> st'.stack[j] == st.stack[j];
    assert st'.doomed == st.doomed;
    assert forall d :: 0 <= d < |st.doomed| ==> Ats(st.doomed)[d] == At(st.doomed[d]);
  }

  lemma EndKept(doc: Doc, r: nat, keepSafe: bool)
    requires OneMarkPerRun(doc) && r < |doc|
    requires doc[r].Run? && MarkOf(doc[r].atoms).End?
    requires var stack := Walk(doc[..r], keepSafe).stack; stack != [] && Keeps(stack[|stack| - 1], keepSafe)
    ensures var stack := Walk(doc[..r], keepSafe).stack;
            Forgotten(Walk(doc[..r + 1], keepSafe), At(stack[|stack| - 1]))
  {
    var st := Walk(doc[..r], keepSafe);
    var entered, top := st.(stack := EnterRun(st.stack, r)), |st.stack| - 1;
    WalkStep(doc, r, keepSafe);
    WalkWellFormed(doc[..r], keepSafe);
    EnterWellFormed(st, r);
    EnterRunKeeps(st.stack, r);
    assert Ats(entered.stack)[top] == Ats(st.stack)[top];
    KeptLeavesNoTrace(entered, r, MarkIndex(doc[r].atoms), keepSafe);
  }

  lemma StepForgotten(doc: Doc, n: nat, keepSafe: bool, b: nat)
    requires OneMarkPerRun(doc) && b < n < |doc|
    requires Forgotten(Walk(doc[..n], keepSafe), b)
    ensures Forgotten(Walk(doc[..n + 1], keepSafe), b)
  {
    var st := Walk(doc[..n], keepSafe);
    WalkStep(doc, n, keepSafe);
    WalkWellFormed(doc[..n], keepSafe);
    if doc[n].Run? {
      EnterForgotten(st, n, b);
      EnterWellFormed(st, n);
      StaysForgotten(st.(stack := EnterRun(st.stack, n)), n, MarkIndex(doc[n].atoms), MarkOf(doc[n].atoms), keepSafe, b);
    }
  }

  /** A field that is closed and kept is never among the removed. */
  lemma {:induction false} KeptIsNotRemoved(doc: Doc, r: nat, n: nat, keepSafe: bool)
    requires OneMarkPerRun(doc) && r < n <= |doc|
    requires doc[r].Run? && MarkOf(doc[r].atoms).End?
    requires var stack := Walk(doc[..r], keepSafe).stack; stack != [] && Keeps(stack[|stack| - 1], keepSafe)
    ensures var stack := Walk(doc[..r], keepSafe).stack;
            Forgotten(Walk(doc[..n], keepSafe), At(stack[|stack| - 1]))
    decreases n
  {
    if n - 1 == r {
      EndKept(doc, r, keepSafe);
    } else {
      var stack := Walk(doc[..r], keepSafe).stack;
      KeptIsNotRemoved(doc, r, n - 1, keepSafe);
      WalkWellFormed(doc[..r], keepSafe);
      assert Ats(stack)[|stack| - 1] == At(stack[|stack| - 1]);
      StepForgotten(doc, n - 1, keepSafe, At(stack[|stack| - 1]));
    }
  }

  lemma UnkeptIsRemoved(doc: Doc, r: nat, keepSafe: bool)
    requires OneMarkPerRun(doc) && r < |doc|
    requires doc[r].Run? && MarkOf(doc[r].atoms).End?
    requires var stack := Walk(doc[..r], keepSafe).stack; stack != [] && !Keeps(stack[|stack| - 1], keepSafe)
    ensures var stack := Walk(doc[..r], keepSafe).stack; At(stack[|stack| - 1]) in Removed(doc, keepSafe)
  {
    var st := Walk(doc[..r], keepSafe);
    WalkStep(doc, r, keepSafe);
    WalkWellFormed(doc[..r], keepSafe);
    EnterRunKeeps(st.stack, r);
    DoomedStays(doc, r + 1, keepSafe);
    var st' := Walk(doc[..r + 1], keepSafe);
    var done := st'.doomed[|st'.doomed| - 1];
    assert done in st'.doomed && done in Doomed(doc, keepSafe);
    assert st.stack[|st.stack| - 1] in st.stack;
  }

  lemma ClearBelow(stack: seq<OpenField>, removed: set<nat>)
    requires stack != [] && At(stack[|stack| - 1]) !in removed
    ensures Clear(stack, removed) <==> Clear(stack[..|stack| - 1], removed)
  {
    assert forall j :: 0 <= j < |stack| - 1 ==> stack[..|stack| - 1][j] == stack[j];
  }

  /** The end of a field survives exactly when the field stays. */
  lemma EndSurvivesExactly(doc: Doc, r: nat, keepSafe: bool)
    requires OneMarkPerRun(doc) && r < |doc|
    requires doc[r].Run? && MarkOf(doc[r].atoms).End?
    requires Walk(doc[..r], keepSafe).stack != []
    ensures var stack := Walk(doc[..r], keepSafe).stack;
            var top := |stack| - 1;
            r !in Gone(doc, keepSafe) <==>
              Keeps(stack[top], keepSafe) && Clear(stack[..top], Removed(doc, keepSafe))
  {
    var stack := Walk(doc[..r], keepSafe).stack;
    var top := |stack| - 1;
    DeletedExactly(doc, r, keepSafe);
    if Keeps(stack[top], keepSafe) {
      KeptIsNotRemoved(doc, r, |doc|, keepSafe);
      assert doc[..|doc|] == doc;
      assert At(stack[top]) !in Removed(doc, keepSafe);
      ClearBelow(stack, Removed(doc, keepSafe));
    } else {
      UnkeptIsRemoved(doc, r, keepSafe);
    }
  }

  lemma NestedStackIsRemoved(doc: Doc, i: nat, keepSafe: bool)
    requires OneMarkPerRun(doc) && i <= |doc|
    ensures forall f :: f in Walk(doc[..i], keepSafe).stack && f.nested ==> At(f) in Removed(doc, keepSafe)
  {
    forall j | 0 <= j < |Walk(doc[..i], keepSafe).stack| && Walk(doc[..i], keepSafe).stack[j].nested
      ensures At(Walk(doc[..i], keepSafe).stack[j]) in Removed(doc, keepSafe)
    {
      NestedIsRemoved(doc, i, j, keepSafe);
    }
  }

  /** The stripped document after the first `n` items. */
  function Stripped(doc: Doc, n: nat, keepSafe: bool): Doc
    requires n <= |doc|
  {
    Output(doc[..n], keepSafe, Gone(doc, keepSafe), Walk(doc, keepSafe).strays)
  }

  lemma ScanOneMore(doc: Doc, item: Item)
    ensures ScanDoc(doc + [item]) == ScanItem(ScanDoc(doc), item)
    ensures ScanDoc(doc + []) == ScanDoc(doc)
  {
    assert (doc + [item])[..|doc|] == doc;
    assert doc + [] == doc;
  }

  lemma StrippedStep(doc: Doc, n: nat, keepSafe: bool)
    requires 0 < n <= |doc|
    ensures Stripped(doc, n, keepSafe) ==
            Stripped(doc, n - 1, keepSafe)
            + OutputItem(doc[n - 1], n - 1, keepSafe, Gone(doc, keepSafe), Walk(doc, keepSafe).strays)
  {
    assert doc[..n][..n - 1] == doc[..n - 1];
  }

  /** The fields that stay, open before item `n`, with what the scanner read of them on the original. */
  function AliveAt(doc: Doc, n: nat, keepSafe: bool): seq<Field>
    requires n <= |doc|
  {
    ShapesAgree(doc[..n], keepSafe);
    Alive(Walk(doc[..n], keepSafe).stack, Instrs(ScanDoc(doc[..n]).fields), Removed(doc, keepSafe))
  }

  lemma ReadyForRun(doc: Doc, r: nat, keepSafe: bool, sc: ScanState)
    requires OneMarkPerRun(doc) && r < |doc| && doc[r].Run?
    requires sc.fields == AliveAt(doc, r, keepSafe)
    ensures var st, removed := Walk(doc[..r], keepSafe), Removed(doc, keepSafe);
            var entered := st.(stack := EnterRun(st.stack, r));
            && Ready(entered, removed, ScanDoc(doc[..r]), sc)
            && (Clear(st.stack, removed) <==> Clear(entered.stack, removed))
  {
    var st, removed := Walk(doc[..r], keepSafe), Removed(doc, keepSafe);
    var entered := EnterRun(st.stack, r);
    ShapesAgree(doc[..r], keepSafe);
    WalkWellFormed(doc[..r], keepSafe);
    EnterWellFormed(st, r);
    EnterRunKeeps(st.stack, r);
    NestedStackIsRemoved(doc, r, keepSafe);
    forall j | 0 <= j < |entered|
      ensures At(entered[j]) == At(st.stack[j])
    {
      assert Ats(entered)[j] == At(entered[j]) && Ats(st.stack)[j] == At(st.stack[j]);
    }
    AliveSame(st.stack, entered, Instrs(ScanDoc(doc[..r]).fields), removed);
  }

  /** One run on both sides. */
  lemma SimulateRun(doc: Doc, r: nat, keepSafe: bool, sc: ScanState)
    requires OneMarkPerRun(doc) && r < |doc| && doc[r].Run?
    requires sc.fields == AliveAt(doc, r, keepSafe)
    ensures var sc' := if r in Gone(doc, keepSafe) || Stray(Walk(doc[..r], keepSafe).stack, MarkOf(doc[r].atoms)) then sc
                       else ScanAtom(sc, MarkOf(doc[r].atoms));
            && sc'.fields == AliveAt(doc, r + 1, keepSafe)
            && sc'.found == sc.found + KeptHere(doc, r, keepSafe)
  {
    var st, removed := Walk(doc[..r], keepSafe), Removed(doc, keepSafe);
    var k, m := MarkIndex(doc[r].atoms), MarkOf(doc[r].atoms);
    var entered := st.(stack := EnterRun(st.stack, r));
    var sc0 := ScanDoc(doc[..r]);
    ShapesAgree(doc[..r], keepSafe);
    ScanStep(doc, r);
    WalkStep(doc, r, keepSafe);
    WalkWellFormed(doc[..r], keepSafe);
    EnterRunKeeps(st.stack, r);
    ReadyForRun(doc, r, keepSafe, sc);
    NestedStackIsRemoved(doc, r + 1, keepSafe);
    SimulateMark(entered, r, k, m, keepSafe, removed, sc0, sc);
    DeletedExactly(doc, r, keepSafe);
    if st.stack != [] {
      assert Ats(entered.stack)[|st.stack| - 1] == Ats(st.stack)[|st.stack| - 1];
    }
    assert InRemovedCode(st.stack, r, m, removed) == InRemovedCode(entered.stack, r, m, removed);
    if m.End? && st.stack != [] {
      EndSurvivesExactly(doc, r, keepSafe);
    }
    hide ScanDoc;
    hide Walk;
    hide Gone;
    hide Removed;
    hide Blank;
    hide ScanAtom;
    hide StripAtom;
  }

  lemma SimulateItem(doc: Doc, r: nat, keepSafe: bool, out: Doc)
    requires OneMarkPerRun(doc) && r < |doc|
    requires ScanDoc(out).fields == AliveAt(doc, r, keepSafe)
    ensures var gone, strays := Gone(doc, keepSafe), Walk(doc, keepSafe).strays;
            ScanDoc(out + OutputItem(doc[r], r, keepSafe, gone, strays))
            == ScanState(ScanDoc(out).found + KeptHere(doc, r, keepSafe), AliveAt(doc, r + 1, keepSafe))
  {
    var sc, strays := ScanDoc(out), Walk(doc, keepSafe).strays;
    match doc[r]
    case Run(atoms) =>
      SimulateRun(doc, r, keepSafe, sc);
      assert doc[..|doc|] == doc;
      StrayExactly(doc, |doc|, r, keepSafe);
      ScanOneMark(sc, r, atoms, strays);
      ScanOneMore(out, Run(WithoutStrays(atoms, r, strays)));
      hide AliveAt;
    case SimpleStart(_) =>
      ScanOneMore(out, doc[r]);
      WalkStep(doc, r, keepSafe);
      ScanStep(doc, r);
    case SimpleEnd(_) =>
      ScanOneMore(out, doc[r]);
      WalkStep(doc, r, keepSafe);
      ScanStep(doc, r);
  }

  /** Scanning what is left after any number of items is scanning the original, restricted to the fields that
      stay: those closed so far, and those still open. */
  lemma {:induction false} Simulation(doc: Doc, n: nat, keepSafe: bool)
    requires OneMarkPerRun(doc) && n <= |doc|
    ensures ScanDoc(Stripped(doc, n, keepSafe)) == ScanState(KeptCodes(doc, n, keepSafe), AliveAt(doc, n, keepSafe))
  {
    if n == 0 {
      assert Stripped(doc, 0, keepSafe) == [] && doc[..0] == [];
    } else {
      hide AliveAt;
      hide KeptHere;
      hide Stripped;
      hide ScanDoc;
      Simulation(doc, n - 1, keepSafe);
      StrippedStep(doc, n, keepSafe);
      SimulateItem(doc, n - 1, keepSafe, Stripped(doc, n - 1, keepSafe));
    }
  }

  lemma {:induction false} AllRemovedNoneAlive(stack: seq<OpenField>, texts: seq<string>, removed: set<nat>)
    requires |texts| == |stack| && forall f :: f in stack ==> At(f) in removed
    ensures Alive(stack, texts, removed) == []
  {
    if stack != [] {
      assert stack[|stack| - 1] in stack;
      AllRemovedNoneAlive(stack[..|stack| - 1], texts[..|stack| - 1], removed);
    }
  }

  predicate SafeCode(c: Code) { Classify(c.instr, c.nested) == Safe }

  lemma KeptNeedsKeepSafe(doc: Doc, n: nat)
    requires n <= |doc|
    ensures KeptCodes(doc, n, false) == []
  {
  }

  /** What the checker sees of a stripped part: exactly the fields that stay, in order, with all of their
      instructions, and none left open. With `keepSafe` off it sees nothing at all. */
  lemma ScanAfterStrip(doc: Doc, keepSafe: bool)
    requires OneMarkPerRun(doc)
    ensures ScanDoc(Strip(doc, keepSafe)) == ScanState(KeptCodes(doc, |doc|, keepSafe), [])
    ensures Scan(Strip(doc, keepSafe)) == KeptCodes(doc, |doc|, keepSafe)
    ensures !keepSafe ==> Scan(Strip(doc, keepSafe)) == []
  {
    assert doc[..|doc|] == doc;
    Simulation(doc, |doc|, keepSafe);
    ShapesAgree(doc, keepSafe);
    var stack := Walk(doc, keepSafe).stack;
    forall f | f in stack
      ensures At(f) in Removed(doc, keepSafe)
    {
      assert f in Doomed(doc, keepSafe);
    }
    AllRemovedNoneAlive(stack, Instrs(ScanDoc(doc).fields), Removed(doc, keepSafe));
    KeptNeedsKeepSafe(doc, |doc|);
    var codes := KeptCodes(doc, |doc|, keepSafe);
    assert Scan(Strip(doc, keepSafe)) == codes + [] == codes;
  }
}
