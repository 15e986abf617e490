/** What follows from the simulation: when the checker finds only safe fields in what is left; stripping is
    idempotent, loses no visible text, and with `keepSafe` off leaves no field; and why one mark per run and
    whole fragments are needed. */
module FieldTheorems {
  import opened Fields
  import opened FieldProofs

  // ----- the two machines walk in step -----

  predicate WholeAtoms(atoms: seq<Atom>) {
    forall k :: 0 <= k < |atoms| && atoms[k].Instr? ==> atoms[k].rest == ""
  }

  /** No fragment of an instruction has text behind an element inside it. */
  predicate Whole(doc: Doc) {
    forall i :: 0 <= i < |doc| && doc[i].Run? ==> WholeAtoms(doc[i].atoms)
  }

  function Erase(stack: seq<OpenField>): seq<Field> {
    seq(|stack|, i requires 0 <= i < |stack| => Field(stack[i].instr, stack[i].nested, stack[i].separated))
  }

  predicate AllKept(found: seq<Code>, keepSafe: bool) {
    forall i :: 0 <= i < |found| ==> keepSafe && SafeCode(found[i])
  }

  lemma AllKeptMore(found: seq<Code>, c: Code, keepSafe: bool)
    ensures AllKept(found + [c], keepSafe) <==> AllKept(found, keepSafe) && keepSafe && SafeCode(c)
  {
    var more := found + [c];
    assert more[|found|] == c && forall i :: 0 <= i < |found| ==> more[i] == found[i];
  }

  ghost predicate InStep(st: StripState, sc: ScanState, keepSafe: bool) {
    && sc.fields == Erase(st.stack)
    && (AllKept(sc.found, keepSafe) ==> st.doomed == [])
  }

  lemma AtomInStep(st: StripState, sc: ScanState, r: nat, k: nat, a: Atom, keepSafe: bool)
    requires InStep(st, sc, keepSafe) && (a.Instr? ==> a.rest == "")
    ensures InStep(StripAtom(st, r, k, a, keepSafe), ScanAtom(sc, a), keepSafe)
  {
    var top := |st.stack| - 1;
    if a.End? && st.stack != [] {
      var code := Code(sc.fields[top].instr, sc.fields[top].nested);
      AllKeptMore(sc.found, code, keepSafe);
    }
    if a.Instr? {
      assert a.head + a.rest == a.head;
    }
  }

  lemma {:induction false} AtomsInStep(st: StripState, sc: ScanState, r: nat, atoms: seq<Atom>, keepSafe: bool)
    requires InStep(st, sc, keepSafe) && WholeAtoms(atoms)
    ensures InStep(StripAtoms(st, r, atoms, keepSafe), ScanAtoms(sc, atoms), keepSafe)
  {
    if atoms != [] {
      var k := |atoms| - 1;
      AtomsInStep(st, sc, r, atoms[..k], keepSafe);
      AtomInStep(StripAtoms(st, r, atoms[..k], keepSafe), ScanAtoms(sc, atoms[..k]), r, k, atoms[k], keepSafe);
    }
  }

  /** With whole fragments, however marks lie in runs, the sanitizer has open exactly the fields the checker
      has open, with the same instructions; and when everything the checker reported is kept, the sanitizer
      dooms nothing. */
  lemma {:induction false} MachinesAgree(doc: Doc, keepSafe: bool)
    requires Whole(doc)
    ensures InStep(Walk(doc, keepSafe), ScanDoc(doc), keepSafe)
  {
    if doc != [] {
      var r := |doc| - 1;
      MachinesAgree(doc[..r], keepSafe);
      var st, sc := Walk(doc[..r], keepSafe), ScanDoc(doc[..r]);
      match doc[r]
      case Run(atoms) =>
        var entered := st.(stack := EnterRun(st.stack, r));
        assert Erase(entered.stack) == Erase(st.stack);
        AtomsInStep(entered, sc, r, atoms, keepSafe);
      case SimpleStart(instr) =>
        AllKeptMore(sc.found, Code(instr, false), keepSafe);
      case SimpleEnd(_) =>
    }
  }

  // ----- what the checker may still report -----

  predicate AllSafe(codes: seq<Code>) { forall i :: 0 <= i < |codes| ==> SafeCode(codes[i]) }

  /** The field closed by item `r`, if it stays, is safe as the checker reads it. */
  predicate KeptSafely(doc: Doc, r: nat, keepSafe: bool)
    requires r < |doc|
  {
    AllSafe(KeptHere(doc, r, keepSafe))
  }

  lemma AllSafeJoin(a: seq<Code>, b: seq<Code>)
    ensures AllSafe(a + b) <==> AllSafe(a) && AllSafe(b)
  {
    hide SafeCode;
    assert forall i :: 0 <= i < |a| ==> a[i] == (a + b)[i];
    assert forall i :: 0 <= i < |b| ==> b[i] == (a + b)[|a| + i];
  }

  lemma {:induction false} KeptAreSafeExactly(doc: Doc, n: nat, keepSafe: bool)
    requires n <= |doc|
    ensures AllSafe(KeptCodes(doc, n, keepSafe)) <==> forall r: nat :: r < n ==> KeptSafely(doc, r, keepSafe)
  {
    hide KeptHere;
    hide SafeCode;
    if n > 0 {
      KeptAreSafeExactly(doc, n - 1, keepSafe);
      AllSafeJoin(KeptCodes(doc, n - 1, keepSafe), KeptHere(doc, n - 1, keepSafe));
      assert KeptSafely(doc, n - 1, keepSafe) <==> AllSafe(KeptHere(doc, n - 1, keepSafe));
      assert AllSafe(KeptCodes(doc, n, keepSafe)) <==> AllSafe(KeptCodes(doc, n - 1, keepSafe)) && KeptSafely(doc, n - 1, keepSafe);
      hide AllSafe;
      hide KeptSafely;
    }
  }

  lemma WholeKeepsSafely(doc: Doc, r: nat, keepSafe: bool)
    requires Whole(doc) && r < |doc|
    ensures KeptSafely(doc, r, keepSafe)
  {
    MachinesAgree(doc[..r], keepSafe);
    hide Classify;
  }

  // ----- the sanitizer reads only the heads of fragments -----

  function Bare(a: Atom): Atom { if a.Instr? then Instr(a.head, "") else a }

  function BareAtoms(atoms: seq<Atom>): (r: seq<Atom>)
    ensures |r| == |atoms|
  {
    seq(|atoms|, i requires 0 <= i < |atoms| => Bare(atoms[i]))
  }

  function BareItem(item: Item): Item { if item.Run? then Run(BareAtoms(item.atoms)) else item }

  /** The document as the sanitizer reads it. */
  function BareDoc(doc: Doc): (r: Doc)
    ensures |r| == |doc|
  {
    seq(|doc|, i requires 0 <= i < |doc| => BareItem(doc[i]))
  }

  lemma {:induction false} BareStripAtoms(st: StripState, r: nat, atoms: seq<Atom>, keepSafe: bool)
    ensures StripAtoms(st, r, BareAtoms(atoms), keepSafe) == StripAtoms(st, r, atoms, keepSafe)
  {
    if atoms != [] {
      var k := |atoms| - 1;
      assert BareAtoms(atoms)[..k] == BareAtoms(atoms[..k]);
      BareStripAtoms(st, r, atoms[..k], keepSafe);
    }
  }

  lemma {:induction false} BareWalk(doc: Doc, keepSafe: bool)
    ensures Walk(BareDoc(doc), keepSafe) == Walk(doc, keepSafe)
  {
    if doc != [] {
      var r := |doc| - 1;
      assert BareDoc(doc)[..r] == BareDoc(doc[..r]);
      BareWalk(doc[..r], keepSafe);
      if doc[r].Run? {
        var st := Walk(doc[..r], keepSafe);
        BareStripAtoms(st.(stack := EnterRun(st.stack, r)), r, doc[r].atoms, keepSafe);
      }
    }
  }

  lemma {:induction false} BareWithoutStrays(atoms: seq<Atom>, r: nat, strays: set<(nat, nat)>)
    ensures WithoutStrays(BareAtoms(atoms), r, strays) == BareAtoms(WithoutStrays(atoms, r, strays))
  {
    if atoms != [] {
      var k := |atoms| - 1;
      assert BareAtoms(atoms)[..k] == BareAtoms(atoms[..k]);
      BareWithoutStrays(atoms[..k], r, strays);
      assert BareAtoms(WithoutStrays(atoms[..k], r, strays) + [atoms[k]])
          == BareAtoms(WithoutStrays(atoms[..k], r, strays)) + [Bare(atoms[k])];
      assert BareAtoms(WithoutStrays(atoms[..k], r, strays) + []) == BareAtoms(WithoutStrays(atoms[..k], r, strays)) + [];
    }
  }

  lemma {:induction false} BareOutput(doc: Doc, keepSafe: bool, gone: set<nat>, strays: set<(nat, nat)>)
    ensures Output(BareDoc(doc), keepSafe, gone, strays) == BareDoc(Output(doc, keepSafe, gone, strays))
  {
    if doc != [] {
      var r := |doc| - 1;
      assert BareDoc(doc)[..r] == BareDoc(doc[..r]);
      BareOutput(doc[..r], keepSafe, gone, strays);
      if doc[r].Run? {
        BareWithoutStrays(doc[r].atoms, r, strays);
      }
      var out, item := Output(doc[..r], keepSafe, gone, strays), OutputItem(doc[r], r, keepSafe, gone, strays);
      assert BareDoc(out + item) == BareDoc(out) + BareDoc(item);
    }
  }

  /** What follows in a fragment makes no difference to what is removed. */
  lemma BareStrip(doc: Doc, keepSafe: bool)
    ensures Strip(BareDoc(doc), keepSafe) == BareDoc(Strip(doc, keepSafe))
    ensures Whole(BareDoc(doc)) && (OneMarkPerRun(doc) ==> OneMarkPerRun(BareDoc(doc)))
  {
    BareWalk(doc, keepSafe);
    assert Gone(BareDoc(doc), keepSafe) == Gone(doc, keepSafe);
    BareOutput(doc, keepSafe, Gone(doc, keepSafe), Walk(doc, keepSafe).strays);
  }

  // ----- what a second pass relies on -----

  lemma WalkSimple(out: Doc, item: Item, keepSafe: bool)
    ensures !item.Run? ==> Walk(out + [item], keepSafe) == Walk(out, keepSafe)
    ensures Walk(out + [], keepSafe) == Walk(out, keepSafe)
  {
    assert (out + [item])[..|out|] == out;
    assert out + [] == out;
  }

  lemma TopIsAlive(stack: seq<OpenField>, texts: seq<string>, removed: set<nat>)
    requires stack != [] && |texts| == |stack| && !stack[|stack| - 1].separated && Clear(stack, removed)
    ensures var fields := Alive(stack, texts, removed);
            fields != [] && !fields[|fields| - 1].inResult
  {
    TopIsClear(stack, removed);
  }

  /** A fragment that is left lies, for the scanner, in the instruction of an open field. */
  lemma FragmentIsOpen(doc: Doc, r: nat, keepSafe: bool)
    requires OneMarkPerRun(doc) && r < |doc| && doc[r].Run? && r !in Gone(doc, keepSafe)
    requires MarkOf(doc[r].atoms).Instr? && !Stray(Walk(doc[..r], keepSafe).stack, MarkOf(doc[r].atoms))
    ensures var fields := ScanDoc(Stripped(doc, r, keepSafe)).fields;
            fields != [] && !fields[|fields| - 1].inResult
  {
    DeletedExactly(doc, r, keepSafe);
    Simulation(doc, r, keepSafe);
    ShapesAgree(doc[..r], keepSafe);
    hide OneMarkPerRun;
    hide Gone;
    hide Walk;
    hide ScanDoc;
    hide Stripped;
    hide Removed;
    hide Alive;
    hide Clear;
    TopIsAlive(Walk(doc[..r], keepSafe).stack, Instrs(ScanDoc(doc[..r]).fields), Removed(doc, keepSafe));
  }

  predicate SimpleKept(item: Item, keepSafe: bool) {
    match item
    case Run(_) => true
    case SimpleStart(instr) => KeepsSimple(instr, keepSafe)
    case SimpleEnd(instr) => KeepsSimple(instr, keepSafe)
  }

  predicate SimplesKept(doc: Doc, keepSafe: bool) {
    forall i :: 0 <= i < |doc| ==> SimpleKept(doc[i], keepSafe)
  }

  lemma {:induction false} OutputKeepsSimples(doc: Doc, keepSafe: bool, gone: set<nat>, strays: set<(nat, nat)>)
    ensures SimplesKept(Output(doc, keepSafe, gone, strays), keepSafe)
  {
    if doc != [] {
      OutputKeepsSimples(doc[..|doc| - 1], keepSafe, gone, strays);
    }
  }

  lemma KeptItem(item: Item, r: nat, keepSafe: bool)
    requires SimpleKept(item, keepSafe)
    ensures OutputItem(item, r, keepSafe, {}, {}) == [item]
    ensures item.SimpleStart? ==> KeepsSimple(item.instr, keepSafe)
  {
    if item.Run? {
      NothingStray(item.atoms, r);
    }
  }

  lemma {:induction false} NothingToOutput(doc: Doc, keepSafe: bool)
    requires SimplesKept(doc, keepSafe)
    ensures Output(doc, keepSafe, {}, {}) == doc
  {
    if doc != [] {
      var r := |doc| - 1;
      NothingToOutput(doc[..r], keepSafe);
      KeptItem(doc[r], r, keepSafe);
      assert doc == doc[..r] + [doc[r]];
    }
  }

  lemma {:induction false} NothingToUnwrap(doc: Doc, keepSafe: bool)
    requires SimplesKept(doc, keepSafe)
    ensures UnsafeSimples(doc, keepSafe) == 0
  {
    if doc != [] {
      NothingToUnwrap(doc[..|doc| - 1], keepSafe);
      KeptItem(doc[|doc| - 1], 0, keepSafe);
    }
  }

  lemma AllSafeIsKept(doc: Doc, keepSafe: bool)
    requires OneMarkPerRun(doc) && Whole(doc)
    ensures AllKept(KeptCodes(doc, |doc|, keepSafe), keepSafe)
  {
    forall r: nat | r < |doc|
      ensures KeptSafely(doc, r, keepSafe)
    {
      WholeKeepsSafely(doc, r, keepSafe);
    }
    KeptAreSafeExactly(doc, |doc|, keepSafe);
    KeptNeedsKeepSafe(doc, |doc|);
    hide KeptCodes;
    hide SafeCode;
    hide KeptSafely;
    assert AllSafe(KeptCodes(doc, |doc|, keepSafe));
  }

  // ----- nothing escapes the scan -----

  function BeginsIn(atoms: seq<Atom>): nat {
    if atoms == [] then 0
    else BeginsIn(atoms[..|atoms| - 1]) + if atoms[|atoms| - 1].Begin? then 1 else 0
  }

  function Begins(doc: Doc): nat {
    if doc == [] then 0
    else
      Begins(doc[..|doc| - 1]) +
      match doc[|doc| - 1]
      case Run(atoms) => BeginsIn(atoms)
      case SimpleStart(_) => 1
      case SimpleEnd(_) => 0
  }

  lemma {:induction false} ScanCountsAtoms(sc: ScanState, atoms: seq<Atom>)
    ensures var sc' := ScanAtoms(sc, atoms);
            |sc'.found| + |sc'.fields| == |sc.found| + |sc.fields| + BeginsIn(atoms)
  {
    if atoms != [] {
      ScanCountsAtoms(sc, atoms[..|atoms| - 1]);
    }
  }

  /** The checker reports every field that begins anywhere in the part exactly once, however the marks
      are nested, missing or left open. */
  lemma {:induction false} ScanMissesNothing(doc: Doc)
    ensures |Scan(doc)| == Begins(doc)
  {
    if doc != [] {
      ScanMissesNothing(doc[..|doc| - 1]);
      if doc[|doc| - 1].Run? {
        ScanCountsAtoms(ScanDoc(doc[..|doc| - 1]), doc[|doc| - 1].atoms);
      }
    }
  }

  // ----- why one mark per run -----

  lemma StripTwoAtoms(st: StripState, r: nat, a: Atom, b: Atom, keepSafe: bool)
    ensures StripAtoms(st, r, [a], keepSafe) == StripAtom(st, r, 0, a, keepSafe)
    ensures StripAtoms(st, r, [a, b], keepSafe)
            == StripAtom(StripAtom(st, r, 0, a, keepSafe), r, 1, b, keepSafe)
  {
    assert [a][..0] == [] && [a, b][..1] == [a];
  }

  /** A field with instruction `s`, whose only fragment shares its run with the start of a nested field. */
  function Crowded(s: string): Doc {
    [Run([Begin]), Run([Instr(s, ""), Begin]), Run([End]), Run([End])]
  }

  lemma RunStep(doc: Doc, r: nat, st: StripState, entered: seq<OpenField>, keepSafe: bool)
    requires r < |doc| && doc[r].Run? && Walk(doc[..r], keepSafe) == st && EnterRun(st.stack, r) == entered
    ensures Walk(doc[..r + 1], keepSafe) == StripAtoms(st.(stack := entered), r, doc[r].atoms, keepSafe)
  {
    assert doc[..r + 1][..r] == doc[..r];
  }

  lemma CrowdedStart(s: string)
    requires !Blank(s)
    ensures Walk(Crowded(s)[..2], true)
            == StripState([OpenField(s, [0, 1], false, false), OpenField("", [1], false, false)], [], {})
  {
    RunStep(Crowded(s), 0, StripState([], [], {}), [], true);
    StripTwoAtoms(StripState([], [], {}), 0, Begin, Begin, true);
    var st := StripState([OpenField("", [0], false, false)], [], {});
    var entered := [OpenField("", [0, 1], false, false)];
    assert [0] + [1] == [0, 1] && "" + s == s;
    assert EnterRun(st.stack, 1) == entered;
    RunStep(Crowded(s), 1, st, entered, true);
    StripTwoAtoms(st.(stack := entered), 1, Instr(s, ""), Begin, true);
  }

  lemma CrowdedWalk(s: string)
    requires !Blank(s) && Classify(s, false) == Safe
    ensures Walk(Crowded(s), true) == StripState([], [OpenField("", [1, 2, 2], false, false)], {})
  {
    CrowdedStart(s);
    var st := Walk(Crowded(s)[..2], true);
    var entered := [OpenField(s, [0, 1, 2], false, false), OpenField("", [1, 2], false, false)];
    assert [0, 1] + [2] == [0, 1, 2] && [1] + [2] == [1, 2] && [1, 2] + [2] == [1, 2, 2];
    assert EnterRun(st.stack, 2) == entered;
    RunStep(Crowded(s), 2, st, entered, true);
    StripTwoAtoms(st.(stack := entered), 2, End, End, true);
    var st3 := StripState([entered[0]], [OpenField("", [1, 2, 2], false, false)], {});
    var last := [entered[0].(region := [0, 1, 2] + [3])];
    assert EnterRun(st3.stack, 3) == last;
    RunStep(Crowded(s), 3, st3, last, true);
    StripTwoAtoms(st3.(stack := last), 3, End, End, true);
    assert Crowded(s)[..4] == Crowded(s);
  }

  lemma CrowdedGone(s: string)
    requires !Blank(s) && Classify(s, false) == Safe
    ensures Gone(Crowded(s), true) == {1, 2}
  {
    CrowdedWalk(s);
    var inner := OpenField("", [1, 2, 2], false, false);
    assert Doomed(Crowded(s), true) == [inner];
    assert forall f :: f in Doomed(Crowded(s), true) <==> f == inner;
    assert inner.region[0] == 1 && inner.region[1] == 2;
    assert forall r: nat :: r in inner.region <==> r == 1 || r == 2;
    assert 1 in Gone(Crowded(s), true) && 2 in Gone(Crowded(s), true) by {
      assert inner in Doomed(Crowded(s), true) && 1 in inner.region && 2 in inner.region;
    }
  }

  lemma OutputStep(doc: Doc, r: nat, keepSafe: bool, gone: set<nat>, strays: set<(nat, nat)>)
    requires r < |doc|
    ensures Output(doc[..r + 1], keepSafe, gone, strays)
            == Output(doc[..r], keepSafe, gone, strays) + OutputItem(doc[r], r, keepSafe, gone, strays)
  {
    assert doc[..r + 1][..r] == doc[..r];
  }

  lemma CrowdedOutput(s: string)
    ensures Output(Crowded(s), true, {1, 2}, {}) == [Run([Begin]), Run([End])]
  {
    hide KeepsSimple;
    var doc, gone := Crowded(s), {1, 2};
    NothingStray([Begin], 0);
    NothingStray([End], 3);
    assert OutputItem(doc[0], 0, true, gone, {}) == [Run([Begin])] && OutputItem(doc[3], 3, true, gone, {}) == [Run([End])];
    assert OutputItem(doc[1], 1, true, gone, {}) == [] && OutputItem(doc[2], 2, true, gone, {}) == [];
    assert Output(doc[..0], true, gone, {}) == [];
    hide OutputItem;
    hide Output;
    OutputStep(doc, 0, true, gone, {});
    OutputStep(doc, 1, true, gone, {});
    OutputStep(doc, 2, true, gone, {});
    OutputStep(doc, 3, true, gone, {});
    assert doc[..4] == doc && doc[..0] == [];
  }

  lemma NamelessField()
    ensures Scan([Run([Begin]), Run([End])]) == [Code("", false)]
  {
    var out := [Run([Begin]), Run([End])];
    assert out[..2] == out && out[..0] == [];
    OneAtom(Begin);
    OneAtom(End);
    ScanStep(out, 0);
    ScanStep(out, 1);
    hide ScanDoc;
    EmptyScan();
  }

  lemma EmptyScan()
    ensures ScanDoc([]) == ScanState([], [])
  {
  }

  lemma OneAtom(a: Atom)
    ensures a.Text? || MarkOf([a]) == a
  {
  }

  /** For any safe instruction: a run that holds both its fragment and the start of a field to be
      removed goes as a whole, and the safe field is left without its name. */
  lemma OneMarkIsNeeded(s: string)
    requires !Blank(s) && Classify(s, false) == Safe
    ensures !OneMarkPerRun(Crowded(s))
    ensures Classes(Scan(Strip(Crowded(s), true))) == [Other]
  {
    var atoms := Crowded(s)[1].atoms;
    assert Crowded(s)[1].Run? && !atoms[0].Text? && !atoms[1].Text? && !OneMark(atoms);
    assert Strip(Crowded(s), true) == [Run([Begin]), Run([End])] by {
      CrowdedWalk(s);
      CrowdedGone(s);
      CrowdedOutput(s);
    }
    NamelessField();
  }

  // ----- why whole fragments -----

  function Torn(head: string, rest: string): Doc {
    [Run([Begin]), Run([Instr(head, rest)]), Run([End])]
  }

  lemma TornIsScanned(head: string, rest: string)
    ensures Scan(Torn(head, rest)) == [Code(head + rest, false)]
    ensures OneMarkPerRun(Torn(head, rest))
  {
    var doc := Torn(head, rest);
    assert doc[..0] == [] && doc[..3] == doc;
    OneAtom(Begin);
    OneAtom(Instr(head, rest));
    OneAtom(End);
    ScanStep(doc, 0);
    ScanStep(doc, 1);
    ScanStep(doc, 2);
    EmptyScan();
    hide ScanDoc;
    assert "" + (head + rest) == head + rest;
    assert ScanDoc(doc[..2]).fields == [Field(head + rest, false, false)];
    assert ScanDoc(doc[..3]) == ScanState([Code(head + rest, false)], []);
  }

  lemma TornStart(head: string, rest: string)
    ensures Walk(Torn(head, rest)[..2], true) == StripState([OpenField(head, [0, 1], false, false)], [], {})
  {
    var doc := Torn(head, rest);
    var none: seq<OpenField> := [];
    RunStep(doc, 0, StripState(none, [], {}), none, true);
    StripTwoAtoms(StripState(none, [], {}), 0, Begin, Begin, true);
    var st1 := StripState([OpenField("", [0], false, false)], [], {});
    var in1 := [OpenField("", [0, 1], false, false)];
    assert [0] + [1] == [0, 1] && "" + head == head;
    assert EnterRun(st1.stack, 1) == in1;
    RunStep(doc, 1, st1, in1, true);
    StripTwoAtoms(st1.(stack := in1), 1, Instr(head, rest), Begin, true);
  }

  lemma TornWalk(head: string, rest: string)
    requires Classify(head, false) == Safe
    ensures Walk(Torn(head, rest), true) == StripState([], [], {})
  {
    var doc := Torn(head, rest);
    TornStart(head, rest);
    hide Classify;
    var st2 := Walk(doc[..2], true);
    var in2 := [OpenField(head, [0, 1] + [2], false, false)];
    assert EnterRun(st2.stack, 2) == in2;
    RunStep(doc, 2, st2, in2, true);
    StripTwoAtoms(st2.(stack := in2), 2, End, End, true);
    assert doc[..3] == doc;
  }

  lemma TornDoomed(head: string, rest: string)
    requires Classify(head, false) != Safe
    ensures Walk(Torn(head, rest), true) == StripState([], [OpenField(head, [0, 1] + [2] + [2], false, false)], {})
  {
    var doc := Torn(head, rest);
    TornStart(head, rest);
    hide Classify;
    var st2 := Walk(doc[..2], true);
    var in2 := [OpenField(head, [0, 1] + [2], false, false)];
    assert EnterRun(st2.stack, 2) == in2;
    RunStep(doc, 2, st2, in2, true);
    StripTwoAtoms(st2.(stack := in2), 2, End, End, true);
    assert doc[..3] == doc;
  }

  /** For any safe instruction that is no longer safe with what follows an element inside it: the sanitizer
      leaves the part as it is, and the checker reports the field. */
  lemma WholeIsNeeded(head: string, rest: string)
    requires Classify(head, false) == Safe && Classify(head + rest, false) != Safe
    ensures OneMarkPerRun(Torn(head, rest)) && Strip(Torn(head, rest), true) == Torn(head, rest)
    ensures Classes(Scan(Strip(Torn(head, rest), true))) == [Classify(head + rest, false)]
  {
    var doc := Torn(head, rest);
    TornIsScanned(head, rest);
    TornWalk(head, rest);
    assert Doomed(doc, true) == [];
    assert Gone(doc, true) == {};
    NothingToOutput(doc, true);
  }

  lemma {:induction false} CapitalsAreName(s: string)
    requires forall i :: 0 <= i < |s| ==> 'A' <= s[i] <= 'Z'
    ensures LeadingWord(s) == s
  {
    if s != "" {
      CapitalsAreName(s[1..]);
      assert [s[0]] + s[1..] == s;
    }
  }

  lemma CapitalsClass(s: string)
    requires s != "" && forall i :: 0 <= i < |s| ==> 'A' <= s[i] <= 'Z'
    ensures FieldName(s) == s
  {
    CapitalsAreName(s);
    assert AfterLead(s) == s;
  }

  /** There are such: a page number with a letter behind the element. */
  lemma PageWithLetter(head: string, rest: string)
    requires head == "PAGE" && rest == "X"
    ensures Classify(head, false) == Safe && Classify(head + rest, false) == Other
  {
    CapitalsClass(head);
    CapitalsClass(head + rest);
    hide FieldName;
    assert head in SAFE_FIELDS;
    assert |head + rest| == 5 && (head + rest)[4] == 'X' && (head + rest)[0] == 'P';
  }
}
