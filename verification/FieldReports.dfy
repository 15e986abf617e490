/** What the checker says of fields by their names, and which fields are left after stripping. */
module FieldReports {
  import opened Fields
  import opened FieldProofs
  import opened FieldTheorems
  import opened FieldRuns
  import opened FieldRunTheorems
  import opened FieldClasses
  import opened FieldTrees
  import opened FieldTreeStrip

  // ----- what is reported -----

  lemma ClassReported(codes: seq<Code>, c: Code)
    requires c in codes
    ensures Classify(c.instr, c.nested) in Classes(codes)
  {
    hide Classify;
    var i :| 0 <= i < |codes| && codes[i] == c;
    assert Classes(codes)[i] == Classify(c.instr, c.nested);
  }

  /** A field anywhere in any part, closed or left open, whose code is a tree: it is reported as starting a program or
      fetching a file when its name says so, and as obfuscated when it begins with a field. */
  lemma HarmIsReported(doc: Doc, before: Doc, code: seq<Part>, after: Doc)
    requires Explode(doc) == before + [Run([Begin])] + Render(code) + after && CodeEnds(after)
    ensures StartsNested("", code, true) ==> Obfuscated in Classes(Scan(doc))
    ensures !StartsNested("", code, true) && NamesProgram(Instruction(code, true)) ==> Dde in Classes(Scan(doc))
    ensures !StartsNested("", code, true) && NamesFile(Instruction(code, true)) ==> Include in Classes(Scan(doc))
  {
    hide Explode;
    hide Scan;
    hide Classes;
    FieldIsReported(doc, before, code, after);
    ClassReported(Scan(doc), Code(Instruction(code, true), StartsNested("", code, true)));
    ClassExactly(Instruction(code, true), StartsNested("", code, true));
  }

  lemma {:induction false} SimpleFound(doc: Doc, r: nat)
    requires r < |doc| && doc[r].SimpleStart?
    ensures Code(doc[r].instr, false) in ScanDoc(doc).found
  {
    var n := |doc| - 1;
    var c := Code(doc[r].instr, false);
    var before := ScanDoc(doc[..n]);
    if r == n {
      var found := ScanDoc(doc).found;
      assert found[|found| - 1] == c;
    } else {
      SimpleFound(doc[..n], r);
      assert Recorded(before, |before.fields|, c);
      match doc[n]
      case Run(atoms) => FoundStays(before, atoms, c);
      case _ =>
    }
  }

  lemma {:induction false} FoundStays(st: ScanState, atoms: seq<Atom>, c: Code)
    requires c in st.found
    ensures c in ScanAtoms(st, atoms).found
  {
    hide Blank;
    if atoms != [] { FoundStays(st, atoms[..|atoms| - 1], c); }
  }

  /** A simple field is reported by what its attribute names. */
  lemma SimpleHarmIsReported(doc: Doc, r: nat)
    requires r < |doc| && doc[r].SimpleStart?
    ensures NamesProgram(doc[r].instr) ==> Dde in Classes(Scan(doc))
    ensures NamesFile(doc[r].instr) ==> Include in Classes(Scan(doc))
  {
    SimpleFound(doc, r);
    assert Code(doc[r].instr, false) in Scan(doc);
    hide Scan;
    hide Classes;
    ClassReported(Scan(doc), Code(doc[r].instr, false));
    ClassExactly(doc[r].instr, false);
  }

  // ----- what is left -----

  /** After stripping, every field that the checker sees has a name of the safe list, is none that starts a program or
      fetches a file, and does not begin with a field. */
  lemma OnlyListedIsLeft(doc: Doc, keepSafe: bool, c: Code)
    requires Apart(doc, keepSafe) && Whole(doc) && c in Scan(Strip(doc, keepSafe))
    ensures !c.nested && NamesListed(c.instr)
  {
    OnlySafeIsLeft(doc, keepSafe);
    hide Apart;
    hide Whole;
    hide Scan;
    hide Strip;
    hide Classes;
    ClassReported(Scan(Strip(doc, keepSafe)), c);
    ClassExactly(c.instr, c.nested);
  }

  /** So no field is left, closed or open, whose code names DDE, DDEAUTO, INCLUDETEXT, INCLUDEPICTURE, INCLUDE, LINK or
      IMPORT, or begins with a field. */
  lemma NoHarmIsLeft(doc: Doc, keepSafe: bool, before: Doc, code: seq<Part>, after: Doc)
    requires Apart(doc, keepSafe) && Whole(doc)
    requires Explode(Strip(doc, keepSafe)) == before + [Run([Begin])] + Render(code) + after && CodeEnds(after)
    ensures !StartsNested("", code, true) && !NamesProgram(Instruction(code, true)) && !NamesFile(Instruction(code, true))
  {
    hide Apart;
    hide Whole;
    hide Scan;
    hide Strip;
    hide Explode;
    FieldIsReported(Strip(doc, keepSafe), before, code, after);
    OnlyListedIsLeft(doc, keepSafe, Code(Instruction(code, true), StartsNested("", code, true)));
  }

  /** Simple fields that are left have a name of the safe list, in any part. */
  lemma NoSimpleHarmIsLeft(doc: Doc, keepSafe: bool, r: nat)
    requires r < |Strip(doc, keepSafe)| && Strip(doc, keepSafe)[r].SimpleStart?
    ensures keepSafe && NamesListed(Strip(doc, keepSafe)[r].instr)
  {
    var out := Strip(doc, keepSafe);
    OutputKeepsSimples(doc, keepSafe, Gone(doc, keepSafe), Walk(doc, keepSafe).strays);
    assert SimpleKept(out[r], keepSafe);
    hide Strip;
    ClassExactly(out[r].instr, false);
  }

  lemma OneMoreFragment(parts: seq<Part>, head: string, rest: string, keepSafe: bool)
    ensures var more := parts + [Fragment(head, rest)];
            && Instruction(more, true) == Instruction(parts, true) + (head + rest)
            && Instruction(more, false) == Instruction(parts, false) + head
            && (forall whole :: StartsNested("", more, whole) == StartsNested("", parts, whole))
            && Clean(more, keepSafe, true, false) == Clean(parts, keepSafe, true, false) + [Fragment(head, rest)]
            && FieldsOf(more) == FieldsOf(parts) && Unkept(more, keepSafe) == Unkept(parts, keepSafe)
  {
    hide Blank;
    var more := parts + [Fragment(head, rest)];
    assert more[..|more| - 1] == parts;
    assert FieldsOf(parts) + [] == FieldsOf(parts);
  }

  lemma NoFragments(keepSafe: bool)
    ensures Instruction([], true) == "" == Instruction([], false) && FieldsOf([]) == []
    ensures (forall whole :: !StartsNested("", [], whole)) && Clean([], keepSafe, true, false) == [] && Unkept([], keepSafe) == 0
  {
  }

  /** INCLUDETEXT, cut so that the fragments up to the elements inside them read INDEX. */
  function TornName(): seq<Part> { [Fragment("IN", "CLU"), Fragment("DE", "TE"), Fragment("X", "T")] }

  lemma TornNameReads()
    ensures Instruction(TornName(), true) == "INCLUDETEXT" && Instruction(TornName(), false) == "INDEX"
    ensures forall whole :: !StartsNested("", TornName(), whole)
    ensures Clean(TornName(), true, true, false) == TornName() && FieldsOf(TornName()) == [] && Unkept(TornName(), true) == 0
  {
    hide Instruction;
    hide StartsNested;
    hide Clean;
    hide FieldsOf;
    NoFragments(true);
    OneMoreFragment([], "IN", "CLU", true);
    OneMoreFragment([Fragment("IN", "CLU")], "DE", "TE", true);
    OneMoreFragment([Fragment("IN", "CLU"), Fragment("DE", "TE")], "X", "T", true);
    assert [] + [Fragment("IN", "CLU")] == [Fragment("IN", "CLU")];
    assert [Fragment("IN", "CLU")] + [Fragment("DE", "TE")] == [Fragment("IN", "CLU"), Fragment("DE", "TE")];
    assert [Fragment("IN", "CLU"), Fragment("DE", "TE")] + [Fragment("X", "T")] == TornName();
    assert "" + ("IN" + "CLU") + ("DE" + "TE") + ("X" + "T") == "INCLUDETEXT";
    assert "" + "IN" + "DE" + "X" == "INDEX";
  }

  predicate AllCapitals(name: string) { forall i :: 0 <= i < |name| ==> 'A' <= name[i] <= 'Z' }

  lemma IndexIsSafe(name: string)
    requires name == "INDEX"
    ensures Classify(name, false) == Safe
  {
    assert |name| == 5 && AllCapitals(name);
    CapitalsClass(name);
    hide FieldName;
    hide AllCapitals;
    assert name in SAFE_FIELDS;
  }

  lemma IncludeTextCapitals(name: string)
    requires name == "INCLUDETEXT"
    ensures |name| == 11 && AllCapitals(name)
  {
  }

  lemma CapitalsAreNamed(name: string)
    requires name != "" && AllCapitals(name)
    ensures FieldName(name) == name
  {
    CapitalsClass(name);
  }

  lemma IncludeTextIsInclude(name: string)
    requires name == "INCLUDETEXT"
    ensures Classify(name, false) == Include
  {
    hide FieldName;
    hide AllCapitals;
    IncludeTextCapitals(name);
    CapitalsAreNamed(name);
    assert name in INCLUDE_FIELDS;
  }

  lemma TornNameClasses()
    ensures Classify("INDEX", false) == Safe && Classify("INCLUDETEXT", false) == Include
  {
    hide Classify;
    IndexIsSafe("INDEX");
    IncludeTextIsInclude("INCLUDETEXT");
  }

  /** Whole fragments are needed for that: this field is kept as an index, and what is left of the part fetches a file. */
  lemma IndexHidesInclude()
    ensures var doc := Render([Complex(TornName(), false, [])]);
            Strip(doc, true) == doc && RemovedCount(doc, true) == 0 && Scan(doc) == [Code("INCLUDETEXT", false)]
    ensures Classify("INCLUDETEXT", false) == Include
  {
    hide Strip;
    hide RemovedCount;
    hide Scan;
    hide Classify;
    hide Instruction;
    hide TornName;
    var parts := [Complex(TornName(), false, [])];
    assert parts[..0] == [];
    TornNameReads();
    TornNameClasses();
    NoFragments(true);
    assert StaysField(TornName(), true);
    StripOfTree(parts, true);
    CountOfTree(parts, true);
    ScanOfRendered(parts);
    OneField(TornName(), true);
  }

  lemma OneField(code: seq<Part>, keepSafe: bool)
    requires StaysField(code, keepSafe) && Clean(code, keepSafe, true, false) == code && FieldsOf(code) == []
    requires Unkept(code, keepSafe) == 0
    ensures Clean([Complex(code, false, [])], keepSafe, false, false) == [Complex(code, false, [])]
    ensures FieldsOf([Complex(code, false, [])]) == [Code(Instruction(code, true), StartsNested("", code, true))]
    ensures Unkept([Complex(code, false, [])], keepSafe) == 0
  {
    assert [Complex(code, false, [])][..0] == [];
  }

  // ----- how many are removed -----

  /** Of the fields reported, those that are not kept. */
  function UnkeptCodes(codes: seq<Code>, keepSafe: bool): nat {
    if codes == [] then 0
    else UnkeptCodes(codes[..|codes| - 1], keepSafe) + if keepSafe && SafeCode(codes[|codes| - 1]) then 0 else 1
  }

  lemma OneMoreCode(codes: seq<Code>, c: Code, keepSafe: bool)
    ensures UnkeptCodes(codes + [c], keepSafe) == UnkeptCodes(codes, keepSafe) + if keepSafe && SafeCode(c) then 0 else 1
  {
    assert (codes + [c])[..|codes|] == codes;
  }

  /** The same fields are open; with `keepSafe`, with the same instructions. */
  ghost predicate Level(st: StripState, sc: ScanState, keepSafe: bool) {
    |sc.fields| == |st.stack| && (keepSafe ==> sc.fields == Erase(st.stack))
  }

  lemma AtomCounts(st: StripState, sc: ScanState, r: nat, k: nat, a: Atom, keepSafe: bool)
    requires Level(st, sc, keepSafe) && (keepSafe && a.Instr? ==> a.rest == "")
    ensures var st', sc' := StripAtom(st, r, k, a, keepSafe), ScanAtom(sc, a);
            && Level(st', sc', keepSafe)
            && |st'.doomed| + UnkeptCodes(sc.found, keepSafe) == |st.doomed| + UnkeptCodes(sc'.found, keepSafe)
  {
    hide Blank;
    hide Classify;
    hide UnkeptCodes;
    var top := |st.stack| - 1;
    if a.End? && st.stack != [] {
      OneMoreCode(sc.found, Code(sc.fields[top].instr, sc.fields[top].nested), keepSafe);
    }
    if a.Instr? {
      assert keepSafe ==> a.head + a.rest == a.head;
    }
  }

  lemma {:induction false} AtomsCount(st: StripState, sc: ScanState, r: nat, atoms: seq<Atom>, keepSafe: bool)
    requires Level(st, sc, keepSafe) && (keepSafe ==> WholeAtoms(atoms))
    ensures var st', sc' := StripAtoms(st, r, atoms, keepSafe), ScanAtoms(sc, atoms);
            && Level(st', sc', keepSafe)
            && |st'.doomed| + UnkeptCodes(sc.found, keepSafe) == |st.doomed| + UnkeptCodes(sc'.found, keepSafe)
  {
    hide StripAtom;
    hide ScanAtom;
    hide UnkeptCodes;
    if atoms != [] {
      var k := |atoms| - 1;
      AtomsCount(st, sc, r, atoms[..k], keepSafe);
      AtomCounts(StripAtoms(st, r, atoms[..k], keepSafe), ScanAtoms(sc, atoms[..k]), r, k, atoms[k], keepSafe);
    }
  }

  lemma {:induction false} WalkCounts(doc: Doc, keepSafe: bool)
    requires keepSafe ==> Whole(doc)
    ensures Level(Walk(doc, keepSafe), ScanDoc(doc), keepSafe)
    ensures |Walk(doc, keepSafe).doomed| + UnsafeSimples(doc, keepSafe) == UnkeptCodes(ScanDoc(doc).found, keepSafe)
  {
    hide StripAtoms;
    hide ScanAtoms;
    hide UnkeptCodes;
    hide Classify;
    if doc == [] {
      assert UnkeptCodes([], keepSafe) == 0 by { NoCodes(keepSafe); }
    } else {
      var r := |doc| - 1;
      WalkCounts(doc[..r], keepSafe);
      var st, sc := Walk(doc[..r], keepSafe), ScanDoc(doc[..r]);
      match doc[r]
      case Run(atoms) =>
        var entered := st.(stack := EnterRun(st.stack, r));
        assert Erase(entered.stack) == Erase(st.stack);
        AtomsCount(entered, sc, r, atoms, keepSafe);
      case SimpleStart(instr) =>
        OneMoreCode(sc.found, Code(instr, false), keepSafe);
      case SimpleEnd(_) =>
    }
  }

  lemma NoCodes(keepSafe: bool)
    ensures UnkeptCodes([], keepSafe) == 0
  {
  }

  lemma {:induction false} NoneKept(codes: seq<Code>)
    ensures UnkeptCodes(codes, false) == |codes|
  {
    if codes != [] { NoneKept(codes[..|codes| - 1]); }
  }

  /** The number answered: of the fields the checker reports on the part given, those closed that are not safe, and
      all that are left open. */
  lemma RemovedAreReported(doc: Doc, keepSafe: bool)
    requires keepSafe ==> Whole(doc)
    ensures RemovedCount(doc, keepSafe) == UnkeptCodes(ScanDoc(doc).found, keepSafe) + |ScanDoc(doc).fields|
  {
    WalkCounts(doc, keepSafe);
  }

  /** When safe fields go too, every field that begins is counted. */
  lemma AllAreCounted(doc: Doc)
    ensures RemovedCount(doc, false) == Begins(doc)
  {
    RemovedAreReported(doc, false);
    NoneKept(ScanDoc(doc).found);
    ScanMissesNothing(doc);
  }
}
