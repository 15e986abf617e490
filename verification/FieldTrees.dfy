/** Parts written as trees of fields: what the checker reports of such a part, and what the sanitizer makes of it,
    said of the tree and not of a stack. */
module FieldTrees {
  import opened Fields
  import opened FieldRuns

  /** What stands in a part: runs with nothing in them, fragments of instructions, text, simple fields with what they
      enclose, and complex fields. A complex field without a separator has no result. */
  datatype Part =
    | Hollow
    | Fragment(head: string, rest: string)
    | Word(text: string)
    | Simple(instr: string, content: seq<Part>)
    | Complex(code: seq<Part>, separated: bool, result: seq<Part>)

  function Rendered(part: Part): Doc
    decreases part
  {
    match part
    case Hollow => [Run([])]
    case Fragment(head, rest) => [Run([Instr(head, rest)])]
    case Word(text) => [Run([Text(text)])]
    case Simple(instr, content) => [SimpleStart(instr)] + Render(content) + [SimpleEnd(instr)]
    case Complex(code, separated, result) =>
      [Run([Begin])] + Render(code) + (if separated then [Run([Separate])] + Render(result) else []) + [Run([End])]
  }

  /** The part, a run for each mark, fragment and text. */
  function Render(parts: seq<Part>): Doc
    decreases parts
  {
    if parts == [] then [] else Render(parts[..|parts| - 1]) + Rendered(parts[|parts| - 1])
  }

  /** The instruction written among `parts`, outside any complex field in it; without `whole`, each fragment only up
      to the first element inside it. */
  function Instruction(parts: seq<Part>, whole: bool): string
    decreases parts
  {
    if parts == [] then "" else Instruction(parts[..|parts| - 1], whole) + Written(parts[|parts| - 1], whole)
  }

  function Written(part: Part, whole: bool): string
    decreases part
  {
    match part
    case Fragment(head, rest) => if whole then head + rest else head
    case Simple(_, content) => Instruction(content, whole)
    case _ => ""
  }

  /** Some complex field among `parts` has nothing but white space of the instruction before it. */
  predicate StartsNested(before: string, parts: seq<Part>, whole: bool)
    decreases parts
  {
    parts != []
    && var front := parts[..|parts| - 1];
       StartsNested(before, front, whole) || NestsAfter(before + Instruction(front, whole), parts[|parts| - 1], whole)
  }

  predicate NestsAfter(before: string, part: Part, whole: bool)
    decreases part
  {
    match part
    case Complex(_, _, _) => Blank(before)
    case Simple(_, content) => StartsNested(before, content, whole)
    case _ => false
  }

  /** The fields of a part, a complex one where it ends and a simple one where it begins. */
  function FieldsOf(parts: seq<Part>): seq<Code>
    decreases parts
  {
    if parts == [] then [] else FieldsOf(parts[..|parts| - 1]) + FieldsIn(parts[|parts| - 1])
  }

  function FieldsIn(part: Part): seq<Code>
    decreases part
  {
    match part
    case Simple(instr, content) => [Code(instr, false)] + FieldsOf(content)
    case Complex(code, separated, result) =>
      FieldsOf(code) + (if separated then FieldsOf(result) else []) + [Code(Instruction(code, true), StartsNested("", code, true))]
    case _ => []
  }

  // ----- the checker on a tree -----

  function ScanMore(st: ScanState, doc: Doc): ScanState {
    if doc == [] then st else ScanItem(ScanMore(st, doc[..|doc| - 1]), doc[|doc| - 1])
  }

  lemma {:induction false} ScanFromStart(doc: Doc)
    ensures ScanDoc(doc) == ScanMore(ScanState([], []), doc)
  {
    if doc != [] { ScanFromStart(doc[..|doc| - 1]); }
  }

  lemma {:induction false} ScanInTwo(st: ScanState, a: Doc, b: Doc)
    ensures ScanMore(st, a + b) == ScanMore(ScanMore(st, a), b)
  {
    if b == [] {
      assert a + b == a;
    } else {
      assert (a + b)[..|a + b| - 1] == a + b[..|b| - 1];
      ScanInTwo(st, a, b[..|b| - 1]);
    }
  }

  lemma ScanOneRun(st: ScanState, a: Atom)
    ensures ScanMore(st, [Run([a])]) == ScanAtom(st, a)
  {
    assert [Run([a])][..0] == [] && [a][..0] == [];
    assert ScanAtoms(st, []) == st && ScanMore(st, []) == st;
  }

  lemma ScanOneItem(st: ScanState, item: Item)
    ensures ScanMore(st, [item]) == ScanItem(st, item)
  {
    assert [item][..0] == [];
    assert ScanMore(st, []) == st;
  }

  predicate Reads(fields: seq<Field>) { fields != [] && !fields[|fields| - 1].inResult }

  /** The innermost open field takes up what is written in its code. */
  function TakeUp(fields: seq<Field>, more: string, nests: bool): seq<Field> {
    if !Reads(fields) then fields
    else
      var top := fields[|fields| - 1];
      fields[|fields| - 1 := top.(instr := top.instr + more, nested := top.nested || nests)]
  }

  function Sofar(fields: seq<Field>): string { if fields == [] then "" else fields[|fields| - 1].instr }

  function AfterParts(st: ScanState, parts: seq<Part>): ScanState {
    ScanState(st.found + FieldsOf(parts),
              TakeUp(st.fields, Instruction(parts, true), StartsNested(Sofar(st.fields), parts, true)))
  }

  function AfterPart(st: ScanState, part: Part): ScanState {
    ScanState(st.found + FieldsIn(part),
              TakeUp(st.fields, Written(part, true), NestsAfter(Sofar(st.fields), part, true)))
  }

  lemma TakeUpTwice(fields: seq<Field>, more: string, nests: bool, more': string, nests': bool)
    ensures TakeUp(TakeUp(fields, more, nests), more', nests') == TakeUp(fields, more + more', nests || nests')
  {
    if Reads(fields) {
      var sofar := fields[|fields| - 1].instr;
      assert (sofar + more) + more' == sofar + (more + more');
    }
  }

  lemma NothingTakenUp(fields: seq<Field>)
    ensures TakeUp(fields, "", false) == fields
  {
    if Reads(fields) {
      assert fields[|fields| - 1].instr + "" == fields[|fields| - 1].instr;
    }
  }

  lemma ReadLast(parts: seq<Part>, before: string, whole: bool)
    requires parts != []
    ensures var front, last := parts[..|parts| - 1], parts[|parts| - 1];
            && Render(parts) == Render(front) + Rendered(last)
            && Instruction(parts, whole) == Instruction(front, whole) + Written(last, whole)
            && StartsNested(before, parts, whole)
               == (StartsNested(before, front, whole) || NestsAfter(before + Instruction(front, whole), last, whole))
  {
    hide Rendered;
    hide Written;
    hide NestsAfter;
  }

  lemma SofarTakenUp(fields: seq<Field>, more: string, nests: bool)
    ensures Reads(fields) ==> Sofar(TakeUp(fields, more, nests)) == Sofar(fields) + more
  {
  }

  lemma TakeUpIgnores(fields: seq<Field>, more: string, nests: bool, nests': bool)
    requires Reads(fields) ==> nests == nests'
    ensures TakeUp(fields, more, nests) == TakeUp(fields, more, nests')
  {
  }

  lemma {:induction false} ScanParts(st: ScanState, parts: seq<Part>)
    ensures ScanMore(st, Render(parts)) == AfterParts(st, parts)
    decreases parts
  {
    if parts == [] {
      NothingTakenUp(st.fields);
      assert st.found + [] == st.found;
    } else {
      var front, last := parts[..|parts| - 1], parts[|parts| - 1];
      ScanParts(st, front);
      ScanPart(AfterParts(st, front), last);
      ScanInTwo(st, Render(front), Rendered(last));
      ScanLast(st, parts);
      hide ScanMore;
      hide AfterParts;
    }
  }

  lemma ScanLast(st: ScanState, parts: seq<Part>)
    requires parts != []
    ensures AfterPart(AfterParts(st, parts[..|parts| - 1]), parts[|parts| - 1]) == AfterParts(st, parts)
  {
    var front, last := parts[..|parts| - 1], parts[|parts| - 1];
    assert FieldsOf(parts) == FieldsOf(front) + FieldsIn(last);
    hide FieldsOf;
    hide FieldsIn;
    hide Render;
    hide Instruction;
    hide Written;
    hide StartsNested;
    hide NestsAfter;
    hide TakeUp;
    hide Reads;
    hide Sofar;
    var before := Sofar(st.fields);
    var more, nests := Instruction(front, true), StartsNested(before, front, true);
    var nests' := NestsAfter(Sofar(TakeUp(st.fields, more, nests)), last, true);
    ReadLast(parts, before, true);
    SofarTakenUp(st.fields, more, nests);
    TakeUpTwice(st.fields, more, nests, Written(last, true), nests');
    TakeUpIgnores(st.fields, more + Written(last, true), nests || nests', StartsNested(before, parts, true));
    assert (st.found + FieldsOf(front)) + FieldsIn(last) == st.found + (FieldsOf(front) + FieldsIn(last));
  }

  lemma {:induction false} ScanPart(st: ScanState, part: Part)
    ensures ScanMore(st, Rendered(part)) == AfterPart(st, part)
    decreases part
  {
    match part
    case Hollow =>
      ScanOneItem(st, Run([]));
      NothingTakenUp(st.fields);
    case Fragment(head, rest) =>
      ScanOneRun(st, Instr(head, rest));
    case Word(text) =>
      ScanOneRun(st, Text(text));
      NothingTakenUp(st.fields);
    case Simple(instr, content) =>
      ScanSimple(st, instr, content);
    case Complex(code, separated, result) =>
      ScanComplex(st, code, separated, result);
  }

  lemma {:induction false} ScanSimple(st: ScanState, instr: string, content: seq<Part>)
    ensures ScanMore(st, Rendered(Simple(instr, content))) == AfterPart(st, Simple(instr, content))
    decreases Simple(instr, content), 0
  {
    var started := st.(found := st.found + [Code(instr, false)]);
    ScanOneItem(st, SimpleStart(instr));
    ScanParts(started, content);
    ScanOneItem(AfterParts(started, content), SimpleEnd(instr));
    ScanInTwo(st, [SimpleStart(instr)], Render(content));
    ScanInTwo(st, [SimpleStart(instr)] + Render(content), [SimpleEnd(instr)]);
    hide ScanMore;
    assert started.found + FieldsOf(content) == st.found + ([Code(instr, false)] + FieldsOf(content));
  }

  function Opened(st: ScanState): ScanState { ScanAtom(st, Begin) }

  lemma {:induction false} ScanComplex(st: ScanState, code: seq<Part>, separated: bool, result: seq<Part>)
    ensures ScanMore(st, Rendered(Complex(code, separated, result))) == AfterPart(st, Complex(code, separated, result))
    decreases Complex(code, separated, result), 0
  {
    var part := Complex(code, separated, result);
    var read := AfterParts(Opened(st), code);
    var tail := if separated then [Run([Separate])] + Render(result) else [];
    var divided := if separated then ScanAtom(read, Separate) else read;
    var done := if separated then AfterParts(divided, result) else read;
    ScanOneRun(st, Begin);
    ScanParts(Opened(st), code);
    ScanInTwo(st, [Run([Begin])], Render(code));
    if separated {
      ScanOneRun(read, Separate);
      ScanParts(divided, result);
      ScanInTwo(read, [Run([Separate])], Render(result));
    }
    assert ScanMore(read, tail) == done;
    ScanInTwo(st, [Run([Begin])] + Render(code), tail);
    ScanOneRun(done, End);
    ScanInTwo(st, [Run([Begin])] + Render(code) + tail, [Run([End])]);
    hide ScanMore;
    ClosedState(st, code, separated, result);
  }

  function Within(found: seq<Code>, below: seq<Field>, own: Code, inResult: bool): ScanState {
    ScanState(found, below + [Field(own.instr, own.nested, inResult)])
  }

  lemma AfterBegin(st: ScanState, code: seq<Part>)
    ensures var own := Code(Instruction(code, true), StartsNested("", code, true));
            var below := TakeUp(st.fields, "", Blank(Sofar(st.fields)));
            AfterParts(Opened(st), code) == Within(st.found + FieldsOf(code), below, own, false)
  {
    hide Blank;
    var begun := Opened(st);
    var below := TakeUp(st.fields, "", Blank(Sofar(st.fields)));
    assert begun.fields == below + [Field("", false, false)] by {
      if Reads(st.fields) {
        assert Sofar(st.fields) + "" == Sofar(st.fields);
      }
    }
    assert "" + Instruction(code, true) == Instruction(code, true);
  }

  lemma AfterResult(found: seq<Code>, below: seq<Field>, own: Code, result: seq<Part>)
    ensures AfterParts(ScanAtom(Within(found, below, own, false), Separate), result)
            == Within(found + FieldsOf(result), below, own, true)
  {
    hide Blank;
    var divided := ScanAtom(Within(found, below, own, false), Separate);
    assert divided == Within(found, below, own, true);
  }

  lemma AfterEnd(found: seq<Code>, below: seq<Field>, own: Code, inResult: bool)
    ensures ScanAtom(Within(found, below, own, inResult), End) == ScanState(found + [own], below)
  {
    hide Blank;
    assert (below + [Field(own.instr, own.nested, inResult)])[..|below|] == below;
  }

  /** Begin, code, separator, result and end, state by state. */
  lemma ClosedState(st: ScanState, code: seq<Part>, separated: bool, result: seq<Part>)
    ensures var read := AfterParts(Opened(st), code);
            var done := if separated then AfterParts(ScanAtom(read, Separate), result) else read;
            ScanAtom(done, End) == AfterPart(st, Complex(code, separated, result))
  {
    var own := Code(Instruction(code, true), StartsNested("", code, true));
    var below := TakeUp(st.fields, "", Blank(Sofar(st.fields)));
    var found := st.found + FieldsOf(code);
    AfterBegin(st, code);
    AfterResult(found, below, own, result);
    AfterEnd(found, below, own, false);
    AfterEnd(found + FieldsOf(result), below, own, true);
    hide ScanAtom;
    hide AfterParts;
    hide TakeUp;
    hide Instruction;
    hide StartsNested;
    hide Blank;
    hide FieldsOf;
    assert found + FieldsOf(result) + [own] == st.found + (FieldsOf(code) + FieldsOf(result) + [own]);
    assert found + [own] == st.found + (FieldsOf(code) + [] + [own]);
  }

  lemma {:induction false} ScanOfPieces(doc: Doc)
    ensures ScanDoc(Explode(doc)) == ScanDoc(doc)
  {
    if doc != [] {
      var n := |doc| - 1;
      ScanOfPieces(doc[..n]);
      ScanFromStart(Explode(doc[..n]));
      ScanFromStart(Explode(doc));
      ScanInTwo(ScanState([], []), Explode(doc[..n]), Pieces(doc[n]));
      hide Explode;
      ScanPieces(ScanDoc(doc[..n]), doc[n]);
    }
  }

  lemma ScanPieces(st: ScanState, item: Item)
    ensures ScanMore(st, Pieces(item)) == ScanItem(st, item)
  {
    if item.Run? && item.atoms != [] {
      ScanPiecesOf(st, item.atoms);
    } else {
      ScanOneItem(st, item);
    }
  }

  lemma {:induction false} ScanPiecesOf(st: ScanState, atoms: seq<Atom>)
    requires atoms != []
    ensures ScanMore(st, Pieces(Run(atoms))) == ScanAtoms(st, atoms)
  {
    var n := |atoms| - 1;
    var pieces := Pieces(Run(atoms));
    if n == 0 {
      assert pieces == [Run([atoms[0]])] && atoms == [atoms[0]];
      ScanOneRun(st, atoms[0]);
      assert atoms[..0] == [] && ScanAtoms(st, []) == st;
    } else {
      ScanPiecesOf(st, atoms[..n]);
      assert pieces == Pieces(Run(atoms[..n])) + [Run([atoms[n]])];
      ScanInTwo(st, Pieces(Run(atoms[..n])), [Run([atoms[n]])]);
      ScanOneRun(ScanAtoms(st, atoms[..n]), atoms[n]);
    }
  }

  lemma ScanOfRendered(parts: seq<Part>)
    ensures Scan(Render(parts)) == FieldsOf(parts)
  {
    ScanFromStart(Render(parts));
    ScanParts(ScanState([], []), parts);
    hide ScanDoc;
    hide ScanMore;
    assert [] + FieldsOf(parts) == FieldsOf(parts);
    assert Unclosed([]) == [];
    assert FieldsOf(parts) + [] == FieldsOf(parts);
  }

  /** What the checker reports of a part that is a tree, however its pieces lie in runs: its fields, each with the
      whole instruction written in its code. */
  lemma ScanOfTree(doc: Doc, parts: seq<Part>)
    requires Explode(doc) == Render(parts)
    ensures Scan(doc) == FieldsOf(parts)
  {
    ScanOfPieces(doc);
    ScanOfRendered(parts);
  }

  // ----- a tree anywhere in a part -----

  /** The field is reported, or stands open at `i` with its code read. */
  ghost predicate Recorded(st: ScanState, i: nat, own: Code) {
    own in st.found || (i < |st.fields| && st.fields[i] == Field(own.instr, own.nested, true))
  }

  lemma AtomKeepsRecord(st: ScanState, i: nat, own: Code, a: Atom)
    requires Recorded(st, i, own)
    ensures Recorded(ScanAtom(st, a), i, own)
  {
    hide Blank;
    if own in st.found {
      assert own in ScanAtom(st, a).found;
    } else if a.End? && i == |st.fields| - 1 {
      var found := ScanAtom(st, a).found;
      assert found[|found| - 1] == own;
    }
  }

  lemma {:induction false} AtomsKeepRecord(st: ScanState, i: nat, own: Code, atoms: seq<Atom>)
    requires Recorded(st, i, own)
    ensures Recorded(ScanAtoms(st, atoms), i, own)
  {
    if atoms != [] {
      var n := |atoms| - 1;
      AtomsKeepRecord(st, i, own, atoms[..n]);
      AtomKeepsRecord(ScanAtoms(st, atoms[..n]), i, own, atoms[n]);
    }
  }

  lemma {:induction false} RecordStays(st: ScanState, i: nat, own: Code, doc: Doc)
    requires Recorded(st, i, own)
    ensures Recorded(ScanMore(st, doc), i, own)
  {
    if doc != [] {
      var n := |doc| - 1;
      RecordStays(st, i, own, doc[..n]);
      var before := ScanMore(st, doc[..n]);
      match doc[n]
      case Run(atoms) => AtomsKeepRecord(before, i, own, atoms);
      case SimpleStart(_) =>
      case SimpleEnd(_) =>
    }
  }

  /** The end of a code: the field's separator, its end, or the end of the part. */
  predicate CodeEnds(after: Doc) { after == [] || after[0] == Run([Separate]) || after[0] == Run([End]) }

  lemma CodeRecorded(st: ScanState, code: seq<Part>, after: Doc)
    requires CodeEnds(after)
    ensures var own := Code(Instruction(code, true), StartsNested("", code, true));
            var end := ScanMore(AfterParts(Opened(st), code), after);
            own in end.found || own in Unclosed(end.fields)
  {
    var own := Code(Instruction(code, true), StartsNested("", code, true));
    var below := TakeUp(st.fields, "", Blank(Sofar(st.fields)));
    var found := st.found + FieldsOf(code);
    AfterBegin(st, code);
    var read := Within(found, below, own, false);
    hide Opened;
    hide AfterParts;
    hide Instruction;
    hide StartsNested;
    hide FieldsOf;
    hide TakeUp;
    if after == [] {
      assert read.fields[|below|] == Field(own.instr, own.nested, false);
      assert Unclosed(read.fields)[|below|] == own;
    } else {
      var next := ScanAtom(read, after[0].atoms[0]);
      assert after == [after[0]] + after[1..];
      ScanOneRun(read, after[0].atoms[0]);
      ScanInTwo(read, [after[0]], after[1..]);
      assert Recorded(next, |below|, own) by {
        if after[0] == Run([End]) {
          AfterEnd(found, below, own, false);
          assert next.found[|found|] == own;
        }
      }
      RecordStays(next, |below|, own, after[1..]);
      var end := ScanMore(next, after[1..]);
      if own !in end.found {
        assert Unclosed(end.fields)[|below|] == own;
      }
    }
  }

  /** A field anywhere in any part, whatever stands around it, closed or left open: with a code that is a tree, the
      checker reports it with the whole instruction written in the code. */
  lemma FieldIsReported(doc: Doc, before: Doc, code: seq<Part>, after: Doc)
    requires Explode(doc) == before + [Run([Begin])] + Render(code) + after && CodeEnds(after)
    ensures Code(Instruction(code, true), StartsNested("", code, true)) in Scan(doc)
  {
    var st := ScanDoc(before);
    ScanOfPieces(doc);
    ScanFromStart(before);
    ScanFromStart(Explode(doc));
    var none := ScanState([], []);
    ScanInTwo(none, before, [Run([Begin])]);
    ScanInTwo(none, before + [Run([Begin])], Render(code));
    ScanInTwo(none, before + [Run([Begin])] + Render(code), after);
    ScanOneRun(st, Begin);
    ScanParts(Opened(st), code);
    CodeRecorded(st, code, after);
  }
}
