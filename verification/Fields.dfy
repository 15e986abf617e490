/** Fields of a Word part: the checker's scan and the sanitizer's strip, two separate stack machines
    over the same document (complex fields are section 17.16.18 of ECMA-376 Part 1). */
module Fields {

  // ----- classification of an instruction -----

  datatype Class = Safe | Dde | Include | Obfuscated | Other

  const SAFE_FIELDS := {
    "PAGE", "NUMPAGES", "SECTION", "SECTIONPAGES", "TOC", "TC", "TOA", "TA",
    "HYPERLINK", "REF", "PAGEREF", "NOTEREF", "STYLEREF", "SEQ", "XE", "INDEX",
    "DATE", "TIME", "CREATEDATE", "SAVEDATE", "PRINTDATE", "EDITTIME",
    "NUMWORDS", "NUMCHARS", "FORMTEXT", "FORMCHECKBOX", "FORMDROPDOWN",
    "SYMBOL", "LISTNUM", "AUTONUM", "AUTONUMLGL", "AUTONUMOUT", "EQ",
    "BIBLIOGRAPHY", "CITATION", "ADVANCE", "MERGEFORMAT"}
  const DDE_FIELDS := {"DDE", "DDEAUTO"}
  const INCLUDE_FIELDS := {"INCLUDETEXT", "INCLUDEPICTURE", "INCLUDE", "LINK", "IMPORT"}

  predicate IsSpace(c: char) {
    || '\t' <= c <= '\r' || '\U{1C}' <= c <= ' ' || c == '\U{85}' || c == '\U{A0}' || c == '\U{1680}'
    || '\U{2000}' <= c <= '\U{200A}' || c == '\U{2028}' || c == '\U{2029}' || c == '\U{202F}'
    || c == '\U{205F}' || c == '\U{3000}'
  }

  predicate IsLetter(c: char) { 'A' <= c <= 'Z' || 'a' <= c <= 'z' }

  function Upper(c: char): char {
    if 'a' <= c <= 'z' then (c as int - 32) as char else c
  }

  /** Nothing but white space. */
  predicate Blank(s: string) { forall c :: c in s ==> IsSpace(c) }

  function AfterLead(s: string): string {
    if s != "" && (IsSpace(s[0]) || s[0] == '"' || s[0] == '\'') then AfterLead(s[1..]) else s
  }

  function LeadingWord(s: string): string {
    if s != "" && IsLetter(s[0]) then [Upper(s[0])] + LeadingWord(s[1..]) else ""
  }

  function FieldName(instruction: string): string {
    LeadingWord(AfterLead(instruction))
  }

  function Classify(instruction: string, nestedFirst: bool): Class {
    var name := FieldName(instruction);
    if nestedFirst then Obfuscated
    else if name == "" then Other
    else if name in DDE_FIELDS then Dde
    else if name in INCLUDE_FIELDS then Include
    else if name in SAFE_FIELDS then Safe
    else Other
  }

  // ----- the document -----

  /** What a run holds: field marks, fragments of instructions (inserted or deleted), and text. A fragment has
      the text up to the first element inside it, and what follows: the scanner reads both, the sanitizer only
      the first. */
  datatype Atom = Begin | Separate | End | Instr(head: string, rest: string) | Text(text: string)

  /** A part in document order: runs, and the start and end of each simple field (17.16.19). */
  datatype Item = Run(atoms: seq<Atom>) | SimpleStart(instr: string) | SimpleEnd(instr: string)

  type Doc = seq<Item>

  // ----- scanning -----

  /** A field as the scanner reports it; its class is `Classify(instr, nested)`. */
  datatype Code = Code(instr: string, nested: bool)

  datatype Field = Field(instr: string, nested: bool, inResult: bool)

  datatype ScanState = ScanState(found: seq<Code>, fields: seq<Field>)

  function ScanAtom(st: ScanState, a: Atom): ScanState {
    var n := |st.fields|;
    match a
    case Begin =>
      var fields := if n > 0 && !st.fields[n - 1].inResult && Blank(st.fields[n - 1].instr)
                    then st.fields[n - 1 := st.fields[n - 1].(nested := true)] else st.fields;
      st.(fields := fields + [Field("", false, false)])
    case Separate =>
      if n == 0 then st else st.(fields := st.fields[n - 1 := st.fields[n - 1].(inResult := true)])
    case End =>
      if n == 0 then st
      else ScanState(st.found + [Code(st.fields[n - 1].instr, st.fields[n - 1].nested)], st.fields[..n - 1])
    case Instr(head, rest) =>
      if n > 0 && !st.fields[n - 1].inResult
      then st.(fields := st.fields[n - 1 := st.fields[n - 1].(instr := st.fields[n - 1].instr + (head + rest))])
      else st
    case Text(_) => st
  }

  function ScanAtoms(st: ScanState, atoms: seq<Atom>): ScanState {
    if atoms == [] then st else ScanAtom(ScanAtoms(st, atoms[..|atoms| - 1]), atoms[|atoms| - 1])
  }

  function ScanItem(st: ScanState, item: Item): ScanState {
    match item
    case Run(atoms) => ScanAtoms(st, atoms)
    case SimpleStart(instr) => st.(found := st.found + [Code(instr, false)])
    case SimpleEnd(_) => st
  }

  function ScanDoc(doc: Doc): ScanState {
    if doc == [] then ScanState([], []) else ScanItem(ScanDoc(doc[..|doc| - 1]), doc[|doc| - 1])
  }

  function Unclosed(fields: seq<Field>): seq<Code> {
    seq(|fields|, i requires 0 <= i < |fields| => Code(fields[i].instr, fields[i].nested))
  }

  /** Every field of the document, closed ones first in the order they close, then the unclosed. */
  function Scan(doc: Doc): seq<Code> {
    ScanDoc(doc).found + Unclosed(ScanDoc(doc).fields)
  }

  function Classes(codes: seq<Code>): seq<Class> {
    seq(|codes|, i requires 0 <= i < |codes| => Classify(codes[i].instr, codes[i].nested))
  }

  /** The handlers of one mark, fragment or text. */
  method ScanOne(found0: seq<Class>, fields0: seq<Field>, a: Atom, ghost st: ScanState)
    returns (found: seq<Class>, fields: seq<Field>)
    requires fields0 == st.fields && found0 == Classes(st.found)
    ensures fields == ScanAtom(st, a).fields
    ensures found == Classes(ScanAtom(st, a).found)
  {
    hide Classify;
    hide Blank;
    found, fields := found0, fields0;
    var n := |fields|;
    match a
    case Begin =>
      if n > 0 && !fields[n - 1].inResult && Blank(fields[n - 1].instr) {
        fields := fields[n - 1 := fields[n - 1].(nested := true)];
      }
      fields := fields + [Field("", false, false)];
    case Separate =>
      if n > 0 { fields := fields[n - 1 := fields[n - 1].(inResult := true)]; }
    case End =>
      if n > 0 {
        found := found + [Classify(fields[n - 1].instr, fields[n - 1].nested)];
        fields := fields[..n - 1];
      }
    case Instr(head, rest) =>
      if n > 0 && !fields[n - 1].inResult {
        fields := fields[n - 1 := fields[n - 1].(instr := fields[n - 1].instr + (head + rest))];
      }
    case Text(_) =>
  }

  method ScanRun(found0: seq<Class>, fields0: seq<Field>, atoms: seq<Atom>, ghost st: ScanState)
    returns (found: seq<Class>, fields: seq<Field>)
    requires fields0 == st.fields && found0 == Classes(st.found)
    ensures fields == ScanAtoms(st, atoms).fields
    ensures found == Classes(ScanAtoms(st, atoms).found)
  {
    hide ScanAtom;
    hide Classes;
    found, fields := found0, fields0;
    for k := 0 to |atoms|
      invariant fields == ScanAtoms(st, atoms[..k]).fields
      invariant found == Classes(ScanAtoms(st, atoms[..k]).found)
    {
      assert atoms[..k + 1][..k] == atoms[..k];
      found, fields := ScanOne(found, fields, atoms[k], ScanAtoms(st, atoms[..k]));
    }
    assert atoms[..|atoms|] == atoms;
  }

  method ScanFields(doc: Doc) returns (found: seq<Class>)
    ensures found == Classes(Scan(doc))
  {
    found := [];
    var fields: seq<Field> := [];
    for i := 0 to |doc|
      invariant fields == ScanDoc(doc[..i]).fields
      invariant found == Classes(ScanDoc(doc[..i]).found)
    {
      assert doc[..i + 1][..i] == doc[..i];
      match doc[i]
      case Run(atoms) =>
        found, fields := ScanRun(found, fields, atoms, ScanDoc(doc[..i]));
      case SimpleStart(instr) =>
        found := found + [Classify(instr, false)];
      case SimpleEnd(_) =>
    }
    assert doc[..|doc|] == doc;
    for i := 0 to |fields|
      invariant found == Classes(ScanDoc(doc).found + Unclosed(fields)[..i])
    {
      found := found + [Classify(fields[i].instr, fields[i].nested)];
    }
  }

  // ----- stripping -----

  /** A field the sanitizer has open; `region` lists the runs of its code: from its start to its
      separator, and the run of its end. */
  datatype OpenField = OpenField(instr: string, region: seq<nat>, nested: bool, separated: bool)

  datatype StripState = StripState(stack: seq<OpenField>, doomed: seq<OpenField>, strays: set<(nat, nat)>)

  /** Run `r` belongs to the code of every open field that has not reached its separator. */
  function EnterRun(stack: seq<OpenField>, r: nat): seq<OpenField> {
    seq(|stack|, i requires 0 <= i < |stack| =>
      if stack[i].separated then stack[i] else stack[i].(region := stack[i].region + [r]))
  }

  predicate Keeps(f: OpenField, keepSafe: bool) {
    keepSafe && Classify(f.instr, f.nested) == Safe
  }

  function StripAtom(st: StripState, r: nat, k: nat, a: Atom, keepSafe: bool): StripState {
    var n := |st.stack|;
    match a
    case Begin =>
      var stack := if n > 0 && !st.stack[n - 1].separated && Blank(st.stack[n - 1].instr)
                   then st.stack[n - 1 := st.stack[n - 1].(nested := true)] else st.stack;
      st.(stack := stack + [OpenField("", [r], false, false)])
    case Separate =>
      if n == 0 then st
      else st.(stack := st.stack[n - 1 := st.stack[n - 1].(separated := true, region := st.stack[n - 1].region + [r])])
    case End =>
      if n == 0 then st
      else
        var done := st.stack[n - 1].(region := st.stack[n - 1].region + [r]);
        st.(stack := st.stack[..n - 1], doomed := if Keeps(done, keepSafe) then st.doomed else st.doomed + [done])
    case Instr(head, _) =>
      if n > 0 && !st.stack[n - 1].separated
      then st.(stack := st.stack[n - 1 := st.stack[n - 1].(instr := st.stack[n - 1].instr + head)])
      else st.(strays := st.strays + {(r, k)})
    case Text(_) => st
  }

  function StripAtoms(st: StripState, r: nat, atoms: seq<Atom>, keepSafe: bool): StripState {
    if atoms == [] then st
    else
      var k := |atoms| - 1;
      StripAtom(StripAtoms(st, r, atoms[..k], keepSafe), r, k, atoms[k], keepSafe)
  }

  function StripItem(st: StripState, r: nat, item: Item, keepSafe: bool): StripState {
    match item
    case Run(atoms) => StripAtoms(st.(stack := EnterRun(st.stack, r)), r, atoms, keepSafe)
    case _ => st
  }

  /** The sanitizer's state after the whole of `doc`. */
  function Walk(doc: Doc, keepSafe: bool): StripState {
    if doc == [] then StripState([], [], {})
    else
      var r := |doc| - 1;
      StripItem(Walk(doc[..r], keepSafe), r, doc[r], keepSafe)
  }

  /** The fields removed: closed ones not on the safe list, and every unclosed one. */
  function Doomed(doc: Doc, keepSafe: bool): seq<OpenField> {
    Walk(doc, keepSafe).doomed + Walk(doc, keepSafe).stack
  }

  function Gone(doc: Doc, keepSafe: bool): set<nat> {
    set f, r | f in Doomed(doc, keepSafe) && r in f.region :: r
  }

  predicate KeepsSimple(instr: string, keepSafe: bool) {
    keepSafe && Classify(instr, false) == Safe
  }

  function WithoutStrays(atoms: seq<Atom>, r: nat, strays: set<(nat, nat)>): seq<Atom> {
    if atoms == [] then []
    else
      var k := |atoms| - 1;
      WithoutStrays(atoms[..k], r, strays) + if (r, k) in strays then [] else [atoms[k]]
  }

  function OutputItem(item: Item, r: nat, keepSafe: bool, gone: set<nat>, strays: set<(nat, nat)>): Doc {
    match item
    case Run(atoms) => if r in gone then [] else [Run(WithoutStrays(atoms, r, strays))]
    case SimpleStart(instr) => if KeepsSimple(instr, keepSafe) then [item] else []
    case SimpleEnd(instr) => if KeepsSimple(instr, keepSafe) then [item] else []
  }

  function Output(doc: Doc, keepSafe: bool, gone: set<nat>, strays: set<(nat, nat)>): Doc {
    if doc == [] then []
    else
      var r := |doc| - 1;
      Output(doc[..r], keepSafe, gone, strays) + OutputItem(doc[r], r, keepSafe, gone, strays)
  }

  function Strip(doc: Doc, keepSafe: bool): Doc {
    Output(doc, keepSafe, Gone(doc, keepSafe), Walk(doc, keepSafe).strays)
  }

  function UnsafeSimples(doc: Doc, keepSafe: bool): nat {
    if doc == [] then 0
    else
      var last := doc[|doc| - 1];
      UnsafeSimples(doc[..|doc| - 1], keepSafe)
      + if last.SimpleStart? && !KeepsSimple(last.instr, keepSafe) then 1 else 0
  }

  function RemovedCount(doc: Doc, keepSafe: bool): nat {
    |Doomed(doc, keepSafe)| + UnsafeSimples(doc, keepSafe)
  }

  method EnterRunInPlace(stack: seq<OpenField>, r: nat) returns (entered: seq<OpenField>)
    ensures entered == EnterRun(stack, r)
  {
    entered := stack;
    for j := 0 to |stack|
      invariant |entered| == |stack|
      invariant forall i :: 0 <= i < j ==> entered[i] == EnterRun(stack, r)[i]
      invariant forall i :: j <= i < |stack| ==> entered[i] == stack[i]
    {
      if !stack[j].separated {
        entered := entered[j := stack[j].(region := stack[j].region + [r])];
      }
    }
  }

  method StripRun(stack0: seq<OpenField>, doomed0: seq<OpenField>, strays0: set<(nat, nat)>,
                  r: nat, atoms: seq<Atom>, keepSafe: bool)
    returns (stack: seq<OpenField>, doomed: seq<OpenField>, strays: set<(nat, nat)>)
    ensures StripState(stack, doomed, strays)
            == StripItem(StripState(stack0, doomed0, strays0), r, Run(atoms), keepSafe)
  {
    hide Classify;
    hide Blank;
    doomed, strays := doomed0, strays0;
    stack := EnterRunInPlace(stack0, r);
    ghost var st := StripState(stack, doomed, strays);
    for k := 0 to |atoms|
      invariant StripState(stack, doomed, strays) == StripAtoms(st, r, atoms[..k], keepSafe)
    {
      assert atoms[..k + 1][..k] == atoms[..k];
      var n := |stack|;
      match atoms[k]
      case Begin =>
        if n > 0 && !stack[n - 1].separated && Blank(stack[n - 1].instr) {
          stack := stack[n - 1 := stack[n - 1].(nested := true)];
        }
        stack := stack + [OpenField("", [r], false, false)];
      case Separate =>
        if n > 0 {
          stack := stack[n - 1 := stack[n - 1].(separated := true, region := stack[n - 1].region + [r])];
        }
      case End =>
        if n > 0 {
          var done := stack[n - 1].(region := stack[n - 1].region + [r]);
          stack := stack[..n - 1];
          if !(keepSafe && Classify(done.instr, done.nested) == Safe) {
            doomed := doomed + [done];
          }
        }
      case Instr(head, _) =>
        if n > 0 && !stack[n - 1].separated {
          stack := stack[n - 1 := stack[n - 1].(instr := stack[n - 1].instr + head)];
        } else {
          strays := strays + {(r, k)};
        }
      case Text(_) =>
    }
    assert atoms[..|atoms|] == atoms;
  }

  method RegionsOf(doomed: seq<OpenField>) returns (gone: set<nat>)
    ensures gone == set f, r | f in doomed && r in f.region :: r
  {
    gone := {};
    for j := 0 to |doomed|
      invariant gone == set f, r | f in doomed[..j] && r in f.region :: r
    {
      gone := gone + set r | r in doomed[j].region;
      assert doomed[..j + 1] == doomed[..j] + [doomed[j]];
    }
    assert doomed[..|doomed|] == doomed;
  }

  method StripFields(doc: Doc, keepSafe: bool) returns (out: Doc, removed: nat)
    ensures out == Strip(doc, keepSafe)
    ensures removed == RemovedCount(doc, keepSafe)
  {
    var stack: seq<OpenField> := [];
    var doomed: seq<OpenField> := [];
    var strays: set<(nat, nat)> := {};
    for r := 0 to |doc|
      invariant StripState(stack, doomed, strays) == Walk(doc[..r], keepSafe)
    {
      assert doc[..r + 1][..r] == doc[..r];
      if doc[r].Run? {
        stack, doomed, strays := StripRun(stack, doomed, strays, r, doc[r].atoms, keepSafe);
      }
    }
    assert doc[..|doc|] == doc;
    doomed := doomed + stack;
    var gone := RegionsOf(doomed);
    assert gone == Gone(doc, keepSafe);
    out, removed := [], |doomed|;
    for r := 0 to |doc|
      invariant out == Output(doc[..r], keepSafe, gone, strays)
      invariant removed == |doomed| + UnsafeSimples(doc[..r], keepSafe)
    {
      assert doc[..r + 1][..r] == doc[..r];
      out := out + OutputItem(doc[r], r, keepSafe, gone, strays);
      if doc[r].SimpleStart? && !KeepsSimple(doc[r].instr, keepSafe) {
        removed := removed + 1;
      }
    }
  }
}
