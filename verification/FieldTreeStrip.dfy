/** What the sanitizer makes of a part that is a tree of fields: the tree without the fields it does not keep. */
module FieldTreeStrip {
  import opened Fields
  import opened FieldTrees

  // ----- the tree that stays -----

  /** Kept: on the safe list by what the sanitizer reads of its code, and not beginning with a field. */
  predicate StaysField(code: seq<Part>, keepSafe: bool) {
    keepSafe && Classify(Instruction(code, false), StartsNested("", code, false)) == Safe
  }

  /** What stays of `parts`: `inCode` when they are in the code of a field, without which a fragment leaves its run
      empty; `dropped` when they are in the code of a field that goes, of which only the kept simple fields stay, as shells. */
  function Clean(parts: seq<Part>, keepSafe: bool, inCode: bool, dropped: bool): seq<Part>
    decreases parts
  {
    if parts == [] then []
    else
      Clean(parts[..|parts| - 1], keepSafe, inCode, dropped) + CleanPart(parts[|parts| - 1], keepSafe, inCode, dropped)
  }

  function CleanPart(part: Part, keepSafe: bool, inCode: bool, dropped: bool): seq<Part>
    decreases part
  {
    match part
    case Hollow => if dropped then [] else [part]
    case Fragment(_, _) => if dropped then [] else if inCode then [part] else [Hollow]
    case Word(_) => if dropped then [] else [part]
    case Simple(instr, content) =>
      var inside := Clean(content, keepSafe, inCode, dropped);
      if keepSafe && Classify(instr, false) == Safe then [Simple(instr, inside)] else inside
    case Complex(code, separated, result) =>
      var shown := if separated then Clean(result, keepSafe, false, dropped) else [];
      if !dropped && StaysField(code, keepSafe)
      then [Complex(Clean(code, keepSafe, true, false), separated, shown)]
      else Clean(code, keepSafe, true, true) + shown
  }

  // ----- the sanitizer walking over a tree -----

  function WalkMore(st: StripState, r: nat, doc: Doc, keepSafe: bool): StripState {
    if doc == [] then st
    else
      var n := |doc| - 1;
      StripItem(WalkMore(st, r, doc[..n], keepSafe), r + n, doc[n], keepSafe)
  }

  lemma {:induction false} WalkFromStart(doc: Doc, keepSafe: bool)
    ensures Walk(doc, keepSafe) == WalkMore(StripState([], [], {}), 0, doc, keepSafe)
  {
    if doc != [] { WalkFromStart(doc[..|doc| - 1], keepSafe); }
  }

  lemma {:induction false} WalkInTwo(st: StripState, r: nat, a: Doc, b: Doc, keepSafe: bool)
    ensures WalkMore(st, r, a + b, keepSafe) == WalkMore(WalkMore(st, r, a, keepSafe), r + |a|, b, keepSafe)
  {
    if b == [] {
      assert a + b == a;
    } else {
      assert (a + b)[..|a + b| - 1] == a + b[..|b| - 1];
      WalkInTwo(st, r, a, b[..|b| - 1], keepSafe);
    }
  }

  lemma WalkOneRun(st: StripState, r: nat, a: Atom, keepSafe: bool)
    ensures WalkMore(st, r, [Run([a])], keepSafe) == StripAtom(st.(stack := EnterRun(st.stack, r)), r, 0, a, keepSafe)
  {
    var entered := st.(stack := EnterRun(st.stack, r));
    assert [Run([a])][..0] == [] && [a][..0] == [];
    assert StripAtoms(entered, r, [], keepSafe) == entered && WalkMore(st, r, [], keepSafe) == st;
    assert StripAtoms(entered, r, [a], keepSafe) == StripAtom(StripAtoms(entered, r, [], keepSafe), r, 0, a, keepSafe);
  }

  lemma WalkOneMark(st: StripState, r: nat, item: Item, keepSafe: bool)
    requires !item.Run?
    ensures WalkMore(st, r, [item], keepSafe) == st
  {
    assert [item][..0] == [];
    assert WalkMore(st, r, [], keepSafe) == st;
  }

  /** The places of the runs in `doc`, which stands at `r`. */
  function RunsAt(doc: Doc, r: nat): seq<nat> {
    if doc == [] then []
    else
      var n := |doc| - 1;
      RunsAt(doc[..n], r) + if doc[n].Run? then [r + n] else []
  }

  lemma {:induction false} RunsInTwo(a: Doc, b: Doc, r: nat)
    ensures RunsAt(a + b, r) == RunsAt(a, r) + RunsAt(b, r + |a|)
  {
    if b == [] {
      assert a + b == a;
    } else {
      assert (a + b)[..|a + b| - 1] == a + b[..|b| - 1];
      RunsInTwo(a, b[..|b| - 1], r);
    }
  }

  lemma {:induction false} RunsExactly(doc: Doc, r: nat, p: nat)
    ensures p in RunsAt(doc, r) <==> r <= p < r + |doc| && doc[p - r].Run?
  {
    if doc != [] {
      var n := |doc| - 1;
      RunsExactly(doc[..n], r, p);
    }
  }

  /** Every open code takes in the runs. */
  function Cover(stack: seq<OpenField>, runs: seq<nat>): seq<OpenField> {
    seq(|stack|, i requires 0 <= i < |stack| =>
      if stack[i].separated then stack[i] else stack[i].(region := stack[i].region + runs))
  }

  lemma CoverTwice(stack: seq<OpenField>, a: seq<nat>, b: seq<nat>)
    ensures Cover(Cover(stack, a), b) == Cover(stack, a + b)
  {
    forall i | 0 <= i < |stack|
      ensures Cover(Cover(stack, a), b)[i] == Cover(stack, a + b)[i]
    {
      assert (stack[i].region + a) + b == stack[i].region + (a + b);
    }
  }

  predicate InCode(stack: seq<OpenField>) { stack != [] && !stack[|stack| - 1].separated }

  function Top(stack: seq<OpenField>): string { if stack == [] then "" else stack[|stack| - 1].instr }

  /** The innermost open code takes up what is written in it, and the fact that it begins with a field. */
  function TakeIn(stack: seq<OpenField>, more: string, nests: bool): seq<OpenField> {
    if !InCode(stack) then stack
    else
      var top := stack[|stack| - 1];
      stack[|stack| - 1 := top.(instr := top.instr + more, nested := top.nested || nests)]
  }

  /** What the stack becomes over `runs` in which `more` is written. */
  function Pass(stack: seq<OpenField>, runs: seq<nat>, more: string, nests: bool): seq<OpenField> {
    TakeIn(Cover(stack, runs), more, nests)
  }

  lemma PassTwice(stack: seq<OpenField>, runs: seq<nat>, more: string, nests: bool, runs': seq<nat>, more': string, nests': bool)
    ensures Pass(Pass(stack, runs, more, nests), runs', more', nests') == Pass(stack, runs + runs', more + more', nests || nests')
  {
    var twice := Pass(Pass(stack, runs, more, nests), runs', more', nests');
    var once := Pass(stack, runs + runs', more + more', nests || nests');
    CoverTwice(stack, runs, runs');
    forall i | 0 <= i < |stack|
      ensures twice[i] == once[i]
    {
      assert (stack[i].region + runs) + runs' == stack[i].region + (runs + runs');
      assert (stack[i].instr + more) + more' == stack[i].instr + (more + more');
    }
  }

  // ----- what a tree leaves behind -----

  function Middle(code: seq<Part>, r: nat): nat { r + 1 + |Render(code)| }

  function Close(code: seq<Part>, separated: bool, result: seq<Part>, r: nat): nat {
    if separated then Middle(code, r) + 1 + |Render(result)| else Middle(code, r)
  }

  /** The field as the sanitizer has it at its end. */
  function Closed(code: seq<Part>, separated: bool, result: seq<Part>, r: nat): OpenField {
    OpenField(Instruction(code, false),
              [r] + RunsAt(Render(code), r + 1) + [Middle(code, r), Middle(code, r)]
              + (if separated then [Close(code, separated, result, r)] else []),
              StartsNested("", code, false), separated)
  }

  /** The fields that go, in the order in which they end. */
  function Going(parts: seq<Part>, r: nat, keepSafe: bool): seq<OpenField>
    decreases parts
  {
    if parts == [] then []
    else
      var front := parts[..|parts| - 1];
      Going(front, r, keepSafe) + GoingIn(parts[|parts| - 1], r + |Render(front)|, keepSafe)
  }

  function GoingIn(part: Part, r: nat, keepSafe: bool): seq<OpenField>
    decreases part
  {
    match part
    case Simple(_, content) => Going(content, r + 1, keepSafe)
    case Complex(code, separated, result) =>
      Going(code, r + 1, keepSafe) + (if separated then Going(result, Middle(code, r) + 1, keepSafe) else [])
      + (if StaysField(code, keepSafe) then [] else [Closed(code, separated, result, r)])
    case _ => []
  }

  /** The fragments outside any code. */
  function Loose(parts: seq<Part>, r: nat, inCode: bool): set<(nat, nat)>
    decreases parts
  {
    if parts == [] then {}
    else
      var front := parts[..|parts| - 1];
      Loose(front, r, inCode) + LooseIn(parts[|parts| - 1], r + |Render(front)|, inCode)
  }

  function LooseIn(part: Part, r: nat, inCode: bool): set<(nat, nat)>
    decreases part
  {
    match part
    case Fragment(_, _) => if inCode then {} else {(r, 0)}
    case Simple(_, content) => Loose(content, r + 1, inCode)
    case Complex(code, separated, result) =>
      Loose(code, r + 1, true) + if separated then Loose(result, Middle(code, r) + 1, false) else {}
    case _ => {}
  }

  function PastParts(st: StripState, r: nat, parts: seq<Part>, keepSafe: bool): StripState {
    StripState(Pass(st.stack, RunsAt(Render(parts), r), Instruction(parts, false), StartsNested(Top(st.stack), parts, false)),
               st.doomed + Going(parts, r, keepSafe), st.strays + Loose(parts, r, InCode(st.stack)))
  }

  function PastPart(st: StripState, r: nat, part: Part, keepSafe: bool): StripState {
    StripState(Pass(st.stack, RunsAt(Rendered(part), r), Written(part, false), NestsAfter(Top(st.stack), part, false)),
               st.doomed + GoingIn(part, r, keepSafe), st.strays + LooseIn(part, r, InCode(st.stack)))
  }

  lemma PassNothing(stack: seq<OpenField>)
    ensures Pass(stack, [], "", false) == stack
  {
    forall i | 0 <= i < |stack|
      ensures Pass(stack, [], "", false)[i] == stack[i]
    {
      assert stack[i].region + [] == stack[i].region && stack[i].instr + "" == stack[i].instr;
    }
  }

  lemma EnterIsCover(stack: seq<OpenField>, r: nat)
    ensures EnterRun(stack, r) == Cover(stack, [r])
  {
  }

  /** Outside a code it does not matter what nests. */
  lemma PassIgnores(stack: seq<OpenField>, runs: seq<nat>, more: string, nests: bool, nests': bool)
    requires InCode(stack) ==> nests == nests'
    ensures Pass(stack, runs, more, nests) == Pass(stack, runs, more, nests')
  {
  }

  lemma PassKeepsTop(stack: seq<OpenField>, runs: seq<nat>, more: string, nests: bool)
    ensures InCode(Pass(stack, runs, more, nests)) == InCode(stack)
    ensures InCode(stack) ==> Top(Pass(stack, runs, more, nests)) == Top(stack) + more
  {
  }

  lemma LastStack(stack: seq<OpenField>, r: nat, parts: seq<Part>)
    requires parts != []
    ensures var front, last := parts[..|parts| - 1], parts[|parts| - 1];
            var mid := Pass(stack, RunsAt(Render(front), r), Instruction(front, false), StartsNested(Top(stack), front, false));
            Pass(mid, RunsAt(Rendered(last), r + |Render(front)|), Written(last, false), NestsAfter(Top(mid), last, false))
            == Pass(stack, RunsAt(Render(parts), r), Instruction(parts, false), StartsNested(Top(stack), parts, false))
  {
    hide Instruction;
    hide StartsNested;
    hide Render;
    hide Rendered;
    hide NestsAfter;
    hide Written;
    hide RunsAt;
    hide Pass;
    hide InCode;
    hide Top;
    var front, last := parts[..|parts| - 1], parts[|parts| - 1];
    var runs, runs' := RunsAt(Render(front), r), RunsAt(Rendered(last), r + |Render(front)|);
    var more, nests := Instruction(front, false), StartsNested(Top(stack), front, false);
    var mid := Pass(stack, runs, more, nests);
    var whole := StartsNested(Top(stack), parts, false);
    ReadLast(parts, Top(stack), false);
    RunsInTwo(Render(front), Rendered(last), r);
    PassKeepsTop(stack, runs, more, nests);
    PassTwice(stack, runs, more, nests, runs', Written(last, false), NestsAfter(Top(mid), last, false));
    PassIgnores(stack, runs + runs', more + Written(last, false), nests || NestsAfter(Top(mid), last, false), whole);
  }

  lemma GoingLast(parts: seq<Part>, r: nat, keepSafe: bool, inCode: bool)
    requires parts != []
    ensures var front, last := parts[..|parts| - 1], parts[|parts| - 1];
            && Going(parts, r, keepSafe) == Going(front, r, keepSafe) + GoingIn(last, r + |Render(front)|, keepSafe)
            && Loose(parts, r, inCode) == Loose(front, r, inCode) + LooseIn(last, r + |Render(front)|, inCode)
  {
    hide GoingIn;
    hide LooseIn;
    hide Render;
  }

  /** Parts one after the other. */
  lemma PastLast(st: StripState, r: nat, parts: seq<Part>, keepSafe: bool)
    requires parts != []
    ensures var front := parts[..|parts| - 1];
            PastPart(PastParts(st, r, front, keepSafe), r + |Render(front)|, parts[|parts| - 1], keepSafe)
            == PastParts(st, r, parts, keepSafe)
  {
    hide Pass;
    hide Render;
    hide Rendered;
    hide Going;
    hide GoingIn;
    hide Loose;
    hide LooseIn;
    hide StartsNested;
    hide NestsAfter;
    hide Instruction;
    hide Written;
    hide RunsAt;
    hide InCode;
    hide Top;
    var front, last := parts[..|parts| - 1], parts[|parts| - 1];
    var r' := r + |Render(front)|;
    LastStack(st.stack, r, parts);
    PassKeepsTop(st.stack, RunsAt(Render(front), r), Instruction(front, false), StartsNested(Top(st.stack), front, false));
    GoingLast(parts, r, keepSafe, InCode(st.stack));
    assert (st.doomed + Going(front, r, keepSafe)) + GoingIn(last, r', keepSafe) == st.doomed + Going(parts, r, keepSafe);
    assert (st.strays + Loose(front, r, InCode(st.stack))) + LooseIn(last, r', InCode(st.stack))
        == st.strays + Loose(parts, r, InCode(st.stack));
  }

  lemma NoParts(st: StripState, r: nat, keepSafe: bool)
    ensures WalkMore(st, r, Render([]), keepSafe) == st == PastParts(st, r, [], keepSafe)
  {
    assert Render([]) == [] && RunsAt([], r) == [] && Instruction([], false) == "";
    assert Going([], r, keepSafe) == [] && Loose([], r, InCode(st.stack)) == {};
    PassNothing(st.stack);
    hide Pass;
    assert st.doomed + [] == st.doomed && st.strays + {} == st.strays;
  }

  lemma {:induction false} WalkParts(st: StripState, r: nat, parts: seq<Part>, keepSafe: bool)
    ensures WalkMore(st, r, Render(parts), keepSafe) == PastParts(st, r, parts, keepSafe)
    decreases parts, 0
  {
    hide WalkMore;
    hide PastParts;
    hide PastPart;
    hide Render;
    hide Rendered;
    if parts == [] {
      NoParts(st, r, keepSafe);
    } else {
      var front, last := parts[..|parts| - 1], parts[|parts| - 1];
      WalkParts(st, r, front, keepSafe);
      WalkPart(PastParts(st, r, front, keepSafe), r + |Render(front)|, last, keepSafe);
      WalkInTwo(st, r, Render(front), Rendered(last), keepSafe);
      PastLast(st, r, parts, keepSafe);
      ReadLast(parts, "", false);
    }
  }

  lemma {:induction false} WalkPart(st: StripState, r: nat, part: Part, keepSafe: bool)
    ensures WalkMore(st, r, Rendered(part), keepSafe) == PastPart(st, r, part, keepSafe)
    decreases part, 2
  {
    match part
    case Hollow => WalkHollow(st, r, keepSafe);
    case Fragment(head, rest) => WalkFragment(st, r, head, rest, keepSafe);
    case Word(text) => WalkWord(st, r, text, keepSafe);
    case Simple(instr, content) => WalkSimple(st, r, instr, content, keepSafe);
    case Complex(code, separated, result) => WalkComplex(st, r, code, separated, result, keepSafe);
  }

  lemma OneRunAt(item: Item, r: nat)
    ensures RunsAt([item], r) == if item.Run? then [r] else []
  {
    assert [item][..0] == [] && RunsAt([], r) == [];
  }

  lemma WalkHollow(st: StripState, r: nat, keepSafe: bool)
    ensures WalkMore(st, r, Rendered(Hollow), keepSafe) == PastPart(st, r, Hollow, keepSafe)
  {
    assert [Run([])][..0] == [];
    assert WalkMore(st, r, [], keepSafe) == st;
    assert WalkMore(st, r, [Run([])], keepSafe) == st.(stack := EnterRun(st.stack, r));
    EnterIsCover(st.stack, r);
    OneRunAt(Run([]), r);
    hide WalkMore;
    hide RunsAt;
    TakeInNothing(Cover(st.stack, [r]));
    hide TakeIn;
    hide Cover;
    assert st.doomed + [] == st.doomed && st.strays + {} == st.strays;
  }

  lemma WalkFragment(st: StripState, r: nat, head: string, rest: string, keepSafe: bool)
    ensures WalkMore(st, r, Rendered(Fragment(head, rest)), keepSafe) == PastPart(st, r, Fragment(head, rest), keepSafe)
  {
    WalkOneRun(st, r, Instr(head, rest), keepSafe);
    EnterIsCover(st.stack, r);
    OneRunAt(Run([Instr(head, rest)]), r);
    hide WalkMore;
    hide RunsAt;
    assert st.doomed + [] == st.doomed && st.strays + {} == st.strays;
  }

  lemma WalkWord(st: StripState, r: nat, text: string, keepSafe: bool)
    ensures WalkMore(st, r, Rendered(Word(text)), keepSafe) == PastPart(st, r, Word(text), keepSafe)
  {
    WalkOneRun(st, r, Text(text), keepSafe);
    EnterIsCover(st.stack, r);
    OneRunAt(Run([Text(text)]), r);
    hide WalkMore;
    hide RunsAt;
    TakeInNothing(Cover(st.stack, [r]));
    hide TakeIn;
    hide Cover;
    assert st.doomed + [] == st.doomed && st.strays + {} == st.strays;
  }

  lemma TakeInNothing(stack: seq<OpenField>)
    ensures TakeIn(stack, "", false) == stack
  {
    if InCode(stack) {
      assert stack[|stack| - 1].instr + "" == stack[|stack| - 1].instr;
    }
  }

  lemma {:induction false} WalkSimple(st: StripState, r: nat, instr: string, content: seq<Part>, keepSafe: bool)
    ensures WalkMore(st, r, Rendered(Simple(instr, content)), keepSafe) == PastPart(st, r, Simple(instr, content), keepSafe)
    decreases Simple(instr, content), 0
  {
    hide WalkMore;
    hide RunsAt;
    hide Pass;
    hide Render;
    hide Going;
    hide Loose;
    hide Instruction;
    hide StartsNested;
    var start, end, inside := [SimpleStart(instr)], [SimpleEnd(instr)], Render(content);
    WalkOneMark(st, r, start[0], keepSafe);
    WalkParts(st, r + 1, content, keepSafe);
    WalkOneMark(PastParts(st, r + 1, content, keepSafe), r + 1 + |inside|, end[0], keepSafe);
    WalkInTwo(st, r, start, inside, keepSafe);
    WalkInTwo(st, r, start + inside, end, keepSafe);
    OneRunAt(start[0], r);
    OneRunAt(end[0], r + 1 + |inside|);
    RunsInTwo(start, inside, r);
    RunsInTwo(start + inside, end, r);
    assert [] + RunsAt(inside, r + 1) + [] == RunsAt(inside, r + 1);
  }

  // ----- a complex field from its begin to its end -----

  lemma PassOverTop(below: seq<OpenField>, f: OpenField, runs: seq<nat>, more: string, nests: bool)
    ensures Pass(below + [f], runs, more, nests)
            == Cover(below, runs)
               + [if f.separated then f
                  else f.(region := f.region + runs, instr := f.instr + more, nested := f.nested || nests)]
  {
    var stack := below + [f];
    assert stack[|stack| - 1] == f;
    assert Cover(stack, runs)[..|below|] == Cover(below, runs);
  }

  lemma CoverMore(stack: seq<OpenField>, runs: seq<nat>, nests: bool, runs': seq<nat>)
    ensures Cover(Pass(stack, runs, "", nests), runs') == Pass(stack, runs + runs', "", nests)
  {
    PassTwice(stack, runs, "", nests, runs', "", false);
    TakeInNothing(Cover(Pass(stack, runs, "", nests), runs'));
    assert "" + "" == "";
  }

  lemma BeginPassed(st: StripState, r: nat, keepSafe: bool)
    ensures WalkMore(st, r, [Run([Begin])], keepSafe)
            == StripState(Pass(st.stack, [r], "", Blank(Top(st.stack))) + [OpenField("", [r], false, false)], st.doomed, st.strays)
  {
    WalkOneRun(st, r, Begin, keepSafe);
    EnterIsCover(st.stack, r);
    hide WalkMore;
    hide Blank;
    var covered := Cover(st.stack, [r]);
    if InCode(covered) {
      assert covered[|covered| - 1].instr + "" == covered[|covered| - 1].instr;
    }
  }

  function CodeRead(code: seq<Part>, r: nat): OpenField {
    OpenField(Instruction(code, false), [r] + RunsAt(Render(code), r + 1), StartsNested("", code, false), false)
  }

  lemma CodePassed(below: seq<OpenField>, r: nat, code: seq<Part>, doomed: seq<OpenField>, strays: set<(nat, nat)>, keepSafe: bool)
    ensures PastParts(StripState(below + [OpenField("", [r], false, false)], doomed, strays), r + 1, code, keepSafe)
            == StripState(Cover(below, RunsAt(Render(code), r + 1)) + [CodeRead(code, r)],
                          doomed + Going(code, r + 1, keepSafe), strays + Loose(code, r + 1, true))
  {
    var own := OpenField("", [r], false, false);
    var stack := below + [own];
    assert stack[|stack| - 1] == own;
    assert InCode(stack) && Top(stack) == "";
    hide Instruction;
    hide RunsAt;
    hide Render;
    hide StartsNested;
    hide Going;
    hide Loose;
    PassOverTop(below, own, RunsAt(Render(code), r + 1), Instruction(code, false), StartsNested("", code, false));
    hide Pass;
    hide Cover;
    assert "" + Instruction(code, false) == Instruction(code, false);
  }

  lemma SeparatorPassed(below: seq<OpenField>, own: OpenField, m: nat, doomed: seq<OpenField>, strays: set<(nat, nat)>, keepSafe: bool)
    requires !own.separated
    ensures WalkMore(StripState(below + [own], doomed, strays), m, [Run([Separate])], keepSafe)
            == StripState(Cover(below, [m]) + [own.(region := own.region + [m, m], separated := true)], doomed, strays)
  {
    var st := StripState(below + [own], doomed, strays);
    WalkOneRun(st, m, Separate, keepSafe);
    EnterIsCover(st.stack, m);
    hide WalkMore;
    assert Cover(st.stack, [m]) == Cover(below, [m]) + [own.(region := own.region + [m])];
    assert (own.region + [m]) + [m] == own.region + [m, m];
  }

  lemma ResultPassed(below: seq<OpenField>, own: OpenField, r: nat, result: seq<Part>,
                     doomed: seq<OpenField>, strays: set<(nat, nat)>, keepSafe: bool)
    requires own.separated
    ensures PastParts(StripState(below + [own], doomed, strays), r, result, keepSafe)
            == StripState(Cover(below, RunsAt(Render(result), r)) + [own],
                          doomed + Going(result, r, keepSafe), strays + Loose(result, r, false))
  {
    var stack := below + [own];
    assert stack[|stack| - 1] == own;
    assert !InCode(stack);
    hide Instruction;
    hide RunsAt;
    hide Render;
    hide StartsNested;
    hide Going;
    hide Loose;
    PassOverTop(below, own, RunsAt(Render(result), r), Instruction(result, false), StartsNested(Top(stack), result, false));
    hide Pass;
    hide Cover;
  }

  lemma EndPassed(below: seq<OpenField>, own: OpenField, e: nat, doomed: seq<OpenField>, strays: set<(nat, nat)>, keepSafe: bool)
    ensures var done := own.(region := own.region + if own.separated then [e] else [e, e]);
            WalkMore(StripState(below + [own], doomed, strays), e, [Run([End])], keepSafe)
            == StripState(Cover(below, [e]), if Keeps(done, keepSafe) then doomed else doomed + [done], strays)
  {
    var st := StripState(below + [own], doomed, strays);
    WalkOneRun(st, e, End, keepSafe);
    EnterIsCover(st.stack, e);
    hide WalkMore;
    hide Classify;
    var top := if own.separated then own else own.(region := own.region + [e]);
    assert Cover(st.stack, [e]) == Cover(below, [e]) + [top];
    assert (Cover(below, [e]) + [top])[..|below|] == Cover(below, [e]);
    assert (own.region + [e]) + [e] == own.region + [e, e];
  }

  /** The sanitizer at the end of the code, before its separator or its end. */
  function Read(st: StripState, code: seq<Part>, r: nat, keepSafe: bool): StripState {
    StripState(Pass(st.stack, [r] + RunsAt(Render(code), r + 1), "", Blank(Top(st.stack))) + [CodeRead(code, r)],
               st.doomed + Going(code, r + 1, keepSafe), st.strays + Loose(code, r + 1, true))
  }

  lemma {:induction false} WalkCode(st: StripState, r: nat, code: seq<Part>, keepSafe: bool)
    ensures WalkMore(st, r, [Run([Begin])] + Render(code), keepSafe) == Read(st, code, r, keepSafe)
    decreases code, 1
  {
    BeginPassed(st, r, keepSafe);
    WalkInTwo(st, r, [Run([Begin])], Render(code), keepSafe);
    var begun := WalkMore(st, r, [Run([Begin])], keepSafe);
    WalkParts(begun, r + 1, code, keepSafe);
    var nests := Blank(Top(st.stack));
    var runs := RunsAt(Render(code), r + 1);
    CodePassed(Pass(st.stack, [r], "", nests), r, code, st.doomed, st.strays, keepSafe);
    CoverMore(st.stack, [r], nests, runs);
    hide WalkMore;
    hide Pass;
    hide Cover;
    hide PastParts;
    hide CodeRead;
  }

  /** The sanitizer before the end of a field with a result. */
  function Shown(st: StripState, code: seq<Part>, result: seq<Part>, r: nat, keepSafe: bool): StripState {
    var m := Middle(code, r);
    StripState(Pass(st.stack, [r] + RunsAt(Render(code), r + 1) + [m] + RunsAt(Render(result), m + 1), "", Blank(Top(st.stack)))
               + [CodeRead(code, r).(region := CodeRead(code, r).region + [m, m], separated := true)],
               st.doomed + Going(code, r + 1, keepSafe) + Going(result, m + 1, keepSafe),
               st.strays + Loose(code, r + 1, true) + Loose(result, m + 1, false))
  }

  lemma CodeIsOpen(code: seq<Part>, r: nat)
    ensures !CodeRead(code, r).separated
  {
  }

  lemma {:induction false} WalkResult(st: StripState, r: nat, code: seq<Part>, result: seq<Part>, keepSafe: bool)
    ensures WalkMore(Read(st, code, r, keepSafe), Middle(code, r), [Run([Separate])] + Render(result), keepSafe)
            == Shown(st, code, result, r, keepSafe)
    decreases result, 1
  {
    hide WalkMore;
    hide Pass;
    hide Cover;
    hide PastParts;
    hide CodeRead;
    hide Render;
    hide RunsAt;
    hide Going;
    hide Loose;
    assert !CodeRead(code, r).separated by { CodeIsOpen(code, r); }
    var m := Middle(code, r);
    var read := Read(st, code, r, keepSafe);
    var own := CodeRead(code, r);
    var nests := Blank(Top(st.stack));
    var runs := [r] + RunsAt(Render(code), r + 1);
    var below := Pass(st.stack, runs, "", nests);
    SeparatorPassed(below, own, m, read.doomed, read.strays, keepSafe);
    WalkInTwo(read, m, [Run([Separate])], Render(result), keepSafe);
    var divided := WalkMore(read, m, [Run([Separate])], keepSafe);
    WalkParts(divided, m + 1, result, keepSafe);
    CoverMore(st.stack, runs, nests, [m]);
    CoverMore(st.stack, runs + [m], nests, RunsAt(Render(result), m + 1));
    ResultPassed(Cover(below, [m]), own.(region := own.region + [m, m], separated := true), m + 1, result,
                 read.doomed, read.strays, keepSafe);
  }

  /** The end of the field, which makes it what it is when it ends, and takes it among those that go or not. */
  lemma WalkEnd(below: seq<OpenField>, code: seq<Part>, separated: bool, result: seq<Part>, r: nat,
                doomed: seq<OpenField>, strays: set<(nat, nat)>, keepSafe: bool)
    ensures var m := Middle(code, r);
            var own := CodeRead(code, r);
            var open := if separated then own.(region := own.region + [m, m], separated := true) else own;
            WalkMore(StripState(below + [open], doomed, strays), Close(code, separated, result, r), [Run([End])], keepSafe)
            == StripState(Cover(below, [Close(code, separated, result, r)]),
                          doomed + if StaysField(code, keepSafe) then [] else [Closed(code, separated, result, r)], strays)
  {
    var m, e := Middle(code, r), Close(code, separated, result, r);
    var own := CodeRead(code, r);
    var open := if separated then own.(region := own.region + [m, m], separated := true) else own;
    hide Cover;
    hide Classify;
    hide WalkMore;
    EndPassed(below, open, e, doomed, strays, keepSafe);
    var done := open.(region := open.region + if separated then [e] else [e, e]);
    assert done == Closed(code, separated, result, r) by {
      assert own.region + [m, m] + [] == own.region + [m, m];
    }
    assert doomed + [] == doomed;
  }

  function Tail(separated: bool, result: seq<Part>): Doc { if separated then [Run([Separate])] + Render(result) else [] }

  lemma RenderedComplex(code: seq<Part>, separated: bool, result: seq<Part>, r: nat)
    ensures Rendered(Complex(code, separated, result))
            == ([Run([Begin])] + Render(code)) + Tail(separated, result) + [Run([End])]
    ensures Middle(code, r) == r + |[Run([Begin])] + Render(code)|
    ensures Close(code, separated, result, r) == Middle(code, r) + |Tail(separated, result)|
  {
    hide Render;
  }

  lemma RunsOfTail(separated: bool, result: seq<Part>, m: nat)
    ensures RunsAt(Tail(separated, result), m) == if separated then [m] + RunsAt(Render(result), m + 1) else []
  {
    assert RunsAt([], m) == [];
    hide RunsAt;
    hide Render;
    OneRunAt(Run([Separate]), m);
    RunsInTwo([Run([Separate])], Render(result), m);
  }

  lemma RunsOfComplex(code: seq<Part>, separated: bool, result: seq<Part>, r: nat)
    ensures var runs := [r] + RunsAt(Render(code), r + 1);
            var m := Middle(code, r);
            RunsAt(Rendered(Complex(code, separated, result)), r)
            == (if separated then runs + [m] + RunsAt(Render(result), m + 1) else runs) + [Close(code, separated, result, r)]
  {
    hide RunsAt;
    hide Render;
    hide Rendered;
    hide Tail;
    hide Middle;
    hide Close;
    var m := Middle(code, r);
    var runs := [r] + RunsAt(Render(code), r + 1);
    var begin, end := [Run([Begin])], [Run([End])];
    RenderedComplex(code, separated, result, r);
    RunsOfTail(separated, result, m);
    OneRunAt(begin[0], r);
    OneRunAt(end[0], Close(code, separated, result, r));
    RunsInTwo(begin, Render(code), r);
    RunsInTwo(begin + Render(code), Tail(separated, result), r);
    RunsInTwo(begin + Render(code) + Tail(separated, result), end, r);
    assert runs + [] == runs;
    assert runs + ([m] + RunsAt(Render(result), m + 1)) == runs + [m] + RunsAt(Render(result), m + 1);
  }

  lemma {:induction false} WalkComplex(st: StripState, r: nat, code: seq<Part>, separated: bool, result: seq<Part>, keepSafe: bool)
    ensures WalkMore(st, r, Rendered(Complex(code, separated, result)), keepSafe)
            == PastPart(st, r, Complex(code, separated, result), keepSafe)
    decreases Complex(code, separated, result), 1
  {
    hide WalkMore;
    hide Rendered;
    hide Render;
    hide Read;
    hide Shown;
    hide Middle;
    hide Close;
    hide PastPart;
    var m := Middle(code, r);
    var front := [Run([Begin])] + Render(code);
    var tail := Tail(separated, result);
    var read := Read(st, code, r, keepSafe);
    var shown := if separated then Shown(st, code, result, r, keepSafe) else read;
    RenderedComplex(code, separated, result, r);
    WalkCode(st, r, code, keepSafe);
    WalkInTwo(st, r, front, tail, keepSafe);
    assert WalkMore(read, m, tail, keepSafe) == shown by {
      if separated {
        WalkResult(st, r, code, result, keepSafe);
      } else {
        WalkNothing(read, m, keepSafe);
      }
    }
    WalkInTwo(st, r, front + tail, [Run([End])], keepSafe);
    EndOfComplex(st, r, code, separated, result, keepSafe);
  }

  lemma WalkNothing(st: StripState, r: nat, keepSafe: bool)
    ensures WalkMore(st, r, [], keepSafe) == st
  {
  }

  lemma EndOfComplex(st: StripState, r: nat, code: seq<Part>, separated: bool, result: seq<Part>, keepSafe: bool)
    ensures var shown := if separated then Shown(st, code, result, r, keepSafe) else Read(st, code, r, keepSafe);
            WalkMore(shown, Close(code, separated, result, r), [Run([End])], keepSafe)
            == PastPart(st, r, Complex(code, separated, result), keepSafe)
  {
    hide WalkMore;
    hide Pass;
    hide Cover;
    hide RunsAt;
    hide Render;
    hide Rendered;
    hide Going;
    hide Loose;
    hide CodeRead;
    hide Closed;
    hide StaysField;
    hide Blank;
    hide Instruction;
    hide StartsNested;
    var part := Complex(code, separated, result);
    var m, e := Middle(code, r), Close(code, separated, result, r);
    var nests := Blank(Top(st.stack));
    var runs := [r] + RunsAt(Render(code), r + 1);
    var all := if separated then runs + [m] + RunsAt(Render(result), m + 1) else runs;
    var below := Pass(st.stack, all, "", nests);
    var shown := if separated then Shown(st, code, result, r, keepSafe) else Read(st, code, r, keepSafe);
    WalkEnd(below, code, separated, result, r, shown.doomed, shown.strays, keepSafe);
    CoverMore(st.stack, all, nests, [e]);
    RunsOfComplex(code, separated, result, r);
    hide Close;
    hide Middle;
    ComplexWrites(code, separated, result, Top(st.stack));
    LeftByComplex(st.doomed, st.strays, code, separated, result, r, InCode(st.stack), keepSafe);
    hide GoingIn;
    hide LooseIn;
    hide Written;
    hide NestsAfter;
  }

  lemma ComplexWrites(code: seq<Part>, separated: bool, result: seq<Part>, before: string)
    ensures Written(Complex(code, separated, result), false) == ""
    ensures NestsAfter(before, Complex(code, separated, result), false) == Blank(before)
  {
  }

  lemma LeftByComplex(doomed: seq<OpenField>, strays: set<(nat, nat)>,
                      code: seq<Part>, separated: bool, result: seq<Part>, r: nat, inCode: bool, keepSafe: bool)
    ensures var m := Middle(code, r);
            var gone := if StaysField(code, keepSafe) then [] else [Closed(code, separated, result, r)];
            var d, s := doomed + Going(code, r + 1, keepSafe), strays + Loose(code, r + 1, true);
            && (if separated then d + Going(result, m + 1, keepSafe) else d) + gone
               == doomed + GoingIn(Complex(code, separated, result), r, keepSafe)
            && (if separated then s + Loose(result, m + 1, false) else s)
               == strays + LooseIn(Complex(code, separated, result), r, inCode)
  {
    hide Going;
    hide Loose;
    hide Middle;
    hide StaysField;
    hide Closed;
    var d, s := doomed + Going(code, r + 1, keepSafe), strays + Loose(code, r + 1, true);
    var shown := if separated then Going(result, Middle(code, r) + 1, keepSafe) else [];
    var gone := if StaysField(code, keepSafe) then [] else [Closed(code, separated, result, r)];
    assert d + [] == d;
    assert (d + shown) + gone == doomed + (Going(code, r + 1, keepSafe) + shown + gone);
  }

  // ----- what is written out of a tree -----

  function OutputMore(doc: Doc, r: nat, keepSafe: bool, gone: set<nat>, strays: set<(nat, nat)>): Doc {
    if doc == [] then []
    else
      var n := |doc| - 1;
      OutputMore(doc[..n], r, keepSafe, gone, strays) + OutputItem(doc[n], r + n, keepSafe, gone, strays)
  }

  lemma {:induction false} OutputFromStart(doc: Doc, keepSafe: bool, gone: set<nat>, strays: set<(nat, nat)>)
    ensures Output(doc, keepSafe, gone, strays) == OutputMore(doc, 0, keepSafe, gone, strays)
  {
    if doc != [] { OutputFromStart(doc[..|doc| - 1], keepSafe, gone, strays); }
  }

  lemma {:induction false} OutputInTwo(a: Doc, b: Doc, r: nat, keepSafe: bool, gone: set<nat>, strays: set<(nat, nat)>)
    ensures OutputMore(a + b, r, keepSafe, gone, strays)
            == OutputMore(a, r, keepSafe, gone, strays) + OutputMore(b, r + |a|, keepSafe, gone, strays)
  {
    if b == [] {
      assert a + b == a;
    } else {
      assert (a + b)[..|a + b| - 1] == a + b[..|b| - 1];
      OutputInTwo(a, b[..|b| - 1], r, keepSafe, gone, strays);
    }
  }

  lemma OutputOne(item: Item, r: nat, keepSafe: bool, gone: set<nat>, strays: set<(nat, nat)>)
    ensures OutputMore([item], r, keepSafe, gone, strays) == OutputItem(item, r, keepSafe, gone, strays)
  {
    assert [item][..0] == [] && OutputMore([], r, keepSafe, gone, strays) == [];
  }

  lemma OutputRun(a: Atom, r: nat, keepSafe: bool, gone: set<nat>, strays: set<(nat, nat)>)
    ensures OutputMore([Run([a])], r, keepSafe, gone, strays)
            == if r in gone then [] else if (r, 0) in strays then [Run([])] else [Run([a])]
  {
    OutputOne(Run([a]), r, keepSafe, gone, strays);
    assert [a][..0] == [] && WithoutStrays([], r, strays) == [];
    assert WithoutStrays([a], r, strays) == WithoutStrays([], r, strays) + if (r, 0) in strays then [] else [a];
    assert [] + [a] == [a];
  }

  /** Place `p` is in the code of one of the fields. */
  ghost predicate Among(fields: seq<OpenField>, p: nat) {
    exists i :: 0 <= i < |fields| && p in fields[i].region
  }

  lemma AmongTwo(a: seq<OpenField>, b: seq<OpenField>, p: nat)
    ensures Among(a + b, p) <==> Among(a, p) || Among(b, p)
  {
    if Among(a, p) {
      var i :| 0 <= i < |a| && p in a[i].region;
      assert (a + b)[i] == a[i];
    }
    if Among(b, p) {
      var i :| 0 <= i < |b| && p in b[i].region;
      assert (a + b)[|a| + i] == b[i];
    }
  }

  lemma {:induction false} GoingWithin(parts: seq<Part>, r: nat, keepSafe: bool, p: nat)
    requires Among(Going(parts, r, keepSafe), p)
    ensures r <= p < r + |Render(parts)|
    decreases parts, 1
  {
    if parts != [] {
      var front, last := parts[..|parts| - 1], parts[|parts| - 1];
      GoingLast(parts, r, keepSafe, true);
      ReadLast(parts, "", false);
      AmongTwo(Going(front, r, keepSafe), GoingIn(last, r + |Render(front)|, keepSafe), p);
      hide Going;
      hide GoingIn;
      hide Among;
      hide Render;
      hide Rendered;
      if Among(Going(front, r, keepSafe), p) {
        GoingWithin(front, r, keepSafe, p);
      } else {
        GoingInWithin(last, r + |Render(front)|, keepSafe, p);
      }
    }
  }

  lemma ClosedRegion(code: seq<Part>, separated: bool, result: seq<Part>, r: nat, p: nat)
    ensures p in Closed(code, separated, result, r).region <==>
            p == r || p in RunsAt(Render(code), r + 1) || p == Middle(code, r)
            || (separated && p == Close(code, separated, result, r))
  {
    hide RunsAt;
    hide Render;
  }

  function InComplex(code: seq<Part>, separated: bool, result: seq<Part>, r: nat, keepSafe: bool): seq<OpenField> {
    Going(code, r + 1, keepSafe) + if separated then Going(result, Middle(code, r) + 1, keepSafe) else []
  }

  lemma AmongComplex(code: seq<Part>, separated: bool, result: seq<Part>, r: nat, keepSafe: bool, p: nat)
    ensures Among(GoingIn(Complex(code, separated, result), r, keepSafe), p) <==>
            Among(Going(code, r + 1, keepSafe), p)
            || (separated && Among(Going(result, Middle(code, r) + 1, keepSafe), p))
            || (!StaysField(code, keepSafe) && p in Closed(code, separated, result, r).region)
  {
    hide Going;
    hide Middle;
    hide StaysField;
    hide Closed;
    var own := if StaysField(code, keepSafe) then [] else [Closed(code, separated, result, r)];
    AmongTwo(Going(code, r + 1, keepSafe), if separated then Going(result, Middle(code, r) + 1, keepSafe) else [], p);
    AmongTwo(InComplex(code, separated, result, r, keepSafe), own, p);
    AmongOne(Closed(code, separated, result, r), p);
  }

  lemma AmongOne(f: OpenField, p: nat)
    ensures Among([f], p) <==> p in f.region
    ensures !Among([], p)
  {
    if p in f.region { assert p in [f][0].region; }
  }

  lemma {:induction false} GoingInWithin(part: Part, r: nat, keepSafe: bool, p: nat)
    requires Among(GoingIn(part, r, keepSafe), p)
    ensures r <= p < r + |Rendered(part)|
    decreases part, 1
  {
    match part
    case Simple(_, content) => GoingWithin(content, r + 1, keepSafe, p);
    case Complex(code, separated, result) => ComplexWithin(code, separated, result, r, keepSafe, p);
    case _ =>
  }

  lemma {:induction false} ComplexWithin(code: seq<Part>, separated: bool, result: seq<Part>, r: nat, keepSafe: bool, p: nat)
    requires Among(GoingIn(Complex(code, separated, result), r, keepSafe), p)
    ensures r <= p < r + |Rendered(Complex(code, separated, result))|
    decreases Complex(code, separated, result), 0
  {
    hide Going;
    hide GoingIn;
    hide Among;
    hide Render;
    hide Rendered;
    hide RunsAt;
    hide Closed;
    AmongComplex(code, separated, result, r, keepSafe, p);
    RenderedComplex(code, separated, result, r);
    ClosedRegion(code, separated, result, r, p);
    RunsExactly(Render(code), r + 1, p);
    if Among(Going(code, r + 1, keepSafe), p) {
      GoingWithin(code, r + 1, keepSafe, p);
    } else if separated && Among(Going(result, Middle(code, r) + 1, keepSafe), p) {
      GoingWithin(result, Middle(code, r) + 1, keepSafe, p);
    }
  }

  lemma {:induction false} LooseWithin(parts: seq<Part>, r: nat, inCode: bool, q: (nat, nat))
    requires q in Loose(parts, r, inCode)
    ensures r <= q.0 < r + |Render(parts)|
    decreases parts
  {
    if parts != [] {
      var front, last := parts[..|parts| - 1], parts[|parts| - 1];
      GoingLast(parts, r, true, inCode);
      ReadLast(parts, "", false);
      hide Loose;
      hide LooseIn;
      hide Render;
      hide Rendered;
      if q in Loose(front, r, inCode) {
        LooseWithin(front, r, inCode, q);
      } else {
        LooseInWithin(last, r + |Render(front)|, inCode, q);
      }
    }
  }

  lemma {:induction false} LooseInWithin(part: Part, r: nat, inCode: bool, q: (nat, nat))
    requires q in LooseIn(part, r, inCode)
    ensures r <= q.0 < r + |Rendered(part)|
    decreases part
  {
    match part
    case Simple(_, content) => LooseWithin(content, r + 1, inCode, q);
    case Complex(code, separated, result) =>
      RenderedComplex(code, separated, result, r);
      hide Render;
      hide Loose;
      if q in Loose(code, r + 1, true) {
        LooseWithin(code, r + 1, true, q);
      } else {
        LooseWithin(result, Middle(code, r) + 1, false, q);
      }
    case _ =>
  }

  // ----- the parts that stay are what is written out -----

  /** Of the runs, those go that are in the code of one of the fields, or all. */
  ghost predicate GoneFits(runs: seq<nat>, fields: seq<OpenField>, gone: set<nat>, dropped: bool) {
    forall p :: p in runs ==> (p in gone <==> dropped || Among(fields, p))
  }

  ghost predicate LooseFits(r: nat, n: nat, loose: set<(nat, nat)>, strays: set<(nat, nat)>) {
    forall p: nat :: r <= p < r + n ==> ((p, 0) in strays <==> (p, 0) in loose)
  }

  ghost predicate Fits(parts: seq<Part>, r: nat, keepSafe: bool, inCode: bool, dropped: bool,
                       gone: set<nat>, strays: set<(nat, nat)>) {
    && GoneFits(RunsAt(Render(parts), r), Going(parts, r, keepSafe), gone, dropped)
    && LooseFits(r, |Render(parts)|, Loose(parts, r, inCode), strays)
  }

  ghost predicate FitsPart(part: Part, r: nat, keepSafe: bool, inCode: bool, dropped: bool,
                           gone: set<nat>, strays: set<(nat, nat)>) {
    && GoneFits(RunsAt(Rendered(part), r), GoingIn(part, r, keepSafe), gone, dropped)
    && LooseFits(r, |Rendered(part)|, LooseIn(part, r, inCode), strays)
  }

  lemma RunsWithin(doc: Doc, r: nat)
    ensures forall p :: p in RunsAt(doc, r) ==> r <= p < r + |doc|
  {
    forall p | p in RunsAt(doc, r)
      ensures r <= p < r + |doc|
    {
      RunsExactly(doc, r, p);
    }
  }

  lemma FitsLast(parts: seq<Part>, r: nat, keepSafe: bool, inCode: bool, dropped: bool, gone: set<nat>, strays: set<(nat, nat)>)
    requires parts != [] && Fits(parts, r, keepSafe, inCode, dropped, gone, strays)
    ensures var front, last := parts[..|parts| - 1], parts[|parts| - 1];
            && Fits(front, r, keepSafe, inCode, dropped, gone, strays)
            && FitsPart(last, r + |Render(front)|, keepSafe, inCode, dropped, gone, strays)
  {
    hide Render;
    hide Rendered;
    hide Going;
    hide GoingIn;
    hide Loose;
    hide LooseIn;
    hide RunsAt;
    hide Among;
    var front, last := parts[..|parts| - 1], parts[|parts| - 1];
    var r' := r + |Render(front)|;
    GoingLast(parts, r, keepSafe, inCode);
    ReadLast(parts, "", false);
    RunsInTwo(Render(front), Rendered(last), r);
    forall p: nat
      ensures Among(Going(parts, r, keepSafe), p) <==> Among(Going(front, r, keepSafe), p) || Among(GoingIn(last, r', keepSafe), p)
      ensures Among(Going(front, r, keepSafe), p) ==> p < r'
      ensures Among(GoingIn(last, r', keepSafe), p) ==> r' <= p
    {
      AmongTwo(Going(front, r, keepSafe), GoingIn(last, r', keepSafe), p);
      if Among(Going(front, r, keepSafe), p) { GoingWithin(front, r, keepSafe, p); }
      if Among(GoingIn(last, r', keepSafe), p) { GoingInWithin(last, r', keepSafe, p); }
    }
    RunsWithin(Render(front), r);
    RunsWithin(Rendered(last), r');
    forall p: nat
      ensures (p, 0) in Loose(front, r, inCode) ==> p < r'
      ensures (p, 0) in LooseIn(last, r', inCode) ==> r' <= p
    {
      if (p, 0) in Loose(front, r, inCode) { LooseWithin(front, r, inCode, (p, 0)); }
      if (p, 0) in LooseIn(last, r', inCode) { LooseInWithin(last, r', inCode, (p, 0)); }
    }
  }

  lemma {:induction false} CleanParts(parts: seq<Part>, r: nat, keepSafe: bool, inCode: bool, dropped: bool,
                                      gone: set<nat>, strays: set<(nat, nat)>)
    requires Fits(parts, r, keepSafe, inCode, dropped, gone, strays)
    ensures OutputMore(Render(parts), r, keepSafe, gone, strays) == Render(Clean(parts, keepSafe, inCode, dropped))
    decreases parts, 0
  {
    hide Fits;
    hide FitsPart;
    hide Render;
    hide Rendered;
    hide OutputMore;
    hide Clean;
    hide CleanPart;
    if parts == [] {
      CleanNone(r, keepSafe, inCode, dropped, gone, strays);
    } else {
      var front, last := parts[..|parts| - 1], parts[|parts| - 1];
      CleanLast(parts, keepSafe, inCode, dropped);
      FitsLast(parts, r, keepSafe, inCode, dropped, gone, strays);
      CleanParts(front, r, keepSafe, inCode, dropped, gone, strays);
      CleanOne(last, r + |Render(front)|, keepSafe, inCode, dropped, gone, strays);
      ReadLast(parts, "", false);
      OutputInTwo(Render(front), Rendered(last), r, keepSafe, gone, strays);
      RenderInTwo(Clean(front, keepSafe, inCode, dropped), CleanPart(last, keepSafe, inCode, dropped));
    }
  }

  lemma CleanNone(r: nat, keepSafe: bool, inCode: bool, dropped: bool, gone: set<nat>, strays: set<(nat, nat)>)
    ensures OutputMore(Render([]), r, keepSafe, gone, strays) == Render(Clean([], keepSafe, inCode, dropped))
  {
    assert Render([]) == [];
  }

  lemma CleanLast(parts: seq<Part>, keepSafe: bool, inCode: bool, dropped: bool)
    requires parts != []
    ensures Clean(parts, keepSafe, inCode, dropped)
            == Clean(parts[..|parts| - 1], keepSafe, inCode, dropped) + CleanPart(parts[|parts| - 1], keepSafe, inCode, dropped)
  {
    hide CleanPart;
  }

  lemma {:induction false} RenderInTwo(a: seq<Part>, b: seq<Part>)
    ensures Render(a + b) == Render(a) + Render(b)
  {
    hide Rendered;
    if b == [] {
      assert a + b == a;
    } else {
      assert (a + b)[..|a + b| - 1] == a + b[..|b| - 1];
      RenderInTwo(a, b[..|b| - 1]);
    }
  }

  lemma RenderOne(part: Part)
    ensures Render([part]) == Rendered(part)
    ensures Render([]) == []
  {
    assert [part][..0] == [];
    assert Render([]) == [];
  }

  lemma {:induction false} CleanOne(part: Part, r: nat, keepSafe: bool, inCode: bool, dropped: bool,
                                    gone: set<nat>, strays: set<(nat, nat)>)
    requires FitsPart(part, r, keepSafe, inCode, dropped, gone, strays)
    ensures OutputMore(Rendered(part), r, keepSafe, gone, strays) == Render(CleanPart(part, keepSafe, inCode, dropped))
    decreases part, 2
  {
    hide FitsPart;
    hide OutputMore;
    hide Render;
    hide Rendered;
    hide CleanPart;
    match part
    case Simple(instr, content) => CleanSimple(instr, content, r, keepSafe, inCode, dropped, gone, strays);
    case Complex(code, separated, result) =>
      CleanComplex(code, separated, result, r, keepSafe, inCode, dropped, gone, strays);
    case _ => CleanLeaf(part, r, keepSafe, inCode, dropped, gone, strays);
  }

  lemma CleanLeaf(part: Part, r: nat, keepSafe: bool, inCode: bool, dropped: bool, gone: set<nat>, strays: set<(nat, nat)>)
    requires part.Hollow? || part.Fragment? || part.Word?
    requires FitsPart(part, r, keepSafe, inCode, dropped, gone, strays)
    ensures OutputMore(Rendered(part), r, keepSafe, gone, strays) == Render(CleanPart(part, keepSafe, inCode, dropped))
  {
    var item := Rendered(part)[0];
    OneRunAt(item, r);
    assert r in RunsAt([item], r) by { assert r == [r][0]; }
    AmongOne(OpenField("", [], false, false), r);
    assert !Among([], r);
    assert r in gone <==> dropped;
    assert (r, 0) in strays <==> part.Fragment? && !inCode;
    RenderOne(part);
    RenderOne(Hollow);
    hide Among;
    hide RunsAt;
    if part.Hollow? {
      OutputOne(item, r, keepSafe, gone, strays);
    } else {
      OutputRun(item.atoms[0], r, keepSafe, gone, strays);
    }
  }

  lemma {:induction false} CleanSimple(instr: string, content: seq<Part>, r: nat, keepSafe: bool, inCode: bool, dropped: bool,
                                       gone: set<nat>, strays: set<(nat, nat)>)
    requires FitsPart(Simple(instr, content), r, keepSafe, inCode, dropped, gone, strays)
    ensures OutputMore(Rendered(Simple(instr, content)), r, keepSafe, gone, strays)
            == Render(CleanPart(Simple(instr, content), keepSafe, inCode, dropped))
    decreases Simple(instr, content), 1
  {
    hide Render;
    hide RunsAt;
    hide Going;
    hide Loose;
    hide Among;
    hide OutputMore;
    hide Classify;
    hide Clean;
    var start, end, inside := [SimpleStart(instr)], [SimpleEnd(instr)], Render(content);
    OneRunAt(start[0], r);
    OneRunAt(end[0], r + 1 + |inside|);
    RunsInTwo(start, inside, r);
    RunsInTwo(start + inside, end, r);
    assert [] + RunsAt(inside, r + 1) + [] == RunsAt(inside, r + 1);
    assert Fits(content, r + 1, keepSafe, inCode, dropped, gone, strays);
    CleanParts(content, r + 1, keepSafe, inCode, dropped, gone, strays);
    OutputOne(start[0], r, keepSafe, gone, strays);
    OutputOne(end[0], r + 1 + |inside|, keepSafe, gone, strays);
    OutputInTwo(start, inside, r, keepSafe, gone, strays);
    OutputInTwo(start + inside, end, r, keepSafe, gone, strays);
    RenderOne(Simple(instr, Clean(content, keepSafe, inCode, dropped)));
  }

  // ----- a complex field written out -----

  /** How the inside of a complex field, and its own runs, lie to what goes. */
  ghost predicate FitsComplex(code: seq<Part>, separated: bool, result: seq<Part>, r: nat, keepSafe: bool, dropped: bool,
                              gone: set<nat>, strays: set<(nat, nat)>) {
    var kept := !dropped && StaysField(code, keepSafe);
    var m, e := Middle(code, r), Close(code, separated, result, r);
    && Fits(code, r + 1, keepSafe, true, !kept, gone, strays)
    && (separated ==> Fits(result, m + 1, keepSafe, false, dropped, gone, strays))
    && (r in gone <==> !kept) && (m in gone <==> !kept) && (e in gone <==> !kept)
    && (r, 0) !in strays && (m, 0) !in strays && (e, 0) !in strays
  }

  lemma ComplexFits(code: seq<Part>, separated: bool, result: seq<Part>, r: nat, keepSafe: bool, inCode: bool, dropped: bool,
                    gone: set<nat>, strays: set<(nat, nat)>)
    requires FitsPart(Complex(code, separated, result), r, keepSafe, inCode, dropped, gone, strays)
    ensures FitsComplex(code, separated, result, r, keepSafe, dropped, gone, strays)
  {
    var part := Complex(code, separated, result);
    var kept := !dropped && StaysField(code, keepSafe);
    var m, e := Middle(code, r), Close(code, separated, result, r);
    ComplexGone(code, separated, result, r, keepSafe, dropped, gone);
    ComplexLoose(code, separated, result, r, inCode, strays);
  }

  ghost predicate Own(code: seq<Part>, separated: bool, result: seq<Part>, r: nat, p: nat) {
    p == r || p == Middle(code, r) || p == Close(code, separated, result, r)
  }

  /** Where a place of a complex field can be. */
  lemma PlaceOfComplex(code: seq<Part>, separated: bool, result: seq<Part>, r: nat, keepSafe: bool, p: nat)
    ensures var m := Middle(code, r);
            && (Among(Going(code, r + 1, keepSafe), p) ==> r < p < m)
            && (separated && Among(Going(result, m + 1, keepSafe), p) ==> m < p < Close(code, separated, result, r))
            && (p in RunsAt(Render(code), r + 1) ==> r < p < m)
            && (separated && p in RunsAt(Render(result), m + 1) ==> m < p < Close(code, separated, result, r))
            && (Own(code, separated, result, r, p) || p in RunsAt(Render(code), r + 1)
                || (separated && p in RunsAt(Render(result), m + 1))
                ==> p in RunsAt(Rendered(Complex(code, separated, result)), r))
  {
    hide Going;
    hide Among;
    hide RunsAt;
    hide Render;
    hide Rendered;
    var m := Middle(code, r);
    RunsOfComplex(code, separated, result, r);
    RunsExactly(Render(code), r + 1, p);
    if Among(Going(code, r + 1, keepSafe), p) { GoingWithin(code, r + 1, keepSafe, p); }
    if separated {
      RunsExactly(Render(result), m + 1, p);
      if Among(Going(result, m + 1, keepSafe), p) { GoingWithin(result, m + 1, keepSafe, p); }
    }
  }

  lemma ComplexGone(code: seq<Part>, separated: bool, result: seq<Part>, r: nat, keepSafe: bool, dropped: bool, gone: set<nat>)
    requires GoneFits(RunsAt(Rendered(Complex(code, separated, result)), r),
                      GoingIn(Complex(code, separated, result), r, keepSafe), gone, dropped)
    ensures var kept := !dropped && StaysField(code, keepSafe);
            && GoneFits(RunsAt(Render(code), r + 1), Going(code, r + 1, keepSafe), gone, !kept)
            && (separated ==> GoneFits(RunsAt(Render(result), Middle(code, r) + 1), Going(result, Middle(code, r) + 1, keepSafe), gone, dropped))
            && (forall p :: Own(code, separated, result, r, p) ==> (p in gone <==> !kept))
  {
    hide Going;
    hide GoingIn;
    hide Among;
    hide RunsAt;
    hide Render;
    hide Rendered;
    hide StaysField;
    hide Closed;
    hide Close;
    forall p: nat
      ensures p in RunsAt(Render(code), r + 1) ==>
              (p in gone <==> dropped || !StaysField(code, keepSafe) || Among(Going(code, r + 1, keepSafe), p))
      ensures separated && p in RunsAt(Render(result), Middle(code, r) + 1) ==>
              (p in gone <==> dropped || Among(Going(result, Middle(code, r) + 1, keepSafe), p))
      ensures Own(code, separated, result, r, p) ==> (p in gone <==> dropped || !StaysField(code, keepSafe))
    {
      PlaceOfComplex(code, separated, result, r, keepSafe, p);
      AmongComplex(code, separated, result, r, keepSafe, p);
      ClosedRegion(code, separated, result, r, p);
      MiddleFirst(code, separated, result, r);
    }
  }

  lemma MiddleFirst(code: seq<Part>, separated: bool, result: seq<Part>, r: nat)
    ensures r < Middle(code, r) <= Close(code, separated, result, r)
    ensures separated <==> Middle(code, r) < Close(code, separated, result, r)
  {
    hide Render;
  }

  lemma ComplexLoose(code: seq<Part>, separated: bool, result: seq<Part>, r: nat, inCode: bool, strays: set<(nat, nat)>)
    requires LooseFits(r, |Rendered(Complex(code, separated, result))|, LooseIn(Complex(code, separated, result), r, inCode), strays)
    ensures LooseFits(r + 1, |Render(code)|, Loose(code, r + 1, true), strays)
    ensures separated ==> LooseFits(Middle(code, r) + 1, |Render(result)|, Loose(result, Middle(code, r) + 1, false), strays)
    ensures forall p: nat :: Own(code, separated, result, r, p) ==> (p, 0) !in strays
  {
    hide Loose;
    hide Render;
    hide Rendered;
    RenderedComplex(code, separated, result, r);
    var m, e := Middle(code, r), Close(code, separated, result, r);
    assert r + |Rendered(Complex(code, separated, result))| == e + 1;
    forall p: nat
      ensures (p, 0) in Loose(code, r + 1, true) ==> r < p < m
      ensures separated && (p, 0) in Loose(result, m + 1, false) ==> m < p < e
    {
      if (p, 0) in Loose(code, r + 1, true) { LooseWithin(code, r + 1, true, (p, 0)); }
      if separated && (p, 0) in Loose(result, m + 1, false) { LooseWithin(result, m + 1, false, (p, 0)); }
    }
  }

  lemma {:induction false} OutputCode(code: seq<Part>, r: nat, keepSafe: bool, kept: bool, gone: set<nat>, strays: set<(nat, nat)>)
    requires Fits(code, r + 1, keepSafe, true, !kept, gone, strays)
    requires (r in gone <==> !kept) && (r, 0) !in strays
    ensures OutputMore([Run([Begin])] + Render(code), r, keepSafe, gone, strays)
            == (if kept then [Run([Begin])] else []) + Render(Clean(code, keepSafe, true, !kept))
    decreases code, 1
  {
    hide Fits;
    hide OutputMore;
    hide Render;
    hide Clean;
    CleanParts(code, r + 1, keepSafe, true, !kept, gone, strays);
    OutputRun(Begin, r, keepSafe, gone, strays);
    OutputInTwo([Run([Begin])], Render(code), r, keepSafe, gone, strays);
  }

  lemma {:induction false} OutputTail(separated: bool, result: seq<Part>, m: nat, keepSafe: bool, dropped: bool, kept: bool,
                                      gone: set<nat>, strays: set<(nat, nat)>)
    requires separated ==> Fits(result, m + 1, keepSafe, false, dropped, gone, strays)
    requires (m in gone <==> !kept) && (m, 0) !in strays
    ensures OutputMore(Tail(separated, result), m, keepSafe, gone, strays)
            == if separated then (if kept then [Run([Separate])] else []) + Render(Clean(result, keepSafe, false, dropped)) else []
    decreases result, 1
  {
    hide Fits;
    hide OutputMore;
    hide Render;
    hide Clean;
    if separated {
      CleanParts(result, m + 1, keepSafe, false, dropped, gone, strays);
      OutputRun(Separate, m, keepSafe, gone, strays);
      OutputInTwo([Run([Separate])], Render(result), m, keepSafe, gone, strays);
    } else {
      OutputNothing(m, keepSafe, gone, strays);
    }
  }

  lemma KeptRendered(inner: seq<Part>, separated: bool, shown: seq<Part>)
    requires !separated ==> shown == []
    ensures Render([Complex(inner, separated, shown)])
            == ([Run([Begin])] + Render(inner)) + (if separated then [Run([Separate])] + Render(shown) else []) + [Run([End])]
    ensures Render(inner + shown) == Render(inner) + Render(shown)
    ensures !separated ==> Render(shown) == []
  {
    RenderOne(Complex(inner, separated, shown));
    RenderedComplex(inner, separated, shown, 0);
    RenderInTwo(inner, shown);
    hide Render;
    hide Rendered;
  }

  lemma CleanComplexPart(code: seq<Part>, separated: bool, result: seq<Part>, keepSafe: bool, inCode: bool, dropped: bool)
    ensures var kept := !dropped && StaysField(code, keepSafe);
            var inner := Clean(code, keepSafe, true, !kept);
            var shown := if separated then Clean(result, keepSafe, false, dropped) else [];
            CleanPart(Complex(code, separated, result), keepSafe, inCode, dropped)
            == if kept then [Complex(inner, separated, shown)] else inner + shown
  {
    hide Clean;
    hide StaysField;
  }

  lemma OutputComplex(code: seq<Part>, separated: bool, result: seq<Part>, r: nat, keepSafe: bool,
                      gone: set<nat>, strays: set<(nat, nat)>)
    ensures OutputMore(Rendered(Complex(code, separated, result)), r, keepSafe, gone, strays)
            == OutputMore([Run([Begin])] + Render(code), r, keepSafe, gone, strays)
               + OutputMore(Tail(separated, result), Middle(code, r), keepSafe, gone, strays)
               + OutputMore([Run([End])], Close(code, separated, result, r), keepSafe, gone, strays)
  {
    hide OutputMore;
    hide Render;
    hide Rendered;
    hide Middle;
    hide Close;
    hide Tail;
    var front := [Run([Begin])] + Render(code);
    RenderedComplex(code, separated, result, r);
    OutputInTwo(front, Tail(separated, result), r, keepSafe, gone, strays);
    OutputInTwo(front + Tail(separated, result), [Run([End])], r, keepSafe, gone, strays);
  }

  lemma {:induction false} CleanComplex(code: seq<Part>, separated: bool, result: seq<Part>, r: nat, keepSafe: bool,
                                        inCode: bool, dropped: bool, gone: set<nat>, strays: set<(nat, nat)>)
    requires FitsPart(Complex(code, separated, result), r, keepSafe, inCode, dropped, gone, strays)
    ensures OutputMore(Rendered(Complex(code, separated, result)), r, keepSafe, gone, strays)
            == Render(CleanPart(Complex(code, separated, result), keepSafe, inCode, dropped))
    decreases Complex(code, separated, result), 1
  {
    hide FitsPart;
    hide Fits;
    hide OutputMore;
    hide Render;
    hide Rendered;
    hide Clean;
    hide CleanPart;
    hide StaysField;
    hide Middle;
    hide Close;
    hide Tail;
    var kept := !dropped && StaysField(code, keepSafe);
    var m, e := Middle(code, r), Close(code, separated, result, r);
    var inner := Clean(code, keepSafe, true, !kept);
    var shown := if separated then Clean(result, keepSafe, false, dropped) else [];
    ComplexFits(code, separated, result, r, keepSafe, inCode, dropped, gone, strays);
    OutputCode(code, r, keepSafe, kept, gone, strays);
    OutputTail(separated, result, m, keepSafe, dropped, kept, gone, strays);
    OutputRun(End, e, keepSafe, gone, strays);
    OutputComplex(code, separated, result, r, keepSafe, gone, strays);
    CleanComplexPart(code, separated, result, keepSafe, inCode, dropped);
    KeptRendered(inner, separated, shown);
    if !kept {
      assert [] + Render(inner) == Render(inner) && [] + Render(shown) == Render(shown);
    }
  }

  lemma OutputNothing(r: nat, keepSafe: bool, gone: set<nat>, strays: set<(nat, nat)>)
    ensures OutputMore([], r, keepSafe, gone, strays) == []
  {
  }

  // ----- the sanitizer on a tree -----

  /** What the sanitizer makes of a part that is a tree: the tree without the fields it does not keep, in which
      what is in the code of such a field is gone and its result has taken its place. */
  lemma StripOfTree(parts: seq<Part>, keepSafe: bool)
    ensures Strip(Render(parts), keepSafe) == Render(Clean(parts, keepSafe, false, false))
  {
    var doc := Render(parts);
    var none := StripState([], [], {});
    WalkFromStart(doc, keepSafe);
    WalkParts(none, 0, parts, keepSafe);
    NoStack(parts, keepSafe);
    var walk := Walk(doc, keepSafe);
    var gone := Gone(doc, keepSafe);
    OutputFromStart(doc, keepSafe, gone, walk.strays);
    assert Fits(parts, 0, keepSafe, false, false, gone, walk.strays) by {
      hide Walk;
      hide Render;
      hide RunsAt;
      forall p: nat
        ensures p in gone <==> Among(Going(parts, 0, keepSafe), p)
      {
        GoneIsAmong(doc, keepSafe, p);
      }
    }
    CleanParts(parts, 0, keepSafe, false, false, gone, walk.strays);
  }

  lemma NoStack(parts: seq<Part>, keepSafe: bool)
    ensures PastParts(StripState([], [], {}), 0, parts, keepSafe)
            == StripState([], Going(parts, 0, keepSafe), Loose(parts, 0, false))
  {
    hide Going;
    hide Loose;
    hide Render;
    hide RunsAt;
    hide Instruction;
    hide StartsNested;
    assert [] + Going(parts, 0, keepSafe) == Going(parts, 0, keepSafe);
    assert {} + Loose(parts, 0, false) == Loose(parts, 0, false);
  }

  lemma GoneIsAmong(doc: Doc, keepSafe: bool, p: nat)
    ensures p in Gone(doc, keepSafe) <==> Among(Doomed(doc, keepSafe), p)
  {
    var doomed := Doomed(doc, keepSafe);
    hide Doomed;
    if p in Gone(doc, keepSafe) {
      var f :| f in doomed && p in f.region;
      var i :| 0 <= i < |doomed| && doomed[i] == f;
    }
    if Among(doomed, p) {
      var i :| 0 <= i < |doomed| && p in doomed[i].region;
      assert doomed[i] in doomed;
    }
  }

  /** The fields of a tree that the sanitizer does not keep, wherever they stand. */
  function Unkept(parts: seq<Part>, keepSafe: bool): nat
    decreases parts
  {
    if parts == [] then 0 else Unkept(parts[..|parts| - 1], keepSafe) + UnkeptIn(parts[|parts| - 1], keepSafe)
  }

  function UnkeptIn(part: Part, keepSafe: bool): nat
    decreases part
  {
    match part
    case Simple(instr, content) =>
      (if keepSafe && Classify(instr, false) == Safe then 0 else 1) + Unkept(content, keepSafe)
    case Complex(code, separated, result) =>
      (if StaysField(code, keepSafe) then 0 else 1) + Unkept(code, keepSafe) + if separated then Unkept(result, keepSafe) else 0
    case _ => 0
  }

  lemma {:induction false} SimplesInTwo(a: Doc, b: Doc, keepSafe: bool)
    ensures UnsafeSimples(a + b, keepSafe) == UnsafeSimples(a, keepSafe) + UnsafeSimples(b, keepSafe)
  {
    hide KeepsSimple;
    if b == [] {
      assert a + b == a;
    } else {
      assert (a + b)[..|a + b| - 1] == a + b[..|b| - 1];
      SimplesInTwo(a, b[..|b| - 1], keepSafe);
    }
  }

  lemma SimplesOne(item: Item, keepSafe: bool)
    ensures UnsafeSimples([item], keepSafe) == if item.SimpleStart? && !KeepsSimple(item.instr, keepSafe) then 1 else 0
  {
    assert [item][..0] == [];
    assert UnsafeSimples([], keepSafe) == 0;
  }

  lemma {:induction false} CountParts(parts: seq<Part>, r: nat, keepSafe: bool)
    ensures |Going(parts, r, keepSafe)| + UnsafeSimples(Render(parts), keepSafe) == Unkept(parts, keepSafe)
    decreases parts, 0
  {
    hide UnsafeSimples;
    hide Going;
    hide GoingIn;
    hide Render;
    hide Rendered;
    hide UnkeptIn;
    if parts == [] {
      CountNone(r, keepSafe);
    } else {
      var front, last := parts[..|parts| - 1], parts[|parts| - 1];
      CountParts(front, r, keepSafe);
      CountPart(last, r + |Render(front)|, keepSafe);
      GoingLast(parts, r, keepSafe, true);
      ReadLast(parts, "", false);
      SimplesInTwo(Render(front), Rendered(last), keepSafe);
    }
  }

  lemma CountNone(r: nat, keepSafe: bool)
    ensures |Going([], r, keepSafe)| == 0 && UnsafeSimples(Render([]), keepSafe) == 0
  {
    assert Render([]) == [];
  }

  lemma {:induction false} CountPart(part: Part, r: nat, keepSafe: bool)
    ensures |GoingIn(part, r, keepSafe)| + UnsafeSimples(Rendered(part), keepSafe) == UnkeptIn(part, keepSafe)
    decreases part, 1
  {
    match part
    case Simple(instr, content) =>
      CountParts(content, r + 1, keepSafe);
      SimplesOne(SimpleStart(instr), keepSafe);
      SimplesOne(SimpleEnd(instr), keepSafe);
      SimplesInTwo([SimpleStart(instr)], Render(content), keepSafe);
      SimplesInTwo([SimpleStart(instr)] + Render(content), [SimpleEnd(instr)], keepSafe);
      hide UnsafeSimples;
      hide Going;
      hide Classify;
    case Complex(code, separated, result) => CountComplex(code, separated, result, r, keepSafe);
    case Hollow => SimplesOne(Run([]), keepSafe);
    case Fragment(head, rest) => SimplesOne(Run([Instr(head, rest)]), keepSafe);
    case Word(text) => SimplesOne(Run([Text(text)]), keepSafe);
  }

  lemma SimplesOfComplex(code: seq<Part>, separated: bool, result: seq<Part>, keepSafe: bool)
    ensures UnsafeSimples(Rendered(Complex(code, separated, result)), keepSafe)
            == UnsafeSimples(Render(code), keepSafe) + if separated then UnsafeSimples(Render(result), keepSafe) else 0
  {
    hide UnsafeSimples;
    hide Render;
    hide Rendered;
    var begin, end, divide := [Run([Begin])], [Run([End])], [Run([Separate])];
    RenderedComplex(code, separated, result, 0);
    SimplesOne(begin[0], keepSafe);
    SimplesOne(end[0], keepSafe);
    SimplesOne(divide[0], keepSafe);
    SimplesNone(keepSafe);
    SimplesInTwo(begin, Render(code), keepSafe);
    SimplesInTwo(divide, Render(result), keepSafe);
    SimplesInTwo(begin + Render(code), Tail(separated, result), keepSafe);
    SimplesInTwo(begin + Render(code) + Tail(separated, result), end, keepSafe);
  }

  lemma SimplesNone(keepSafe: bool)
    ensures UnsafeSimples([], keepSafe) == 0
  {
  }

  lemma {:induction false} CountComplex(code: seq<Part>, separated: bool, result: seq<Part>, r: nat, keepSafe: bool)
    ensures var part := Complex(code, separated, result);
            |GoingIn(part, r, keepSafe)| + UnsafeSimples(Rendered(part), keepSafe) == UnkeptIn(part, keepSafe)
    decreases Complex(code, separated, result), 0
  {
    CountParts(code, r + 1, keepSafe);
    if separated { CountParts(result, Middle(code, r) + 1, keepSafe); }
    SimplesOfComplex(code, separated, result, keepSafe);
    hide UnsafeSimples;
    hide Going;
    hide Closed;
    hide Render;
    hide Middle;
    hide StaysField;
    hide Unkept;
  }

  /** What the sanitizer answers: the number of fields of the tree that it does not keep. */
  lemma CountOfTree(parts: seq<Part>, keepSafe: bool)
    ensures RemovedCount(Render(parts), keepSafe) == Unkept(parts, keepSafe)
  {
    var none := StripState([], [], {});
    WalkFromStart(Render(parts), keepSafe);
    WalkParts(none, 0, parts, keepSafe);
    NoStack(parts, keepSafe);
    CountParts(parts, 0, keepSafe);
    hide WalkMore;
    hide UnsafeSimples;
    hide Walk;
  }
}
