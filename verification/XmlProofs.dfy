/** Reading back what was written: exactly which parts survive, and that those survive unchanged. */
module XmlProofs {
  import opened Text
  import opened Common
  import opened Xml
  import opened XmlParse

  // ----- printing with a table that does not change any more -----

  predicate AttrsCovered(attrs: seq<Attr>, m: Prefixes) {
    forall i :: 0 <= i < |attrs| ==> NameCovered(attrs[i].name, m)
  }

  predicate Covered(e: Elem, m: Prefixes)
    decreases e
  {
    NameCovered(e.tag, m) && AttrsCovered(e.attrs, m) && AllCovered(e.kids, m)
  }

  predicate AllCovered(kids: seq<Elem>, m: Prefixes)
    decreases kids
  {
    kids == [] || (Covered(kids[0], m) && AllCovered(kids[1..], m))
  }

  function Render(e: Elem, top: bool, m: Prefixes): seq<Token>
    decreases e, 1
  {
    RenderWhole(e, m) + (if top then [] else CharsOf(e.tail))
  }

  function RenderWhole(e: Elem, m: Prefixes): seq<Token>
    decreases e, 0
  {
    var tag, attrs := QualifyWith(e.tag, m), QualifyAttrs(e.attrs, m);
    if e.kids == [] && e.text == "" then [Empty(tag, attrs, [])]
    else [Open(tag, attrs, [])] + (CharsOf(e.text) + RenderAll(e.kids, m)) + [Close(tag)]
  }

  function RenderAll(kids: seq<Elem>, m: Prefixes): seq<Token>
    decreases kids
  {
    if kids == [] then [] else Render(kids[0], false, m) + RenderAll(kids[1..], m)
  }

  lemma HeadIsRendered(e: Elem, names: Prefixes, m: Prefixes)
    requires Extends(NamesAt(e, names), m)
    ensures NameCovered(e.tag, m) && AttrsCovered(e.attrs, m)
    ensures QualifyWith(e.tag, NamesAt(e, names)) == QualifyWith(e.tag, m)
    ensures QualifyAttrs(e.attrs, NamesAt(e, names)) == QualifyAttrs(e.attrs, m)
  {
    var here := NamesAt(e, names);
    NamesAtExtends(e, names);
    TagStays(e.tag, here, m);
    forall i | 0 <= i < |e.attrs|
      ensures NameCovered(e.attrs[i].name, m) && QualifyWith(e.attrs[i].name, here) == QualifyWith(e.attrs[i].name, m)
    {
      TagStays(e.attrs[i].name, here, m);
    }
  }

  lemma ExtendsTransitive(a: Prefixes, b: Prefixes, c: Prefixes)
    requires Extends(a, b) && Extends(b, c)
    ensures Extends(a, c)
  {
  }

  /** Prefixes given once are never changed, so the growing table may be replaced by the last one. */
  lemma {:induction false} PrintIsRender(e: Elem, top: bool, names: Prefixes, m: Prefixes)
    requires Extends(PrintElem(e, top, names).names, m)
    ensures Covered(e, m) && PrintElem(e, top, names).tokens == Render(e, top, m)
    decreases e
  {
    hide Extends;
    hide NamesAt;
    hide AttrsCovered;
    hide QualifyWith;
    hide QualifyAttrs;
    hide PrintKids;
    hide RenderAll;
    var here := NamesAt(e, names);
    PrintExtends(e, top, names);
    ExtendsTransitive(here, PrintElem(e, top, names).names, m);
    HeadIsRendered(e, names, m);
    if e.kids == [] && e.text == "" {
      assert AllCovered(e.kids, m);
    } else {
      PrintAllIsRender(e.kids, here, m);
      assert PrintElem(e, top, names).tokens == RenderWhole(e, m) + (if top then [] else CharsOf(e.tail));
    }
  }

  lemma {:induction false} PrintAllIsRender(kids: seq<Elem>, names: Prefixes, m: Prefixes)
    requires Extends(PrintKids(kids, names).names, m)
    ensures AllCovered(kids, m) && PrintKids(kids, names).tokens == RenderAll(kids, m)
    decreases kids
  {
    hide Extends;
    if kids != [] {
      var first := PrintElem(kids[0], false, names);
      PrintKidsExtends(kids[1..], first.names);
      ExtendsTransitive(first.names, PrintKids(kids[1..], first.names).names, m);
      PrintIsRender(kids[0], false, names, m);
      PrintAllIsRender(kids[1..], first.names, m);
    }
  }

  // ----- what a reader makes of the names -----

  /** The scope holds the declarations of `m`. */
  ghost predicate ScopeFor(scope: Scope, m: Prefixes) {
    && InjectiveMap(m) && "" !in m && XML_NS in m && m[XML_NS] == "xml"
    && (forall u :: u in m && u != XML_NS ==> m[u] in scope && scope[m[u]] == u)
    && (forall p :: p in scope ==> scope[p] in m && m[scope[p]] == p && scope[p] != XML_NS)
  }

  /** The tag as it is read back; "" when it cannot be read. */
  function ReadTag(name: string, scope: Scope): string {
    if !LocalName(LocalOf(name)) then ""
    else if !Braced(name) && "" in scope then Clark(scope[""], name)
    else name
  }

  function ReadAttrName(name: string, m: Prefixes): string {
    if !LocalName(LocalOf(name)) then ""
    else if Braced(name) && UriOf(name) in m && m[UriOf(name)] == "" then LocalOf(name)
    else name
  }

  function ReadAttr(a: Attr, m: Prefixes): Attr { Attr(ReadAttrName(a.name, m), a.value) }

  function ReadAttrs(attrs: seq<Attr>, m: Prefixes): (r: seq<Attr>)
    ensures |r| == |attrs|
  {
    seq(|attrs|, i requires 0 <= i < |attrs| => ReadAttr(attrs[i], m))
  }

  function ReadElem(e: Elem, scope: Scope, m: Prefixes): Elem
    decreases e
  {
    Elem(ReadTag(e.tag, scope), ReadAttrs(e.attrs, m), LineEnds(e.text), ReadAll(e.kids, scope, m), LineEnds(e.tail))
  }

  function ReadAll(kids: seq<Elem>, scope: Scope, m: Prefixes): seq<Elem>
    decreases kids
  {
    if kids == [] then [] else [ReadElem(kids[0], scope, m)] + ReadAll(kids[1..], scope, m)
  }

  function NameRead(name: string): Option<string> { if name == "" then None else Some(name) }

  lemma TagIsRead(name: string, scope: Scope, m: Prefixes)
    requires ScopeFor(scope, m) && NameCovered(name, m)
    ensures TagName(QualifyWith(name, m), scope) == NameRead(ReadTag(name, scope))
  {
    if Braced(name) && LocalName(LocalOf(name)) {
      assert Splits(name);
      SplitsBack(name);
      assert UriOf(name) != XML_NS ==> m[UriOf(name)] != "xml";
    }
    hide LocalName;
  }

  lemma AttrIsRead(a: Attr, scope: Scope, m: Prefixes)
    requires ScopeFor(scope, m) && NameCovered(a.name, m)
    ensures AttrName(QualifyWith(a.name, m), scope) == NameRead(ReadAttr(a, m).name)
  {
    if Braced(a.name) {
      TagIsRead(a.name, scope, m);
    }
  }

  predicate AttrsNamed(attrs: seq<Attr>) {
    forall i :: 0 <= i < |attrs| ==> attrs[i].name != ""
  }

  lemma NamedSplit(first: Attr, rest: seq<Attr>)
    ensures AttrsNamed([first] + rest) <==> first.name != "" && AttrsNamed(rest)
  {
    var all := [first] + rest;
    assert all[0] == first && forall i :: 0 <= i < |rest| ==> all[i + 1] == rest[i];
    forall i | 0 <= i < |rest|
      ensures AttrsNamed(all) ==> rest[i].name != ""
    {
      assert all[i + 1] == rest[i];
    }
  }

  lemma {:induction false} AttrsAreRead(attrs: seq<Attr>, scope: Scope, m: Prefixes)
    requires ScopeFor(scope, m) && AttrsCovered(attrs, m)
    ensures var read := ReadAttrs(attrs, m);
            AttrNames(QualifyAttrs(attrs, m), scope) == if AttrsNamed(read) then Some(read) else None
  {
    hide ScopeFor;
    hide ReadAttrName;
    if attrs != [] {
      AttrIsRead(attrs[0], scope, m);
      assert AttrsCovered(attrs[1..], m);
      AttrsAreRead(attrs[1..], scope, m);
      assert QualifyAttrs(attrs, m)[1..] == QualifyAttrs(attrs[1..], m);
      var first, rest := ReadAttr(attrs[0], m), ReadAttrs(attrs[1..], m);
      assert ReadAttrs(attrs, m) == [first] + rest;
      NamedSplit(first, rest);
    }
  }

  // ----- limits -----

  function Depth(e: Elem): (d: nat)
    ensures d > 0
    decreases e
  {
    1 + DepthAll(e.kids)
  }

  function DepthAll(kids: seq<Elem>): nat
    decreases kids
  {
    if kids == [] then 0
    else if Depth(kids[0]) > DepthAll(kids[1..]) then Depth(kids[0]) else DepthAll(kids[1..])
  }

  predicate Distinct(e: Elem)
    decreases e
  {
    DistinctNames(e.attrs) && AllDistinct(e.kids)
  }

  predicate AllDistinct(kids: seq<Elem>)
    decreases kids
  {
    kids == [] || (Distinct(kids[0]) && AllDistinct(kids[1..]))
  }

  /** Every name could be read. */
  predicate Named(e: Elem)
    decreases e
  {
    e.tag != "" && AttrsNamed(e.attrs) && AllNamed(e.kids)
  }

  predicate AllNamed(kids: seq<Elem>)
    decreases kids
  {
    kids == [] || (Named(kids[0]) && AllNamed(kids[1..]))
  }

  predicate Good(e: Elem, depth: nat, count: nat) {
    count + Size(e) <= MAX_ELEMENTS && depth + Depth(e) <= MAX_DEPTH && Distinct(e) && Named(e)
  }

  predicate AllGood(kids: seq<Elem>, depth: nat, count: nat) {
    (count + SizeAll(kids) <= MAX_ELEMENTS && depth + DepthAll(kids) <= MAX_DEPTH) && AllDistinct(kids) && AllNamed(kids)
  }

  // ----- feeding the printed tokens -----

  lemma {:induction false} FeedAppend(st: State, a: seq<Token>, b: seq<Token>)
    ensures Feed(st, a + b) == Feed(Feed(st, a), b)
  {
    hide Step;
    if b == [] {
      assert a + b == a;
    } else {
      var n := |b| - 1;
      assert (a + b)[..|a + b| - 1] == a + b[..n];
      FeedAppend(st, a, b[..n]);
    }
  }

  lemma {:induction false} FeedFailed(st: State, tokens: seq<Token>)
    requires st.Failed?
    ensures Feed(st, tokens) == st
  {
    if tokens != [] { FeedFailed(st, tokens[..|tokens| - 1]); }
  }

  function Top(st: State): Frame
    requires st.Reading? && st.stack != []
  {
    st.stack[|st.stack| - 1]
  }

  /** The state with the innermost frame and the count of elements replaced. */
  function Put(st: State, f: Frame, count: nat): (r: State)
    requires st.Reading? && st.stack != []
    ensures r.Reading? && r.stack != []
  {
    Reading(st.stack[..|st.stack| - 1] + [f], st.root, count, st.prefixes)
  }

  /** Inside an element, within the limits. */
  ghost predicate Inside(st: State, m: Prefixes) {
    st.Reading? && 0 < |st.stack| <= MAX_DEPTH && st.count <= MAX_ELEMENTS && ScopeFor(Top(st).scope, m)
  }

  lemma CharsAreRead(st: State, data: string)
    requires st.Reading? && st.stack != []
    ensures Feed(st, CharsOf(data)) == if data == "" then st else Put(st, AddText(Top(st), LineEnds(data)), st.count)
  {
  }

  /** The frame that a start tag opens. */
  function FrameOf(e: Elem, scope: Scope, m: Prefixes): Frame {
    Frame(ReadTag(e.tag, scope), QualifyWith(e.tag, m), ReadAttrs(e.attrs, m), "", [], scope)
  }

  predicate HasRoom(st: State) {
    st.Reading? && st.count + 1 <= MAX_ELEMENTS && |st.stack| < MAX_DEPTH
  }

  /** The names of a start tag could be read and differ. */
  predicate HeadGood(tag: string, attrs: seq<Attr>) { tag != "" && AttrsNamed(attrs) && DistinctNames(attrs) }

  lemma StartIsRead(st: State, e: Elem, decls: seq<Decl>, declared: Declared, m: Prefixes)
    requires st.Reading? && (st.stack == [] ==> st.root.None?)
    requires DeclareAll(decls, Declared(ScopeOf(st), st.prefixes)) == Some(declared)
    requires ScopeFor(declared.scope, m) && NameCovered(e.tag, m) && AttrsCovered(e.attrs, m)
    ensures var after := StartElement(st, QualifyWith(e.tag, m), QualifyAttrs(e.attrs, m), decls);
            if HasRoom(st) && HeadGood(ReadTag(e.tag, declared.scope), ReadAttrs(e.attrs, m)) then
              after == Reading(st.stack + [FrameOf(e, declared.scope, m)], st.root, st.count + 1, declared.prefixes)
            else after.Failed?
  {
    hide ScopeFor;
    hide DistinctNames;
    hide AttrsNamed;
    hide TagName;
    hide AttrNames;
    hide ReadTag;
    TagIsRead(e.tag, declared.scope, m);
    AttrsAreRead(e.attrs, declared.scope, m);
  }

  /** What reading `kids` behind those of the innermost frame comes to. */
  ghost predicate KidsRead(st: State, after: State, text: string, kids: seq<Elem>)
    requires st.Reading? && st.stack != []
  {
    if AllGood(kids, |st.stack|, st.count) then
      after == Put(st, Top(st).(text := text, kids := Top(st).kids + kids), st.count + SizeAll(kids))
    else after.Failed?
  }

  ghost predicate ElemRead(st: State, after: State, e: Elem)
    requires st.Reading? && st.stack != []
  {
    if Good(e, |st.stack|, st.count) then after == Put(st, Top(st).(kids := Top(st).kids + [e]), st.count + Size(e))
    else after.Failed?
  }

  /** The content of `e`, read into a frame that was just opened. */
  lemma {:induction false} ContentIsRead(st: State, e: Elem, m: Prefixes)
    requires Inside(st, m) && Top(st).text == "" && Top(st).kids == [] && AllCovered(e.kids, m)
    ensures KidsRead(st, Feed(st, CharsOf(e.text) + RenderAll(e.kids, m)), LineEnds(e.text), ReadAll(e.kids, Top(st).scope, m))
    decreases e, 0
  {
    var f := Top(st).(text := LineEnds(e.text));
    var kids := ReadAll(e.kids, Top(st).scope, m);
    hide ScopeFor;
    hide AllGood;
    FeedAppend(st, CharsOf(e.text), RenderAll(e.kids, m));
    CharsAreRead(st, e.text);
    var st1 := Feed(st, CharsOf(e.text));
    assert "" + LineEnds(e.text) == LineEnds(e.text);
    assert st1 == Put(st, f, st.count);
    KidsAreRead(st1, e.kids, m);
    assert [] + kids == kids;
  }

  lemma {:induction false} KidsAreRead(st: State, kids: seq<Elem>, m: Prefixes)
    requires Inside(st, m) && AllCovered(kids, m)
    ensures KidsRead(st, Feed(st, RenderAll(kids, m)), Top(st).text, ReadAll(kids, Top(st).scope, m))
    decreases kids
  {
    var top, scope := Top(st), Top(st).scope;
    if kids == [] {
      assert top.kids + [] == top.kids;
    } else {
      var first, rest := ReadElem(kids[0], scope, m), ReadAll(kids[1..], scope, m);
      var tokens, more := Render(kids[0], false, m), RenderAll(kids[1..], m);
      assert ReadAll(kids, scope, m) == [first] + rest && RenderAll(kids, m) == tokens + more;
      FeedAppend(st, tokens, more);
      ElemIsRead(st, kids[0], m);
      var st1 := Feed(st, tokens);
      if st1.Failed? {
        FeedFailed(st1, more);
      } else {
        AllGoodSplit(first, rest, |st.stack|, st.count);
        KidsAreRead(st1, kids[1..], m);
      }
      KidsJoin(st, st1, Feed(st1, more), first, rest, m);
    }
  }

  lemma KidsJoin(st: State, st1: State, st2: State, first: Elem, rest: seq<Elem>, m: Prefixes)
    requires Inside(st, m) && ElemRead(st, st1, first)
    requires st1.Failed? ==> st2 == st1
    requires st1.Reading? ==> st1.stack != [] && KidsRead(st1, st2, Top(st1).text, rest)
    ensures KidsRead(st, st2, Top(st).text, [first] + rest)
  {
    hide ScopeFor;
    AllGoodSplit(first, rest, |st.stack|, st.count);
    hide AllGood;
    hide Good;
    if st1.Reading? {
      assert Top(st).kids + [first] + rest == Top(st).kids + ([first] + rest);
    }
  }

  lemma AllGoodSplit(first: Elem, rest: seq<Elem>, depth: nat, count: nat)
    ensures SizeAll([first] + rest) == Size(first) + SizeAll(rest)
    ensures AllGood([first] + rest, depth, count) <==> Good(first, depth, count) && AllGood(rest, depth, count + Size(first))
    ensures Good(first, depth, count) ==> count + Size(first) <= MAX_ELEMENTS
  {
    assert ([first] + rest)[1..] == rest;
  }

  lemma {:induction false} ElemIsRead(st: State, e: Elem, m: Prefixes)
    requires Inside(st, m) && Covered(e, m)
    ensures ElemRead(st, Feed(st, Render(e, false, m)), ReadElem(e, Top(st).scope, m))
    decreases e, 3
  {
    var read := ReadElem(e, Top(st).scope, m);
    WholeIsRead(st, e, m);
    FeedAppend(st, RenderWhole(e, m), CharsOf(e.tail));
    TailIsRead(st, Feed(st, RenderWhole(e, m)), read, e.tail, m);
  }

  lemma TailIsRead(st: State, st1: State, e: Elem, data: string, m: Prefixes)
    requires Inside(st, m) && ElemRead(st, st1, e.(tail := "")) && e.tail == LineEnds(data)
    ensures ElemRead(st, Feed(st1, CharsOf(data)), e)
  {
    hide ScopeFor;
    hide Feed;
    var whole := e.(tail := "");
    assert Size(whole) == Size(e) && (Good(whole, |st.stack|, st.count) <==> Good(e, |st.stack|, st.count));
    hide Good;
    if st1.Failed? {
      FeedFailed(st1, CharsOf(data));
    } else {
      var f := Top(st).(kids := Top(st).kids + [whole]);
      CharsAreRead(st1, data);
      TailIsAdded(f, Top(st).kids, whole, e.tail);
      assert data == "" ==> whole == e;
      hide LineEnds;
    }
  }

  lemma TailIsAdded(f: Frame, kids: seq<Elem>, last: Elem, data: string)
    requires f.kids == kids + [last] && last.tail == ""
    ensures AddText(f, data) == f.(kids := kids + [last.(tail := data)])
  {
    assert "" + data == data;
    assert f.kids[..|f.kids| - 1] == kids;
  }

  /** From behind the start tag to the end tag. */
  ghost predicate BodyRead(st: State, after: State, e: Elem)
    requires st.Reading? && st.stack != []
  {
    if AllGood(e.kids, |st.stack|, st.count) then
      after == EndElement(Put(st, Top(st).(text := e.text, kids := e.kids), st.count + SizeAll(e.kids)))
    else after.Failed?
  }

  lemma BodyIsRead(st: State, e: Elem, m: Prefixes)
    requires Inside(st, m) && Top(st) == FrameOf(e, Top(st).scope, m) && AllCovered(e.kids, m)
    ensures BodyRead(st, Feed(st, CharsOf(e.text) + RenderAll(e.kids, m) + [Close(QualifyWith(e.tag, m))]), ReadElem(e, Top(st).scope, m))
    decreases e, 1
  {
    var content, close := CharsOf(e.text) + RenderAll(e.kids, m), Close(QualifyWith(e.tag, m));
    var read := ReadElem(e, Top(st).scope, m);
    hide BodyRead;
    hide KidsRead;
    hide Feed;
    hide ScopeFor;
    FeedAppend(st, content, [close]);
    ContentIsRead(st, e, m);
    CloseIsRead(st, Feed(st, content), read, QualifyWith(e.tag, m), m);
  }

  lemma CloseIsRead(st: State, st1: State, read: Elem, tag: QName, m: Prefixes)
    requires Inside(st, m) && Top(st).written == tag && Top(st).kids == []
    requires KidsRead(st, st1, read.text, read.kids)
    ensures BodyRead(st, Step(st1, Close(tag)), read)
  {
    hide ScopeFor;
    assert [] + read.kids == read.kids;
    hide EndElement;
    hide AllGood;
  }

  /** A start tag read as `begun`, and what follows up to the end tag. */
  ghost predicate Closed(begun: State, after: State, f: Frame, read: Elem)
    requires begun.Reading? ==> begun.stack != []
  {
    if begun.Failed? then after.Failed? else Top(begun) == f && BodyRead(begun, after, read)
  }

  /** What reading a start tag comes to. */
  predicate Begun(st: State, begun: State, f: Frame)
    requires st.Reading?
  {
    if HasRoom(st) && HeadGood(f.tag, f.attrs) then begun == Reading(st.stack + [f], st.root, st.count + 1, st.prefixes)
    else begun.Failed?
  }

  lemma ElementIsRead(st: State, begun: State, after: State, f: Frame, read: Elem)
    requires st.Reading? && 0 < |st.stack| <= MAX_DEPTH && st.count <= MAX_ELEMENTS
    requires Begun(st, begun, f) && Closed(begun, after, f, read)
    requires read.tag == f.tag && read.attrs == f.attrs && f.text == "" && f.kids == [] && read.tail == ""
    ensures ElemRead(st, after, read)
  {
    GoodHere(read, |st.stack|, st.count);
    hide Good;
    hide AllGood;
    hide HeadGood;
  }

  lemma GoodHere(e: Elem, depth: nat, count: nat)
    ensures Good(e, depth, count)
            <==> count + 1 <= MAX_ELEMENTS && depth < MAX_DEPTH && HeadGood(e.tag, e.attrs) && AllGood(e.kids, depth + 1, count + 1)
  {
  }

  lemma {:induction false} WholeIsRead(st: State, e: Elem, m: Prefixes)
    requires Inside(st, m) && Covered(e, m)
    ensures ElemRead(st, Feed(st, RenderWhole(e, m)), ReadElem(e, Top(st).scope, m).(tail := ""))
    decreases e, 2
  {
    var scope := Top(st).scope;
    var begun := StartElement(st, QualifyWith(e.tag, m), QualifyAttrs(e.attrs, m), []);
    var f, read := FrameOf(e, scope, m), ReadElem(e, scope, m);
    StartIsRead(st, e, [], Declared(scope, st.prefixes), m);
    hide StartElement;
    hide Feed;
    hide ScopeFor;
    hide HeadGood;
    assert begun.Reading? ==> Inside(begun, m) && Top(begun) == f;
    ElementCloses(begun, st, e, [], m);
    DeclaringNothing(e, m);
    hide RenderWhole;
    hide Declaring;
    ElementIsRead(st, begun, Feed(st, RenderWhole(e, m)), f, read.(tail := ""));
  }

  /** The tokens of `e`, with its start tag declaring `decls`. */
  function Declaring(e: Elem, decls: seq<Decl>, m: Prefixes): seq<Token> {
    var whole := RenderWhole(e, m);
    [whole[0].(decls := decls)] + whole[1..]
  }

  lemma DeclaringNothing(e: Elem, m: Prefixes)
    ensures Declaring(e, [], m) == RenderWhole(e, m)
  {
  }

  lemma {:induction false} ElementCloses(begun: State, st: State, e: Elem, decls: seq<Decl>, m: Prefixes)
    requires st.Reading? && begun == StartElement(st, QualifyWith(e.tag, m), QualifyAttrs(e.attrs, m), decls)
    requires begun.Reading? ==> Inside(begun, m) && Top(begun) == FrameOf(e, Top(begun).scope, m)
    requires Covered(e, m)
    ensures begun.Reading? ==>
              Closed(begun, Feed(st, Declaring(e, decls, m)), Top(begun), ReadElem(e, Top(begun).scope, m))
    ensures begun.Failed? ==> Feed(st, Declaring(e, decls, m)).Failed?
    decreases e, 2, 0
  {
    var tag, attrs := QualifyWith(e.tag, m), QualifyAttrs(e.attrs, m);
    hide StartElement;
    hide ScopeFor;
    if e.kids == [] && e.text == "" {
      LeafStep(begun, st, e, decls, m);
      hide Feed;
      hide EndElement;
      if begun.Reading? {
        LeafCloses(begun, e, m);
      }
    } else {
      var body := CharsOf(e.text) + RenderAll(e.kids, m) + [Close(tag)];
      assert Declaring(e, decls, m) == [Open(tag, attrs, decls)] + body;
      FeedAppend(st, [Open(tag, attrs, decls)], body);
      FeedOne(st, Open(tag, attrs, decls));
      hide Feed;
      hide BodyRead;
      hide Declaring;
      if begun.Failed? {
        FeedFailed(begun, body);
      } else {
        BodyIsRead(begun, e, m);
      }
    }
  }

  lemma FeedOne(st: State, token: Token)
    ensures Feed(st, [token]) == Step(st, token)
  {
  }

  lemma LeafStep(begun: State, st: State, e: Elem, decls: seq<Decl>, m: Prefixes)
    requires st.Reading? && begun == StartElement(st, QualifyWith(e.tag, m), QualifyAttrs(e.attrs, m), decls)
    requires e.kids == [] && e.text == "" && (begun.Reading? ==> begun.stack != [])
    ensures Feed(st, Declaring(e, decls, m)) == if begun.Failed? then begun else EndElement(begun)
  {
    hide StartElement;
    hide EndElement;
    hide QualifyWith;
    hide QualifyAttrs;
    var token := Empty(QualifyWith(e.tag, m), QualifyAttrs(e.attrs, m), decls);
    assert Declaring(e, decls, m) == [token];
  }

  lemma LeafCloses(begun: State, e: Elem, m: Prefixes)
    requires Inside(begun, m) && Top(begun) == FrameOf(e, Top(begun).scope, m) && e.kids == [] && e.text == ""
    ensures BodyRead(begun, EndElement(begun), ReadElem(e, Top(begun).scope, m))
  {
    hide EndElement;
    hide ScopeFor;
    assert begun == Put(begun, Top(begun), begun.count);
  }
}
