/** The parts that come back unchanged from writing and reading: an exact condition. */
module XmlRoundTrip {
  import opened Common
  import opened Xml
  import opened XmlParse
  import opened XmlProofs

  // ----- the declarations are read back -----

  ghost predicate Inverse(scope: Scope, prefixes: Prefixes) {
    && (forall u :: u in prefixes ==> prefixes[u] in scope && scope[prefixes[u]] == u)
    && (forall p :: p in scope ==> scope[p] in prefixes && prefixes[scope[p]] == p)
  }

  ghost predicate Fresh(names: Prefixes, prefixes: Prefixes) {
    && InjectiveMap(names) && "" !in names && XML_NS !in names
    && (forall u :: u in names ==> names[u] != "xml" && u !in prefixes)
    && (forall u, v :: u in names && v in prefixes ==> names[u] != prefixes[v])
  }

  lemma OneMore(names: Prefixes, u: string, before: Declared)
    requires Inverse(before.scope, before.prefixes) && Fresh(names, before.prefixes) && u in names
    ensures var d := Decl(names[u], u);
            && Allowed(d) && Note(before.prefixes, d) == before.prefixes[u := names[u]]
            && Inverse(before.scope[names[u] := u], before.prefixes[u := names[u]])
            && Fresh(names - {u}, before.prefixes[u := names[u]])
  {
    assert names[u] !in before.prefixes.Values;
  }

  lemma {:induction false} DeclarationsAreRead(names: Prefixes, before: Declared)
    requires Inverse(before.scope, before.prefixes) && Fresh(names, before.prefixes)
    ensures var after := DeclareAll(Declarations(names), before);
            && after.Some? && after.value.prefixes == before.prefixes + names
            && Inverse(after.value.scope, after.value.prefixes)
    decreases |names|
  {
    assert InjectiveMap(names) && "" !in names;
    hide Fresh;
    hide InjectiveMap;
    hide First;
    hide Inverse;
    hide Declarations;
    hide DeclareAll;
    hide Note;
    if names == map[] {
      assert before.prefixes + names == before.prefixes;
      NothingDeclared(before);
    } else {
      FirstExists(names);
      var u :| First(u, names);
      DeclarationsStep(names, u);
      OneMore(names, u, before);
      var next := Declared(before.scope[names[u] := u], before.prefixes[u := names[u]]);
      DeclarationsAreRead(names - {u}, next);
      MoveOver(before.prefixes, names, u);
    }
  }

  lemma MoveOver(prefixes: Prefixes, names: Prefixes, u: string)
    requires u in names
    ensures prefixes[u := names[u]] + (names - {u}) == prefixes + names
  {
  }

  lemma NothingDeclared(before: Declared)
    ensures DeclareAll(Declarations(map[]), before) == Some(before)
  {
  }

  ghost function TableOf(p: Part): Prefixes { PrintElem(p.root, true, Given(p)).names }

  lemma TableFacts(p: Part)
    requires Plausible(p.prefixes)
    ensures InjectiveMap(TableOf(p)) && Extends(Given(p), TableOf(p))
    ensures XML_NS in TableOf(p) && TableOf(p)[XML_NS] == "xml"
  {
    GivenIsInjective(p);
    PrintKeepsInjective(p.root, true, Given(p));
    PrintExtends(p.root, true, Given(p));
  }

  lemma ScopeOfTable(p: Part) returns (scope: Scope)
    requires Plausible(p.prefixes) && "" !in TableOf(p)
    ensures ScopeFor(scope, TableOf(p))
    ensures DeclareAll(Declarations(TableOf(p) - {XML_NS}), Declared(map[], map[])) == Some(Declared(scope, TableOf(p) - {XML_NS}))
  {
    var m := TableOf(p);
    TableFacts(p);
    hide TableOf;
    hide Extends;
    hide DeclareAll;
    hide Declarations;
    hide ScopeFor;
    hide Fresh;
    var names := m - {XML_NS};
    DeclarationsAreRead(names, Declared(map[], map[]));
    assert map[] + names == names;
    scope := DeclareAll(Declarations(names), Declared(map[], map[])).value.scope;
    InverseIsScopeFor(scope, m);
  }

  lemma InverseIsScopeFor(scope: Scope, m: Prefixes)
    requires InjectiveMap(m) && "" !in m && XML_NS in m && m[XML_NS] == "xml"
    requires Inverse(scope, m - {XML_NS})
    ensures ScopeFor(scope, m)
  {
    forall u | u in m && u != XML_NS
      ensures m[u] in scope && scope[m[u]] == u
    {
      assert u in m - {XML_NS};
    }
  }

  // ----- which trees are read as they were -----

  predicate HasDefault(names: Prefixes) { "" in names.Values }

  /** No carriage return, which would be read as a line feed. */
  predicate TextKept(data: string) { '\r' !in data }

  predicate AttrKept(name: string, names: Prefixes) {
    Splits(name) && (Braced(name) && UriOf(name) in names ==> names[UriOf(name)] != "")
  }

  predicate AttrsKept(attrs: seq<Attr>, names: Prefixes) {
    forall i :: 0 <= i < |attrs| ==> AttrKept(attrs[i].name, names)
  }

  /** Every name is taken apart where it was put together, no element without a namespace is below a default
      one, no attribute is in a default namespace, and no text has a carriage return. */
  predicate Kept(e: Elem, names: Prefixes)
    decreases e
  {
    Splits(e.tag) && (!Braced(e.tag) ==> !HasDefault(names)) && AttrsKept(e.attrs, names) && TextKept(e.text) && AllKept(e.kids, names)
  }

  predicate AllKept(kids: seq<Elem>, names: Prefixes)
    decreases kids
  {
    kids == [] || (Kept(kids[0], names) && TextKept(kids[0].tail) && AllKept(kids[1..], names))
  }

  /** What reading the tree depends on: a scope for `m`, which grew from `names`. */
  ghost predicate Setting(scope: Scope, m: Prefixes, names: Prefixes) {
    ScopeFor(scope, m) && Extends(names, m) && XML_NS in names
  }

  lemma {:induction false} TextKeptExactly(data: string)
    ensures LineEnds(data) == data <==> TextKept(data)
    ensures |LineEnds(data)| <= |data|
  {
    if data != "" {
      TextKeptExactly(data[1..]);
      assert data == [data[0]] + data[1..];
      if data[0] == '\r' && |data| > 1 && data[1] == '\n' {
        TextKeptExactly(data[2..]);
      }
    }
  }

  /** How a text is read that begins with a character other than a carriage return, with a whole end of a line, or
      with a carriage return alone. */
  lemma LineEndsBegin(data: string)
    requires data != ""
    ensures data[0] != '\r' ==> LineEnds(data) == [data[0]] + LineEnds(data[1..])
    ensures |data| > 1 && data[..2] == "\r\n" ==> LineEnds(data) == "\n" + LineEnds(data[2..])
    ensures data[0] == '\r' && (|data| == 1 || data[1] != '\n') ==> LineEnds(data) == "\n" + LineEnds(data[1..])
  {
    assert |data| > 1 ==> data[..2] == [data[0], data[1]];
  }

  /** So it is wherever they stand: a text that is not cut between the two characters of an end of a line is read part
      by part. */
  lemma {:induction false} LineEndsExactly(a: string, b: string)
    requires a == "" || b == "" || a[|a| - 1] != '\r' || b[0] != '\n'
    ensures LineEnds(a + b) == LineEnds(a) + LineEnds(b)
  {
    if a == "" {
      assert a + b == b;
    } else {
      assert (a + b)[1..] == a[1..] + b;
      if |a| > 1 && a[0] == '\r' && a[1] == '\n' {
        assert (a + b)[2..] == a[2..] + b;
        LineEndsExactly(a[2..], b);
      } else {
        LineEndsExactly(a[1..], b);
      }
    }
  }

  lemma TagKeptExactly(name: string, scope: Scope, m: Prefixes, names: Prefixes)
    requires Setting(scope, m, names) && NameCovered(name, m)
    ensures ReadTag(name, scope) == name && name != "" <==> Splits(name) && (!Braced(name) ==> !HasDefault(names))
  {
    DefaultScope(scope, m, names);
    hide LocalName;
    hide UriOf;
  }

  lemma DefaultScope(scope: Scope, m: Prefixes, names: Prefixes)
    requires Setting(scope, m, names)
    ensures "" in scope ==> HasDefault(names) && scope[""] != ""
    ensures HasDefault(names) ==> "" in scope
  {
    if "" in scope {
      assert m[scope[""]] == "";
      assert scope[""] in names;
    }
    if HasDefault(names) {
      var u :| u in names && names[u] == "";
      assert m[u] == "";
    }
  }

  lemma AttrKeptExactly(name: string, scope: Scope, m: Prefixes, names: Prefixes)
    requires Setting(scope, m, names) && NameCovered(name, m)
    ensures ReadAttrName(name, m) == name && name != "" <==> AttrKept(name, names)
  {
    if Braced(name) {
      assert UriOf(name) in names ==> m[UriOf(name)] == names[UriOf(name)];
      assert LocalName(LocalOf(name)) ==> LocalOf(name)[0] != '{';
    }
  }

  lemma AttrsKeptExactly(attrs: seq<Attr>, scope: Scope, m: Prefixes, names: Prefixes)
    requires Setting(scope, m, names) && AttrsCovered(attrs, m)
    ensures ReadAttrs(attrs, m) == attrs && AttrsNamed(attrs) <==> AttrsKept(attrs, names)
  {
    hide ReadAttrName;
    hide AttrKept;
    hide Setting;
    var read := ReadAttrs(attrs, m);
    forall i | 0 <= i < |attrs|
      ensures read[i] == attrs[i] && attrs[i].name != "" <==> AttrKept(attrs[i].name, names)
    {
      AttrKeptExactly(attrs[i].name, scope, m, names);
    }
    if AttrsKept(attrs, names) {
      assert read == attrs;
    }
  }

  lemma {:induction false} ElemKeptExactly(e: Elem, scope: Scope, m: Prefixes, names: Prefixes)
    requires Setting(scope, m, names) && Covered(e, m)
    ensures ReadElem(e, scope, m).(tail := e.tail) == e && Named(e) <==> Kept(e, names)
    decreases e
  {
    TagKeptExactly(e.tag, scope, m, names);
    AttrsKeptExactly(e.attrs, scope, m, names);
    TextKeptExactly(e.text);
    AllKeptExactly(e.kids, scope, m, names);
    hide ReadTag;
    hide ReadAttrs;
    hide LineEnds;
    hide TextKept;
    hide Splits;
    hide Braced;
    hide HasDefault;
    hide AttrsKept;
    hide AttrsNamed;
    hide Setting;
    hide AllKept;
  }

  lemma {:induction false} AllKeptExactly(kids: seq<Elem>, scope: Scope, m: Prefixes, names: Prefixes)
    requires Setting(scope, m, names) && AllCovered(kids, m)
    ensures ReadAll(kids, scope, m) == kids && AllNamed(kids) <==> AllKept(kids, names)
    decreases kids
  {
    hide Setting;
    if kids != [] {
      ElemKeptExactly(kids[0], scope, m, names);
      TextKeptExactly(kids[0].tail);
      AllKeptExactly(kids[1..], scope, m, names);
      assert kids == [kids[0]] + kids[1..];
      var read := ReadAll(kids, scope, m);
      assert read[0] == ReadElem(kids[0], scope, m) && read[1..] == ReadAll(kids[1..], scope, m);
      hide Kept;
      hide ReadElem;
    }
  }

  // ----- no name asks for a prefix of no namespace -----

  lemma {:induction false} AttrsAskForUris(attrs: seq<Attr>, names: Prefixes, given: Prefixes)
    requires "" !in names && AttrsKept(attrs, given)
    ensures "" !in AssignAttrs(attrs, names)
  {
    if attrs != [] {
      assert AttrKept(attrs[0].name, given);
      assert forall i :: 0 <= i < |attrs[1..]| ==> attrs[1..][i] == attrs[i + 1];
      AttrsAskForUris(attrs[1..], AssignName(names, attrs[0].name), given);
    }
  }

  lemma {:induction false} KeptAsksForUris(e: Elem, top: bool, names: Prefixes, given: Prefixes)
    requires "" !in names && Kept(e, given)
    ensures "" !in PrintElem(e, top, names).names
    decreases e
  {
    AttrsAskForUris(e.attrs, names, given);
    AllKeptAskForUris(e.kids, NamesAt(e, names), given);
    hide AssignAttrs;
  }

  lemma {:induction false} AllKeptAskForUris(kids: seq<Elem>, names: Prefixes, given: Prefixes)
    requires "" !in names && AllKept(kids, given)
    ensures "" !in PrintKids(kids, names).names
    decreases kids
  {
    if kids != [] {
      KeptAsksForUris(kids[0], false, names, given);
      AllKeptAskForUris(kids[1..], PrintElem(kids[0], false, names).names, given);
    }
  }

  // ----- the whole part -----

  ghost predicate Survives(p: Part)
    requires Plausible(p.prefixes)
  {
    && Serialized(p).Some?
    && Parsed(Serialized(p).value) == Ok(Part(p.root.(tail := ""), TableOf(p) - {XML_NS}))
  }

  /** The whole text of a part, read from the start. */
  lemma PartIsRead(e: Elem, decls: seq<Decl>, scope: Scope, m: Prefixes)
    requires ScopeFor(scope, m) && Covered(e, m)
    requires DeclareAll(decls, Declared(map[], map[])) == Some(Declared(scope, m - {XML_NS}))
    ensures var read := ReadElem(e, scope, m);
            var r := Parsed(Declaring(e, decls, m));
            if Good(read, 0, 0) then r == Ok(Part(read.(tail := ""), m - {XML_NS})) else r.Err?
  {
    var begun := StartElement(Start, QualifyWith(e.tag, m), QualifyAttrs(e.attrs, m), decls);
    var read := ReadElem(e, scope, m);
    var all := Feed(Start, Declaring(e, decls, m));
    RootBegins(e, decls, scope, m);
    RootHead(e, scope, m);
    hide StartElement;
    hide Feed;
    hide Declaring;
    hide Inside;
    hide RenderWhole;
    hide HeadGood;
    hide ReadElem;
    hide ScopeFor;
    ElementCloses(begun, Start, e, decls, m);
    hide Covered;
    GoodHere(read, 0, 0);
    hide Good;
    if begun.Reading? {
      RootCloses(begun, all, FrameOf(e, scope, m), read, m - {XML_NS});
    }
  }

  lemma RootHead(e: Elem, scope: Scope, m: Prefixes)
    ensures var read := ReadElem(e, scope, m);
            read.tag == ReadTag(e.tag, scope) && read.attrs == ReadAttrs(e.attrs, m)
  {
  }

  lemma RootCloses(begun: State, after: State, f: Frame, read: Elem, prefixes: Prefixes)
    requires begun == Reading([f], None, 1, prefixes) && BodyRead(begun, after, read)
    requires f.tag == read.tag && f.attrs == read.attrs
    ensures if AllGood(read.kids, 1, 1) then Finish(after) == Ok(Part(read.(tail := ""), prefixes)) else Finish(after).Err?
  {
    hide AllGood;
  }

  lemma RootBegins(e: Elem, decls: seq<Decl>, scope: Scope, m: Prefixes)
    requires ScopeFor(scope, m) && Covered(e, m)
    requires DeclareAll(decls, Declared(map[], map[])) == Some(Declared(scope, m - {XML_NS}))
    ensures var begun := StartElement(Start, QualifyWith(e.tag, m), QualifyAttrs(e.attrs, m), decls);
            if HeadGood(ReadTag(e.tag, scope), ReadAttrs(e.attrs, m)) then
              begun == Reading([FrameOf(e, scope, m)], None, 1, m - {XML_NS}) && Inside(begun, m)
            else begun.Failed?
  {
    StartIsRead(Start, e, decls, Declared(scope, m - {XML_NS}), m);
    hide ScopeFor;
    hide StartElement;
    hide HeadGood;
    hide ReadTag;
    assert [] + [FrameOf(e, scope, m)] == [FrameOf(e, scope, m)];
  }

  /** Writing a part and reading it back gives the same tree, but for text behind the root, and the whole
      table of prefixes, if and only if: no default namespace was undeclared in it, it is within the limits
      on size and depth, and its names and texts are kept. Attribute names of an element are taken as
      distinct, as keys are. */
  lemma RoundTrip(p: Part)
    requires Plausible(p.prefixes) && Distinct(p.root)
    ensures Survives(p)
            <==> "" !in p.prefixes && Size(p.root) <= MAX_ELEMENTS && Depth(p.root) <= MAX_DEPTH && Kept(p.root, Given(p))
  {
    var m := TableOf(p);
    TableFacts(p);
    if Kept(p.root, Given(p)) && "" !in p.prefixes {
      KeptAsksForUris(p.root, true, Given(p), Given(p));
    }
    if "" !in m {
      hide Kept;
      hide Good;
      hide Extends;
      hide InjectiveMap;
      hide TableOf;
      WrittenIsRead(p);
    }
  }

  /** What the written part is read as. */
  lemma WrittenIsRead(p: Part)
    requires Plausible(p.prefixes) && Distinct(p.root) && "" !in TableOf(p)
    ensures Serialized(p).Some?
    ensures Parsed(Serialized(p).value) == Ok(Part(p.root.(tail := ""), TableOf(p) - {XML_NS}))
            <==> Size(p.root) <= MAX_ELEMENTS && Depth(p.root) <= MAX_DEPTH && Kept(p.root, Given(p))
  {
    var m := TableOf(p);
    TableFacts(p);
    var scope := ScopeOfTable(p);
    var decls := Declarations(m - {XML_NS});
    PrintIsRender(p.root, true, Given(p), m) by { assert Extends(m, m); }
    assert WithDecls(RenderWhole(p.root, m) + [], decls) == Declaring(p.root, decls, m);
    hide Declaring;
    hide Parsed;
    hide RenderWhole;
    PartIsRead(p.root, decls, scope, m);
    ElemKeptExactly(p.root, scope, m, Given(p));
    hide Kept;
    hide ReadElem;
    hide ScopeFor;
    var read := ReadElem(p.root, scope, m);
    if read.(tail := "") == p.root.(tail := "") {
      ReadRootIsGood(p.root, read);
    }
    hide Good;
  }

  lemma ReadRootIsGood(e: Elem, read: Elem)
    requires read.(tail := "") == e.(tail := "") && Distinct(e)
    ensures Good(read, 0, 0) <==> Size(e) <= MAX_ELEMENTS && Depth(e) <= MAX_DEPTH && Named(e)
  {
  }

  // ----- a namespace with a closing brace -----

  /** Whatever else holds of a part, a closing brace in the namespace of its root keeps it from coming back. */
  lemma BraceIsLost(p: Part, uri: string, local: string)
    requires Plausible(p.prefixes) && Distinct(p.root) && p.root.tag == Clark(uri, local) && LocalName(local) && '}' in uri
    ensures !Survives(p)
  {
    ClarkExactly(uri, local);
    RoundTrip(p);
  }

  /** Such a part can be read: one empty element, its prefix declared for the namespace "u}v". */
  lemma BraceIsRead() returns (tokens: seq<Token>)
    ensures Parsed(tokens).Ok? && Distinct(Parsed(tokens).value.root)
    ensures Parsed(tokens).value == Part(Elem("{u}v}x", [], "", [], ""), map["u}v" := "a"])
    ensures !Survives(Parsed(tokens).value)
  {
    var attrs: seq<QAttr> := [];
    tokens := [Empty(QName("a", "x"), attrs, [Decl("a", "u}v")])];
    OnlyRootIsRead("a", "x", "u}v", attrs);
    ParsedIsPlausible(tokens);
    BraceIsLost(Parsed(tokens).value, "u}v", "x");
  }

  lemma OnlyRootIsRead(prefix: string, local: string, uri: string, attrs: seq<QAttr>)
    requires prefix != "" && prefix != "xml" && uri != "" && uri != XML_NS && LocalName(local) && attrs == []
    ensures Parsed([Empty(QName(prefix, local), attrs, [Decl(prefix, uri)])])
         == Ok(Part(Elem(Clark(uri, local), [], "", [], ""), map[uri := prefix]))
  {
    var decls := [Decl(prefix, uri)];
    assert DeclareAll(decls, Declared(map[], map[])) == Some(Declared(map[prefix := uri], map[uri := prefix])) by {
      assert decls[1..] == [];
    }
    var q := QName(prefix, local);
    assert StartElement(Start, q, attrs, decls)
        == Reading([Frame(Clark(uri, local), q, [], "", [], map[prefix := uri])], None, 1, map[uri := prefix]);
    hide StartElement;
    var token := Empty(q, attrs, decls);
    assert [token][..0] == [];
    assert Feed(Start, [token]) == Step(Start, token);
  }

  // ----- what was read may be written -----

  /** A name put together from a namespace, or none, and a local name. */
  ghost predicate Composed(name: string) {
    exists uri: string, local: string :: LocalName(local) && name == Clark(uri, local)
  }

  ghost predicate AttrsComposed(attrs: seq<Attr>) {
    forall i :: 0 <= i < |attrs| ==> Composed(attrs[i].name)
  }

  ghost predicate NamesComposed(e: Elem)
    decreases e
  {
    Composed(e.tag) && AttrsComposed(e.attrs) && AllComposed(e.kids)
  }

  ghost predicate AllComposed(kids: seq<Elem>)
    decreases kids
  {
    kids == [] || (NamesComposed(kids[0]) && AllComposed(kids[1..]))
  }

  lemma TagIsComposed(q: QName, scope: Scope)
    ensures TagName(q, scope).Some? ==> Composed(TagName(q, scope).value)
    ensures AttrName(q, scope).Some? ==> Composed(AttrName(q, scope).value)
  {
    if LocalName(q.local) {
      assert q.local == Clark("", q.local);
      hide LocalName;
      hide Clark;
    }
  }

  lemma {:induction false} AttrsAreComposed(attrs: seq<QAttr>, scope: Scope)
    ensures AttrNames(attrs, scope).Some? ==> AttrsComposed(AttrNames(attrs, scope).value)
  {
    hide Composed;
    hide AttrName;
    if attrs != [] {
      TagIsComposed(attrs[0].name, scope);
      AttrsAreComposed(attrs[1..], scope);
    }
  }

  lemma {:induction false} MoreKids(kids: seq<Elem>, e: Elem)
    ensures AllComposed(kids + [e]) <==> AllComposed(kids) && NamesComposed(e)
    ensures SizeAll(kids + [e]) == SizeAll(kids) + Size(e)
    ensures DepthAll(kids + [e]) == if DepthAll(kids) > Depth(e) then DepthAll(kids) else Depth(e)
    ensures AllDistinct(kids + [e]) <==> AllDistinct(kids) && Distinct(e)
  {
    if kids == [] {
      assert kids + [e] == [e];
    } else {
      assert (kids + [e])[1..] == kids[1..] + [e];
      MoreKids(kids[1..], e);
    }
  }

  function Opened(stack: seq<Frame>): nat {
    if stack == [] then 0 else Opened(stack[..|stack| - 1]) + 1 + SizeAll(stack[|stack| - 1].kids)
  }

  ghost predicate FrameWithin(f: Frame, level: nat) {
    && Composed(f.tag) && AttrsComposed(f.attrs) && AllComposed(f.kids)
    && DistinctNames(f.attrs) && AllDistinct(f.kids) && level + 1 + DepthAll(f.kids) <= MAX_DEPTH
  }

  ghost predicate RootWithin(e: Elem, count: nat) {
    Size(e) <= count && Depth(e) <= MAX_DEPTH && Distinct(e) && NamesComposed(e)
  }

  ghost predicate Within(st: State) {
    && st.Reading? && Opened(st.stack) <= st.count <= MAX_ELEMENTS
    && (forall i :: 0 <= i < |st.stack| ==> FrameWithin(st.stack[i], i))
    && (st.root.Some? ==> st.stack == [] && RootWithin(st.root.value, st.count))
  }

  lemma OneMoreOpened(front: seq<Frame>, f: Frame)
    ensures Opened(front + [f]) == Opened(front) + 1 + SizeAll(f.kids)
  {
    assert (front + [f])[..|front|] == front;
  }

  /** Exchanging the innermost frame for one that is within the limits. */
  lemma ExchangeTop(st: State, front: seq<Frame>, f: Frame)
    requires Within(st) && front <= st.stack && FrameWithin(f, |front|) && (st.stack != [] ==> |front| < |st.stack|)
    requires Opened(front) + 1 + SizeAll(f.kids) <= st.count && st.root.None?
    ensures Within(st.(stack := front + [f]))
  {
    hide Opened;
    hide SizeAll;
    hide FrameWithin;
    hide RootWithin;
    OneMoreOpened(front, f);
    var stack := front + [f];
    forall i | 0 <= i < |stack|
      ensures FrameWithin(stack[i], i)
    {
      if i == |front| {
        assert stack[i] == f;
      } else {
        assert stack[i] == front[i] == st.stack[i];
      }
    }
  }

  lemma EndStaysWithin(st: State)
    requires Within(st) && st.stack != []
    ensures Within(EndElement(st))
  {
    var n := |st.stack| - 1;
    var f := st.stack[n];
    var e := Elem(f.tag, f.attrs, f.text, f.kids, "");
    assert FrameWithin(f, n);
    if n > 0 {
      var g := st.stack[n - 1];
      assert FrameWithin(g, n - 1);
      assert st.stack[..n][..n - 1] == st.stack[..n - 1];
      MoreKids(g.kids, e);
      hide FrameWithin;
      assert Opened(st.stack) == Opened(st.stack[..n - 1]) + 1 + SizeAll(g.kids) + 1 + SizeAll(f.kids);
      FrameTakesChild(g, e, n - 1, f);
      ExchangeTop(st, st.stack[..n - 1], g.(kids := g.kids + [e]));
    }
  }

  lemma FrameTakesChild(g: Frame, e: Elem, level: nat, f: Frame)
    requires FrameWithin(g, level) && FrameWithin(f, level + 1)
    requires e.tag == f.tag && e.attrs == f.attrs && e.kids == f.kids
    ensures FrameWithin(g.(kids := g.kids + [e]), level)
  {
    MoreKids(g.kids, e);
  }

  lemma TextStaysWithin(st: State, data: string)
    requires Within(st) && st.stack != []
    ensures Within(st.(stack := st.stack[..|st.stack| - 1] + [AddText(st.stack[|st.stack| - 1], data)]))
  {
    var n := |st.stack| - 1;
    var f := st.stack[n];
    var g := AddText(f, data);
    assert FrameWithin(f, n);
    if f.kids != [] {
      var k := |f.kids| - 1;
      var last := f.kids[k];
      assert f.kids == f.kids[..k] + [last];
      MoreKids(f.kids[..k], last);
      MoreKids(f.kids[..k], last.(tail := last.tail + data));
    }
    ExchangeTop(st, st.stack[..n], g);
  }

  lemma StartStaysWithin(st: State, q: QName, attrs: seq<QAttr>, decls: seq<Decl>)
    requires Within(st)
    ensures var after := StartElement(st, q, attrs, decls);
            after.Failed? || (Within(after) && after.stack != [])
  {
    var after := StartElement(st, q, attrs, decls);
    if after.Reading? {
      var f := after.stack[|st.stack|];
      assert after.stack == st.stack + [f];
      TagIsComposed(q, f.scope);
      AttrsAreComposed(attrs, f.scope);
      assert TagName(q, f.scope) == Some(f.tag) && AttrNames(attrs, f.scope) == Some(f.attrs);
      hide Composed;
      hide StartElement;
      hide DistinctNames;
      assert after.stack[..|st.stack|] == st.stack;
      forall i | 0 <= i < |after.stack|
        ensures FrameWithin(after.stack[i], i)
      {
        assert i < |st.stack| ==> after.stack[i] == st.stack[i];
      }
    }
  }

  lemma {:induction false} FeedStaysWithin(tokens: seq<Token>)
    ensures Feed(Start, tokens).Failed? || Within(Feed(Start, tokens))
  {
    if tokens != [] {
      var n := |tokens| - 1;
      var st := Feed(Start, tokens[..n]);
      FeedStaysWithin(tokens[..n]);
      StepStaysWithin(st, tokens[n]);
    }
  }

  lemma StepStaysWithin(st: State, token: Token)
    requires st.Failed? || Within(st)
    ensures Step(st, token).Failed? || Within(Step(st, token))
  {
    hide Within;
    hide StartElement;
    hide EndElement;
    if st.Reading? {
      match token
      case Open(tag, attrs, decls) => StartStaysWithin(st, tag, attrs, decls);
      case Empty(tag, attrs, decls) =>
        StartStaysWithin(st, tag, attrs, decls);
        var begun := StartElement(st, tag, attrs, decls);
        if begun.Reading? { EndStaysWithin(begun); }
      case Chars(data) => if st.stack != [] { TextStaysWithin(st, LineEnds(data)); }
      case Ref(data) => if st.stack != [] { TextStaysWithin(st, data); }
      case Close(_) => if st.stack != [] { EndStaysWithin(st); }
    }
  }

  /** A part that was read survives being written and read again, if and only if its names and texts are
      kept: the limits and the prefixes need no second look. Its names were all put together from a namespace
      and a local name, so they are taken apart in the same place unless the namespace has a closing brace. */
  lemma ReadWriteRead(tokens: seq<Token>)
    requires Parsed(tokens).Ok?
    ensures var p := Parsed(tokens).value;
            && Plausible(p.prefixes) && NamesComposed(p.root)
            && (Survives(p) <==> "" !in p.prefixes && Kept(p.root, Given(p)))
  {
    FeedStaysWithin(tokens);
    ParsedIsPlausible(tokens);
    RoundTrip(Parsed(tokens).value);
  }

  // ----- writing what was read back -----

  lemma {:induction false} NothingNew(e: Elem, top: bool, m: Prefixes)
    requires Covered(e, m)
    ensures PrintElem(e, top, m).names == m
    decreases e
  {
    AttrsNothingNew(e.attrs, m);
    AllNothingNew(e.kids, m);
  }

  lemma {:induction false} AttrsNothingNew(attrs: seq<Attr>, m: Prefixes)
    requires AttrsCovered(attrs, m)
    ensures AssignAttrs(attrs, m) == m
  {
    if attrs != [] {
      assert NameCovered(attrs[0].name, m);
      assert AttrsCovered(attrs[1..], m) by {
        assert forall i :: 0 <= i < |attrs[1..]| ==> NameCovered(attrs[1..][i].name, m) by {
          assert forall i :: 0 <= i < |attrs[1..]| ==> attrs[1..][i] == attrs[i + 1];
        }
      }
      AttrsNothingNew(attrs[1..], m);
    }
  }

  lemma {:induction false} AllNothingNew(kids: seq<Elem>, m: Prefixes)
    requires AllCovered(kids, m)
    ensures PrintKids(kids, m).names == m
    decreases kids
  {
    if kids != [] {
      NothingNew(kids[0], false, m);
      AllNothingNew(kids[1..], m);
    }
  }

  /** Writing the part that came back gives the same tokens: prefixes do not drift. */
  lemma WritesTheSame(p: Part)
    requires Plausible(p.prefixes) && Distinct(p.root) && Survives(p)
    ensures var back := Parsed(Serialized(p).value).value;
            Plausible(back.prefixes) && Serialized(back) == Serialized(p)
  {
    var m := TableOf(p);
    var back := Part(p.root.(tail := ""), m - {XML_NS});
    TableFacts(p);
    ParsedIsPlausible(Serialized(p).value);
    assert Given(back) == m;
    PrintIsRender(p.root, true, Given(p), m) by { assert Extends(m, m); }
    assert Covered(back.root, m);
    NothingNew(back.root, true, m);
    PrintIsRender(back.root, true, m, m) by { assert Extends(m, m); }
    assert RenderWhole(back.root, m) == RenderWhole(p.root, m);
  }
}
