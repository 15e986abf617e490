/** What a document means, said of the document as a tree: where names are declared does not matter to the handlers,
    which only see one token after the other. */
module XmlDocuments {
  import opened Common
  import opened Xml
  import opened XmlParse
  import opened XmlProofs

  /** A stretch of text: written as it is, or by references. */
  datatype Piece = Plain(data: string) | Referred(data: string)

  /** An element of a document with the text behind it. */
  datatype Source =
    | Short(name: QName, attrs: seq<QAttr>, decls: seq<Decl>, tail: seq<Piece>)
    | Long(name: QName, attrs: seq<QAttr>, decls: seq<Decl>, text: seq<Piece>, kids: seq<Source>, tail: seq<Piece>)

  // ----- as tokens -----

  function PieceToken(p: Piece): Token { if p.Plain? then Chars(p.data) else Ref(p.data) }

  function TextTokens(pieces: seq<Piece>): seq<Token> {
    if pieces == [] then [] else TextTokens(pieces[..|pieces| - 1]) + [PieceToken(pieces[|pieces| - 1])]
  }

  function Tokens(s: Source): seq<Token>
    decreases s
  {
    match s
    case Short(name, attrs, decls, _) => [Empty(name, attrs, decls)]
    case Long(name, attrs, decls, text, kids, _) =>
      [Open(name, attrs, decls)] + (TextTokens(text) + KidsTokens(kids)) + [Close(name)]
  }

  function KidsTokens(kids: seq<Source>): seq<Token>
    decreases kids
  {
    if kids == [] then [] else Tokens(kids[0]) + TextTokens(kids[0].tail) + KidsTokens(kids[1..])
  }

  // ----- what it means -----

  /** The namespace of a prefix below the declarations `env`, outermost first: that of the nearest declaration of the
      prefix. An empty namespace undeclares it. */
  function Namespace(prefix: string, env: seq<Decl>): (r: Option<string>)
    ensures r.Some? ==> r.value != ""
  {
    if prefix == "xml" then Some(XML_NS)
    else if env == [] then None
    else
      var d := env[|env| - 1];
      if d.prefix != prefix then Namespace(prefix, env[..|env| - 1]) else if d.uri == "" then None else Some(d.uri)
  }

  function NameMeant(q: QName, env: seq<Decl>): Option<string> {
    if !LocalName(q.local) then None
    else if Namespace(q.prefix, env).Some? then Some("{" + Namespace(q.prefix, env).value + "}" + q.local)
    else if q.prefix == "" then Some(q.local)
    else None
  }

  /** An attribute without a prefix is in no namespace. */
  function AttrMeant(q: QName, env: seq<Decl>): Option<string> {
    if q.prefix != "" then NameMeant(q, env) else if LocalName(q.local) then Some(q.local) else None
  }

  function OrEmpty(name: Option<string>): string { if name.Some? then name.value else "" }

  function AttrsMeant(attrs: seq<QAttr>, env: seq<Decl>): (r: seq<Attr>)
    ensures |r| == |attrs|
  {
    seq(|attrs|, i requires 0 <= i < |attrs| => Attr(OrEmpty(AttrMeant(attrs[i].name, env)), attrs[i].value))
  }

  /** The prefix `xml` belongs to its namespace and the other way round; only the default namespace is undeclared. */
  predicate MayDeclare(d: Decl) {
    if d.prefix == "xml" then d.uri == "http://www.w3.org/XML/1998/namespace"
    else d.uri != "http://www.w3.org/XML/1998/namespace" && (d.prefix != "" ==> d.uri != "")
  }

  predicate AllMayDeclare(decls: seq<Decl>) { forall i :: 0 <= i < |decls| ==> MayDeclare(decls[i]) }

  predicate AllMeant(attrs: seq<QAttr>, env: seq<Decl>) {
    forall i :: 0 <= i < |attrs| ==> AttrMeant(attrs[i].name, env).Some?
  }

  /** A start tag says what it should below `env`: declarations, names, and no attribute twice. */
  predicate HeadSound(name: QName, attrs: seq<QAttr>, decls: seq<Decl>, env: seq<Decl>) {
    && AllMayDeclare(decls) && NameMeant(name, env + decls).Some? && AllMeant(attrs, env + decls)
    && DistinctNames(AttrsMeant(attrs, env + decls))
  }

  predicate Sound(s: Source, env: seq<Decl>)
    decreases s
  {
    HeadSound(s.name, s.attrs, s.decls, env) && (s.Long? ==> AllSound(s.kids, env + s.decls))
  }

  predicate AllSound(kids: seq<Source>, env: seq<Decl>)
    decreases kids
  {
    kids == [] || (Sound(kids[0], env) && AllSound(kids[1..], env))
  }

  function PieceSaid(p: Piece): string { if p.Plain? then LineEnds(p.data) else p.data }

  function Said(pieces: seq<Piece>): string {
    if pieces == [] then "" else Said(pieces[..|pieces| - 1]) + PieceSaid(pieces[|pieces| - 1])
  }

  function Meaning(s: Source, env: seq<Decl>): Elem
    decreases s
  {
    var here := env + s.decls;
    var tag, attrs, tail := OrEmpty(NameMeant(s.name, here)), AttrsMeant(s.attrs, here), Said(s.tail);
    match s
    case Short(_, _, _, _) => Elem(tag, attrs, "", [], tail)
    case Long(_, _, _, text, kids, _) => Elem(tag, attrs, Said(text), AllMeaning(kids, here), tail)
  }

  function AllMeaning(kids: seq<Source>, env: seq<Decl>): seq<Elem>
    decreases kids
  {
    if kids == [] then [] else [Meaning(kids[0], env)] + AllMeaning(kids[1..], env)
  }

  function Count(s: Source): (n: nat)
    decreases s
  {
    1 + if s.Long? then CountAll(s.kids) else 0
  }

  function CountAll(kids: seq<Source>): nat
    decreases kids
  {
    if kids == [] then 0 else Count(kids[0]) + CountAll(kids[1..])
  }

  function Levels(s: Source): (n: nat)
    decreases s
  {
    1 + if s.Long? then LevelsAll(s.kids) else 0
  }

  function LevelsAll(kids: seq<Source>): nat
    decreases kids
  {
    if kids == [] then 0
    else if Levels(kids[0]) > LevelsAll(kids[1..]) then Levels(kids[0]) else LevelsAll(kids[1..])
  }

  /** All declarations in the order of the document. */
  function Declarations(s: Source): seq<Decl>
    decreases s
  {
    s.decls + if s.Long? then AllDeclarations(s.kids) else []
  }

  function AllDeclarations(kids: seq<Source>): seq<Decl>
    decreases kids
  {
    if kids == [] then [] else Declarations(kids[0]) + AllDeclarations(kids[1..])
  }

  /** The table of prefixes after these declarations. */
  function Noted(decls: seq<Decl>, prefixes: Prefixes): Prefixes {
    if decls == [] then prefixes else Noted(decls[1..], Note(prefixes, decls[0]))
  }

  // ----- names and declarations -----

  /** The scope of a handler holds what the declarations `env` say. */
  ghost predicate Represents(scope: Scope, env: seq<Decl>) {
    forall p :: p != "xml" ==> Namespace(p, env) == if p in scope then Some(scope[p]) else None
  }

  lemma ScopeStep(scope: Scope, env: seq<Decl>, d: Decl)
    requires Represents(scope, env) && MayDeclare(d)
    ensures Represents(if d.uri == "" then scope - {""} else scope[d.prefix := d.uri], env + [d])
  {
    assert (env + [d])[..|env|] == env;
  }

  lemma {:induction false} DeclaredExactly(decls: seq<Decl>, before: Declared, env: seq<Decl>)
    requires Represents(before.scope, env)
    ensures var after := DeclareAll(decls, before);
            if AllMayDeclare(decls) then
              after.Some? && Represents(after.value.scope, env + decls) && after.value.prefixes == Noted(decls, before.prefixes)
            else after.None?
  {
    hide Represents;
    if decls == [] {
      assert env + decls == env;
    } else {
      var d, rest := decls[0], decls[1..];
      assert AllMayDeclare(decls) <==> MayDeclare(d) && AllMayDeclare(rest) by { MayDeclareSplit(decls); }
      if MayDeclare(d) {
        ScopeStep(before.scope, env, d);
        var scope := if d.uri == "" then before.scope - {""} else before.scope[d.prefix := d.uri];
        DeclaredExactly(rest, Declared(scope, Note(before.prefixes, d)), env + [d]);
        assert env + [d] + rest == env + decls;
      }
    }
  }

  lemma MayDeclareSplit(decls: seq<Decl>)
    requires decls != []
    ensures AllMayDeclare(decls) <==> MayDeclare(decls[0]) && AllMayDeclare(decls[1..])
  {
    assert forall i :: 0 < i < |decls| ==> decls[i] == decls[1..][i - 1];
  }

  lemma NameExactly(q: QName, scope: Scope, env: seq<Decl>)
    requires Represents(scope, env)
    ensures TagName(q, scope) == NameMeant(q, env) && AttrName(q, scope) == AttrMeant(q, env)
  {
    hide LocalName;
  }

  lemma {:induction false} AttrsExactly(attrs: seq<QAttr>, scope: Scope, env: seq<Decl>)
    requires Represents(scope, env)
    ensures AttrNames(attrs, scope) == if AllMeant(attrs, env) then Some(AttrsMeant(attrs, env)) else None
  {
    hide Represents;
    hide AttrName;
    hide AttrMeant;
    if attrs != [] {
      NameExactly(attrs[0].name, scope, env);
      AttrsExactly(attrs[1..], scope, env);
      assert AttrsMeant(attrs, env) == [Attr(OrEmpty(AttrMeant(attrs[0].name, env)), attrs[0].value)] + AttrsMeant(attrs[1..], env);
      assert forall i :: 0 < i < |attrs| ==> attrs[i] == attrs[1..][i - 1];
    }
  }

  // ----- the handlers -----

  /** Where reading stands below the declarations `env`. */
  ghost predicate Within(st: State, env: seq<Decl>) {
    && st.Reading? && (st.stack == [] ==> st.root.None?) && |st.stack| <= MAX_DEPTH && st.count <= MAX_ELEMENTS
    && Represents(ScopeOf(st), env)
  }

  predicate Fits(count: nat, more: nat, depth: nat, levels: nat) {
    count + more <= 5_000_000 && depth + levels <= 256
  }

  /** The frame a start tag opens. */
  function Opened(s: Source, env: seq<Decl>, scope: Scope): Frame {
    Frame(OrEmpty(NameMeant(s.name, env + s.decls)), s.name, AttrsMeant(s.attrs, env + s.decls), "", [], scope)
  }

  lemma StartTaken(st: State, s: Source, env: seq<Decl>)
    requires Within(st, env)
    ensures var after := StartElement(st, s.name, s.attrs, s.decls);
            if HeadSound(s.name, s.attrs, s.decls, env) && Fits(st.count, 1, |st.stack|, 1) then
              && Within(after, env + s.decls)
              && after == Reading(st.stack + [Opened(s, env, ScopeOf(after))], st.root, st.count + 1, Noted(s.decls, st.prefixes))
            else after.Failed?
  {
    var before := Declared(ScopeOf(st), st.prefixes);
    DeclaredExactly(s.decls, before, env);
    var declared := DeclareAll(s.decls, before);
    if declared.Some? {
      NameExactly(s.name, declared.value.scope, env + s.decls);
      AttrsExactly(s.attrs, declared.value.scope, env + s.decls);
    }
    hide Represents;
    hide AllMeant;
    hide AttrsMeant;
    hide AttrNames;
    hide AllMayDeclare;
    hide DistinctNames;
    hide TagName;
    hide NameMeant;
    hide DeclareAll;
  }

  lemma AddTextTwice(f: Frame, a: string, b: string)
    ensures AddText(AddText(f, a), b) == AddText(f, a + b)
  {
    if f.kids == [] {
      assert f.text + a + b == f.text + (a + b);
    } else {
      var n := |f.kids| - 1;
      var last := f.kids[n];
      assert last.tail + a + b == last.tail + (a + b);
      var kids := AddText(f, a).kids;
      assert kids[|kids| - 1] == last.(tail := last.tail + a) && kids[..n] == f.kids[..n];
    }
  }

  lemma NoTextAdded(st: State)
    requires st.Reading? && st.stack != []
    ensures Put(st, AddText(Top(st), ""), st.count) == st
  {
    var f := Top(st);
    if f.kids == [] {
      assert f.text + "" == f.text;
    } else {
      var last := f.kids[|f.kids| - 1];
      assert last.tail + "" == last.tail;
      assert f.kids[..|f.kids| - 1] + [last] == f.kids;
    }
    assert AddText(f, "") == f;
    assert st.stack[..|st.stack| - 1] + [f] == st.stack;
  }

  lemma PieceTaken(st: State, p: Piece)
    requires st.Reading? && st.stack != []
    ensures Step(st, PieceToken(p)) == Put(st, AddText(Top(st), PieceSaid(p)), st.count)
  {
    hide LineEnds;
    hide Blank;
    hide AddText;
  }

  lemma {:induction false} TextTaken(st: State, pieces: seq<Piece>)
    requires st.Reading? && st.stack != []
    ensures Feed(st, TextTokens(pieces)) == Put(st, AddText(Top(st), Said(pieces)), st.count)
  {
    hide AddText;
    if pieces == [] {
      NoTextAdded(st);
    } else {
      var n := |pieces| - 1;
      var p := pieces[n];
      var tokens := TextTokens(pieces[..n]);
      TextTaken(st, pieces[..n]);
      assert TextTokens(pieces)[..|tokens|] == tokens;
      AddTextTwice(Top(st), Said(pieces[..n]), PieceSaid(p));
      PieceTaken(Feed(st, tokens), p);
      hide PieceSaid;
      hide PieceToken;
      hide Step;
    }
  }

  /** The state with `e` put where it belongs. */
  function Placed(st: State, e: Elem, more: nat, decls: seq<Decl>): State
    requires st.Reading?
  {
    if st.stack == [] then Reading([], Some(e), st.count + more, Noted(decls, st.prefixes))
    else Grown(st, [e], more, decls)
  }

  function Grown(st: State, kids: seq<Elem>, more: nat, decls: seq<Decl>): State
    requires st.Reading? && st.stack != []
  {
    Reading(st.stack[..|st.stack| - 1] + [Top(st).(kids := Top(st).kids + kids)], st.root, st.count + more, Noted(decls, st.prefixes))
  }

  ghost predicate ElemTaken(st: State, after: State, s: Source, env: seq<Decl>, e: Elem)
    requires st.Reading?
  {
    if Sound(s, env) && Fits(st.count, Count(s), |st.stack|, Levels(s)) then after == Placed(st, e, Count(s), Declarations(s))
    else after.Failed?
  }

  ghost predicate KidsTaken(st: State, after: State, kids: seq<Source>, env: seq<Decl>)
    requires st.Reading? && st.stack != []
  {
    if AllSound(kids, env) && Fits(st.count, CountAll(kids), |st.stack|, LevelsAll(kids)) then
      after == Grown(st, AllMeaning(kids, env), CountAll(kids), AllDeclarations(kids))
    else after.Failed?
  }

  lemma {:induction false} NotedInTwo(a: seq<Decl>, b: seq<Decl>, prefixes: Prefixes)
    ensures Noted(a + b, prefixes) == Noted(b, Noted(a, prefixes))
  {
    if a == [] {
      assert a + b == b;
    } else {
      assert (a + b)[1..] == a[1..] + b;
      NotedInTwo(a[1..], b, Note(prefixes, a[0]));
    }
  }

  /** An element and the text behind it. */
  lemma TailTaken(st: State, st1: State, s: Source, env: seq<Decl>, e: Elem)
    requires st.Reading? && st.stack != [] && ElemTaken(st, st1, s, env, e) && e.tail == ""
    ensures ElemTaken(st, Feed(st1, TextTokens(s.tail)), s, env, e.(tail := Said(s.tail)))
  {
    hide Sound;
    hide Count;
    hide Levels;
    hide Fits;
    hide Noted;
    hide Declarations;
    if st1.Failed? {
      FeedFailed(st1, TextTokens(s.tail));
    } else {
      TextTaken(st1, s.tail);
      TailIsAdded(Top(st1), Top(st).kids, e, Said(s.tail));
    }
    hide TextTokens;
    hide Said;
  }

  lemma FirstAndRest(first: Source, rest: seq<Source>, env: seq<Decl>, count: nat, depth: nat)
    ensures var kids := [first] + rest;
            && AllMeaning(kids, env) == [Meaning(first, env)] + AllMeaning(rest, env)
            && AllDeclarations(kids) == Declarations(first) + AllDeclarations(rest) && CountAll(kids) == Count(first) + CountAll(rest)
            && (AllSound(kids, env) <==> Sound(first, env) && AllSound(rest, env))
            && (Fits(count, CountAll(kids), depth, LevelsAll(kids))
                <==> Fits(count, Count(first), depth, Levels(first)) && Fits(count + Count(first), CountAll(rest), depth, LevelsAll(rest)))
  {
    assert ([first] + rest)[1..] == rest;
  }

  lemma KidsJoined(st: State, st1: State, st2: State, first: Source, rest: seq<Source>, env: seq<Decl>)
    requires Within(st, env) && st.stack != [] && ElemTaken(st, st1, first, env, Meaning(first, env))
    requires st1.Failed? ==> st2 == st1
    requires st1.Reading? ==> st1.stack != [] && KidsTaken(st1, st2, rest, env)
    ensures KidsTaken(st, st2, [first] + rest, env)
  {
    FirstAndRest(first, rest, env, st.count, |st.stack|);
    NotedInTwo(Declarations(first), AllDeclarations(rest), st.prefixes);
    assert forall kids: seq<Elem>, e: Elem, more: seq<Elem> :: kids + [e] + more == kids + ([e] + more);
    hide Within;
    hide AllSound;
    hide AllMeaning;
    hide AllDeclarations;
    hide CountAll;
    hide LevelsAll;
    hide Fits;
    hide Noted;
    hide Meaning;
    hide Sound;
    hide Count;
    hide Levels;
    hide Declarations;
  }

  lemma {:induction false} KidsAreTaken(st: State, kids: seq<Source>, env: seq<Decl>)
    requires Within(st, env) && st.stack != []
    ensures KidsTaken(st, Feed(st, KidsTokens(kids)), kids, env)
    decreases kids
  {
    if kids == [] {
      assert Top(st).kids + [] == Top(st).kids;
    } else {
      var first, rest := kids[0], kids[1..];
      var tokens, more := Tokens(first) + TextTokens(first.tail), KidsTokens(rest);
      WholeIsTaken(st, first, env);
      FeedAppend(st, Tokens(first), TextTokens(first.tail));
      TailTaken(st, Feed(st, Tokens(first)), first, env, Meaning(first, env).(tail := ""));
      var st1 := Feed(st, tokens);
      FeedAppend(st, tokens, more);
      assert Meaning(first, env).(tail := "").(tail := Said(first.tail)) == Meaning(first, env);
      if st1.Failed? {
        FeedFailed(st1, more);
      } else {
        KidsAreTaken(st1, rest, env);
      }
      KidsJoined(st, st1, Feed(st1, more), first, rest, env);
      assert [first] + rest == kids;
    }
  }

  /** What a start tag leaves, as `StartTaken` says. */
  ghost predicate Begun(st: State, begun: State, s: Source, env: seq<Decl>)
    requires st.Reading?
  {
    if HeadSound(s.name, s.attrs, s.decls, env) && Fits(st.count, 1, |st.stack|, 1) then
      && Within(begun, env + s.decls)
      && begun == Reading(st.stack + [Opened(s, env, ScopeOf(begun))], st.root, st.count + 1, Noted(s.decls, st.prefixes))
    else begun.Failed?
  }

  lemma ShortTaken(st: State, begun: State, s: Source, env: seq<Decl>)
    requires Within(st, env) && s.Short? && Begun(st, begun, s, env)
    ensures ElemTaken(st, if begun.Failed? then begun else EndElement(begun), s, env, Meaning(s, env).(tail := ""))
  {
    hide Represents;
    hide HeadSound;
    hide NameMeant;
    hide AttrsMeant;
    hide Noted;
    assert s.decls + [] == s.decls;
    if begun.Reading? && st.stack != [] {
      var n := |st.stack|;
      assert begun.stack[..n - 1] == st.stack[..n - 1] && begun.stack[n - 1] == Top(st);
    }
  }

  lemma EndTaken(st: State, f: Frame, count: nat, prefixes: Prefixes)
    requires st.Reading?
    ensures var n, e := |st.stack|, Elem(f.tag, f.attrs, f.text, f.kids, "");
            Step(Reading(st.stack + [f], st.root, count, prefixes), Close(f.written)) ==
            if n == 0 then Reading([], Some(e), count, prefixes)
            else Reading(st.stack[..n - 1] + [Top(st).(kids := Top(st).kids + [e])], st.root, count, prefixes)
  {
    var n := |st.stack|;
    if n > 0 {
      assert (st.stack + [f])[..n - 1] == st.stack[..n - 1] && (st.stack + [f])[n - 1] == Top(st);
    }
  }

  lemma LongFits(s: Source, count: nat, depth: nat)
    requires s.Long?
    ensures Fits(count, Count(s), depth, Levels(s)) <==> Fits(count, 1, depth, 1) && Fits(count + 1, CountAll(s.kids), depth + 1, LevelsAll(s.kids))
  {
  }

  /** Before the end tag of an element whose content was read. */
  function Filled(st: State, s: Source, env: seq<Decl>, scope: Scope): State
    requires st.Reading? && s.Long?
  {
    Reading(st.stack + [Opened(s, env, scope).(text := Said(s.text), kids := AllMeaning(s.kids, env + s.decls))], st.root,
            st.count + 1 + CountAll(s.kids), Noted(AllDeclarations(s.kids), Noted(s.decls, st.prefixes)))
  }

  lemma FilledIsPlaced(st: State, s: Source, env: seq<Decl>, scope: Scope)
    requires st.Reading? && s.Long?
    ensures Step(Filled(st, s, env, scope), Close(s.name)) == Placed(st, Meaning(s, env).(tail := ""), Count(s), Declarations(s))
  {
    var f := Opened(s, env, scope).(text := Said(s.text), kids := AllMeaning(s.kids, env + s.decls));
    EndTaken(st, f, st.count + 1 + CountAll(s.kids), Noted(AllDeclarations(s.kids), Noted(s.decls, st.prefixes)));
    NotedInTwo(s.decls, AllDeclarations(s.kids), st.prefixes);
    hide Step;
    hide NameMeant;
    hide AttrsMeant;
    hide CountAll;
    hide AllMeaning;
    hide AllDeclarations;
    hide Noted;
    hide Said;
  }

  ghost predicate ContentTaken(st: State, content: State, s: Source, env: seq<Decl>, scope: Scope)
    requires st.Reading? && s.Long?
  {
    if AllSound(s.kids, env + s.decls) && Fits(st.count + 1, CountAll(s.kids), |st.stack| + 1, LevelsAll(s.kids)) then
      content == Filled(st, s, env, scope)
    else content.Failed?
  }

  lemma ContentFills(st: State, begun: State, content: State, s: Source, env: seq<Decl>, scope: Scope)
    requires st.Reading? && s.Long?
    requires begun == Reading(st.stack + [Opened(s, env, scope)], st.root, st.count + 1, Noted(s.decls, st.prefixes))
    requires KidsTaken(Put(begun, AddText(Opened(s, env, scope), Said(s.text)), begun.count), content, s.kids, env + s.decls)
    ensures ContentTaken(st, content, s, env, scope)
  {
    assert "" + Said(s.text) == Said(s.text);
    assert [] + AllMeaning(s.kids, env + s.decls) == AllMeaning(s.kids, env + s.decls);
    hide NameMeant;
    hide AttrsMeant;
    hide Said;
    hide AllSound;
    hide CountAll;
    hide LevelsAll;
    hide AllMeaning;
    hide AllDeclarations;
    hide Noted;
    hide Fits;
  }

  lemma LongTaken(st: State, content: State, s: Source, env: seq<Decl>, scope: Scope)
    requires st.Reading? && s.Long?
    requires if HeadSound(s.name, s.attrs, s.decls, env) && Fits(st.count, 1, |st.stack|, 1) then ContentTaken(st, content, s, env, scope)
             else content.Failed?
    ensures ElemTaken(st, Step(content, Close(s.name)), s, env, Meaning(s, env).(tail := ""))
  {
    LongFits(s, st.count, |st.stack|);
    FilledIsPlaced(st, s, env, scope);
    if content.Failed? { FailureStaysOne(content, Close(s.name)); }
    hide HeadSound;
    hide AllSound;
    hide Fits;
    hide Filled;
    hide Meaning;
    hide Placed;
    hide Step;
    hide CountAll;
    hide LevelsAll;
    hide Levels;
    hide Count;
    hide Declarations;
  }

  lemma FailureStaysOne(st: State, token: Token)
    requires st.Failed?
    ensures Step(st, token) == st
  {
  }

  lemma {:induction false} WholeIsTaken(st: State, s: Source, env: seq<Decl>)
    requires Within(st, env)
    ensures ElemTaken(st, Feed(st, Tokens(s)), s, env, Meaning(s, env).(tail := ""))
    decreases s
  {
    var begun := StartElement(st, s.name, s.attrs, s.decls);
    StartTaken(st, s, env);
    hide StartElement;
    hide ElemTaken;
    match s
    case Short(name, attrs, decls, _) =>
      assert Feed(st, Tokens(s)) == Step(st, Empty(name, attrs, decls));
      ShortTaken(st, begun, s, env);
    case Long(name, attrs, decls, text, kids, _) =>
      var open, words, inner := [Open(name, attrs, decls)], TextTokens(text), KidsTokens(kids);
      assert Feed(st, open) == Step(st, Open(name, attrs, decls)) == begun;
      FeedAppend(st, open, words + inner);
      FeedAppend(begun, words, inner);
      FeedAppend(st, open + (words + inner), [Close(name)]);
      var content := Feed(begun, words + inner);
      assert Feed(content, [Close(name)]) == Step(content, Close(name));
      hide Step;
      hide Feed;
      hide Represents;
      if begun.Reading? {
        TextTaken(begun, text);
        KidsAreTaken(Feed(begun, words), kids, env + decls);
        ContentFills(st, begun, content, s, env, ScopeOf(begun));
      } else {
        FeedFailed(begun, words + inner);
      }
      hide ContentTaken;
      LongTaken(st, content, s, env, if begun.Reading? then ScopeOf(begun) else map[]);
  }

  // ----- the document -----

  predicate WhiteSpace(data: string) {
    forall i :: 0 <= i < |data| ==> data[i] == ' ' || data[i] == '\t' || data[i] == '\n' || data[i] == '\r'
  }

  lemma AroundTheRoot(st: State, data: string)
    requires st.Reading? && st.stack == []
    ensures Feed(st, CharsOf(data)) == if WhiteSpace(data) then st else Failed(NotWellFormed)
  {
    assert Blank(data) <==> WhiteSpace(data);
    hide Blank;
    hide WhiteSpace;
    if data == "" {
      assert WhiteSpace("") by { WhiteSpaceOfNone(); }
    } else {
      assert Feed(st, CharsOf(data)) == Step(st, Chars(data));
    }
  }

  lemma WhiteSpaceOfNone()
    ensures WhiteSpace("")
  {
  }

  lemma RootTaken(s: Source)
    ensures var st := Feed(Start, Tokens(s));
            if Sound(s, []) && Count(s) <= 5_000_000 && Levels(s) <= 256 then
              st == Reading([], Some(Meaning(s, []).(tail := "")), Count(s), Noted(Declarations(s), map[]))
            else st.Failed?
  {
    assert Represents(map[], []);
    hide Represents;
    WholeIsTaken(Start, s, []);
    hide Feed;
    hide Sound;
    hide Meaning;
    hide Noted;
    hide Count;
    hide Levels;
  }

  lemma DocumentTaken(before: string, s: Source, after: string)
    ensures var st, root := Feed(Start, CharsOf(before) + Tokens(s) + CharsOf(after)), Feed(Start, Tokens(s));
            if WhiteSpace(before) && WhiteSpace(after) && root.Reading? then st == root else st.Failed?
  {
    FeedAppend(Start, CharsOf(before) + Tokens(s), CharsOf(after));
    FeedAppend(Start, CharsOf(before), Tokens(s));
    AroundTheRoot(Start, before);
    RootTaken(s);
    var inner := Feed(Feed(Start, CharsOf(before)), Tokens(s));
    hide WhiteSpace;
    hide Feed;
    hide Sound;
    hide Meaning;
    hide Noted;
    if !WhiteSpace(before) { FeedFailed(Failed(NotWellFormed), Tokens(s)); }
    if inner.Failed? {
      FeedFailed(inner, CharsOf(after));
    } else {
      AroundTheRoot(inner, after);
    }
  }

  /** What is made of a document: it is read if and only if its names, declarations and attributes are as they should be,
      it keeps within the limits, and only white space stands around its root; then every element and attribute has the
      name that the declarations above give it, texts stand where they stood, and the table holds what was declared. */
  lemma ReadsExactly(before: string, s: Source, after: string)
    ensures Parsed(CharsOf(before) + Tokens(s) + CharsOf(after)).Ok?
            <==> WhiteSpace(before) && WhiteSpace(after) && Sound(s, []) && Count(s) <= 5_000_000 && Levels(s) <= 256
    ensures var r := Parsed(CharsOf(before) + Tokens(s) + CharsOf(after));
            r.Ok? ==> r.value == Part(Meaning(s, []).(tail := ""), Noted(Declarations(s), map[]))
  {
    DocumentTaken(before, s, after);
    RootTaken(s);
    hide WhiteSpace;
    hide Feed;
    hide Sound;
    hide Meaning;
    hide Noted;
  }

  /** Where an entry of the table comes from: from the first declaration of its namespace whose prefix no other
      namespace had; later ones make no difference. */
  lemma {:induction false} NotedExactly(decls: seq<Decl>, uri: string, prefix: string)
    ensures uri in Noted(decls, map[]) && Noted(decls, map[])[uri] == prefix <==>
            exists i :: 0 <= i < |decls| && decls[i] == Decl(prefix, uri)
                        && uri !in Noted(decls[..i], map[]) && prefix !in Noted(decls[..i], map[]).Values
  {
    if decls != [] {
      var n := |decls| - 1;
      var init, d := decls[..n], decls[n];
      NotedExactly(init, uri, prefix);
      assert decls == init + [d];
      NotedInTwo(init, [d], map[]);
      assert [d][1..] == [];
      assert Noted(decls, map[]) == Note(Noted(init, map[]), d);
      assert forall i :: 0 <= i < n ==> init[..i] == decls[..i];
    }
  }
}
