/** Reading tokens into a tree: namespaces are resolved as in section 6 of Namespaces in XML 1.0, and the
    handlers build the tree under limits on its size and depth. */
module XmlParse {
  import opened Common
  import opened Xml

  datatype Error = NotWellFormed | TooLarge | NoRoot

  datatype Result<T> = Ok(value: T) | Err(error: Error)

  /** Declared prefixes in scope; "" is the default namespace. */
  type Scope = map<string, string>

  /** An element whose end was not read yet. */
  datatype Frame = Frame(tag: string, written: QName, attrs: seq<Attr>, text: string, kids: seq<Elem>, scope: Scope)

  /** `stack` has the innermost element last. */
  datatype State =
    | Failed(error: Error)
    | Reading(stack: seq<Frame>, root: Option<Elem>, count: nat, prefixes: Prefixes)

  const Start := Reading([], None, 0, map[])

  /** The name of a tag, or none when it is not one or its prefix is not declared. */
  function TagName(q: QName, scope: Scope): Option<string> {
    if !LocalName(q.local) then None
    else if q.prefix == "xml" then Some(Clark(XML_NS, q.local))
    else if q.prefix in scope then Some(Clark(scope[q.prefix], q.local))
    else if q.prefix == "" then Some(q.local)
    else None
  }

  /** The default namespace does not apply to attributes. */
  function AttrName(q: QName, scope: Scope): Option<string> {
    if q.prefix == "" && LocalName(q.local) then Some(q.local) else TagName(q, scope)
  }

  function AttrNames(attrs: seq<QAttr>, scope: Scope): Option<seq<Attr>> {
    if attrs == [] then Some([])
    else
      match (AttrName(attrs[0].name, scope), AttrNames(attrs[1..], scope))
      case (Some(name), Some(rest)) => Some([Attr(name, attrs[0].value)] + rest)
      case _ => None
  }

  predicate DistinctNames(attrs: seq<Attr>) {
    forall i, j :: 0 <= i < j < |attrs| ==> attrs[i].name != attrs[j].name
  }

  datatype Declared = Declared(scope: Scope, prefixes: Prefixes)

  /** The reserved prefix belongs to its own namespace and to no other; an empty name undeclares the
      default namespace and nothing else. */
  predicate Allowed(d: Decl) {
    (d.prefix == "xml" <==> d.uri == XML_NS) && (d.uri == "" ==> d.prefix == "")
  }

  /** The handler of a declaration: a prefix that another namespace has is not given again. */
  function Note(prefixes: Prefixes, d: Decl): Prefixes {
    if d.uri !in prefixes && d.prefix !in prefixes.Values then prefixes[d.uri := d.prefix] else prefixes
  }

  function DeclareAll(decls: seq<Decl>, before: Declared): Option<Declared> {
    if decls == [] then Some(before)
    else
      var d := decls[0];
      if !Allowed(d) then None
      else
        var scope := if d.uri == "" then before.scope - {""} else before.scope[d.prefix := d.uri];
        DeclareAll(decls[1..], Declared(scope, Note(before.prefixes, d)))
  }

  function ScopeOf(st: State): Scope
    requires st.Reading?
  {
    if st.stack == [] then map[] else st.stack[|st.stack| - 1].scope
  }

  function StartElement(st: State, q: QName, attrs: seq<QAttr>, decls: seq<Decl>): State
    requires st.Reading?
  {
    if st.stack == [] && st.root.Some? then Failed(NotWellFormed)
    else
      match DeclareAll(decls, Declared(ScopeOf(st), st.prefixes))
      case None => Failed(NotWellFormed)
      case Some(declared) =>
        match (TagName(q, declared.scope), AttrNames(attrs, declared.scope))
        case (Some(tag), Some(named)) =>
          if !DistinctNames(named) then Failed(NotWellFormed)
          else if st.count + 1 > MAX_ELEMENTS || |st.stack| >= MAX_DEPTH then Failed(TooLarge)
          else Reading(st.stack + [Frame(tag, q, named, "", [], declared.scope)], st.root, st.count + 1, declared.prefixes)
        case _ => Failed(NotWellFormed)
  }

  function EndElement(st: State): State
    requires st.Reading? && st.stack != []
  {
    var n := |st.stack| - 1;
    var f := st.stack[n];
    var e := Elem(f.tag, f.attrs, f.text, f.kids, "");
    if n == 0 then st.(stack := [], root := Some(e))
    else
      var g := st.stack[n - 1];
      st.(stack := st.stack[..n - 1] + [g.(kids := g.kids + [e])])
  }

  /** Line ends in the text of a document, as section 2.11 of XML 1.0 has them read. */
  function LineEnds(data: string): string {
    if data == "" then ""
    else if data[0] != '\r' then [data[0]] + LineEnds(data[1..])
    else if |data| > 1 && data[1] == '\n' then "\n" + LineEnds(data[2..])
    else "\n" + LineEnds(data[1..])
  }

  /** Text goes behind the last child, or into the element when it has none yet. */
  function AddText(f: Frame, data: string): Frame {
    if f.kids == [] then f.(text := f.text + data)
    else
      var last := f.kids[|f.kids| - 1];
      f.(kids := f.kids[..|f.kids| - 1] + [last.(tail := last.tail + data)])
  }

  predicate Blank(data: string) {
    forall i :: 0 <= i < |data| ==> data[i] in {' ', '\t', '\n', '\r'}
  }

  /** Outside the root only white space is allowed, and dropped. */
  function TakeText(st: State, data: string, blank: bool): State
    requires st.Reading?
  {
    if st.stack == [] then (if blank then st else Failed(NotWellFormed))
    else st.(stack := st.stack[..|st.stack| - 1] + [AddText(st.stack[|st.stack| - 1], data)])
  }

  function Step(st: State, token: Token): State {
    if st.Failed? then st
    else
      match token
      case Open(tag, attrs, decls) => StartElement(st, tag, attrs, decls)
      case Empty(tag, attrs, decls) =>
        var begun := StartElement(st, tag, attrs, decls);
        if begun.Failed? then begun else EndElement(begun)
      case Chars(data) => TakeText(st, LineEnds(data), Blank(data))
      case Ref(data) => TakeText(st, data, false)
      case Close(tag) =>
        if st.stack == [] || st.stack[|st.stack| - 1].written != tag then Failed(NotWellFormed) else EndElement(st)
  }

  function Feed(st: State, tokens: seq<Token>): State {
    if tokens == [] then st else Step(Feed(st, tokens[..|tokens| - 1]), tokens[|tokens| - 1])
  }

  function Finish(st: State): Result<Part> {
    if st.Failed? then Err(st.error)
    else if st.stack != [] then Err(NotWellFormed)
    else if st.root.None? then Err(NoRoot)
    else Ok(Part(st.root.value, st.prefixes))
  }

  function Parsed(tokens: seq<Token>): Result<Part> { Finish(Feed(Start, tokens)) }

  method Parse(tokens: seq<Token>) returns (r: Result<Part>)
    ensures r == Parsed(tokens)
  {
    hide Step;
    var st := Start;
    for i := 0 to |tokens|
      invariant st == Feed(Start, tokens[..i])
    {
      assert tokens[..i + 1][..i] == tokens[..i];
      st := Step(st, tokens[i]);
      if st.Failed? {
        FailureStays(tokens, i + 1);
        return Err(st.error);
      }
    }
    assert tokens[..|tokens|] == tokens;
    r := Finish(st);
  }

  lemma {:induction false} FailureStays(tokens: seq<Token>, n: nat)
    requires n <= |tokens| && Feed(Start, tokens[..n]).Failed?
    ensures Feed(Start, tokens) == Feed(Start, tokens[..n])
  {
    if n == |tokens| {
      assert tokens[..n] == tokens;
    } else {
      assert tokens[..|tokens| - 1][..n] == tokens[..n];
      FailureStays(tokens[..|tokens| - 1], n);
    }
  }

  // ----- the table of prefixes a parse leaves -----

  lemma {:induction false} DeclareKeepsPlausible(decls: seq<Decl>, before: Declared)
    requires Plausible(before.prefixes)
    ensures DeclareAll(decls, before).Some? ==> Plausible(DeclareAll(decls, before).value.prefixes)
  {
    if decls != [] && Allowed(decls[0]) {
      var d := decls[0];
      var after := Note(before.prefixes, d);
      assert Plausible(after) by {
        forall u, v | u in after && v in after && after[u] == after[v]
          ensures u == v
        {
          assert u in before.prefixes ==> before.prefixes[u] in before.prefixes.Values;
          assert v in before.prefixes ==> before.prefixes[v] in before.prefixes.Values;
        }
      }
      DeclareKeepsPlausible(decls[1..], Declared(if d.uri == "" then before.scope - {""} else before.scope[d.prefix := d.uri], after));
    }
  }

  lemma {:induction false} FeedKeepsPlausible(tokens: seq<Token>)
    ensures Feed(Start, tokens).Reading? ==> Plausible(Feed(Start, tokens).prefixes)
  {
    if tokens != [] {
      var st := Feed(Start, tokens[..|tokens| - 1]);
      var t := tokens[|tokens| - 1];
      FeedKeepsPlausible(tokens[..|tokens| - 1]);
      if st.Reading? && (t.Open? || t.Empty?) {
        DeclareKeepsPlausible(t.decls, Declared(ScopeOf(st), st.prefixes));
      }
    }
  }

  /** Whatever is parsed, no two namespaces of the part share a prefix, so it can be written again. */
  lemma ParsedIsPlausible(tokens: seq<Token>)
    requires Parsed(tokens).Ok?
    ensures Plausible(Parsed(tokens).value.prefixes)
  {
    FeedKeepsPlausible(tokens);
  }
}
