/** Writing a part as XML tokens. A tag or attribute name is one string, with its namespace in braces before
    the local name when it has one. Escaping, the byte encoding and the tokenising itself are not modelled. */
module Xml {
  import opened Common
  import opened Text

  const XML_NS := "http://www.w3.org/XML/1998/namespace"
  const MAX_ELEMENTS: nat := 5_000_000
  const MAX_DEPTH: nat := 256

  datatype Attr = Attr(name: string, value: string)

  datatype Elem = Elem(tag: string, attrs: seq<Attr>, text: string, kids: seq<Elem>, tail: string)

  type Prefixes = map<string, string>

  datatype Part = Part(root: Elem, prefixes: Prefixes)

  datatype QName = QName(prefix: string, local: string)

  datatype QAttr = QAttr(name: QName, value: string)

  datatype Decl = Decl(prefix: string, uri: string)

  /** `Ref` is text given by character references. */
  datatype Token =
    | Open(tag: QName, attrs: seq<QAttr>, decls: seq<Decl>)
    | Empty(tag: QName, attrs: seq<QAttr>, decls: seq<Decl>)
    | Chars(data: string)
    | Ref(data: string)
    | Close(tag: QName)

  // ----- names -----

  /** How a namespace and a local name become one string. */
  function Clark(uri: string, local: string): string { if uri == "" then local else "{" + uri + "}" + local }

  predicate Braced(name: string) { name != "" && name[0] == '{' }

  /** What stands before the first `sep`, and what behind it. */
  function Before(s: string, sep: char): string {
    if s == "" || s[0] == sep then "" else [s[0]] + Before(s[1..], sep)
  }

  function Behind(s: string, sep: char): string {
    if s == "" then "" else if s[0] == sep then s[1..] else Behind(s[1..], sep)
  }

  function UriOf(name: string): string { if Braced(name) then Before(name[1..], '}') else "" }

  function LocalOf(name: string): string { if Braced(name) then Behind(name[1..], '}') else name }

  /** What a local name in a document is at least: not empty, and without braces and colons. */
  predicate LocalName(s: string) { s != "" && '{' !in s && '}' !in s && ':' !in s }

  /** The name is taken apart where it was put together. */
  predicate Splits(name: string) { LocalName(LocalOf(name)) && (Braced(name) ==> UriOf(name) != "") }

  lemma {:induction false} BehindFirst(a: string, b: string, sep: char)
    ensures sep !in a ==> Before(a + [sep] + b, sep) == a && Behind(a + [sep] + b, sep) == b
    ensures sep in a ==> sep in Behind(a + [sep] + b, sep)
  {
    var s := a + [sep] + b;
    if a == "" {
      assert s[1..] == b;
    } else {
      assert s[1..] == a[1..] + [sep] + b;
      BehindFirst(a[1..], b, sep);
      if a[0] == sep {
        assert s[1..][|a| - 1] == sep;
      } else {
        assert [a[0]] + a[1..] == a;
      }
    }
  }

  lemma {:induction false} Rejoined(s: string, sep: char)
    requires sep in s
    ensures Before(s, sep) + [sep] + Behind(s, sep) == s
  {
    if s[0] == sep {
      assert "" + [sep] + s[1..] == s;
    } else {
      Rejoined(s[1..], sep);
      assert Before(s, sep) + [sep] + Behind(s, sep) == [s[0]] + s[1..];
    }
  }

  lemma {:induction false} NothingBehind(s: string, sep: char)
    requires sep !in s
    ensures Behind(s, sep) == ""
  {
    if s != "" { NothingBehind(s[1..], sep); }
  }

  /** A name is taken apart as it was put together exactly when its namespace has no closing brace; otherwise
      what is taken for the local name is no name at all. */
  lemma ClarkExactly(uri: string, local: string)
    requires LocalName(local)
    ensures Splits(Clark(uri, local)) <==> '}' !in uri
    ensures '}' !in uri ==> UriOf(Clark(uri, local)) == uri && LocalOf(Clark(uri, local)) == local
  {
    if uri != "" {
      assert Clark(uri, local)[1..] == uri + ['}'] + local;
      BehindFirst(uri, local, '}');
    }
  }

  /** A name that is taken apart is put together again. */
  lemma SplitsBack(name: string)
    requires Splits(name)
    ensures Clark(UriOf(name), LocalOf(name)) == name
  {
    if Braced(name) {
      var inner := name[1..];
      if '}' in inner {
        Rejoined(inner, '}');
        InBraces(name, Before(inner, '}'), Behind(inner, '}'));
      } else {
        NothingBehind(inner, '}');
      }
    }
  }

  lemma InBraces(name: string, uri: string, local: string)
    requires name != "" && name[0] == '{' && name[1..] == uri + ['}'] + local && uri != ""
    ensures Clark(uri, local) == name
  {
    assert [name[0]] + name[1..] == name;
    assert ['{'] + (uri + ['}'] + local) == "{" + uri + "}" + local;
  }

  // ----- prefixes -----

  ghost predicate InjectiveMap(names: Prefixes) {
    forall u, v :: u in names && v in names && names[u] == names[v] ==> u == v
  }

  function Candidate(n: nat): string { "ns" + Decimal(n) }

  lemma CandidatesDiffer()
    ensures Injective(Candidate)
  {
    forall i: nat, j: nat | Candidate(i) == Candidate(j)
      ensures i == j
    {
      assert Candidate(i)[2..] == Decimal(i) && Candidate(j)[2..] == Decimal(j);
      DecimalInjective(i, j);
    }
  }

  /** The table after a prefix for `uri` was asked for: a new namespace gets the first free "ns" name. */
  ghost function Assign(names: Prefixes, uri: string): Prefixes {
    CandidatesDiffer();
    if uri in names then names else names[uri := Candidate(FirstFree(Candidate, 0, names.Values))]
  }

  /** Each new namespace gets a prefix that nobody has, and those given stay. */
  lemma AssignKeepsInjective(names: Prefixes, uri: string)
    ensures var names' := Assign(names, uri);
            && uri in names' && (InjectiveMap(names) ==> InjectiveMap(names'))
            && (forall u :: u in names ==> u in names' && names'[u] == names[u])
            && (forall u :: u in names' && u !in names ==> names'[u] != "" && names'[u] != "xml")
  {
    CandidatesDiffer();
    if uri !in names {
      var n := FirstFree(Candidate, 0, names.Values);
      forall u | u in names
        ensures names[u] != Candidate(n)
      {
        assert names[u] in names.Values;
      }
      assert Candidate(n)[0] == 'n';
    }
  }

  predicate NameCovered(name: string, names: Prefixes) { Braced(name) ==> UriOf(name) in names }

  function QualifyWith(name: string, names: Prefixes): QName {
    QName(if Braced(name) && UriOf(name) in names then names[UriOf(name)] else "", LocalOf(name))
  }

  // ----- printing, as a recursion -----

  datatype Printed = Printed(tokens: seq<Token>, names: Prefixes)

  ghost function AssignName(names: Prefixes, name: string): Prefixes {
    if Braced(name) then Assign(names, UriOf(name)) else names
  }

  ghost function AssignAttrs(attrs: seq<Attr>, names: Prefixes): Prefixes {
    if attrs == [] then names else AssignAttrs(attrs[1..], AssignName(names, attrs[0].name))
  }

  function QualifyAttrs(attrs: seq<Attr>, names: Prefixes): (r: seq<QAttr>)
    ensures |r| == |attrs|
  {
    seq(|attrs|, i requires 0 <= i < |attrs| => QAttr(QualifyWith(attrs[i].name, names), attrs[i].value))
  }

  function CharsOf(data: string): seq<Token> {
    if data == "" then [] else [Chars(data)]
  }

  /** The attributes are named before the tag. */
  ghost function NamesAt(e: Elem, names: Prefixes): Prefixes {
    AssignName(AssignAttrs(e.attrs, names), e.tag)
  }

  ghost function PrintElem(e: Elem, top: bool, names: Prefixes): Printed
    decreases e
  {
    var here := NamesAt(e, names);
    var tag, attrs := QualifyWith(e.tag, here), QualifyAttrs(e.attrs, here);
    var tail := if top then [] else CharsOf(e.tail);
    if e.kids == [] && e.text == "" then Printed([Empty(tag, attrs, [])] + tail, here)
    else
      var inner := PrintKids(e.kids, here);
      Printed([Open(tag, attrs, [])] + CharsOf(e.text) + inner.tokens + [Close(tag)] + tail, inner.names)
  }

  ghost function PrintKids(kids: seq<Elem>, names: Prefixes): Printed
    decreases kids
  {
    if kids == [] then Printed([], names)
    else
      var first := PrintElem(kids[0], false, names);
      var rest := PrintKids(kids[1..], first.names);
      Printed(first.tokens + rest.tokens, rest.names)
  }

  /** Prefixes given stay as they are, and new ones are not empty. */
  ghost predicate Extends(names: Prefixes, more: Prefixes) {
    && (forall u :: u in names ==> u in more && more[u] == names[u])
    && (forall u :: u in more && u !in names ==> more[u] != "")
  }

  lemma TagStays(name: string, here: Prefixes, more: Prefixes)
    requires NameCovered(name, here) && Extends(here, more)
    ensures AssignName(more, name) == more && NameCovered(name, more) && QualifyWith(name, more) == QualifyWith(name, here)
  {
    hide UriOf;
    hide LocalOf;
  }

  lemma OneNamed(name: string, names: Prefixes)
    ensures Extends(names, AssignName(names, name)) && NameCovered(name, AssignName(names, name))
  {
    AssignKeepsInjective(names, UriOf(name));
    hide Assign;
    hide UriOf;
  }

  lemma {:induction false} AssignAttrsExtends(attrs: seq<Attr>, names: Prefixes)
    ensures Extends(names, AssignAttrs(attrs, names))
    ensures forall i :: 0 <= i < |attrs| ==> NameCovered(attrs[i].name, AssignAttrs(attrs, names))
  {
    if attrs != [] {
      AssignAttrsExtends(attrs[1..], AssignName(names, attrs[0].name));
      assert forall i :: 0 < i < |attrs| ==> attrs[i] == attrs[1..][i - 1];
    }
  }

  lemma NamesAtExtends(e: Elem, names: Prefixes)
    ensures Extends(names, NamesAt(e, names))
    ensures NameCovered(e.tag, NamesAt(e, names))
    ensures forall i :: 0 <= i < |e.attrs| ==> NameCovered(e.attrs[i].name, NamesAt(e, names))
  {
    AssignAttrsExtends(e.attrs, names);
  }

  lemma {:induction false} PrintExtends(e: Elem, top: bool, names: Prefixes)
    ensures Extends(names, PrintElem(e, top, names).names)
    ensures Extends(NamesAt(e, names), PrintElem(e, top, names).names)
    decreases e
  {
    NamesAtExtends(e, names);
    PrintKidsExtends(e.kids, NamesAt(e, names));
  }

  lemma {:induction false} PrintKidsExtends(kids: seq<Elem>, names: Prefixes)
    ensures Extends(names, PrintKids(kids, names).names)
    decreases kids
  {
    if kids != [] {
      PrintExtends(kids[0], false, names);
      PrintKidsExtends(kids[1..], PrintElem(kids[0], false, names).names);
    }
  }

  // ----- printing, as the loop over a stack -----

  lemma ValuesOfMore(names: Prefixes, uri: string, prefix: string)
    requires uri !in names
    ensures names[uri := prefix].Values == names.Values + {prefix}
  {
    var more := names[uri := prefix];
    forall u | u in names
      ensures names[u] in more.Values
    {
      assert more[u] == names[u];
    }
    assert more[uri] == prefix;
  }

  lemma NamesStay(attrs: seq<Attr>, here: Prefixes, more: Prefixes)
    requires Extends(here, more) && forall j :: 0 <= j < |attrs| ==> NameCovered(attrs[j].name, here)
    ensures forall j :: 0 <= j < |attrs| ==>
              NameCovered(attrs[j].name, more) && QualifyWith(attrs[j].name, more) == QualifyWith(attrs[j].name, here)
  {
    forall j | 0 <= j < |attrs|
      ensures NameCovered(attrs[j].name, more) && QualifyWith(attrs[j].name, more) == QualifyWith(attrs[j].name, here)
    {
      TagStays(attrs[j].name, here, more);
    }
  }

  /** The prefixes given so far, and those in use. */
  class PrefixTable {
    var names: Prefixes
    var used: set<string>

    ghost predicate Valid()
      reads this
    {
      used == names.Values
    }

    constructor (given: Prefixes)
      ensures Valid() && names == given[XML_NS := "xml"]
    {
      names := given[XML_NS := "xml"];
      used := given[XML_NS := "xml"].Values;
    }

    method PrefixFor(uri: string) returns (prefix: string)
      requires Valid()
      modifies this
      ensures Valid() && names == Assign(old(names), uri) && uri in names && prefix == names[uri]
    {
      CandidatesDiffer();
      if uri !in names {
        var n := FindFree(Candidate, used);
        ghost var m := FirstFree(Candidate, 0, used);
        assert n == m by {
          assert n < m ==> Candidate(n) in used;
          assert m < n ==> Candidate(m) in used;
        }
        ValuesOfMore(names, uri, Candidate(n));
        names := names[uri := Candidate(n)];
        used := used + {Candidate(n)};
      }
      prefix := names[uri];
    }

    method Qualify(name: string) returns (q: QName)
      requires Valid()
      modifies this
      ensures Valid() && names == AssignName(old(names), name) && q == QualifyWith(name, names)
    {
      if !Braced(name) {
        return QName("", name);
      }
      var prefix := PrefixFor(Before(name[1..], '}'));
      q := QName(prefix, Behind(name[1..], '}'));
    }

    method QualifyAll(attrs: seq<Attr>) returns (qs: seq<QAttr>)
      requires Valid()
      modifies this
      ensures Valid() && names == AssignAttrs(attrs, old(names)) && qs == QualifyAttrs(attrs, names)
    {
      hide Extends;
      hide NameCovered;
      hide QualifyWith;
      hide AssignName;
      qs := [];
      var i := 0;
      while i < |attrs|
        invariant 0 <= i <= |attrs| && |qs| == i && Valid()
        invariant AssignAttrs(attrs[i..], names) == AssignAttrs(attrs, old(names))
        invariant forall j :: 0 <= j < i ==> NameCovered(attrs[j].name, names)
        invariant forall j :: 0 <= j < i ==> qs[j] == QAttr(QualifyWith(attrs[j].name, names), attrs[j].value)
      {
        assert attrs[i..][1..] == attrs[i + 1..];
        ghost var before := names;
        OneNamed(attrs[i].name, before);
        var q := Qualify(attrs[i].name);
        NamesStay(attrs[..i], before, names);
        qs := qs + [QAttr(q, attrs[i].value)];
        i := i + 1;
      }
    }
  }

  datatype Visit = Visit(elem: Elem, top: bool, closing: bool)

  function Visits(kids: seq<Elem>): (vs: seq<Visit>)
    ensures |vs| == |kids|
  {
    seq(|kids|, i requires 0 <= i < |kids| => Visit(kids[i], false, false))
  }

  function TailOf(v: Visit): seq<Token> { if v.top then [] else CharsOf(v.elem.tail) }

  ghost function PrintVisit(v: Visit, names: Prefixes): Printed {
    if v.closing then
      var here := AssignName(names, v.elem.tag);
      Printed([Close(QualifyWith(v.elem.tag, here))] + TailOf(v), here)
    else PrintElem(v.elem, v.top, names)
  }

  ghost function PrintStack(stack: seq<Visit>, names: Prefixes): Printed {
    if stack == [] then Printed([], names)
    else
      var first := PrintVisit(stack[0], names);
      var rest := PrintStack(stack[1..], first.names);
      Printed(first.tokens + rest.tokens, rest.names)
  }

  lemma {:induction false} PrintStackAppend(a: seq<Visit>, b: seq<Visit>, names: Prefixes)
    ensures var first := PrintStack(a, names);
            var rest := PrintStack(b, first.names);
            PrintStack(a + b, names) == Printed(first.tokens + rest.tokens, rest.names)
  {
    hide PrintVisit;
    if a == [] {
      assert a + b == b;
    } else {
      assert (a + b)[1..] == a[1..] + b;
      PrintStackAppend(a[1..], b, PrintVisit(a[0], names).names);
    }
  }

  lemma {:induction false} PrintVisits(kids: seq<Elem>, names: Prefixes)
    ensures PrintStack(Visits(kids), names) == PrintKids(kids, names)
  {
    if kids != [] {
      assert Visits(kids)[1..] == Visits(kids[1..]);
      PrintVisits(kids[1..], PrintElem(kids[0], false, names).names);
    }
  }

  lemma PrintStackTop(v: Visit, rest: seq<Visit>, names: Prefixes)
    ensures var first := PrintVisit(v, names);
            var more := PrintStack(rest, first.names);
            PrintStack([v] + rest, names) == Printed(first.tokens + more.tokens, more.names)
  {
    assert ([v] + rest)[1..] == rest;
  }

  lemma EndIsPrinted(e: Elem, top: bool, here: Prefixes, more: Prefixes)
    requires NameCovered(e.tag, here) && Extends(here, more)
    ensures PrintVisit(Visit(e, top, true), more) == Printed([Close(QualifyWith(e.tag, here))] + TailOf(Visit(e, top, true)), more)
  {
    TagStays(e.tag, here, more);
    hide Extends;
    hide AssignName;
    hide QualifyWith;
  }

  lemma Assoc<T>(a: seq<T>, b: seq<T>, c: seq<T>)
    ensures a + b + c == a + (b + c)
  {
  }

  lemma Regroup<T>(open: seq<T>, text: seq<T>, inner: seq<T>, close: seq<T>, tail: seq<T>, more: seq<T>)
    ensures (open + text + inner + close + tail) + more == open + text + (inner + ((close + tail) + more))
  {
  }

  /** Opening an element: its tag and text are printed, its children and its end go on the stack. */
  lemma OpenedIsPrinted(e: Elem, top: bool, rest: seq<Visit>, names: Prefixes)
    requires !(e.kids == [] && e.text == "")
    ensures var here := NamesAt(e, names);
            var later := PrintStack(Visits(e.kids) + [Visit(e, top, true)] + rest, here);
            PrintStack([Visit(e, top, false)] + rest, names)
            == Printed([Open(QualifyWith(e.tag, here), QualifyAttrs(e.attrs, here), [])] + CharsOf(e.text) + later.tokens, later.names)
  {
    var here := NamesAt(e, names);
    var inner := PrintKids(e.kids, here);
    var start, end := Visit(e, top, false), Visit(e, top, true);
    var tag := QualifyWith(e.tag, here);
    PrintVisits(e.kids, here);
    PrintKidsExtends(e.kids, here);
    NamesAtExtends(e, names);
    EndIsPrinted(e, top, here, inner.names);
    assert PrintVisit(start, names)
        == Printed([Open(tag, QualifyAttrs(e.attrs, here), [])] + CharsOf(e.text) + inner.tokens + [Close(tag)] + TailOf(end), inner.names);
    hide *;
    var more := PrintStack(rest, inner.names);
    assert PrintStack([start] + rest, names)
        == Printed(([Open(tag, QualifyAttrs(e.attrs, here), [])] + CharsOf(e.text) + inner.tokens + [Close(tag)] + TailOf(end)) + more.tokens, more.names) by {
      PrintStackTop(start, rest, names);
    }
    assert PrintStack(Visits(e.kids) + [end] + rest, here) == Printed(inner.tokens + (([Close(tag)] + TailOf(end)) + more.tokens), more.names) by {
      PrintStackTop(end, rest, inner.names);
      PrintStackAppend(Visits(e.kids), [end] + rest, here);
      Assoc(Visits(e.kids), [end], rest);
    }
    Regroup([Open(tag, QualifyAttrs(e.attrs, here), [])], CharsOf(e.text), inner.tokens, [Close(tag)], TailOf(end), more.tokens);
  }

  // ----- what the loop still has to do -----

  function Size(e: Elem): (n: nat)
    ensures n > 0
    decreases e
  {
    1 + SizeAll(e.kids)
  }

  function SizeAll(kids: seq<Elem>): nat
    decreases kids
  {
    if kids == [] then 0 else Size(kids[0]) + SizeAll(kids[1..])
  }

  function Work(stack: seq<Visit>): nat {
    if stack == [] then 0
    else (if stack[0].closing then 1 else 2 * Size(stack[0].elem)) + Work(stack[1..])
  }

  lemma {:induction false} WorkAppend(a: seq<Visit>, b: seq<Visit>)
    ensures Work(a + b) == Work(a) + Work(b)
  {
    if a == [] {
      assert a + b == b;
    } else {
      assert (a + b)[1..] == a[1..] + b;
      WorkAppend(a[1..], b);
    }
  }

  lemma {:induction false} WorkOfVisits(kids: seq<Elem>)
    ensures Work(Visits(kids)) == 2 * SizeAll(kids)
  {
    if kids != [] {
      assert Visits(kids)[1..] == Visits(kids[1..]);
      WorkOfVisits(kids[1..]);
    }
  }

  lemma WorkOfOpened(e: Elem, top: bool, rest: seq<Visit>)
    ensures Work(Visits(e.kids) + [Visit(e, top, true)] + rest) < Work([Visit(e, top, false)] + rest)
  {
    var end := [Visit(e, top, true)] + rest;
    assert Visits(e.kids) + [Visit(e, top, true)] + rest == Visits(e.kids) + end;
    assert end[1..] == rest && ([Visit(e, top, false)] + rest)[1..] == rest;
    WorkAppend(Visits(e.kids), end);
    WorkOfVisits(e.kids);
  }

  /** An element without content is printed as one token. */
  lemma LeafIsPrinted(e: Elem, top: bool, rest: seq<Visit>, names: Prefixes)
    requires e.kids == [] && e.text == ""
    ensures var here := NamesAt(e, names);
            var later := PrintStack(rest, here);
            PrintStack([Visit(e, top, false)] + rest, names)
            == Printed([Empty(QualifyWith(e.tag, here), QualifyAttrs(e.attrs, here), [])] + TailOf(Visit(e, top, false)) + later.tokens,
                       later.names)
  {
    hide NamesAt;
    hide PrintStack;
    PrintStackTop(Visit(e, top, false), rest, names);
  }

  lemma TailIsPrinted(v: Visit, rest: seq<Visit>, names: Prefixes)
    requires v.closing
    ensures var here := AssignName(names, v.elem.tag);
            var later := PrintStack(rest, here);
            PrintStack([v] + rest, names)
            == Printed([Close(QualifyWith(v.elem.tag, here))] + TailOf(v) + later.tokens, later.names)
  {
    hide AssignName;
    hide PrintStack;
    PrintStackTop(v, rest, names);
  }

  lemma AttrNamesStay(e: Elem, names: Prefixes)
    ensures QualifyAttrs(e.attrs, AssignAttrs(e.attrs, names)) == QualifyAttrs(e.attrs, NamesAt(e, names))
  {
    AssignAttrsExtends(e.attrs, names);
  }

  lemma WorkDrops(v: Visit, rest: seq<Visit>)
    ensures Work(rest) < Work([v] + rest)
  {
    assert ([v] + rest)[1..] == rest;
  }

  lemma OnlyRoot(root: Elem, names: Prefixes)
    ensures PrintStack([Visit(root, true, false)], names) == PrintElem(root, true, names)
  {
    PrintStackTop(Visit(root, true, false), [], names);
    assert [Visit(root, true, false)] + [] == [Visit(root, true, false)];
    var first := PrintElem(root, true, names);
    assert first.tokens + [] == first.tokens;
  }

  /** The loop prints what the recursion prints, and leaves the same table of prefixes. */
  method PrintAll(root: Elem, table: PrefixTable) returns (out: seq<Token>)
    requires table.Valid()
    modifies table
    ensures table.Valid()
    ensures PrintElem(root, true, old(table.names)) == Printed(out, table.names)
  {
    hide PrintElem;
    hide PrintStack;
    hide AssignName;
    hide AssignAttrs;
    hide Work;
    out := [];
    var stack := [Visit(root, true, false)];
    ghost var all := PrintElem(root, true, old(table.names));
    OnlyRoot(root, table.names);
    while stack != []
      invariant table.Valid()
      invariant var rest := PrintStack(stack, table.names); all == Printed(out + rest.tokens, rest.names)
      decreases Work(stack)
    {
      var v := stack[0];
      ghost var names := table.names;
      assert stack == [v] + stack[1..];
      stack := stack[1..];
      WorkDrops(v, stack);
      if v.closing {
        TailIsPrinted(v, stack, names);
        var tag := table.Qualify(v.elem.tag);
        Assoc(out, [Close(tag)] + TailOf(v), PrintStack(stack, table.names).tokens);
        out := out + ([Close(tag)] + TailOf(v));
      } else {
        AttrNamesStay(v.elem, names);
        var attrs := table.QualifyAll(v.elem.attrs);
        var tag := table.Qualify(v.elem.tag);
        if v.elem.kids == [] && v.elem.text == "" {
          LeafIsPrinted(v.elem, v.top, stack, names);
          Assoc(out, [Empty(tag, attrs, [])] + TailOf(v), PrintStack(stack, table.names).tokens);
          out := out + ([Empty(tag, attrs, [])] + TailOf(v));
        } else {
          OpenedIsPrinted(v.elem, v.top, stack, names);
          WorkOfOpened(v.elem, v.top, stack);
          stack := Visits(v.elem.kids) + [Visit(v.elem, v.top, true)] + stack;
          Assoc(out, [Open(tag, attrs, [])] + CharsOf(v.elem.text), PrintStack(stack, table.names).tokens);
          out := out + ([Open(tag, attrs, [])] + CharsOf(v.elem.text));
        }
      }
    }
    EmptyStack(table.names);
  }

  lemma EmptyStack(names: Prefixes)
    ensures PrintStack([], names) == Printed([], names)
  {
  }

  // ----- the declarations, all on the root and in the order of their prefixes -----

  predicate First(u: string, names: Prefixes) {
    u in names && forall v :: v in names && v != u ==> Less(names[u], names[v])
  }

  lemma {:induction false} FirstExists(names: Prefixes)
    requires InjectiveMap(names) && names != map[]
    ensures exists u :: First(u, names)
    decreases |names|
  {
    var x :| x in names;
    var rest := names - {x};
    if rest == map[] {
      assert forall v :: v in names ==> v == x by {
        assert forall v :: v in names && v != x ==> v in rest;
      }
      assert First(x, names);
    } else {
      assert rest.Keys == names.Keys - {x};
      FirstExists(rest);
      var f :| First(f, rest);
      LessIsTotal(names[f], names[x]);
      if Less(names[f], names[x]) {
        assert forall v :: v in names && v != f && v != x ==> v in rest;
        assert First(f, names);
      } else {
        forall v | v in names && v != x
          ensures Less(names[x], names[v])
        {
          assert v in rest;
          if v != f { LessIsTransitive(names[x], names[f], names[v]); }
        }
        assert First(x, names);
      }
    }
  }

  lemma FirstIsUnique(u: string, v: string, names: Prefixes)
    requires First(u, names) && First(v, names)
    ensures u == v
  {
    if u != v { LessIsTotal(names[u], names[v]); }
  }

  /** The declarations of a table, sorted by prefix. */
  ghost function Declarations(names: Prefixes): seq<Decl>
    requires InjectiveMap(names)
    decreases |names|
  {
    if names == map[] then []
    else
      FirstExists(names);
      var u :| First(u, names);
      assert (names - {u}).Keys == names.Keys - {u};
      [Decl(names[u], u)] + Declarations(names - {u})
  }

  lemma DeclarationsStep(names: Prefixes, u: string)
    requires InjectiveMap(names) && First(u, names)
    ensures |names - {u}| < |names|
    ensures Declarations(names) == [Decl(names[u], u)] + Declarations(names - {u})
  {
    assert (names - {u}).Keys == names.Keys - {u};
    var f :| First(f, names) && Declarations(names) == [Decl(names[f], f)] + Declarations(names - {f});
    FirstIsUnique(u, f, names);
  }

  method SortDeclarations(names: Prefixes) returns (decls: seq<Decl>)
    requires InjectiveMap(names)
    ensures decls == Declarations(names)
  {
    hide First;
    decls := [];
    var rest := names;
    while rest != map[]
      invariant InjectiveMap(rest)
      invariant decls + Declarations(rest) == Declarations(names)
      decreases |rest|
    {
      var u := FirstOf(rest);
      DeclarationsStep(rest, u);
      decls := decls + [Decl(rest[u], u)];
      rest := rest - {u};
    }
  }

  method FirstOf(names: Prefixes) returns (u: string)
    requires InjectiveMap(names) && names != map[]
    ensures u in names && First(u, names)
  {
    FirstExists(names);
    u :| u in names && First(u, names);
  }

  function WithDecls(tokens: seq<Token>, decls: seq<Decl>): seq<Token>
    requires tokens != [] && (tokens[0].Open? || tokens[0].Empty?)
  {
    [tokens[0].(decls := decls)] + tokens[1..]
  }

  /** The table a part starts with. */
  function Given(part: Part): Prefixes { part.prefixes[XML_NS := "xml"] }

  /** A table that parsing may leave behind: no two namespaces share a prefix, none has the reserved one. */
  ghost predicate Plausible(prefixes: Prefixes) {
    InjectiveMap(prefixes) && forall u :: u in prefixes && u != XML_NS ==> prefixes[u] != "xml"
  }

  lemma GivenIsInjective(part: Part)
    requires Plausible(part.prefixes)
    ensures InjectiveMap(Given(part))
  {
  }

  lemma {:induction false} AssignAttrsInjective(attrs: seq<Attr>, names: Prefixes)
    requires InjectiveMap(names)
    ensures InjectiveMap(AssignAttrs(attrs, names))
  {
    if attrs != [] {
      AssignKeepsInjective(names, UriOf(attrs[0].name));
      AssignAttrsInjective(attrs[1..], AssignName(names, attrs[0].name));
    }
  }

  lemma NamesAtInjective(e: Elem, names: Prefixes)
    requires InjectiveMap(names)
    ensures InjectiveMap(NamesAt(e, names))
  {
    AssignAttrsInjective(e.attrs, names);
    AssignKeepsInjective(AssignAttrs(e.attrs, names), UriOf(e.tag));
  }

  /** The table stays injective while it grows. */
  lemma {:induction false} PrintKeepsInjective(e: Elem, top: bool, names: Prefixes)
    requires InjectiveMap(names)
    ensures InjectiveMap(PrintElem(e, top, names).names)
    decreases e
  {
    NamesAtInjective(e, names);
    PrintKidsKeepInjective(e.kids, NamesAt(e, names));
  }

  lemma {:induction false} PrintKidsKeepInjective(kids: seq<Elem>, names: Prefixes)
    requires InjectiveMap(names)
    ensures InjectiveMap(PrintKids(kids, names).names)
    decreases kids
  {
    if kids != [] {
      PrintKeepsInjective(kids[0], false, names);
      PrintKidsKeepInjective(kids[1..], PrintElem(kids[0], false, names).names);
    }
  }

  /** The tokens of a part. An undeclared default namespace left in the table cannot be written. */
  ghost function Serialized(part: Part): Option<seq<Token>>
    requires Plausible(part.prefixes)
  {
    GivenIsInjective(part);
    PrintKeepsInjective(part.root, true, Given(part));
    var printed := PrintElem(part.root, true, Given(part));
    if "" in printed.names then None
    else Some(WithDecls(printed.tokens, Declarations(printed.names - {XML_NS})))
  }

  method Serialize(part: Part) returns (out: Option<seq<Token>>)
    requires Plausible(part.prefixes)
    ensures out == Serialized(part)
  {
    GivenIsInjective(part);
    PrintKeepsInjective(part.root, true, Given(part));
    var table := new PrefixTable(part.prefixes);
    var tokens := PrintAll(part.root, table);
    if "" in table.names {
      return None;
    }
    var decls := SortDeclarations(table.names - {XML_NS});
    out := Some(WithDecls(tokens, decls));
  }
}
