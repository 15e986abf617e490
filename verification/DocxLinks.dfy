/** Which links a rebuilt Word package may hold, and which files the check reports, said of the characters of the type
    and the target. */
module DocxLinks {
  import opened Common
  import opened Text
  import opened DocxRebuild

  // ----- which targets are dangerous -----

  /** Two slashes first, or two backslashes: a path on the network. */
  predicate NetworkPath(core: string) { |core| >= 2 && core[0] == core[1] && (core[0] == '/' || core[0] == '\\') }

  predicate Letter(c: char) { 'a' <= c <= 'z' || 'A' <= c <= 'Z' }

  predicate Numeral(c: char) { '0' <= c <= '9' }

  /** What stands before the first colon, when it is written as a scheme is: letters, digits, plus and minus, and not
      only signs. */
  predicate SchemeIs(core: string, scheme: string) {
    && |scheme| < |core| && core[..|scheme|] == scheme && core[|scheme|] == ':'
    && (forall i :: 0 <= i < |scheme| ==> Letter(scheme[i]) || Numeral(scheme[i]) || scheme[i] == '+' || scheme[i] == '-')
    && exists i :: 0 <= i < |scheme| && (Letter(scheme[i]) || Numeral(scheme[i]))
  }

  /** A drive, or a scheme that does more than open a page or a letter. */
  predicate SchemeRuns(scheme: string, w: World) {
    |scheme| == 1 || Lower(scheme, w.lower) !in {"http", "https", "mailto"}
  }

  ghost predicate CoreRuns(core: string, w: World) {
    NetworkPath(core) || exists scheme :: SchemeIs(core, scheme) && SchemeRuns(scheme, w)
  }

  ghost predicate Dangerous(target: string, w: World) {
    exists core :: IsCore(target, core, w.space) && CoreRuns(core, w)
  }

  predicate FirstColon(core: string, n: int) {
    0 <= n < |core| && core[n] == ':' && forall i :: 0 <= i < n ==> core[i] != ':'
  }

  lemma BeforeColon(core: string)
    ensures var parts := Split(core, ':');
            if |parts| == 1 then forall n :: !FirstColon(core, n)
            else FirstColon(core, |parts[0]|) && parts[0] == core[..|parts[0]|]
  {
    var q := FirstPart(core, ':');
  }

  lemma SchemeEndsAtColon(core: string, scheme: string)
    requires SchemeIs(core, scheme)
    ensures FirstColon(core, |scheme|) && scheme == core[..|scheme|] && |scheme| >= 1
  {
  }

  lemma NetworkPathExactly(core: string)
    ensures NetworkPath(core) <==> "\\\\" <= core || "//" <= core
  {
    if |core| >= 2 {
      assert core[..2] == [core[0], core[1]];
      assert "\\\\" <= core <==> core[..2] == "\\\\";
      assert "//" <= core <==> core[..2] == "//";
    }
  }

  /** The scheme taken to decide is the scheme. */
  lemma SchemeExactly(core: string)
    ensures var parts := Split(core, ':');
            && (SchemeIs(core, parts[0]) <==> |parts| > 1 && AllLettersOrDigits(parts[0]) && AnyLetterOrDigit(parts[0]))
            && forall other :: SchemeIs(core, other) ==> other == parts[0]
  {
    BeforeColon(core);
    var parts := Split(core, ':');
    var scheme := parts[0];
    hide Split;
    forall other | SchemeIs(core, other)
      ensures other == scheme && |parts| > 1
    {
      SchemeEndsAtColon(core, other);
    }
    assert forall i :: 0 <= i < |scheme| ==> (IsLetterOrDigit(scheme[i]) <==> Letter(scheme[i]) || Numeral(scheme[i]));
    if SchemeIs(core, scheme) {
      var i :| 0 <= i < |scheme| && (Letter(scheme[i]) || Numeral(scheme[i]));
    }
    if AnyLetterOrDigit(scheme) {
      var i :| 0 <= i < |scheme| && IsLetterOrDigit(scheme[i]);
    }
  }

  lemma CoreExactly(target: string, w: World)
    ensures SafeHyperlink(target, w) <==> !CoreRuns(Strip(target, w.space), w)
  {
    var core := Strip(target, w.space);
    NetworkPathExactly(core);
    SchemeExactly(core);
    var parts := Split(core, ':');
    var scheme := parts[0];
    hide Strip;
    hide Split;
    hide NetworkPath;
    hide Lower;
    hide AllLettersOrDigits;
    hide AnyLetterOrDigit;
    if SchemeIs(core, scheme) { SchemeEndsAtColon(core, scheme); }
    hide SchemeIs;
    assert (exists other :: SchemeIs(core, other) && SchemeRuns(other, w)) <==> SchemeIs(core, scheme) && SchemeRuns(scheme, w);
  }

  /** A link is let through exactly when its target is not dangerous. */
  lemma HyperlinkExactly(target: string, w: World)
    ensures SafeHyperlink(target, w) <==> !Dangerous(target, w)
  {
    CoreExactly(target, w);
    hide Strip;
    hide IsCore;
    hide CoreRuns;
    hide SafeHyperlink;
    StripIsCore(target, Strip(target, w.space), w.space);
    forall core | IsCore(target, core, w.space)
      ensures core == Strip(target, w.space)
    {
      StripIsCore(target, core, w.space);
    }
  }

  // ----- the kind of a relationship -----

  /** The last segment of a type, slashes at its end aside. */
  predicate SegmentAt(uri: string, p: int, q: int) {
    && 0 <= p <= q <= |uri|
    && (forall i :: q <= i < |uri| ==> uri[i] == '/') && (forall i :: p <= i < q ==> uri[i] != '/')
    && (p == 0 || uri[p - 1] == '/') && (p == q ==> forall i :: 0 <= i < |uri| ==> uri[i] == '/')
  }

  ghost predicate KindIs(uri: string, kind: string) {
    exists p: int, q: int :: SegmentAt(uri, p, q) && uri[p..q] == kind
  }

  lemma {:induction false} SlashesEnd(s: string) returns (q: nat)
    ensures q <= |s| && StripSlashes(s) == s[..q]
    ensures (forall i :: q <= i < |s| ==> s[i] == '/') && (q > 0 ==> s[q - 1] != '/')
  {
    if s != "" && s[|s| - 1] == '/' {
      q := SlashesEnd(s[..|s| - 1]);
      assert s[..|s| - 1][..q] == s[..q];
      assert forall i :: 0 <= i < |s| - 1 ==> s[i] == s[..|s| - 1][i];
    } else {
      q := |s|;
      assert s[..q] == s;
    }
  }

  lemma {:induction false} BaseBegins(s: string)
    ensures var p := BaseStart(s);
            (forall i :: p <= i < |s| ==> s[i] != '/') && (p == 0 || s[p - 1] == '/')
  {
    if s != "" && s[|s| - 1] != '/' {
      BaseBegins(s[..|s| - 1]);
      assert forall i :: 0 <= i < |s| - 1 ==> s[i] == s[..|s| - 1][i];
    }
  }

  lemma OneSegment(uri: string, p: int, q: int, p': int, q': int)
    requires SegmentAt(uri, p, q) && SegmentAt(uri, p', q')
    ensures uri[p..q] == uri[p'..q']
  {
    if p < q {
      assert uri[q - 1] != '/' && uri[p] != '/';
    }
    if p' < q' {
      assert uri[q' - 1] != '/' && uri[p'] != '/';
    }
  }

  lemma KindExactly(uri: string, kind: string)
    ensures KindOf(uri) == kind <==> KindIs(uri, kind)
  {
    var q := SlashesEnd(uri);
    var s := uri[..q];
    BaseBegins(s);
    var p := BaseStart(s);
    assert KindOf(uri) == s[p..] == uri[p..q];
    assert forall i :: 0 <= i < q ==> s[i] == uri[i];
    assert SegmentAt(uri, p, q);
    hide KindOf;
    hide BaseStart;
    if KindIs(uri, kind) {
      var p', q' :| SegmentAt(uri, p', q') && uri[p'..q'] == kind;
      OneSegment(uri, p, q, p', q');
    }
  }

  /** A relationship to a page or a letter: the last segment of its type is `hyperlink` in any case, and its target is
      not dangerous. */
  ghost predicate Harmless(rel: Rel, w: World) {
    (exists kind :: KindIs(rel.kindUri, kind) && Lower(kind, w.lower) == "hyperlink") && !Dangerous(rel.target, w)
  }

  lemma ExternalExactly(rel: Rel, w: World)
    ensures SafeExternal(rel, w) <==> Harmless(rel, w)
  {
    HyperlinkExactly(rel.target, w);
    hide SafeHyperlink;
    hide Dangerous;
    hide KindOf;
    hide KindIs;
    hide Lower;
    KindExactly(rel.kindUri, KindOf(rel.kindUri));
    forall kind | KindIs(rel.kindUri, kind)
      ensures kind == KindOf(rel.kindUri)
    {
      KindExactly(rel.kindUri, kind);
    }
  }

  // ----- the package, and the check of it -----

  /** What a relationship must be to stay in the file of relationships of `source`. */
  ghost predicate MayStay(rel: Rel, source: string, parts: set<string>, w: World) {
    if rel.external then Harmless(rel, w) else Resolved(source, rel.target) in parts
  }

  lemma SurvivesExactly(rel: Rel, source: string, parts: set<string>, w: World)
    ensures Survives(rel, source, parts, w) <==> MayStay(rel, source, parts, w)
  {
    ExternalExactly(rel, w);
    hide SafeExternal;
    hide Harmless;
    hide Resolved;
  }

  /** In a rebuilt package, the children of the root of a file of relationships are those of the file read that are
      harmless links or lead to a part of the package: no dangerous link stays, and nothing else goes. */
  lemma LinksExactly(p: Package, names: seq<string>, w: World, file: string, rel: Rel) returns (source: string)
    requires Rebuilt(p, names, w) && file in p.rels
    ensures (source == "" || source in p.parts) && file == RelsName(source)
    ensures rel in p.rels[file].nested <==> rel in w.rels(file).nested && MayStay(rel, source, p.parts, w)
  {
    hide RelsName;
    hide MayStay;
    hide Survives;
    source :| source in p.parts + {""} && RelsName(source) in names && file == RelsName(source);
    assert source in SourcesOf(names, p.parts);
    assert p.rels[file] == RebuiltFile(w.rels(file), source, p.parts, w);
    KeptExactly(w.rels(file).nested, source, p.parts, w, rel);
    SurvivesExactly(rel, source, p.parts, w);
  }

  /** The ids that a part loses are those of the relationships that may not stay. */
  lemma RemovedExactly(names: seq<string>, source: string, parts: set<string>, w: World, id: string)
    ensures var rels := w.rels(RelsName(source)).nested;
            id in RemovedIds(names, source, parts, w) <==>
            RelsName(source) in names && exists i :: 0 <= i < |rels| && !MayStay(rels[i], source, parts, w) && rels[i].id == id
  {
    var rels := w.rels(RelsName(source)).nested;
    forall i | 0 <= i < |rels|
      ensures Survives(rels[i], source, parts, w) <==> MayStay(rels[i], source, parts, w)
    {
      SurvivesExactly(rels[i], source, parts, w);
    }
    hide Survives;
    hide MayStay;
    hide RelsName;
  }

  lemma {:induction false} KeptInTwo(a: seq<Rel>, b: seq<Rel>, source: string, keep: set<string>, w: World)
    ensures Kept(a + b, source, keep, w) == Kept(a, source, keep, w) + Kept(b, source, keep, w)
  {
    hide Survives;
    if b == [] {
      assert a + b == a;
    } else {
      assert (a + b)[..|a + b| - 1] == a + b[..|b| - 1];
      KeptInTwo(a, b[..|b| - 1], source, keep, w);
    }
  }

  /** Each stays or goes on its own account, and those that stay keep their order. */
  lemma KeptInOrder(before: seq<Rel>, rel: Rel, after: seq<Rel>, source: string, keep: set<string>, w: World)
    ensures Kept(before + [rel] + after, source, keep, w)
            == Kept(before, source, keep, w) + (if MayStay(rel, source, keep, w) then [rel] else []) + Kept(after, source, keep, w)
  {
    hide MayStay;
    hide Survives;
    SurvivesExactly(rel, source, keep, w);
    KeptInTwo(before, [rel], source, keep, w);
    KeptInTwo(before + [rel], after, source, keep, w);
    assert [rel][..0] == [];
    assert Kept([rel][..0], source, keep, w) == [];
  }

  /** The root itself, or an element inside it at any depth. */
  ghost predicate Holds(root: Rel, e: Rel) {
    root == e || exists i :: 0 <= i < |root.nested| && Holds(root.nested[i], e)
  }

  ghost predicate Faulty(e: Rel, w: World) { e.relationship && e.external && !Harmless(e, w) }

  lemma FaultyExactly(e: Rel, w: World)
    ensures BadExternal(e, w) <==> Faulty(e, w)
  {
    ExternalExactly(e, w);
    hide SafeExternal;
    hide Harmless;
  }

  lemma FaultIsHeld(root: Rel, w: World) returns (e: Rel)
    requires AnyBad(Elements([root]), w)
    ensures Holds(root, e) && Faulty(e, w)
    decreases root
  {
    hide AnyBad;
    hide Elements;
    hide Faulty;
    hide BadExternal;
    e := root;
    FaultyExactly(root, w);
    if !BadExternal(root, w) {
      var i := FaultBelow(root, w);
      e := FaultIsHeld(root.nested[i], w);
    }
  }

  lemma FaultBelow(root: Rel, w: World) returns (i: nat)
    requires AnyBad(Elements([root]), w) && !BadExternal(root, w)
    ensures i < |root.nested| && AnyBad(Elements([root.nested[i]]), w)
  {
    hide AnyBad;
    hide Elements;
    hide BadExternal;
    BadAtTopOrInside([root], w);
    BadAtTopOrInside(root.nested, w);
    assert [root][0] == root;
    i :| 0 <= i < |root.nested| && (BadExternal(root.nested[i], w) || AnyBad(Elements(root.nested[i].nested), w));
    BadAtTopOrInside([root.nested[i]], w);
    assert [root.nested[i]][0] == root.nested[i];
  }

  lemma {:induction false} HeldIsFault(root: Rel, e: Rel, w: World)
    requires Holds(root, e) && Faulty(e, w)
    ensures AnyBad(Elements([root]), w)
    decreases root
  {
    hide AnyBad;
    hide Elements;
    hide Faulty;
    hide BadExternal;
    BadAtTopOrInside([root], w);
    assert [root][0] == root;
    if root == e {
      FaultyExactly(e, w);
    } else {
      var i :| 0 <= i < |root.nested| && Holds(root.nested[i], e);
      HeldIsFault(root.nested[i], e, w);
      BadAtTopOrInside([root.nested[i]], w);
      assert [root.nested[i]][0] == root.nested[i];
      BadAtTopOrInside(root.nested, w);
    }
  }

  /** The check reports a file of relationships exactly when its root, or an element at any depth inside it, is an
      external relationship that is not a harmless link. */
  lemma ReportedExactly(root: Rel, w: World)
    ensures AnyBad(Elements([root]), w) <==> exists e :: Holds(root, e) && Faulty(e, w)
  {
    hide AnyBad;
    hide Elements;
    hide Holds;
    hide Faulty;
    if AnyBad(Elements([root]), w) {
      var e := FaultIsHeld(root, w);
    }
    if e :| Holds(root, e) && Faulty(e, w) {
      HeldIsFault(root, e, w);
    }
  }

  /** A part of the new package is a file given that is on the list, holds no relationships, does not list the types,
      and is no picture that cannot be decoded; and every such file is one. */
  lemma PartsExactly(p: Package, names: seq<string>, w: World, n: string)
    requires Rebuilt(p, names, w)
    ensures n in p.parts <==>
            && n in names && w.allowed(n) && n != "[Content_Types].xml" && w.media(n) != Broken
            && !(|n| >= 5 && n[|n| - 5..] == ".rels")
  {
  }
}
