/** Rebuilding the package of a Word document from the parts on an allow-list: what is kept, which
    relationships survive, and what the check of the result then finds. */
module DocxRebuild {
  import opened Common
  import opened Text
  import opened DocxClean

  // ----- names of parts -----

  /** Where the relationships of a part lie; those of the package belong to "". */
  function RelsName(source: string): string { RelsWith(source, "_rels", ".rels") }

  function RelsWith(source: string, inner: string, suffix: string): string {
    var b := BaseStart(source);
    source[..b] + (inner + "/") + (source[b..] + suffix)
  }

  function WithoutSuffix(s: string, suffix: string): string {
    if |s| >= |suffix| && s[|s| - |suffix|..] == suffix then s[..|s| - |suffix|] else s
  }

  function ParentOf(path: string): string { path[..BaseStart(path)] }

  /** Whose relationships a file holds. */
  function SourceOf(rels: string): string { SourceWith(rels, ".rels") }

  function SourceWith(rels: string, suffix: string): string {
    var b := BaseStart(rels);
    var name := WithoutSuffix(rels[b..], suffix);
    if name == "" || b == 0 then name else ParentOf(rels[..b - 1]) + name
  }

  lemma {:induction false} BaseStartAppend(a: string, c: string)
    requires '/' !in c
    ensures BaseStart(a + c) == BaseStart(a)
  {
    if c == "" {
      assert a + c == a;
    } else {
      assert (a + c)[..|a + c| - 1] == a + c[..|c| - 1];
      assert c[|c| - 1] in c;
      BaseStartAppend(a, c[..|c| - 1]);
    }
  }

  lemma {:induction false} BaseHasNoSlash(s: string)
    ensures '/' !in s[BaseStart(s)..]
    ensures BaseStart(s[..BaseStart(s)]) == BaseStart(s)
  {
    if s != "" && s[|s| - 1] != '/' {
      var init := s[..|s| - 1];
      BaseHasNoSlash(init);
      assert s[BaseStart(s)..] == init[BaseStart(s)..] + [s[|s| - 1]];
      assert s[..BaseStart(s)] == init[..BaseStart(s)];
    } else if s != "" {
      assert s[..|s|] == s;
    }
  }

  lemma BaseAfterSlash(head: string, file: string)
    requires head != "" && head[|head| - 1] == '/' && '/' !in file
    ensures BaseStart(head + file) == |head|
  {
    BaseStartAppend(head, file);
  }

  lemma SuffixGoes(a: string, suffix: string)
    ensures WithoutSuffix(a + suffix, suffix) == a
  {
  }

  lemma ParentIsFound(dir: string, inner: string)
    requires BaseStart(dir) == |dir| && '/' !in inner
    ensures ParentOf(dir + inner) == dir
  {
    BaseStartAppend(dir, inner);
  }

  lemma SourceIsFound(dir: string, inner: string, base: string, suffix: string)
    requires BaseStart(dir) == |dir| && '/' !in inner && '/' !in base && '/' !in suffix && (base == "" ==> dir == "")
    ensures SourceWith(dir + (inner + "/") + (base + suffix), suffix) == dir + base
  {
    var head, file := dir + (inner + "/"), base + suffix;
    hide BaseStart;
    hide WithoutSuffix;
    hide ParentOf;
    BaseAfterSlash(head, file);
    SuffixGoes(base, suffix);
    ParentIsFound(dir, inner);
    assert (head + file)[|head|..] == file;
    assert (head + file)[..|head| - 1] == dir + inner;
  }

  /** The file of relationships tells its part: no two parts share one. */
  lemma SourceOfRelsName(source: string)
    requires source == "" || source[|source| - 1] != '/'
    ensures SourceOf(RelsName(source)) == source
  {
    hide SourceWith;
    hide RelsWith;
    SourceOfRels(source, "_rels", ".rels");
  }

  lemma SourceOfRels(source: string, inner: string, suffix: string)
    requires (source == "" || source[|source| - 1] != '/') && '/' !in inner && '/' !in suffix
    ensures SourceWith(RelsWith(source, inner, suffix), suffix) == source
  {
    var b := BaseStart(source);
    var dir, base := source[..b], source[b..];
    BaseHasNoSlash(source);
    BaseOfFile(source);
    assert RelsWith(source, inner, suffix) == dir + (inner + "/") + (base + suffix);
    assert source == dir + base && (base == "" ==> dir == "");
    hide BaseStart;
    hide SourceWith;
    hide RelsWith;
    SourceIsFound(dir, inner, base, suffix);
  }

  lemma BaseOfFile(source: string)
    requires source == "" || source[|source| - 1] != '/'
    ensures source[BaseStart(source)..] == "" ==> source == ""
  {
    if source != "" { assert BaseStart(source) == BaseStart(source[..|source| - 1]); }
  }

  /** The components a name is made of. */
  function Significant(pieces: seq<string>): seq<string> {
    if pieces == [] then []
    else (if pieces[0] == "" || pieces[0] == "." then [] else [pieces[0]]) + Significant(pieces[1..])
  }

  /** The components of the directory a part lies in. */
  function DirectoryOf(source: string): seq<string> {
    var parts := Significant(Split(source, '/'));
    if parts == [] then [] else parts[..|parts| - 1]
  }

  function Walk(pieces: seq<string>, at: seq<string>): seq<string> {
    if pieces == [] then at
    else if pieces[0] == "" || pieces[0] == "." then Walk(pieces[1..], at)
    else if pieces[0] == ".." then Walk(pieces[1..], if at == [] then [] else at[..|at| - 1])
    else Walk(pieces[1..], at + [pieces[0]])
  }

  function DropSlashes(s: string): string { if s != "" && s[0] == '/' then DropSlashes(s[1..]) else s }

  function Joined(parts: seq<string>): string {
    if parts == [] then "" else if |parts| == 1 then parts[0] else Joined(parts[..|parts| - 1]) + "/" + parts[|parts| - 1]
  }

  function Resolved(source: string, target: string): string {
    if target != "" && target[0] == '/' then DropSlashes(target) else Joined(Walk(DirectoryOf(source) + Split(target, '/'), []))
  }

  method Resolve(source: string, target: string) returns (name: string)
    ensures name == Resolved(source, target)
  {
    if target != "" && target[0] == '/' {
      return DropSlashes(target);
    }
    var pieces := DirectoryOf(source) + Split(target, '/');
    var at: seq<string> := [];
    for i := 0 to |pieces|
      invariant Walk(pieces[i..], at) == Walk(pieces, [])
    {
      var piece := pieces[i];
      assert pieces[i..][1..] == pieces[i + 1..];
      if piece == "" || piece == "." {
      } else if piece == ".." {
        if at != [] { at := at[..|at| - 1]; }
      } else {
        at := at + [piece];
      }
    }
    assert pieces[|pieces|..] == [];
    name := Joined(at);
  }

  /** A relative target never leads above the root of the package: the way there has no empty, "." or ".."
      step, wherever it starts. */
  lemma {:induction false} WalkIsPlain(pieces: seq<string>, at: seq<string>)
    requires forall i :: 0 <= i < |at| ==> at[i] != "" && at[i] != "." && at[i] != ".."
    ensures forall i :: 0 <= i < |Walk(pieces, at)| ==> Walk(pieces, at)[i] != "" && Walk(pieces, at)[i] != "." && Walk(pieces, at)[i] != ".."
  {
    if pieces != [] {
      if pieces[0] == "" || pieces[0] == "." {
        WalkIsPlain(pieces[1..], at);
      } else if pieces[0] == ".." {
        WalkIsPlain(pieces[1..], if at == [] then [] else at[..|at| - 1]);
      } else {
        WalkIsPlain(pieces[1..], at + [pieces[0]]);
      }
    }
  }

  // ----- relationships -----

  /** An element of a file of relationships, the root included; `nested` are the elements inside it. */
  datatype Rel = Rel(relationship: bool, id: string, kindUri: string, target: string, external: bool, nested: seq<Rel>)

  datatype Media = NoMedia | Fine | Broken | Unreadable

  datatype Doc = Bad | Doc(nodes: seq<Node>, parents: seq<int>)

  /** Everything outside: characters, the allow-lists, and the contents of the files by name. */
  datatype World = World(
    lower: char -> string, space: char -> bool, allowed: string -> bool, allowedLight: string -> bool,
    media: string -> Media, rels: string -> Rel, relsOk: string -> bool, doc: string -> Doc)

  function StripSlashes(s: string): string { if s != "" && s[|s| - 1] == '/' then StripSlashes(s[..|s| - 1]) else s }

  /** The last segment of the type. */
  function KindOf(uri: string): string {
    var s := StripSlashes(uri);
    s[BaseStart(s)..]
  }

  predicate IsLetterOrDigit(c: char) { '0' <= c <= '9' || 'A' <= c <= 'Z' || 'a' <= c <= 'z' }

  predicate AllLettersOrDigits(s: string) { forall i :: 0 <= i < |s| ==> IsLetterOrDigit(s[i]) || s[i] == '+' || s[i] == '-' }

  predicate AnyLetterOrDigit(s: string) { exists i :: 0 <= i < |s| && IsLetterOrDigit(s[i]) }

  const SAFE_LINK_SCHEMES := {"http", "https", "mailto"}

  /** A link that only opens a page or a letter. */
  predicate SafeHyperlink(target: string, w: World) {
    var stripped := Strip(target, w.space);
    if "\\\\" <= stripped || "//" <= stripped then false
    else
      var parts := Split(stripped, ':');
      var scheme := parts[0];
      if |parts| == 1 || !AllLettersOrDigits(scheme) || !AnyLetterOrDigit(scheme) then true
      else |scheme| > 1 && Lower(scheme, w.lower) in SAFE_LINK_SCHEMES
  }

  predicate SafeExternal(rel: Rel, w: World) {
    Lower(KindOf(rel.kindUri), w.lower) == "hyperlink" && SafeHyperlink(rel.target, w)
  }

  predicate Survives(rel: Rel, source: string, keep: set<string>, w: World) {
    if rel.external then SafeExternal(rel, w) else Resolved(source, rel.target) in keep
  }

  function Kept(rels: seq<Rel>, source: string, keep: set<string>, w: World): seq<Rel> {
    if rels == [] then []
    else
      Kept(rels[..|rels| - 1], source, keep, w)
      + (if Survives(rels[|rels| - 1], source, keep, w) then [rels[|rels| - 1]] else [])
  }

  function Gone(rels: seq<Rel>, source: string, keep: set<string>, w: World): set<string> {
    set i | 0 <= i < |rels| && !Survives(rels[i], source, keep, w) :: rels[i].id
  }

  /** A file of relationships after the rebuild: the children of its root that survive. */
  function RebuiltFile(root: Rel, source: string, keep: set<string>, w: World): Rel {
    root.(nested := Kept(root.nested, source, keep, w))
  }

  method Filter(rels: seq<Rel>, source: string, keep: set<string>, w: World) returns (kept: seq<Rel>, gone: set<string>)
    ensures kept == Kept(rels, source, keep, w) && gone == Gone(rels, source, keep, w)
  {
    hide SafeExternal;
    hide Resolved;
    kept, gone := [], {};
    for i := 0 to |rels|
      invariant kept == Kept(rels[..i], source, keep, w)
      invariant forall x :: x in gone <==> exists j :: 0 <= j < i && !Survives(rels[j], source, keep, w) && rels[j].id == x
    {
      assert rels[..i + 1][..i] == rels[..i];
      var rel := rels[i];
      var drop: bool;
      if rel.external {
        drop := !SafeExternal(rel, w);
      } else {
        var name := Resolve(source, rel.target);
        drop := name !in keep;
      }
      if drop {
        gone := gone + {rel.id};
      } else {
        kept := kept + [rel];
      }
    }
    assert rels[..|rels|] == rels;
  }

  // ----- the package -----

  datatype Error = MainMissing | MediaUnreadable | NotParsed | RootDoomed

  /** The parts of the new package, its relationships by file, and of each cleaned part the elements left. */
  datatype Package = Package(parts: set<string>, rels: map<string, Rel>, trees: map<string, set<nat>>)

  datatype Result = Ok(package: Package) | Err(error: Error)

  const CONTENT_TYPES := "[Content_Types].xml"

  predicate IsPartName(name: string) { !EndsWith(name, ".rels") && name != CONTENT_TYPES }

  predicate EndsWith(s: string, suffix: string) { |s| >= |suffix| && s[|s| - |suffix|..] == suffix }

  /** What the allow-lists have in common with the real ones: the check allows all that a rebuild keeps, and
      a part has a name that is not a directory. Documents come from a parser, so they are trees. */
  ghost predicate Sound(w: World) {
    && (forall n :: w.allowed(n) ==> w.allowedLight(n) && n != "" && n[|n| - 1] != '/')
    && (forall n :: w.doc(n).Doc? ==> IsTree(w.doc(n).nodes, w.doc(n).parents))
  }

  function Chosen(names: seq<string>, w: World): set<string> {
    set n | n in names && IsPartName(n) && w.allowed(n)
  }

  /** The parts of the new package: what is on the list, but for pictures that cannot be decoded. */
  function PartsOf(names: seq<string>, w: World): set<string> {
    set n | n in Chosen(names, w) && w.media(n) != Broken
  }

  function SourcesOf(names: seq<string>, parts: set<string>): set<string> {
    set s | s in parts + {""} && RelsName(s) in names
  }

  function RemovedIds(names: seq<string>, source: string, parts: set<string>, w: World): set<string> {
    if RelsName(source) in names then Gone(w.rels(RelsName(source)).nested, source, parts, w) else {}
  }

  /** The elements of a part that a cleaning leaves. */
  ghost function Left(doc: Doc, removed: set<string>): set<nat>
    requires doc.Doc? && IsTree(doc.nodes, doc.parents)
  {
    set i: nat | i < |doc.nodes| && Stays(doc.nodes, doc.parents, removed, i)
  }

  /** A document that can be cleaned: it parses, and its root need not go. */
  ghost predicate Cleanable(doc: Doc, removed: set<string>) {
    doc.Doc? && IsTree(doc.nodes, doc.parents) && !DocxClean.TakenOut(doc.nodes, doc.parents, removed, 0)
  }

  method ChooseParts(names: seq<string>, w: World) returns (keep: set<string>)
    ensures keep == Chosen(names, w)
  {
    keep := {};
    for i := 0 to |names|
      invariant keep == Chosen(names[..i], w)
    {
      assert names[..i + 1] == names[..i] + [names[i]];
      if IsPartName(names[i]) && w.allowed(names[i]) { keep := keep + {names[i]}; }
    }
    assert names[..|names|] == names;
  }

  method DropBrokenMedia(chosen: set<string>, w: World) returns (ok: bool, keep: set<string>)
    ensures ok <==> forall n :: n in chosen ==> w.media(n) != Media.Unreadable
    ensures ok ==> keep == set n | n in chosen && w.media(n) != Broken
  {
    keep := chosen;
    var todo := chosen;
    while todo != {}
      invariant todo <= chosen && forall n :: n in chosen - todo ==> w.media(n) != Media.Unreadable
      invariant keep == set n | n in chosen && (n in todo || w.media(n) != Broken)
      decreases |todo|
    {
      var name :| name in todo;
      todo := todo - {name};
      match w.media(name) {
        case Unreadable => return false, {};
        case Broken => keep := keep - {name};
        case _ =>
      }
    }
    ok := true;
  }

  /** The relationships of one source are rebuilt, and the ids of the removed ones noted. */
  ghost predicate SourceDone(rels: map<string, Rel>, removed: map<string, set<string>>, s: string, keep: set<string>, w: World) {
    && RelsName(s) in rels && rels[RelsName(s)] == RebuiltFile(w.rels(RelsName(s)), s, keep, w)
    && s in removed && removed[s] == Gone(w.rels(RelsName(s)).nested, s, keep, w)
  }

  ghost predicate FromSources(rels: map<string, Rel>, done: set<string>, names: seq<string>) {
    forall k :: k in rels ==> exists s :: s in done && RelsName(s) in names && k == RelsName(s)
  }

  /** The relationships of the sources done so far. */
  ghost predicate RelsDone(rels: map<string, Rel>, removed: map<string, set<string>>, done: set<string>,
                           names: seq<string>, keep: set<string>, w: World) {
    && FromSources(rels, done, names)
    && (forall s :: s in done && RelsName(s) in names ==> SourceDone(rels, removed, s, keep, w))
    && (forall s :: s in removed ==> s in done && RelsName(s) in names)
  }

  ghost predicate FileNames(sources: set<string>) { forall s :: s in sources ==> s == "" || s[|s| - 1] != '/' }

  lemma FromMoreSources(rels: map<string, Rel>, done: set<string>, source: string, kept: Rel, names: seq<string>)
    requires FromSources(rels, done, names)
    ensures FromSources(rels, done + {source}, names)
    ensures RelsName(source) in names ==> FromSources(rels[RelsName(source) := kept], done + {source}, names)
  {
    hide RelsName;
    forall k | k in rels
      ensures exists s :: s in done + {source} && RelsName(s) in names && k == RelsName(s)
    {
      var s :| s in done && RelsName(s) in names && k == RelsName(s);
      assert s in done + {source};
    }
    assert source in done + {source};
  }

  lemma OtherSourceStays(rels: map<string, Rel>, removed: map<string, set<string>>, s: string, source: string,
                         kept: Rel, gone: set<string>, keep: set<string>, w: World)
    requires SourceDone(rels, removed, s, keep, w) && s != source && FileNames({s, source})
    ensures SourceDone(rels[RelsName(source) := kept], removed[source := gone], s, keep, w)
  {
    assert RelsName(s) != RelsName(source) by {
      SourceOfRelsName(s);
      SourceOfRelsName(source);
    }
  }

  lemma NewSourceDone(rels: map<string, Rel>, removed: map<string, set<string>>, source: string, keep: set<string>, w: World)
    ensures SourceDone(rels[RelsName(source) := RebuiltFile(w.rels(RelsName(source)), source, keep, w)],
                       removed[source := Gone(w.rels(RelsName(source)).nested, source, keep, w)], source, keep, w)
  {
    hide RelsName;
    hide RebuiltFile;
    hide Gone;
  }

  lemma OneMoreSource(rels: map<string, Rel>, removed: map<string, set<string>>, done: set<string>, source: string,
                      names: seq<string>, keep: set<string>, w: World)
    requires RelsDone(rels, removed, done, names, keep, w) && source !in done && FileNames(done + {source})
    requires RelsName(source) in names
    ensures RelsDone(rels[RelsName(source) := RebuiltFile(w.rels(RelsName(source)), source, keep, w)],
                     removed[source := Gone(w.rels(RelsName(source)).nested, source, keep, w)], done + {source}, names, keep, w)
  {
    hide RelsName;
    hide RebuiltFile;
    hide Gone;
    hide SourceDone;
    hide FromSources;
    var kept, gone := RebuiltFile(w.rels(RelsName(source)), source, keep, w), Gone(w.rels(RelsName(source)).nested, source, keep, w);
    var rels', removed' := rels[RelsName(source) := kept], removed[source := gone];
    NewSourceDone(rels, removed, source, keep, w);
    FromMoreSources(rels, done, source, kept, names);
    forall s | s in done + {source} && RelsName(s) in names
      ensures SourceDone(rels', removed', s, keep, w)
    {
      if s != source { OtherSourceStays(rels, removed, s, source, kept, gone, keep, w); }
    }
  }

  lemma SkippedSource(rels: map<string, Rel>, removed: map<string, set<string>>, done: set<string>, source: string,
                      names: seq<string>, keep: set<string>, w: World)
    requires RelsDone(rels, removed, done, names, keep, w) && RelsName(source) !in names
    ensures RelsDone(rels, removed, done + {source}, names, keep, w)
  {
    FromMoreSources(rels, done, source, w.rels(""), names);
    hide SourceDone;
    hide FromSources;
  }

  method RebuildRels(names: seq<string>, keep: set<string>, w: World)
    returns (ok: bool, rels: map<string, Rel>, removed: map<string, set<string>>)
    requires FileNames(keep + {""})
    ensures ok <==> forall s :: s in SourcesOf(names, keep) ==> w.relsOk(RelsName(s))
    ensures ok ==> RelsDone(rels, removed, keep + {""}, names, keep, w)
  {
    hide RelsDone;
    hide RelsName;
    hide Kept;
    hide Gone;
    rels, removed := map[], map[];
    var todo := keep + {""};
    ghost var done: set<string> := {};
    NothingDone(names, keep, w);
    while todo != {}
      invariant done == keep + {""} - todo && todo <= keep + {""}
      invariant RelsDone(rels, removed, done, names, keep, w)
      invariant forall s :: s in done && RelsName(s) in names ==> w.relsOk(RelsName(s))
      decreases |todo|
    {
      var source :| source in todo;
      assert FileNames(done + {source});
      var file := RelsName(source);
      if file in names {
        if !w.relsOk(file) {
          assert source in SourcesOf(names, keep);
          return false, map[], map[];
        }
        var root := w.rels(file);
        var kept, gone := Filter(root.nested, source, keep, w);
        OneMoreSource(rels, removed, done, source, names, keep, w);
        rels, removed := rels[file := root.(nested := kept)], removed[source := gone];
      } else {
        SkippedSource(rels, removed, done, source, names, keep, w);
      }
      todo := todo - {source};
      done := done + {source};
    }
    assert done == keep + {""};
    ok := true;
  }

  lemma NothingDone(names: seq<string>, keep: set<string>, w: World)
    ensures RelsDone(map[], map[], {}, names, keep, w)
  {
  }

  method CleanParts(keep: set<string>, removed: map<string, set<string>>, w: World)
    returns (trees: map<string, set<nat>>, error: Option<Error>)
    requires Sound(w)
    ensures error.None? <==> forall n :: n in keep && w.media(n).NoMedia? ==> Cleanable(w.doc(n), IdsFor(removed, n))
    ensures error.None? ==>
              && trees.Keys == (set n | n in keep && w.media(n).NoMedia?)
              && forall n :: n in trees ==> Cleanable(w.doc(n), IdsFor(removed, n)) && trees[n] == Left(w.doc(n), IdsFor(removed, n))
  {
    trees := map[];
    var todo := keep;
    while todo != {}
      invariant todo <= keep
      invariant trees.Keys == set n | n in keep - todo && w.media(n).NoMedia?
      invariant forall n :: n in trees ==> Cleanable(w.doc(n), IdsFor(removed, n)) && trees[n] == Left(w.doc(n), IdsFor(removed, n))
      decreases |todo|
    {
      var name :| name in todo;
      todo := todo - {name};
      if w.media(name).NoMedia? {
        match w.doc(name) {
          case Bad => return map[], Some(NotParsed);
          case Doc(nodes, parents) =>
            var left, cleaned := CleanOne(nodes, parents, IdsFor(removed, name));
            if !cleaned {
              return map[], Some(RootDoomed);
            }
            trees := trees[name := left];
        }
      }
    }
    error := None;
  }

  function IdsFor(removed: map<string, set<string>>, name: string): set<string> {
    if name in removed then removed[name] else {}
  }

  method CleanOne(nodes: seq<Node>, parents: seq<int>, removed: set<string>) returns (left: set<nat>, ok: bool)
    requires IsTree(nodes, parents)
    ensures ok <==> Cleanable(Doc(nodes, parents), removed)
    ensures ok ==> left == Left(Doc(nodes, parents), removed)
  {
    var tree := new Tree(nodes, parents);
    ok := Clean(tree, removed);
    left := set i: nat | i < |nodes| && InTree(tree.up[..], tree.present[..], i);
  }

  /** The new package: the chosen parts; for each source with relationships those that survive; and of each
      cleaned part what stays without the removed ones. */
  ghost predicate Rebuilt(p: Package, names: seq<string>, w: World) {
    && p.parts == PartsOf(names, w)
    && FromSources(p.rels, p.parts + {""}, names)
    && (forall s :: s in SourcesOf(names, p.parts) ==>
          RelsName(s) in p.rels && p.rels[RelsName(s)] == RebuiltFile(w.rels(RelsName(s)), s, p.parts, w))
    && p.trees.Keys == (set n | n in p.parts && w.media(n).NoMedia?)
    && (forall n :: n in p.trees ==>
          Cleanable(w.doc(n), RemovedIds(names, n, p.parts, w)) && p.trees[n] == Left(w.doc(n), RemovedIds(names, n, p.parts, w)))
  }

  /** Nothing stands in the way: the main part is on the list, and all that is kept can be read and cleaned. */
  ghost predicate CanRebuild(names: seq<string>, main: string, w: World) {
    && main in Chosen(names, w)
    && (forall n :: n in Chosen(names, w) ==> w.media(n) != Media.Unreadable)
    && (forall s :: s in SourcesOf(names, PartsOf(names, w)) ==> w.relsOk(RelsName(s)))
    && (forall n :: n in PartsOf(names, w) && w.media(n).NoMedia? ==>
          Cleanable(w.doc(n), RemovedIds(names, n, PartsOf(names, w), w)))
  }

  lemma IdsAreRemovedIds(rels: map<string, Rel>, removed: map<string, set<string>>, names: seq<string>, keep: set<string>, n: string, w: World)
    requires RelsDone(rels, removed, keep + {""}, names, keep, w) && n in keep
    ensures IdsFor(removed, n) == RemovedIds(names, n, keep, w)
  {
    hide RelsName;
    hide Gone;
    hide RebuiltFile;
  }

  lemma DoneIsRebuilt(rels: map<string, Rel>, removed: map<string, set<string>>, trees: map<string, set<nat>>,
                      names: seq<string>, keep: set<string>, w: World)
    requires keep == PartsOf(names, w) && RelsDone(rels, removed, keep + {""}, names, keep, w)
    requires trees.Keys == (set n | n in keep && w.media(n).NoMedia?)
    requires forall n :: n in trees ==> Cleanable(w.doc(n), IdsFor(removed, n)) && trees[n] == Left(w.doc(n), IdsFor(removed, n))
    ensures Rebuilt(Package(keep, rels, trees), names, w)
  {
    hide RelsName;
    hide Gone;
    hide RebuiltFile;
    hide Cleanable;
    hide Left;
    forall n | n in trees
      ensures IdsFor(removed, n) == RemovedIds(names, n, keep, w)
    {
      IdsAreRemovedIds(rels, removed, names, keep, n, w);
    }
  }

  lemma PartsAreFiles(names: seq<string>, w: World)
    requires Sound(w)
    ensures FileNames(PartsOf(names, w) + {""})
  {
  }

  method Rebuild(names: seq<string>, main: string, w: World) returns (r: Result)
    requires Sound(w)
    ensures r.Ok? <==> CanRebuild(names, main, w)
    ensures r.Ok? ==> Rebuilt(r.package, names, w)
  {
    hide RelsName;
    hide Sound;
    hide Cleanable;
    hide Left;
    hide RelsDone;
    hide RemovedIds;
    hide Rebuilt;
    hide IdsFor;
    var chosen := ChooseParts(names, w);
    if main !in chosen {
      return Err(MainMissing);
    }
    var readable, keep := DropBrokenMedia(chosen, w);
    if !readable {
      return Err(MediaUnreadable);
    }
    PartsAreFiles(names, w);
    var parsed, rels, removed := RebuildRels(names, keep, w);
    if !parsed {
      return Err(NotParsed);
    }
    var trees, error := CleanParts(keep, removed, w);
    forall n | n in keep
      ensures IdsFor(removed, n) == RemovedIds(names, n, keep, w)
    {
      IdsAreRemovedIds(rels, removed, names, keep, n, w);
    }
    if error.Some? {
      return Err(error.value);
    }
    DoneIsRebuilt(rels, removed, trees, names, keep, w);
    r := Ok(Package(keep, rels, trees));
  }

  // ----- the package is closed -----

  lemma {:induction false} KeptSurvive(rels: seq<Rel>, source: string, keep: set<string>, w: World)
    ensures forall i :: 0 <= i < |Kept(rels, source, keep, w)| ==> Survives(Kept(rels, source, keep, w)[i], source, keep, w)
  {
    if rels != [] { KeptSurvive(rels[..|rels| - 1], source, keep, w); }
  }

  /** Every part is on the allow-list. */
  lemma PartsAreAllowed(p: Package, names: seq<string>, w: World, n: string)
    requires Rebuilt(p, names, w) && n in p.parts
    ensures n in names && IsPartName(n) && w.allowed(n)
  {
  }

  /** Every file of relationships belongs to a part of the package or to the package itself. Among the
      children of its root, one that stays inside leads to a part of the package, and one that leads out is a
      safe hyperlink. Nothing is said of the root itself and of elements inside its children. */
  lemma RelationshipsAreClosed(p: Package, names: seq<string>, w: World, file: string) returns (source: string)
    requires Rebuilt(p, names, w) && file in p.rels
    ensures (source == "" || source in p.parts) && file == RelsName(source)
    ensures forall i :: 0 <= i < |p.rels[file].nested| ==>
              var rel := p.rels[file].nested[i];
              if rel.external then SafeExternal(rel, w) else Resolved(source, rel.target) in p.parts
  {
    hide RelsName;
    source :| source in p.parts + {""} && RelsName(source) in names && file == RelsName(source);
    assert source in SourcesOf(names, p.parts);
    KeptSurvive(w.rels(file).nested, source, p.parts, w);
  }

  lemma {:induction false} UnitIsAbove(nodes: seq<Node>, parents: seq<int>, removed: set<string>, current: nat, levels: nat, element: nat)
    requires IsTree(nodes, parents) && current < |nodes| && element < |nodes|
    ensures Spared(nodes, parents, removed, current) && Spared(nodes, parents, removed, element)
            ==> Spared(nodes, parents, removed, UnitFrom(nodes, parents, current, levels, element))
    decreases levels
  {
    if levels > 0 && nodes[current].tag != Unit && current > 0 {
      UnitIsAbove(nodes, parents, removed, parents[current], levels - 1, element);
    }
  }

  /** An element that uses a removed relationship goes with its unit. */
  lemma UsersGo(nodes: seq<Node>, parents: seq<int>, removed: set<string>, i: nat)
    requires IsTree(nodes, parents) && i < |nodes| && nodes[i].tag != Hyperlink && Carries(nodes[i], removed)
    ensures !Spared(nodes, parents, removed, i)
  {
    assert TakenOut(nodes, parents, removed, UnitFrom(nodes, parents, i, UNIT_LEVELS, i));
    UnitIsAbove(nodes, parents, removed, i, UNIT_LEVELS, i);
  }

  /** In a cleaned part an element uses a removed relationship if and only if it is the root, and the root
      is a hyperlink that uses one. */
  lemma NoRemovedIdIsUsed(nodes: seq<Node>, parents: seq<int>, removed: set<string>, i: nat)
    requires IsTree(nodes, parents) && !TakenOut(nodes, parents, removed, 0) && i < |nodes|
    ensures Stays(nodes, parents, removed, i) && Carries(nodes[i], removed)
            <==> i == 0 && nodes[0].tag == Hyperlink && Carries(nodes[0], removed)
  {
    if nodes[i].tag != Hyperlink && Carries(nodes[i], removed) {
      UsersGo(nodes, parents, removed, i);
    }
  }

  /** No element of a part uses a relationship that was removed, unless the root is a hyperlink that does. */
  lemma NoElementDangles(p: Package, names: seq<string>, w: World, n: string, i: nat)
    requires Rebuilt(p, names, w) && n in p.trees && i in p.trees[n]
    ensures var doc, removed := w.doc(n), RemovedIds(names, n, p.parts, w);
            doc.Doc? && i < |doc.nodes|
            && (Carries(doc.nodes[i], removed) <==> i == 0 && doc.nodes[0].tag == Hyperlink && Carries(doc.nodes[0], removed))
  {
    hide RemovedIds;
    hide Carries;
    var doc := w.doc(n);
    NoRemovedIdIsUsed(doc.nodes, doc.parents, RemovedIds(names, n, p.parts, w), i);
  }

  // ----- the check of the result -----

  /** All elements in document order. */
  function Elements(rels: seq<Rel>): seq<Rel>
    decreases rels
  {
    if rels == [] then [] else [rels[0]] + Elements(rels[0].nested) + Elements(rels[1..])
  }

  predicate BadExternal(rel: Rel, w: World) { rel.relationship && rel.external && !SafeExternal(rel, w) }

  predicate AnyBad(rels: seq<Rel>, w: World) { exists i :: 0 <= i < |rels| && BadExternal(rels[i], w) }

  method FindBad(root: Rel, w: World) returns (bad: bool)
    ensures bad == AnyBad(Elements([root]), w)
  {
    hide BadExternal;
    hide Elements;
    var elements := Elements([root]);
    for i := 0 to |elements|
      invariant forall j :: 0 <= j < i ==> !BadExternal(elements[j], w)
    {
      if BadExternal(elements[i], w) {
        return true;
      }
    }
    bad := false;
  }

  /** The parts that should not be there, and the files with external relationships that should not. */
  method Verify(parts: set<string>, rels: map<string, Rel>, w: World) returns (badParts: set<string>, badFiles: set<string>)
    ensures badParts == set n | n in parts && !w.allowedLight(n)
    ensures badFiles == set f | f in rels && AnyBad(Elements([rels[f]]), w)
  {
    hide AnyBad;
    hide Elements;
    badParts, badFiles := {}, {};
    var todo := parts;
    while todo != {}
      invariant todo <= parts && badParts == set n | n in parts - todo && !w.allowedLight(n)
      decreases |todo|
    {
      var name :| name in todo;
      todo := todo - {name};
      if !w.allowedLight(name) { badParts := badParts + {name}; }
    }
    badFiles := FindBadFiles(rels, w);
  }

  method FindBadFiles(rels: map<string, Rel>, w: World) returns (badFiles: set<string>)
    ensures badFiles == set f | f in rels && AnyBad(Elements([rels[f]]), w)
  {
    hide AnyBad;
    hide Elements;
    badFiles := {};
    var todo := rels.Keys;
    while todo != {}
      invariant todo <= rels.Keys
      invariant forall f :: f in badFiles <==> f in rels && f !in todo && AnyBad(Elements([rels[f]]), w)
      decreases |todo|
    {
      var file :| file in todo;
      todo := todo - {file};
      var bad := FindBad(rels[file], w);
      if bad { badFiles := badFiles + {file}; }
    }
  }

  lemma AnyBadAppend(a: seq<Rel>, b: seq<Rel>, w: World)
    ensures AnyBad(a + b, w) <==> AnyBad(a, w) || AnyBad(b, w)
  {
    hide BadExternal;
    if AnyBad(a, w) {
      var i :| 0 <= i < |a| && BadExternal(a[i], w);
      assert (a + b)[i] == a[i];
    }
    if AnyBad(b, w) {
      var i :| 0 <= i < |b| && BadExternal(b[i], w);
      assert (a + b)[|a| + i] == b[i];
    }
  }

  /** The elements are those at the top and those inside them. */
  lemma {:induction false} BadAtTopOrInside(rels: seq<Rel>, w: World)
    ensures AnyBad(Elements(rels), w)
            <==> exists i :: 0 <= i < |rels| && (BadExternal(rels[i], w) || AnyBad(Elements(rels[i].nested), w))
  {
    if rels != [] {
      var rest := rels[1..];
      BadAtTopOrInside(rest, w);
      AnyBadAppend([rels[0]] + Elements(rels[0].nested), Elements(rest), w);
      AnyBadAppend([rels[0]], Elements(rels[0].nested), w);
      hide BadExternal;
      assert AnyBad([rels[0]], w) <==> BadExternal(rels[0], w) by { assert [rels[0]][0] == rels[0]; }
      assert forall i :: 0 <= i < |rest| ==> rest[i] == rels[i + 1];
      assert forall i :: 0 < i < |rels| ==> rels[i] == rest[i - 1];
    }
  }

  lemma FaultOfFile(root: Rel, w: World)
    requires forall i :: 0 <= i < |root.nested| ==> !BadExternal(root.nested[i], w)
    ensures AnyBad(Elements([root]), w)
            <==> BadExternal(root, w) || exists i :: 0 <= i < |root.nested| && AnyBad(Elements(root.nested[i].nested), w)
  {
    hide Elements;
    hide AnyBad;
    hide BadExternal;
    BadAtTopOrInside([root], w);
    BadAtTopOrInside(root.nested, w);
    assert [root][0] == root;
  }

  lemma {:induction false} KeptExactly(rels: seq<Rel>, source: string, keep: set<string>, w: World, rel: Rel)
    ensures rel in Kept(rels, source, keep, w) <==> rel in rels && Survives(rel, source, keep, w)
  {
    if rels != [] {
      var n := |rels| - 1;
      KeptExactly(rels[..n], source, keep, w, rel);
      assert rels == rels[..n] + [rels[n]];
    }
  }

  /** A bad external relationship lies below a child of the root that survives the rebuild. */
  ghost predicate BadBelow(root: Rel, source: string, keep: set<string>, w: World) {
    exists c :: c in root.nested && Survives(c, source, keep, w) && AnyBad(Elements(c.nested), w)
  }

  /** The check finds a rebuilt file of relationships at fault exactly when, in the file read, the root is itself
      a bad external relationship or a bad one lies below a child that survives. */
  lemma RebuiltAtFault(root: Rel, source: string, keep: set<string>, w: World)
    ensures AnyBad(Elements([RebuiltFile(root, source, keep, w)]), w) <==> BadExternal(root, w) || BadBelow(root, source, keep, w)
  {
    var kept := Kept(root.nested, source, keep, w);
    KeptSurvive(root.nested, source, keep, w);
    forall i | 0 <= i < |kept|
      ensures !BadExternal(kept[i], w)
    {
    }
    FaultOfFile(RebuiltFile(root, source, keep, w), w);
    forall c: Rel
      ensures c in kept <==> c in root.nested && Survives(c, source, keep, w)
    {
      KeptExactly(root.nested, source, keep, w, c);
    }
    hide Kept;
    hide Survives;
    hide Elements;
    hide AnyBad;
    hide SafeExternal;
    if BadBelow(root, source, keep, w) {
      var c :| c in root.nested && Survives(c, source, keep, w) && AnyBad(Elements(c.nested), w);
      assert c in kept;
      var i :| 0 <= i < |kept| && kept[i] == c;
    }
  }

  /** The check of a rebuilt package finds no part out of place; and it finds a file of relationships at fault
      if and only if, in the file that was read, the root is itself a bad external relationship, or a bad one
      lies below a child of the root that survives. The rebuild looks at neither. The file is taken to be read
      back as it was written. */
  lemma CheckFindsExactly(p: Package, names: seq<string>, w: World, file: string) returns (source: string)
    requires Sound(w) && Rebuilt(p, names, w) && file in p.rels
    ensures forall n :: n in p.parts ==> w.allowedLight(n)
    ensures (source == "" || source in p.parts) && file == RelsName(source)
    ensures AnyBad(Elements([p.rels[file]]), w) <==> BadExternal(w.rels(file), w) || BadBelow(w.rels(file), source, p.parts, w)
  {
    hide RelsName;
    hide Elements;
    hide SafeExternal;
    hide AnyBad;
    source :| source in p.parts + {""} && RelsName(source) in names && file == RelsName(source);
    assert source in SourcesOf(names, p.parts);
    assert p.rels[file] == RebuiltFile(w.rels(file), source, p.parts, w);
    hide RebuiltFile;
    RebuiltAtFault(w.rels(file), source, p.parts, w);
  }

  /** Whether the root is at fault can be seen in the file that is read: the rebuild leaves the root as it was. */
  lemma RootIsKept(p: Package, names: seq<string>, w: World, file: string)
    requires Rebuilt(p, names, w) && file in p.rels
    ensures BadExternal(p.rels[file], w) <==> BadExternal(w.rels(file), w)
  {
    var source := RelationshipsAreClosed(p, names, w, file);
    hide RelsName;
    assert source in p.parts + {""};
  }

  /** A file that is nothing but one external relationship, to an object that is loaded, passes the rebuild
      unchanged; nothing in it is nested, and the check finds it. */
  lemma RootRelationshipIsMissed(root: Rel, source: string, keep: set<string>, w: World)
    requires root.relationship && root.external && !SafeExternal(root, w) && root.nested == []
    ensures RebuiltFile(root, source, keep, w) == root && Gone(root.nested, source, keep, w) == {}
    ensures AnyBad(Elements([root]), w)
  {
    BadAtTopOrInside([root], w);
    assert [root][0] == root;
  }

  /** Nor is anything looked at inside a child that survives: a file whose children all do passes unchanged, and
      the check finds what is bad below one of them. */
  lemma NestedRelationshipIsMissed(root: Rel, child: Rel, inner: Rel, source: string, keep: set<string>, w: World)
    requires root.nested == [child] && Survives(child, source, keep, w) && child.nested == [inner] && BadExternal(inner, w)
    ensures RebuiltFile(root, source, keep, w) == root && Gone(root.nested, source, keep, w) == {}
    ensures AnyBad(Elements([root]), w)
  {
    hide Survives;
    hide BadExternal;
    assert [child][..0] == [];
    assert Kept([child], source, keep, w) == [child];
    assert AnyBad(Elements(child.nested), w) by {
      BadAtTopOrInside([inner], w);
      assert [inner][0] == inner;
    }
    hide Elements;
    hide AnyBad;
    assert child in root.nested;
    RebuiltAtFault(root, source, keep, w);
  }
}
