/** What a cleaning does to an element, said of the elements above it. */
module DocxUnits {
  import opened Common
  import opened DocxClean
  import opened DocxRebuild
  import opened DocxLinks

  /** The element `n` levels up; -1 above the root. */
  function Above(parents: seq<int>, i: nat, n: nat): (r: int)
    requires i < |parents| && forall k :: 0 < k < |parents| ==> 0 <= parents[k] < k
    ensures r < |parents|
    decreases n
  {
    if n == 0 then i else if i == 0 then -1 else Above(parents, parents[i], n - 1)
  }

  lemma {:induction false} NoneAboveTheRoot(parents: seq<int>, n: nat)
    requires |parents| > 0 && forall k :: 0 < k < |parents| ==> 0 <= parents[k] < k
    ensures Above(parents, 0, n) == if n == 0 then 0 else -1
  {
  }

  /** The element `n` levels up is a unit, and there is none nearer. */
  ghost predicate NearestUnit(nodes: seq<Node>, parents: seq<int>, i: nat, n: nat)
    requires IsTree(nodes, parents) && i < |nodes|
  {
    && Above(parents, i, n) >= 0 && nodes[Above(parents, i, n)].tag == Unit
    && forall k: nat :: k < n && Above(parents, i, k) >= 0 ==> nodes[Above(parents, i, k)].tag != Unit
  }

  lemma {:induction false} UnitFound(nodes: seq<Node>, parents: seq<int>, i: nat, levels: nat, element: nat)
    requires IsTree(nodes, parents) && i < |nodes| && element < |nodes|
    ensures forall n: nat :: n < levels && NearestUnit(nodes, parents, i, n) ==> UnitFrom(nodes, parents, i, levels, element) == Above(parents, i, n)
    ensures (forall n: nat :: n < levels ==> !NearestUnit(nodes, parents, i, n)) ==> UnitFrom(nodes, parents, i, levels, element) == element
    decreases levels
  {
    if levels > 0 {
      if nodes[i].tag == Unit {
        assert Above(parents, i, 0) == i;
        assert NearestUnit(nodes, parents, i, 0);
        forall n: nat | NearestUnit(nodes, parents, i, n)
          ensures n == 0
        {
        }
      } else if i == 0 {
        forall n: nat
          ensures !NearestUnit(nodes, parents, 0, n)
        {
          NoneAboveTheRoot(parents, n);
        }
      } else {
        var p := parents[i];
        UnitFound(nodes, parents, p, levels - 1, element);
        forall n: nat
          ensures NearestUnit(nodes, parents, i, n + 1) <==> NearestUnit(nodes, parents, p, n)
          ensures Above(parents, i, n + 1) == Above(parents, p, n)
        {
          OneLevelUp(nodes, parents, i, n);
        }
        hide NearestUnit;
        hide Above;
        assert !NearestUnit(nodes, parents, i, 0) by { NoUnitHere(nodes, parents, i); }
        forall n: nat | n < levels && NearestUnit(nodes, parents, i, n)
          ensures UnitFrom(nodes, parents, p, levels - 1, element) == Above(parents, i, n)
        {
          assert n > 0;
          assert NearestUnit(nodes, parents, p, n - 1) && Above(parents, i, n - 1 + 1) == Above(parents, p, n - 1);
        }
      }
    }
  }

  lemma NoUnitHere(nodes: seq<Node>, parents: seq<int>, i: nat)
    requires IsTree(nodes, parents) && i < |nodes| && nodes[i].tag != Unit
    ensures !NearestUnit(nodes, parents, i, 0)
  {
  }

  lemma OneLevelUp(nodes: seq<Node>, parents: seq<int>, i: nat, n: nat)
    requires IsTree(nodes, parents) && 0 < i < |nodes| && nodes[i].tag != Unit
    ensures Above(parents, i, n + 1) == Above(parents, parents[i], n)
    ensures NearestUnit(nodes, parents, i, n + 1) <==> NearestUnit(nodes, parents, parents[i], n)
  {
    assert forall k: nat :: k > 0 ==> Above(parents, i, k) == Above(parents, parents[i], k - 1);
    assert Above(parents, i, 0) == i;
    if NearestUnit(nodes, parents, i, n + 1) {
      forall k: nat | k < n && Above(parents, parents[i], k) >= 0
        ensures nodes[Above(parents, parents[i], k)].tag != Unit
      {
        assert Above(parents, i, k + 1) == Above(parents, parents[i], k);
      }
    }
  }

  /** What is taken out for an element: the nearest unit among itself and the eleven elements above it, or the element
      when there is none. */
  lemma UnitExactly(nodes: seq<Node>, parents: seq<int>, i: nat, n: nat)
    requires IsTree(nodes, parents) && i < |nodes|
    ensures n < 12 && NearestUnit(nodes, parents, i, n) ==> UnitFrom(nodes, parents, i, UNIT_LEVELS, i) == Above(parents, i, n)
    ensures (forall k: nat :: k < 12 ==> !NearestUnit(nodes, parents, i, k)) ==> UnitFrom(nodes, parents, i, UNIT_LEVELS, i) == i
  {
    UnitFound(nodes, parents, i, UNIT_LEVELS, i);
  }

  /** What goes for element `i`: the nearest unit near enough, or else the element itself. */
  ghost predicate GoesFor(nodes: seq<Node>, parents: seq<int>, i: nat, d: nat)
    requires IsTree(nodes, parents) && i < |nodes|
  {
    || (exists n: nat :: n < 12 && NearestUnit(nodes, parents, i, n) && Above(parents, i, n) == d)
    || (d == i && forall n: nat :: n < 12 ==> !NearestUnit(nodes, parents, i, n))
  }

  lemma GoesForExactly(nodes: seq<Node>, parents: seq<int>, i: nat, d: nat)
    requires IsTree(nodes, parents) && i < |nodes|
    ensures GoesFor(nodes, parents, i, d) <==> UnitFrom(nodes, parents, i, UNIT_LEVELS, i) == d
  {
    forall n: nat
      ensures n < 12 && NearestUnit(nodes, parents, i, n) ==> UnitFrom(nodes, parents, i, UNIT_LEVELS, i) == Above(parents, i, n)
    {
      UnitExactly(nodes, parents, i, n);
    }
    UnitExactly(nodes, parents, i, 0);
    hide NearestUnit;
    hide UnitFrom;
    hide Above;
  }

  ghost predicate UsesRemoved(node: Node, removed: set<string>) { exists id :: id in node.uses && id in removed }

  lemma CarriesExactly(node: Node, removed: set<string>)
    ensures Carries(node, removed) <==> UsesRemoved(node, removed)
  {
    if Carries(node, removed) {
      var id :| id in node.uses * removed;
    }
    if id :| id in node.uses && id in removed {
      assert id in node.uses * removed;
    }
  }

  /** Elements that go with all that is in them: those that never stay, and what goes for an element other than a link
      that uses a removed relationship. */
  ghost predicate Doomed(nodes: seq<Node>, parents: seq<int>, removed: set<string>, d: nat)
    requires IsTree(nodes, parents) && d < |nodes|
  {
    || nodes[d].tag == AlwaysDropped
    || exists i :: 0 <= i < |nodes| && nodes[i].tag != Hyperlink && UsesRemoved(nodes[i], removed) && GoesFor(nodes, parents, i, d)
  }

  lemma DoomedExactly(nodes: seq<Node>, parents: seq<int>, removed: set<string>, d: nat)
    requires IsTree(nodes, parents) && d < |nodes|
    ensures TakenOut(nodes, parents, removed, d) <==> Doomed(nodes, parents, removed, d)
  {
    forall i: nat | i < |nodes|
      ensures Carries(nodes[i], removed) <==> UsesRemoved(nodes[i], removed)
      ensures GoesFor(nodes, parents, i, d) <==> UnitFrom(nodes, parents, i, UNIT_LEVELS, i) == d
    {
      CarriesExactly(nodes[i], removed);
      GoesForExactly(nodes, parents, i, d);
    }
    hide GoesFor;
    hide Carries;
    hide UnitFrom;
    hide UsesRemoved;
  }

  /** The element `n` levels up goes with all that is in it. */
  ghost predicate TakenAbove(nodes: seq<Node>, parents: seq<int>, removed: set<string>, i: nat, n: nat)
    requires IsTree(nodes, parents) && i < |nodes|
  {
    Above(parents, i, n) >= 0 && Doomed(nodes, parents, removed, Above(parents, i, n))
  }

  lemma TakenOneUp(nodes: seq<Node>, parents: seq<int>, removed: set<string>, i: nat, n: nat)
    requires IsTree(nodes, parents) && 0 < i < |nodes|
    ensures TakenAbove(nodes, parents, removed, i, n + 1) <==> TakenAbove(nodes, parents, removed, parents[i], n)
    ensures TakenAbove(nodes, parents, removed, i, 0) <==> TakenOut(nodes, parents, removed, i)
  {
    DoomedExactly(nodes, parents, removed, i);
    hide Doomed;
    hide TakenOut;
    assert Above(parents, i, n + 1) == Above(parents, parents[i], n) && Above(parents, i, 0) == i;
  }

  lemma {:induction false} SparedExactly(nodes: seq<Node>, parents: seq<int>, removed: set<string>, i: nat)
    requires IsTree(nodes, parents) && i < |nodes|
    ensures Spared(nodes, parents, removed, i) <==> forall n: nat :: !TakenAbove(nodes, parents, removed, i, n)
    decreases i
  {
    DoomedExactly(nodes, parents, removed, i);
    hide Doomed;
    hide TakenOut;
    if i == 0 {
      forall n: nat
        ensures Above(parents, 0, n) == if n == 0 then 0 else -1
      {
        NoneAboveTheRoot(parents, n);
      }
      assert TakenAbove(nodes, parents, removed, 0, 0) <==> TakenOut(nodes, parents, removed, 0);
    } else {
      var p: nat := parents[i];
      SparedExactly(nodes, parents, removed, p);
      TakenOneUp(nodes, parents, removed, i, 0);
      hide TakenAbove;
      if m: nat :| TakenAbove(nodes, parents, removed, p, m) {
        TakenOneUp(nodes, parents, removed, i, m);
        assert TakenAbove(nodes, parents, removed, i, m + 1);
      }
      if n: nat :| TakenAbove(nodes, parents, removed, i, n) {
        if n > 0 {
          TakenOneUp(nodes, parents, removed, i, n - 1);
          assert TakenAbove(nodes, parents, removed, p, n - 1);
        }
      }
    }
  }

  /** What stays of a part: the root, and every element that is no link with a removed relationship and has no element
      above it, nor is one, that is taken out. */
  lemma StaysExactly(nodes: seq<Node>, parents: seq<int>, removed: set<string>, i: nat)
    requires IsTree(nodes, parents) && i < |nodes|
    ensures Stays(nodes, parents, removed, i) <==>
            || i == 0
            || (!(nodes[i].tag == Hyperlink && UsesRemoved(nodes[i], removed))
                && forall n: nat :: !TakenAbove(nodes, parents, removed, i, n))
  {
    SparedExactly(nodes, parents, removed, i);
    CarriesExactly(nodes[i], removed);
    hide TakenAbove;
    hide Spared;
    hide UsesRemoved;
    hide Carries;
  }

  /** `p` is `n` levels up from `q`, and is the first that is no link to be unwrapped. */
  ghost predicate HangsFrom(nodes: seq<Node>, parents: seq<int>, removed: set<string>, q: nat, p: nat, n: nat)
    requires IsTree(nodes, parents) && q < |nodes| && p < |nodes|
  {
    && Above(parents, q, n) == p && !Unwrapped(nodes, removed, p)
    && forall k: nat :: k < n ==> Above(parents, q, k) >= 0 && Unwrapped(nodes, removed, Above(parents, q, k))
  }

  /** Where an element hangs when the links are unwrapped: from the nearest element above it that is none. */
  lemma {:induction false} HangsExactly(nodes: seq<Node>, parents: seq<int>, removed: set<string>, q: nat, p: nat)
    requires IsTree(nodes, parents) && q < |nodes| && p < |nodes|
    ensures Through(nodes, parents, removed, q, p) && !Unwrapped(nodes, removed, p) <==>
            exists n: nat :: HangsFrom(nodes, parents, removed, q, p, n)
    decreases q
  {
    hide Carries;
    assert Above(parents, q, 0) == q;
    if Unwrapped(nodes, removed, q) {
      HangsExactly(nodes, parents, removed, parents[q], p);
      HangsHigher(nodes, parents, removed, q, p);
    } else {
      HangsHere(nodes, parents, removed, q, p);
    }
  }

  lemma HangsHere(nodes: seq<Node>, parents: seq<int>, removed: set<string>, q: nat, p: nat)
    requires IsTree(nodes, parents) && q < |nodes| && p < |nodes| && !Unwrapped(nodes, removed, q)
    ensures (exists n: nat :: HangsFrom(nodes, parents, removed, q, p, n)) <==> q == p
  {
    hide Carries;
    assert Above(parents, q, 0) == q;
    if q == p {
      assert HangsFrom(nodes, parents, removed, q, p, 0);
    }
    if n: nat :| HangsFrom(nodes, parents, removed, q, p, n) {
      assert n == 0;
    }
  }

  lemma HangsHigher(nodes: seq<Node>, parents: seq<int>, removed: set<string>, q: nat, p: nat)
    requires IsTree(nodes, parents) && 0 < q < |nodes| && p < |nodes| && Unwrapped(nodes, removed, q)
    ensures (exists n: nat :: HangsFrom(nodes, parents, removed, q, p, n)) <==> exists n: nat :: HangsFrom(nodes, parents, removed, parents[q], p, n)
  {
    hide Carries;
    assert forall n: nat :: n > 0 ==> Above(parents, q, n) == Above(parents, parents[q], n - 1);
    if n: nat :| HangsFrom(nodes, parents, removed, parents[q], p, n) {
      assert HangsFrom(nodes, parents, removed, q, p, n + 1);
    }
    if n: nat :| HangsFrom(nodes, parents, removed, q, p, n) {
      assert n > 0;
      assert forall k: nat :: Above(parents, parents[q], k) == Above(parents, q, k + 1);
      assert HangsFrom(nodes, parents, removed, parents[q], p, n - 1);
    }
  }

  // ----- when a package is rebuilt -----

  /** On the list, and no file that the rebuild writes itself. */
  predicate OnList(n: string, names: seq<string>, w: World) {
    n in names && w.allowed(n) && n != "[Content_Types].xml" && !(|n| >= 5 && n[|n| - 5..] == ".rels")
  }

  ghost predicate ReadableRels(source: string, names: seq<string>, w: World) { RelsName(source) in names ==> w.relsOk(RelsName(source)) }

  ghost predicate ReadablePart(n: string, names: seq<string>, w: World)
    requires Sound(w)
  {
    w.doc(n).Doc? && !Doomed(w.doc(n).nodes, w.doc(n).parents, RemovedIds(names, n, PartsOf(names, w), w), 0)
  }

  /** When a package is rebuilt: the main part is on the list, no picture on it is unreadable, the relationships of the
      package and of each part kept can be read, and each part that is no picture parses and its root need not go. */
  lemma RebuildableExactly(names: seq<string>, main: string, w: World)
    requires Sound(w)
    ensures CanRebuild(names, main, w) <==>
            && OnList(main, names, w) && ReadableRels("", names, w)
            && forall n :: n in names && OnList(n, names, w) ==>
                 && w.media(n) != Media.Unreadable
                 && (w.media(n) != Broken ==> ReadableRels(n, names, w) && (w.media(n).NoMedia? ==> ReadablePart(n, names, w)))
  {
    var parts := PartsOf(names, w);
    forall n | n in names
      ensures n in Chosen(names, w) <==> OnList(n, names, w)
      ensures w.media(n).NoMedia? ==> (ReadablePart(n, names, w) <==> Cleanable(w.doc(n), RemovedIds(names, n, parts, w)))
    {
      if w.doc(n).Doc? { DoomedExactly(w.doc(n).nodes, w.doc(n).parents, RemovedIds(names, n, parts, w), 0); }
    }
    hide Cleanable;
    hide ReadablePart;
    hide RelsName;
    hide RemovedIds;
    assert forall s :: s in SourcesOf(names, parts) <==> s in parts + {""} && RelsName(s) in names;
    assert (forall s :: s in SourcesOf(names, parts) ==> w.relsOk(RelsName(s))) <==> forall s :: s in parts + {""} ==> ReadableRels(s, names, w);
  }

  /** There is a file of relationships for the new package and for each of its parts exactly where there was one. */
  lemma FilesExactly(p: Package, names: seq<string>, w: World, file: string)
    requires Rebuilt(p, names, w)
    ensures file in p.rels <==> file in names && exists source :: source in p.parts + {""} && RelsName(source) == file
  {
    if source :| source in p.parts + {""} && RelsName(source) == file && file in names {
      assert source in SourcesOf(names, p.parts);
    }
    hide RelsName;
    hide RemovedIds;
    hide Cleanable;
  }

  /** Of each part that is no picture the new package has exactly the elements that stay, the root among them. */
  lemma TreesExactly(p: Package, names: seq<string>, w: World, n: string)
    requires Rebuilt(p, names, w)
    ensures n in p.trees <==> n in p.parts && w.media(n).NoMedia?
    ensures n in p.trees ==>
              var doc, removed := w.doc(n), RemovedIds(names, n, p.parts, w);
              && doc.Doc? && IsTree(doc.nodes, doc.parents) && !Doomed(doc.nodes, doc.parents, removed, 0)
              && p.trees[n] == set i: nat | i < |doc.nodes| && Stays(doc.nodes, doc.parents, removed, i)
  {
    hide RelsName;
    hide RemovedIds;
    hide Stays;
    hide Doomed;
    if n in p.trees {
      DoomedExactly(w.doc(n).nodes, w.doc(n).parents, RemovedIds(names, n, p.parts, w), 0);
    }
  }
}
