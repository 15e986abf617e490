/** Cleaning a part of a Word document in place: elements that use a removed relationship go, with the
    whole unit around them; hyperlinks without a target are replaced by their content.
    Elements are numbered in document order, the root is 0. A child stays where it was among its siblings,
    so the children of an element are always those that name it as their parent, in order. */
module DocxClean {

  datatype Tag = Hyperlink | Unit | AlwaysDropped | Other

  /** `uses` holds the values of the attributes in the namespace of relationships. */
  datatype Node = Node(tag: Tag, uses: set<string>)

  const UNIT_LEVELS: nat := 12

  /** The parents as they were: every element but the root has one, which comes before it. */
  predicate IsTree(nodes: seq<Node>, parents: seq<int>) {
    |nodes| == |parents| > 0 && forall i :: 0 < i < |nodes| ==> 0 <= parents[i] < i
  }

  predicate Carries(node: Node, removed: set<string>) { node.uses * removed != {} }

  /** A hyperlink to be replaced by its content; the root has nowhere to put it. */
  predicate Unwrapped(nodes: seq<Node>, removed: set<string>, i: nat)
    requires i < |nodes|
  {
    i > 0 && nodes[i].tag == Hyperlink && Carries(nodes[i], removed)
  }

  /** The nearest unit on the way up, if it is near enough, or else the element itself. */
  function UnitFrom(nodes: seq<Node>, parents: seq<int>, current: nat, levels: nat, element: nat): (r: nat)
    requires IsTree(nodes, parents) && current < |nodes| && element < |nodes|
    ensures r < |nodes|
    decreases levels
  {
    if levels == 0 then element
    else if nodes[current].tag == Unit then current
    else if current == 0 then element
    else UnitFrom(nodes, parents, parents[current], levels - 1, element)
  }

  /** Elements to be taken out: the units of those that use a removed relationship, and what never stays. */
  ghost predicate TakenOut(nodes: seq<Node>, parents: seq<int>, removed: set<string>, d: nat)
    requires IsTree(nodes, parents) && d < |nodes|
  {
    || nodes[d].tag == AlwaysDropped
    || exists i :: 0 <= i < |nodes| && nodes[i].tag != Hyperlink && Carries(nodes[i], removed)
                   && UnitFrom(nodes, parents, i, UNIT_LEVELS, i) == d
  }

  /** No element from here up to the root is taken out. */
  ghost predicate Spared(nodes: seq<Node>, parents: seq<int>, removed: set<string>, i: nat)
    requires IsTree(nodes, parents) && i < |nodes|
    decreases i
  {
    !TakenOut(nodes, parents, removed, i) && (i == 0 || Spared(nodes, parents, removed, parents[i]))
  }

  class Tree {
    const nodes: seq<Node>
    const parents: seq<int>
    const up: array<int>
    const present: array<bool>

    constructor (nodes: seq<Node>, parents: seq<int>)
      requires IsTree(nodes, parents)
      ensures this.nodes == nodes && this.parents == parents && fresh(up) && fresh(present)
      ensures Shape() && up[..] == parents && forall i :: 0 <= i < |nodes| ==> present[i]
    {
      this.nodes, this.parents := nodes, parents;
      var n := |nodes|;
      up := new int[n](i requires 0 <= i < |parents| => parents[i]);
      present := new bool[n](_ => true);
      new;
      assert up[..] == parents;
    }

    ghost predicate Shape()
      reads up
    {
      && IsTree(nodes, parents) && up.Length == present.Length == |nodes|
      && forall i :: 0 < i < |nodes| ==> 0 <= up[i] < i
    }
  }

  predicate Pointing(up: seq<int>) { forall i :: 0 < i < |up| ==> 0 <= up[i] < i }

  /** In the tree: the root, and what is a child of an element in the tree. */
  predicate InTree(up: seq<int>, present: seq<bool>, i: nat)
    requires |up| == |present| && Pointing(up) && i < |up|
    decreases i
  {
    i == 0 || (present[i] && InTree(up, present, up[i]))
  }

  /** From `q` up to `p` there are only unwrapped elements. */
  ghost predicate Through(nodes: seq<Node>, parents: seq<int>, removed: set<string>, q: nat, p: nat)
    requires IsTree(nodes, parents) && q < |nodes|
    decreases q
  {
    q == p || (q > 0 && Unwrapped(nodes, removed, q) && Through(nodes, parents, removed, parents[q], p))
  }

  lemma {:induction false} ThroughUnwrapped(nodes: seq<Node>, parents: seq<int>, removed: set<string>, q: nat, e: nat, p: nat)
    requires IsTree(nodes, parents) && q < |nodes| && 0 < e < |nodes|
    requires Through(nodes, parents, removed, q, e) && Unwrapped(nodes, removed, e) && Through(nodes, parents, removed, parents[e], p)
    ensures Through(nodes, parents, removed, q, p)
    decreases q
  {
    if q != e { ThroughUnwrapped(nodes, parents, removed, parents[q], e, p); }
  }

  lemma {:induction false} UnitIsNoLink(nodes: seq<Node>, parents: seq<int>, current: nat, levels: nat, element: nat)
    requires IsTree(nodes, parents) && current < |nodes| && element < |nodes| && nodes[element].tag != Hyperlink
    ensures nodes[UnitFrom(nodes, parents, current, levels, element)].tag != Hyperlink
    decreases levels
  {
    if levels > 0 && nodes[current].tag != Unit && current > 0 { UnitIsNoLink(nodes, parents, parents[current], levels - 1, element); }
  }

  lemma DoomedIsNoLink(nodes: seq<Node>, parents: seq<int>, removed: set<string>, d: nat)
    requires IsTree(nodes, parents) && d < |nodes| && TakenOut(nodes, parents, removed, d)
    ensures nodes[d].tag != Hyperlink
  {
    if nodes[d].tag != AlwaysDropped {
      var i :| 0 <= i < |nodes| && nodes[i].tag != Hyperlink && Carries(nodes[i], removed)
               && UnitFrom(nodes, parents, i, UNIT_LEVELS, i) == d;
      UnitIsNoLink(nodes, parents, i, UNIT_LEVELS, i);
    }
  }

  lemma {:induction false} ThroughSpares(nodes: seq<Node>, parents: seq<int>, removed: set<string>, q: nat, p: nat)
    requires IsTree(nodes, parents) && q < |nodes| && p < |nodes| && Through(nodes, parents, removed, q, p)
    ensures Spared(nodes, parents, removed, q) <==> Spared(nodes, parents, removed, p)
    decreases q
  {
    if q != p {
      if TakenOut(nodes, parents, removed, q) { DoomedIsNoLink(nodes, parents, removed, q); }
      ThroughSpares(nodes, parents, removed, parents[q], p);
    }
  }

  // ----- the marking passes -----

  method FindUnit(tree: Tree, element: nat) returns (unit: nat)
    requires tree.Shape() && tree.up[..] == tree.parents && element < |tree.nodes|
    ensures unit == UnitFrom(tree.nodes, tree.parents, element, UNIT_LEVELS, element)
  {
    var current: nat, left: nat := element, UNIT_LEVELS;
    while left > 0
      invariant current < |tree.nodes|
      invariant UnitFrom(tree.nodes, tree.parents, current, left, element)
                == UnitFrom(tree.nodes, tree.parents, element, UNIT_LEVELS, element)
    {
      if tree.nodes[current].tag == Unit {
        return current;
      }
      if current == 0 {
        return element;
      }
      assert tree.up[..][current] == tree.up[current];
      current, left := tree.up[current], left - 1;
    }
    unit := element;
  }

  /** Exactly the unwrapped elements, in document order. */
  ghost predicate ListsUnwrapped(links: seq<nat>, nodes: seq<Node>, removed: set<string>, n: nat)
    requires n <= |nodes|
  {
    && (forall k :: 0 <= k < |links| ==> links[k] < n && nodes[links[k]].tag == Hyperlink && Carries(nodes[links[k]], removed))
    && (forall j, k :: 0 <= j < k < |links| ==> links[j] < links[k])
    && (forall i :: 0 <= i < n && nodes[i].tag == Hyperlink && Carries(nodes[i], removed) ==> i in links)
  }

  /** The units of the first `n` elements that use a removed relationship. */
  ghost predicate ListsUnits(doomed: seq<nat>, nodes: seq<Node>, parents: seq<int>, removed: set<string>, n: nat)
    requires IsTree(nodes, parents) && n <= |nodes|
  {
    && (forall k :: 0 <= k < |doomed| ==> doomed[k] < |nodes| && TakenOut(nodes, parents, removed, doomed[k]))
    && (forall i :: 0 <= i < n && nodes[i].tag != Hyperlink && Carries(nodes[i], removed) ==>
          UnitFrom(nodes, parents, i, UNIT_LEVELS, i) in doomed)
  }

  method Mark(tree: Tree, removed: set<string>) returns (links: seq<nat>, doomed: seq<nat>)
    requires tree.Shape() && tree.up[..] == tree.parents
    ensures ListsUnwrapped(links, tree.nodes, removed, |tree.nodes|)
    ensures forall k :: 0 <= k < |doomed| ==> doomed[k] < |tree.nodes|
    ensures forall d: nat :: d < |tree.nodes| ==> (d in doomed <==> TakenOut(tree.nodes, tree.parents, removed, d))
  {
    links, doomed := [], [];
    if removed != {} {
      for i := 0 to |tree.nodes|
        invariant ListsUnwrapped(links, tree.nodes, removed, i)
        invariant ListsUnits(doomed, tree.nodes, tree.parents, removed, i)
      {
        if Carries(tree.nodes[i], removed) {
          if tree.nodes[i].tag == Hyperlink {
            links := links + [i];
          } else {
            var unit := FindUnit(tree, i);
            doomed := doomed + [unit];
          }
        }
      }
    }
    ghost var units := doomed;
    for i := 0 to |tree.nodes|
      invariant ListsUnits(doomed, tree.nodes, tree.parents, removed, |tree.nodes|)
      invariant forall j :: 0 <= j < i && tree.nodes[j].tag == AlwaysDropped ==> j in doomed
    {
      if tree.nodes[i].tag == AlwaysDropped {
        doomed := doomed + [i];
      }
    }
  }

  // ----- the changing passes -----

  /** After the links below `k` are unwrapped: parents skip them, and they are out of the tree. */
  ghost predicate UnwrappedBelow(nodes: seq<Node>, parents: seq<int>, removed: set<string>, up: seq<int>, present: seq<bool>, k: nat)
    requires IsTree(nodes, parents) && |up| == |present| == |nodes| && Pointing(up)
  {
    forall i :: 0 < i < |nodes| ==>
      && Through(nodes, parents, removed, parents[i], up[i])
      && (Unwrapped(nodes, removed, up[i]) ==> up[i] >= k)
      && (present[i] <==> !(i < k && Unwrapped(nodes, removed, i)))
  }

  function Redirect(up: seq<int>, e: nat): (r: seq<int>)
    requires e < |up|
    ensures |r| == |up|
  {
    seq(|up|, i requires 0 <= i < |up| => if i > e && up[i] == e then up[e] else up[i])
  }

  lemma UnwrapStep(nodes: seq<Node>, parents: seq<int>, removed: set<string>, up: seq<int>, present: seq<bool>, e: nat)
    requires IsTree(nodes, parents) && |up| == |present| == |nodes| && Pointing(up)
    requires 0 < e < |nodes| && Unwrapped(nodes, removed, e) && UnwrappedBelow(nodes, parents, removed, up, present, e)
    ensures Pointing(Redirect(up, e))
    ensures UnwrappedBelow(nodes, parents, removed, Redirect(up, e), present[e := false], e + 1)
  {
    hide Carries;
    var up' := Redirect(up, e);
    forall i | 0 < i < |nodes|
      ensures Through(nodes, parents, removed, parents[i], up'[i]) && (Unwrapped(nodes, removed, up'[i]) ==> up'[i] >= e + 1)
    {
      if i > e && up[i] == e {
        ThroughUnwrapped(nodes, parents, removed, parents[i], e, up[e]);
      }
    }
  }

  lemma SkipStep(nodes: seq<Node>, parents: seq<int>, removed: set<string>, up: seq<int>, present: seq<bool>, k: nat, l: nat)
    requires IsTree(nodes, parents) && |up| == |present| == |nodes| && Pointing(up)
    requires UnwrappedBelow(nodes, parents, removed, up, present, k)
    requires k <= l && forall i :: k <= i < l && i < |nodes| ==> !Unwrapped(nodes, removed, i)
    ensures UnwrappedBelow(nodes, parents, removed, up, present, l)
  {
  }

  /** Puts the children of a link in its place. */
  method Unwrap(tree: Tree, e: nat)
    requires tree.Shape() && 0 < e < |tree.nodes|
    requires forall i :: e < i < |tree.nodes| ==> tree.present[i]
    modifies tree.up, tree.present
    ensures tree.up[..] == Redirect(old(tree.up[..]), e)
    ensures tree.present[..] == old(tree.present[..])[e := false]
  {
    var parent := tree.up[e];
    tree.present[e] := false;
    var c := e + 1;
    while c < |tree.nodes|
      invariant e + 1 <= c <= |tree.nodes|
      invariant forall i :: 0 <= i < |tree.nodes| ==>
                  tree.up[i] == if e < i < c && old(tree.up[i]) == e then parent else old(tree.up[i])
      invariant tree.present[..] == old(tree.present[..])[e := false]
    {
      if tree.present[c] && tree.up[c] == e {
        tree.up[c] := parent;
      }
      c := c + 1;
    }
  }

  method UnwrapAll(tree: Tree, links: seq<nat>, removed: set<string>)
    requires tree.Shape() && tree.up[..] == tree.parents && ListsUnwrapped(links, tree.nodes, removed, |tree.nodes|)
    requires forall i :: 0 <= i < |tree.nodes| ==> tree.present[i]
    modifies tree.up, tree.present
    ensures tree.Shape() && Pointing(tree.up[..])
    ensures UnwrappedBelow(tree.nodes, tree.parents, removed, tree.up[..], tree.present[..], |tree.nodes|)
  {
    ghost var done := 0;
    StartState(tree.nodes, tree.parents, removed, tree.present[..]);
    for j := 0 to |links|
      invariant tree.Shape() && Pointing(tree.up[..]) && done <= |tree.nodes|
      invariant done == if j == 0 then 0 else links[j - 1] + 1
      invariant UnwrappedBelow(tree.nodes, tree.parents, removed, tree.up[..], tree.present[..], done)
    {
      var e := links[j];
      NoLinkBetween(links, tree.nodes, removed, done, j);
      SkipStep(tree.nodes, tree.parents, removed, tree.up[..], tree.present[..], done, e);
      if e > 0 {
        UnwrapStep(tree.nodes, tree.parents, removed, tree.up[..], tree.present[..], e);
        LaterArePresent(tree, removed, e);
        Unwrap(tree, e);
        done := e + 1;
      } else {
        SkipStep(tree.nodes, tree.parents, removed, tree.up[..], tree.present[..], 0, 1);
        done := 1;
      }
    }
    NoLinkBetween(links, tree.nodes, removed, done, |links|);
    SkipStep(tree.nodes, tree.parents, removed, tree.up[..], tree.present[..], done, |tree.nodes|);
  }

  lemma LaterArePresent(tree: Tree, removed: set<string>, e: nat)
    requires tree.Shape() && Pointing(tree.up[..]) && UnwrappedBelow(tree.nodes, tree.parents, removed, tree.up[..], tree.present[..], e)
    ensures forall i :: e < i < |tree.nodes| ==> tree.present[i]
  {
    forall i | e < i < |tree.nodes|
      ensures tree.present[i]
    {
      assert tree.present[..][i];
    }
  }

  lemma StartState(nodes: seq<Node>, parents: seq<int>, removed: set<string>, present: seq<bool>)
    requires IsTree(nodes, parents) && |present| == |nodes| && forall i :: 0 <= i < |present| ==> present[i]
    ensures Pointing(parents) && UnwrappedBelow(nodes, parents, removed, parents, present, 0)
  {
  }

  lemma NoLinkBetween(links: seq<nat>, nodes: seq<Node>, removed: set<string>, done: nat, j: nat)
    requires ListsUnwrapped(links, nodes, removed, |nodes|) && j <= |links|
    requires done == if j == 0 then 0 else links[j - 1] + 1
    ensures done <= |nodes|
    ensures j < |links| ==> done <= links[j]
    ensures forall i :: done <= i < (if j < |links| then links[j] else |nodes|) ==> !Unwrapped(nodes, removed, i)
  {
    hide Carries;
    forall i | done <= i < (if j < |links| then links[j] else |nodes|)
      ensures !Unwrapped(nodes, removed, i)
    {
      assert forall k :: 0 <= k < |links| ==> links[k] != i;
    }
  }

  /** Takes the doomed elements out; the root cannot be taken out. */
  method RemoveAll(tree: Tree, doomed: seq<nat>) returns (ok: bool)
    requires tree.Shape() && forall k :: 0 <= k < |doomed| ==> doomed[k] < |tree.nodes|
    modifies tree.present
    ensures ok <==> 0 !in doomed
    ensures ok ==> forall i :: 0 <= i < |tree.nodes| ==> (tree.present[i] <==> old(tree.present[i]) && i !in doomed)
  {
    for j := 0 to |doomed|
      invariant 0 !in doomed[..j]
      invariant forall i :: 0 <= i < |tree.nodes| ==> (tree.present[i] <==> old(tree.present[i]) && i !in doomed[..j])
    {
      var d := doomed[j];
      assert doomed[..j + 1] == doomed[..j] + [d];
      if d == 0 {
        return false;
      }
      if tree.present[d] {
        tree.present[d] := false;
      }
    }
    assert doomed[..|doomed|] == doomed;
    ok := true;
  }

  /** Exactly this stays: what is neither unwrapped itself nor taken out with an element above it. */
  ghost predicate Stays(nodes: seq<Node>, parents: seq<int>, removed: set<string>, i: nat)
    requires IsTree(nodes, parents) && i < |nodes|
  {
    i == 0 || (!Unwrapped(nodes, removed, i) && Spared(nodes, parents, removed, i))
  }

  lemma {:induction false} InTreeExactly(nodes: seq<Node>, parents: seq<int>, removed: set<string>, up: seq<int>,
                                         before: seq<bool>, present: seq<bool>, i: nat)
    requires IsTree(nodes, parents) && |up| == |before| == |present| == |nodes| && Pointing(up) && i < |nodes|
    requires UnwrappedBelow(nodes, parents, removed, up, before, |nodes|) && !TakenOut(nodes, parents, removed, 0)
    requires forall k: nat :: k < |nodes| ==> (present[k] <==> before[k] && !TakenOut(nodes, parents, removed, k))
    ensures InTree(up, present, i) <==> Stays(nodes, parents, removed, i)
    decreases i
  {
    if i > 0 {
      InTreeExactly(nodes, parents, removed, up, before, present, up[i]);
      ThroughSpares(nodes, parents, removed, parents[i], up[i]);
      hide TakenOut;
      hide Carries;
      assert Through(nodes, parents, removed, parents[i], up[i]);
      assert !Unwrapped(nodes, removed, up[i]);
    }
  }

  /** Cleans a part in place; a part whose root would have to go is refused. */
  method Clean(tree: Tree, removed: set<string>) returns (ok: bool)
    requires tree.Shape() && tree.up[..] == tree.parents && forall i :: 0 <= i < |tree.nodes| ==> tree.present[i]
    modifies tree.up, tree.present
    ensures ok <==> !TakenOut(tree.nodes, tree.parents, removed, 0)
    ensures tree.Shape() && Pointing(tree.up[..])
    ensures ok ==> forall i: nat :: i < |tree.nodes| ==>
              (InTree(tree.up[..], tree.present[..], i) <==> Stays(tree.nodes, tree.parents, removed, i))
    ensures forall i :: 0 < i < |tree.nodes| ==>
              Through(tree.nodes, tree.parents, removed, tree.parents[i], tree.up[i]) && !Unwrapped(tree.nodes, removed, tree.up[i])
  {
    var links, doomed := Mark(tree, removed);
    UnwrapAll(tree, links, removed);
    ghost var before := tree.present[..];
    forall i | 0 < i < |tree.nodes|
      ensures Through(tree.nodes, tree.parents, removed, tree.parents[i], tree.up[i]) && !Unwrapped(tree.nodes, removed, tree.up[i])
    {
      assert tree.up[..][i] == tree.up[i];
    }
    ok := RemoveAll(tree, doomed);
    if ok {
      forall i: nat | i < |tree.nodes|
        ensures InTree(tree.up[..], tree.present[..], i) <==> Stays(tree.nodes, tree.parents, removed, i)
      {
        InTreeExactly(tree.nodes, tree.parents, removed, tree.up[..], before, tree.present[..], i);
      }
    }
  }
}
