/** What every operation on the shape heap keeps. `owners` counts the references held from
    outside the tree; `orphans` are shapes whose recorded parent has just been freed. */
module ShapeTree {
  import opened ShapeLayout
  import opened ShapeHeap

  function ParentOf(h: Heap, id: Id, orphans: set<Id>): Id
    requires id in h.shapes
  {
    if id in orphans then 0 else h.shapes[id].parent
  }

  ghost predicate IsRoot(h: Heap, id: Id) { id in h.roots.Values }

  ghost predicate DistinctEdges(edges: seq<Edge>) {
    forall i, j | 0 <= i < j < |edges| :: edges[i].key != edges[j].key || edges[i].attrs != edges[j].attrs
  }

  /** A tree edge: the child is the parent's layout plus the edge's property. */
  ghost predicate EdgeOk(h: Heap, id: Id, e: Edge, orphans: set<Id>)
    requires id in h.shapes
  {
    && e.child in h.shapes
    && id < e.child
    && ParentOf(h, e.child, orphans) == id
    && h.shapes[e.child].parentKey == e.key
    && h.shapes[e.child].parentAttrs == e.attrs
    && h.shapes[e.child].layout == AddKey(h.shapes[id].layout, e.key, e.attrs)
  }

  ghost predicate EdgesOk(h: Heap, id: Id, orphans: set<Id>)
    requires id in h.shapes
  {
    && DistinctEdges(h.shapes[id].children)
    && forall e {:trigger EdgeOk(h, id, e, orphans)} :: e in h.shapes[id].children ==> EdgeOk(h, id, e, orphans)
  }

  /** A shape with a parent is one of that parent's children. */
  ghost predicate LinkOk(h: Heap, id: Id, orphans: set<Id>)
    requires id in h.shapes
  {
    var p := ParentOf(h, id, orphans);
    p != 0 ==>
      && p in h.shapes
      && Edge(h.shapes[id].parentKey, h.shapes[id].parentAttrs, id) in h.shapes[p].children
  }

  ghost predicate RootsOk(h: Heap) {
    && (forall l <- h.roots :: h.roots[l] in h.shapes)
    && (forall l <- h.roots :: h.shapes[h.roots[l]].parent == 0 && h.shapes[h.roots[l]].layout == EMPTY)
    && (forall l <- h.roots :: l <= INOBJ_MAX_SLOTS)
    && (forall l <- h.roots, m <- h.roots | h.roots[l] == h.roots[m] :: l == m)
  }

  ghost function Refs(h: Heap, id: Id, owners: multiset<Id>, orphans: set<Id>): nat
    requires id in h.shapes
  {
    owners[id] + (if ParentOf(h, id, orphans) != 0 then 1 else 0) + if IsRoot(h, id) then 1 else 0
  }

  ghost predicate ShapeOk(h: Heap, id: Id, owners: multiset<Id>, orphans: set<Id>)
    requires id in h.shapes
  {
    && 0 < id < h.next
    && WellFormed(h.shapes[id].layout)
    && EdgesOk(h, id, orphans)
    && LinkOk(h, id, orphans)
    && 0 < h.shapes[id].refCount == Refs(h, id, owners, orphans)
  }

  ghost predicate Inv(h: Heap, owners: multiset<Id>, orphans: set<Id>) {
    && h.next > 0 && 0 !in h.shapes
    && RootsOk(h)
    && (forall id <- owners | id != 0 :: id in h.shapes)
    && (forall id {:trigger ShapeOk(h, id, owners, orphans)} :: id in h.shapes ==> ShapeOk(h, id, owners, orphans))
  }

  // ---------------------------------------------------------------- release

  /** Same ids, layouts and links: only reference counts, marks and guards may differ. */
  ghost predicate SameTree(h: Heap, r: Heap) {
    && r.shapes.Keys == h.shapes.Keys && r.roots == h.roots && r.next == h.next
    && forall id <- h.shapes ::
      && r.shapes[id].layout == h.shapes[id].layout
      && r.shapes[id].children == h.shapes[id].children
      && r.shapes[id].parent == h.shapes[id].parent
      && r.shapes[id].parentKey == h.shapes[id].parentKey
      && r.shapes[id].parentAttrs == h.shapes[id].parentAttrs
  }

  lemma SameTreeEdges(h: Heap, r: Heap, id: Id, orphans: set<Id>)
    requires SameTree(h, r) && id in h.shapes && EdgesOk(h, id, orphans)
    ensures EdgesOk(r, id, orphans)
  {
    forall e <- r.shapes[id].children ensures EdgeOk(r, id, e, orphans) {
      assert EdgeOk(h, id, e, orphans);
    }
  }

  lemma SameTreeKeeps(h: Heap, r: Heap, owners: multiset<Id>, owners': multiset<Id>, orphans: set<Id>)
    requires Inv(h, owners, orphans) && SameTree(h, r)
    requires forall id <- h.shapes :: 0 < r.shapes[id].refCount == h.shapes[id].refCount + owners'[id] - owners[id]
    requires forall id <- owners' | id != 0 :: id in h.shapes
    ensures Inv(r, owners', orphans)
  {
    forall j <- r.shapes ensures ShapeOk(r, j, owners', orphans) {
      assert ShapeOk(h, j, owners, orphans);
      SameTreeEdges(h, r, j, orphans);
    }
  }

  /** Dropping one of several references. */
  lemma DecrementKeeps(h: Heap, id: Id, owners: multiset<Id>, orphans: set<Id>)
    requires Inv(h, owners + multiset{id}, orphans)
    requires id in h.shapes && h.shapes[id].refCount > 1
    ensures var r := Set(h, id, h.shapes[id].(refCount := h.shapes[id].refCount - 1));
            Inv(r, owners, orphans)
  {
    var r := Set(h, id, h.shapes[id].(refCount := h.shapes[id].refCount - 1));
    var x := owners + multiset{id};
    forall j <- h.shapes ensures 0 < r.shapes[j].refCount == h.shapes[j].refCount + owners[j] - x[j] {
      assert ShapeOk(h, j, x, orphans);
    }
    forall j <- owners | j != 0 ensures j in h.shapes { assert j in x; }
    assert SameTree(h, r);
    SameTreeKeeps(h, r, x, owners, orphans);
  }

  function Kids(edges: seq<Edge>): multiset<Id> {
    if edges == [] then multiset{} else multiset{edges[0].child} + Kids(edges[1..])
  }

  function KidSet(edges: seq<Edge>): set<Id> {
    if edges == [] then {} else {edges[0].child} + KidSet(edges[1..])
  }

  ghost predicate DistinctKids(edges: seq<Edge>) {
    edges != [] ==> edges[0].child !in KidSet(edges[1..]) && DistinctKids(edges[1..])
  }

  lemma {:induction false} KidsAre(edges: seq<Edge>)
    ensures forall id :: id in Kids(edges) <==> id in KidSet(edges)
    ensures forall id :: id in KidSet(edges) <==> exists e <- edges :: e.child == id
  {
    if edges != [] {
      KidsAre(edges[1..]);
      assert edges == [edges[0]] + edges[1..];
    }
  }

  lemma {:induction false} DistinctKidsCount(edges: seq<Edge>)
    requires forall i, j | 0 <= i < j < |edges| :: edges[i].child != edges[j].child
    ensures DistinctKids(edges)
    ensures forall id <- Kids(edges) :: Kids(edges)[id] == 1
  {
    if edges != [] {
      DistinctKidsCount(edges[1..]);
      KidsAre(edges[1..]);
    }
  }

  /** Freeing a shape whose last reference is gone leaves its children orphaned but counted. */
  lemma FreeKeeps(h: Heap, id: Id, owners: multiset<Id>, orphans: set<Id>)
    requires Inv(h, owners + multiset{id}, orphans)
    requires id in h.shapes && id !in orphans && h.shapes[id].refCount == 1
    ensures h.shapes[id].parent == 0
    ensures DistinctKids(h.shapes[id].children) && KidSet(h.shapes[id].children) !! orphans
    ensures 0 !in KidSet(h.shapes[id].children) && 0 !in h.shapes
    ensures var es := h.shapes[id].children;
            Inv(h.(shapes := h.shapes - {id}), owners + Kids(es), orphans + KidSet(es))
  {
    var x := owners + multiset{id};
    var es := h.shapes[id].children;
    assert ShapeOk(h, id, x, orphans);
    forall e <- es ensures e.child !in orphans && e.child in h.shapes && e.child != id {
      assert EdgeOk(h, id, e, orphans);
    }
    forall i, j | 0 <= i < j < |es| ensures es[i].child != es[j].child {
      assert EdgeOk(h, id, es[i], orphans) && EdgeOk(h, id, es[j], orphans);
    }
    DistinctKidsCount(es);
    KidsAre(es);
    FreeInv(h, id, owners, orphans);
  }

  lemma FreeInv(h: Heap, id: Id, owners: multiset<Id>, orphans: set<Id>)
    requires Inv(h, owners + multiset{id}, orphans)
    requires id in h.shapes && id !in orphans && h.shapes[id].refCount == 1 && h.shapes[id].parent == 0
    requires forall k <- Kids(h.shapes[id].children) :: Kids(h.shapes[id].children)[k] == 1
    ensures var es := h.shapes[id].children;
            Inv(h.(shapes := h.shapes - {id}), owners + Kids(es), orphans + KidSet(es))
  {
    var x := owners + multiset{id};
    var es := h.shapes[id].children;
    var r, x', o' := h.(shapes := h.shapes - {id}), owners + Kids(es), orphans + KidSet(es);
    assert ShapeOk(h, id, x, orphans);
    assert x[id] == 1;
    KidsAre(es);
    forall j <- r.shapes ensures ShapeOk(r, j, x', o') {
      FreeShape(h, id, j, owners, orphans);
    }
    forall j <- x' | j != 0 ensures j in r.shapes {
      if j in KidSet(es) {
        var e :| e in es && e.child == j;
        assert EdgeOk(h, id, e, orphans);
      } else {
        assert j in x;
        assert owners[id] == 0;
      }
    }
  }

  lemma FreeShape(h: Heap, id: Id, j: Id, owners: multiset<Id>, orphans: set<Id>)
    requires Inv(h, owners + multiset{id}, orphans)
    requires id in h.shapes && id !in orphans && h.shapes[id].refCount == 1 && h.shapes[id].parent == 0
    requires j in h.shapes && j != id
    requires forall k <- Kids(h.shapes[id].children) :: Kids(h.shapes[id].children)[k] == 1
    ensures var es := h.shapes[id].children;
            ShapeOk(h.(shapes := h.shapes - {id}), j, owners + Kids(es), orphans + KidSet(es))
  {
    var x := owners + multiset{id};
    var es := h.shapes[id].children;
    var r, x', o' := h.(shapes := h.shapes - {id}), owners + Kids(es), orphans + KidSet(es);
    assert ShapeOk(h, id, x, orphans);
    assert ShapeOk(h, j, x, orphans);
    KidsAre(es);
    forall e <- r.shapes[j].children ensures EdgeOk(r, j, e, o') {
      assert EdgeOk(h, j, e, orphans);
      forall f <- es ensures f.child != e.child { assert EdgeOk(h, id, f, orphans); }
    }
    if j in KidSet(es) {
      var e :| e in es && e.child == j;
      assert EdgeOk(h, id, e, orphans);
      assert x'[j] == x[j] + 1;
    } else {
      assert x'[j] == x[j];
    }
  }

  /** `ant_shape_release` keeps the tree sound and consumes exactly one reference. */
  lemma {:induction false} ReleaseKeeps(h: Heap, id: Id, owners: multiset<Id>, orphans: set<Id>)
    requires Inv(h, owners + multiset{id}, orphans)
    requires id in h.shapes && id !in orphans
    ensures Inv(Release(h, id), owners, orphans)
    decreases h.shapes.Keys, 0
  {
    assert ShapeOk(h, id, owners + multiset{id}, orphans);
    if h.shapes[id].refCount > 1 {
      DecrementKeeps(h, id, owners, orphans);
    } else {
      FreeKeeps(h, id, owners, orphans);
      var h2 := h.(shapes := h.shapes - {id});
      assert h2.shapes.Keys == h.shapes.Keys - {id};
      ReleaseAllKeeps(h2, h.shapes[id].children, owners, orphans);
    }
  }

  lemma {:induction false} ReleaseAllKeeps(h: Heap, edges: seq<Edge>, owners: multiset<Id>, orphans: set<Id>)
    requires DistinctKids(edges) && KidSet(edges) !! orphans && 0 !in KidSet(edges)
    requires Inv(h, owners + Kids(edges), orphans + KidSet(edges))
    ensures Inv(ReleaseAll(h, edges), owners, orphans)
    decreases h.shapes.Keys, |edges|
  {
    if edges == [] {
      assert owners + Kids(edges) == owners && orphans + KidSet(edges) == orphans;
    } else {
      var c, rest := edges[0].child, edges[1..];
      assert c in owners + Kids(edges);
      assert owners + Kids(edges) == owners + Kids(rest) + multiset{c};
      assert orphans + KidSet(edges) == orphans + KidSet(rest) + {c};
      DetachKeeps(h, c, owners + Kids(edges), orphans + KidSet(rest));
      var h1 := Set(h, c, h.shapes[c].(parent := 0));
      assert h1.shapes.Keys == h.shapes.Keys;
      ReleaseKeeps(h1, c, owners + Kids(rest), orphans + KidSet(rest));
      ReleaseAllKeeps(Release(h1, c), rest, owners, orphans);
    }
  }

  /** Clearing the parent pointer of an orphan says in the heap what was already so. */
  lemma DetachKeeps(h: Heap, c: Id, owners: multiset<Id>, orphans: set<Id>)
    requires c in h.shapes && c !in orphans
    requires Inv(h, owners, orphans + {c})
    ensures Inv(Set(h, c, h.shapes[c].(parent := 0)), owners, orphans)
  {
    var r := Set(h, c, h.shapes[c].(parent := 0));
    forall j <- r.shapes ensures ShapeOk(r, j, owners, orphans) {
      assert ShapeOk(h, j, owners, orphans + {c});
      forall e <- r.shapes[j].children ensures EdgeOk(r, j, e, orphans) {
        assert EdgeOk(h, j, e, orphans + {c});
      }
    }
  }

  // ---------------------------------------------------------------- growth

  /** The heap is sound with the given outside references and no shape is half freed. */
  ghost predicate Sound(h: Heap, owners: multiset<Id>) { Inv(h, owners, {}) }

  lemma SoundIds(h: Heap, owners: multiset<Id>)
    requires Sound(h, owners)
    ensures forall id <- h.shapes :: 0 < id < h.next
    ensures forall id <- owners | id != 0 :: id in h.shapes
    ensures owners[h.next] == 0 && !IsRoot(h, h.next)
  {
    forall id <- h.shapes ensures 0 < id < h.next { assert ShapeOk(h, id, owners, {}); }
  }

  /** A new shape with no links and one owner. */
  lemma FreshKeeps(h: Heap, owners: multiset<Id>, s: Shape)
    requires Sound(h, owners)
    requires s.refCount == 1 && s.children == [] && s.parent == 0 && WellFormed(s.layout)
    ensures Sound(Set(h, h.next, s).(next := h.next + 1), owners + multiset{h.next})
  {
    SoundIds(h, owners);
    var n, r := h.next, Set(h, h.next, s).(next := h.next + 1);
    forall j <- r.shapes ensures ShapeOk(r, j, owners + multiset{n}, {}) {
      if j != n {
        assert ShapeOk(h, j, owners, {});
        forall e <- r.shapes[j].children ensures EdgeOk(r, j, e, {}) { assert EdgeOk(h, j, e, {}); }
      }
    }
  }

  lemma RetainKeeps(h: Heap, owners: multiset<Id>, id: Id)
    requires Sound(h, owners) && id in h.shapes
    ensures Sound(Retain(h, id), owners + multiset{id})
  {
    var r := Retain(h, id);
    forall j <- h.shapes ensures h.shapes[j].refCount > 0 { assert ShapeOk(h, j, owners, {}); }
    assert SameTree(h, r);
    SameTreeKeeps(h, r, owners, owners + multiset{id}, {});
  }

  /** Changes to marks, guards and epochs only. */
  lemma MarksKeep(h: Heap, r: Heap, owners: multiset<Id>)
    requires Sound(h, owners) && SameTree(h, r)
    requires forall id <- h.shapes :: r.shapes[id].refCount == h.shapes[id].refCount
    ensures Sound(r, owners)
  {
    forall j <- h.shapes ensures h.shapes[j].refCount > 0 { assert ShapeOk(h, j, owners, {}); }
    SameTreeKeeps(h, r, owners, owners, {});
  }

  /** Changing the layout in place is sound for a shape with neither parent nor children. */
  lemma RelayoutKeeps(h: Heap, owners: multiset<Id>, id: Id, l: Layout)
    requires Sound(h, owners) && id in h.shapes
    requires h.shapes[id].parent == 0 && h.shapes[id].children == [] && WellFormed(l) && !IsRoot(h, id)
    ensures Sound(Set(h, id, h.shapes[id].(layout := l)), owners)
  {
    var r := Set(h, id, h.shapes[id].(layout := l));
    forall j <- r.shapes ensures ShapeOk(r, j, owners, {}) {
      assert ShapeOk(h, j, owners, {});
      forall e <- r.shapes[j].children ensures EdgeOk(r, j, e, {}) { assert EdgeOk(h, j, e, {}); }
    }
  }

  lemma {:induction false} FindChildOk(edges: seq<Edge>, k: Key, a: nat)
    requires forall e <- edges :: e.child != 0
    ensures FindChild(edges, k, a) != 0 ==> Edge(k, a, FindChild(edges, k, a)) in edges
    ensures FindChild(edges, k, a) == 0 ==> forall e <- edges :: e.key != k || e.attrs != a
  {
    if edges != [] { FindChildOk(edges[1..], k, a); }
  }

  /** The heap after `shape_record_child`, field by field. */
  ghost predicate Recorded(h: Heap, r: Heap, p: Id, k: Key, a: nat, c: Id)
    requires p in h.shapes && c in h.shapes && p != c
  {
    && r == h.(shapes := r.shapes)
    && r.shapes == h.shapes
      [p := h.shapes[p].(children := h.shapes[p].children + [Edge(k, a, c)])]
      [c := h.shapes[c].(refCount := h.shapes[c].refCount + 1, parent := p, parentKey := k, parentAttrs := a)]
  }

  lemma RecordOldEdge(h: Heap, r: Heap, owners: multiset<Id>, p: Id, k: Key, a: nat, c: Id, j: Id, e: Edge)
    requires Sound(h, owners)
    requires p in h.shapes && c in h.shapes && p != c && h.shapes[c].parent == 0
    requires Recorded(h, r, p, k, a, c) && j in h.shapes && e in h.shapes[j].children
    ensures EdgeOk(r, j, e, {})
  {
    assert ShapeOk(h, j, owners, {});
    assert EdgeOk(h, j, e, {});
    assert e.child != c;
    assert r.shapes[e.child] == if e.child == p
      then h.shapes[p].(children := h.shapes[p].children + [Edge(k, a, c)]) else h.shapes[e.child];
    assert r.shapes[j].layout == h.shapes[j].layout;
  }

  lemma RecordEdges(h: Heap, r: Heap, owners: multiset<Id>, p: Id, k: Key, a: nat, c: Id, j: Id)
    requires Sound(h, owners)
    requires p in h.shapes && c in h.shapes && p < c && h.shapes[c].parent == 0
    requires h.shapes[c].layout == AddKey(h.shapes[p].layout, k, a)
    requires forall e <- h.shapes[p].children :: e.key != k || e.attrs != a
    requires Recorded(h, r, p, k, a, c) && j in h.shapes
    ensures EdgesOk(r, j, {})
  {
    assert ShapeOk(h, j, owners, {});
    forall e <- r.shapes[j].children ensures EdgeOk(r, j, e, {}) {
      if e in h.shapes[j].children {
        RecordOldEdge(h, r, owners, p, k, a, c, j, e);
      } else {
        assert j == p && e == Edge(k, a, c);
      }
    }
  }

  lemma RecordShape(h: Heap, r: Heap, owners: multiset<Id>, p: Id, k: Key, a: nat, c: Id, j: Id)
    requires Sound(h, owners)
    requires p in h.shapes && c in h.shapes && p < c && h.shapes[c].parent == 0
    requires Recorded(h, r, p, k, a, c) && j in h.shapes && EdgesOk(r, j, {})
    ensures ShapeOk(r, j, owners, {})
  {
    assert ShapeOk(h, j, owners, {});
    var q := h.shapes[j].parent;
    if j == c {
      assert Edge(k, a, c) in r.shapes[p].children;
    } else if q != 0 {
      assert Edge(h.shapes[j].parentKey, h.shapes[j].parentAttrs, j) in r.shapes[q].children;
    }
  }

  /** Recording a transition adds exactly one edge to the tree. */
  lemma RecordKeeps(h: Heap, owners: multiset<Id>, p: Id, k: Key, a: nat, c: Id)
    requires Sound(h, owners)
    requires p in h.shapes && c in h.shapes && p < c && h.shapes[c].parent == 0 && !IsRoot(h, c)
    requires h.shapes[c].layout == AddKey(h.shapes[p].layout, k, a)
    requires FindChild(h.shapes[p].children, k, a) == 0
    ensures Recorded(h, RecordChild(h, p, k, a, c), p, k, a, c)
    ensures Sound(RecordChild(h, p, k, a, c), owners)
  {
    var r := RecordChild(h, p, k, a, c);
    assert ShapeOk(h, p, owners, {});
    forall e <- h.shapes[p].children ensures e.child != 0 { assert EdgeOk(h, p, e, {}); }
    FindChildOk(h.shapes[p].children, k, a);
    assert Recorded(h, r, p, k, a, c);
    forall j <- r.shapes ensures ShapeOk(r, j, owners, {}) {
      RecordEdges(h, r, owners, p, k, a, c, j);
      RecordShape(h, r, owners, p, k, a, c, j);
    }
  }
}
