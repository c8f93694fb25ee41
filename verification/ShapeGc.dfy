/** Marking and sweeping the transition tree: only leaves nobody holds are freed, the tree
    stays sound and no surviving layout changes. */
module ShapeGc {
  import opened ShapeLayout
  import opened ShapeHeap
  import opened ShapeTree
  import opened ShapeSteps

  // ---------------------------------------------------------------- one leaf

  lemma {:induction false} DropEdgeIs(edges: seq<Edge>, k: Key, a: nat)
    requires DistinctEdges(edges)
    ensures var r := DropEdge(edges, k, a);
      && DistinctEdges(r)
      && forall e :: e in r <==> e in edges && (e.key != k || e.attrs != a)
  {
    if edges != [] && (edges[0].key != k || edges[0].attrs != a) {
      DropEdgeIs(edges[1..], k, a);
      assert forall e <- DropEdge(edges[1..], k, a) :: e in edges[1..];
    }
  }

  lemma DetachSound(h: Heap, owners: multiset<Id>, p: Id, e: Edge)
    requires Sound(h, owners) && p in h.shapes && e in h.shapes[p].children
    ensures EdgeOk(h, p, e, {})
    ensures Sound(Detach(h, p, e), owners + multiset{e.child})
  {
    assert ShapeOk(h, p, owners, {});
    assert EdgeOk(h, p, e, {});
    var r := Detach(h, p, e);
    forall j <- r.shapes ensures ShapeOk(r, j, owners + multiset{e.child}, {}) {
      DetachEdges(h, owners, p, e, j);
      DetachShape(h, owners, p, e, j);
    }
  }

  lemma DetachEdges(h: Heap, owners: multiset<Id>, p: Id, e: Edge, j: Id)
    requires Sound(h, owners) && p in h.shapes && e in h.shapes[p].children && EdgeOk(h, p, e, {})
    requires j in h.shapes
    ensures EdgesOk(Detach(h, p, e), j, {})
  {
    var r := Detach(h, p, e);
    assert ShapeOk(h, j, owners, {});
    assert ShapeOk(h, p, owners, {});
    DropEdgeIs(h.shapes[p].children, e.key, e.attrs);
    forall f <- r.shapes[j].children ensures EdgeOk(r, j, f, {}) {
      assert f in h.shapes[j].children;
      assert EdgeOk(h, j, f, {});
      assert f.child != e.child;
    }
  }

  lemma DetachShape(h: Heap, owners: multiset<Id>, p: Id, e: Edge, j: Id)
    requires Sound(h, owners) && p in h.shapes && e in h.shapes[p].children && EdgeOk(h, p, e, {})
    requires j in h.shapes && EdgesOk(Detach(h, p, e), j, {})
    ensures ShapeOk(Detach(h, p, e), j, owners + multiset{e.child}, {})
  {
    var r := Detach(h, p, e);
    assert ShapeOk(h, j, owners, {});
    assert ShapeOk(h, p, owners, {});
    var q := h.shapes[j].parent;
    if q == p && j != e.child {
      DropEdgeIs(h.shapes[p].children, e.key, e.attrs);
      DistinctEdgesDiffer(h.shapes[p].children, e, Edge(h.shapes[j].parentKey, h.shapes[j].parentAttrs, j));
    }
    assert LinkOk(r, j, {});
  }

  lemma DistinctEdgesDiffer(edges: seq<Edge>, e: Edge, f: Edge)
    requires DistinctEdges(edges) && e in edges && f in edges && e != f
    ensures e.key != f.key || e.attrs != f.attrs
  {
    var i :| 0 <= i < |edges| && edges[i] == e;
    var j :| 0 <= j < |edges| && edges[j] == f;
  }

  /** What pruning below `id` may change: shapes above `id` not at all, `id` only its children,
      and no layout or mark anywhere. */
  ghost predicate PruneFrame(h: Heap, r: Heap, id: Id) {
    && r == h.(shapes := r.shapes)
    && r.shapes.Keys <= h.shapes.Keys
    && (forall j <- h.shapes | j < id :: j in r.shapes && r.shapes[j] == h.shapes[j])
    && (id in h.shapes ==> id in r.shapes && r.shapes[id] == h.shapes[id].(children := r.shapes[id].children))
    && (forall j <- r.shapes :: r.shapes[j].layout == h.shapes[j].layout && r.shapes[j].gcMark == h.shapes[j].gcMark)
  }

  lemma PruneFrameTrans(h: Heap, m: Heap, r: Heap, id: Id)
    requires PruneFrame(h, m, id) && PruneFrame(m, r, id)
    ensures PruneFrame(h, r, id)
  {
  }

  /** Freeing one leaf of the tree. */
  lemma LeafKeeps(h: Heap, owners: multiset<Id>, p: Id, e: Edge)
    requires Sound(h, owners) && p in h.shapes && e in h.shapes[p].children
    requires e.child in h.shapes && h.shapes[e.child].children == []
    ensures var r := PruneLeaf(h, p, e);
      && Sound(r, owners) && PruneFrame(h, r, p)
      && p in r.shapes && r.shapes[p].children == DropEdge(h.shapes[p].children, e.key, e.attrs)
  {
    DetachSound(h, owners, p, e);
    var d := Detach(h, p, e);
    ReleaseKeeps(d, e.child, owners, {});
    LeafRelease(d, e.child);
  }

  lemma LeafRelease(h: Heap, c: Id)
    requires c in h.shapes && h.shapes[c].children == [] && h.shapes[c].parent == 0 && 0 !in h.shapes
    ensures var r := Release(h, c);
      && (h.shapes[c].refCount == 1 ==> r == h.(shapes := h.shapes - {c}))
      && (h.shapes[c].refCount != 1 ==>
          r == Set(h, c, h.shapes[c].(refCount := if h.shapes[c].refCount == 0 then 0 else h.shapes[c].refCount - 1)))
  {
    if h.shapes[c].refCount == 0 { assert h.shapes[c := h.shapes[c].(refCount := 0)] == h.shapes; }
  }

  ghost predicate HeldMarked(h: Heap, owners: multiset<Id>) {
    forall j <- owners | j != 0 :: j in h.shapes ==> h.shapes[j].gcMark == h.gcEpoch
  }

  lemma LeafPrivate(h: Heap, owners: multiset<Id>, p: Id, e: Edge)
    requires Sound(h, owners) && p in h.shapes && e in h.shapes[p].children
    requires e.child in h.shapes && h.shapes[e.child].children == [] && h.shapes[e.child].gcMark != h.gcEpoch
    requires Private(h) && HeldMarked(h, owners)
    ensures Private(PruneLeaf(h, p, e))
  {
    hide WellFormed, AddKey, EdgesOk, Release;
    var c := e.child;
    DetachSound(h, owners, p, e);
    assert ShapeOk(h, c, owners, {});
    assert ShapeOk(h, p, owners, {});
    assert h.shapes[c].refCount == 1;
    LeafRelease(Detach(h, p, e), c);
    assert PruneLeaf(h, p, e).shapes == Detach(h, p, e).shapes - {c};
    assert h.shapes[p].parent != 0 || IsRoot(h, p);
    assert forall j :: IsRoot(PruneLeaf(h, p, e), j) <==> IsRoot(h, j);
  }

  // ---------------------------------------------------------------- the whole tree

  lemma {:induction false} PruneKeeps(h: Heap, owners: multiset<Id>, id: Id)
    requires Sound(h, owners)
    ensures Sound(Prune(h, id).0, owners) && PruneFrame(h, Prune(h, id).0, id)
    ensures Private(h) && HeldMarked(h, owners) ==> Private(Prune(h, id).0)
    decreases h.next - id, |(if id in h.shapes then h.shapes[id].children else [])| + 1
  {
    if id in h.shapes {
      assert ShapeOk(h, id, owners, {});
      PruneEdgesKeep(h, owners, id, h.shapes[id].children);
    }
  }

  lemma {:induction false} PruneEdgesKeep(h: Heap, owners: multiset<Id>, id: Id, edges: seq<Edge>)
    requires Sound(h, owners) && id in h.shapes && id < h.next
    requires DistinctEdges(edges) && forall e <- edges :: e in h.shapes[id].children
    ensures Sound(PruneEdges(h, id, edges).0, owners) && PruneFrame(h, PruneEdges(h, id, edges).0, id)
    ensures Private(h) && HeldMarked(h, owners) ==> Private(PruneEdges(h, id, edges).0)
    decreases h.next - id, |edges|
  {
    if edges != [] {
      var e, rest := edges[0], edges[1..];
      assert ShapeOk(h, id, owners, {});
      assert EdgeOk(h, id, e, {});
      PruneKeeps(h, owners, e.child);
      var h1 := Prune(h, e.child).0;
      assert PruneFrame(h, h1, id);
      if h1.shapes[e.child].gcMark != h1.gcEpoch && h1.shapes[e.child].children == [] {
        LeafKeeps(h1, owners, id, e);
        var h2 := PruneLeaf(h1, id, e);
        RestStays(h1.shapes[id].children, edges);
        if Private(h) && HeldMarked(h, owners) { LeafPrivate(h1, owners, id, e); }
        PruneEdgesKeep(h2, owners, id, rest);
        PruneFrameTrans(h, h1, h2, id);
        PruneFrameTrans(h, h2, PruneEdges(h2, id, rest).0, id);
      } else {
        PruneEdgesKeep(h1, owners, id, rest);
        PruneFrameTrans(h, h1, PruneEdges(h1, id, rest).0, id);
      }
    }
  }

  lemma RestStays(children: seq<Edge>, edges: seq<Edge>)
    requires DistinctEdges(children) && edges != [] && DistinctEdges(edges)
    requires forall e <- edges :: e in children
    ensures forall e <- edges[1..] :: e in DropEdge(children, edges[0].key, edges[0].attrs)
  {
    DropEdgeIs(children, edges[0].key, edges[0].attrs);
  }

  /** If pruning reports that it freed nothing, it changed nothing. */
  lemma {:induction false} PruneReports(h: Heap, id: Id)
    ensures !Prune(h, id).1 ==> Prune(h, id).0 == h
    decreases h.next - id, |(if id in h.shapes then h.shapes[id].children else [])| + 1
  {
    if id in h.shapes && id < h.next { PruneEdgesReport(h, id, h.shapes[id].children); }
  }

  lemma {:induction false} PruneEdgesReport(h: Heap, id: Id, edges: seq<Edge>)
    requires id < h.next
    ensures !PruneEdges(h, id, edges).1 ==> PruneEdges(h, id, edges).0 == h
    decreases h.next - id, |edges|
  {
    if edges != [] {
      var e := edges[0];
      if id < e.child { PruneReports(h, e.child); }
      var h1 := if id < e.child then Prune(h, e.child).0 else h;
      PruneEdgesReport(h1, id, edges[1..]);
    }
  }

  ghost predicate SweepFrame(h: Heap, r: Heap) {
    && r == h.(shapes := r.shapes) && r.shapes.Keys <= h.shapes.Keys
    && forall j <- r.shapes :: r.shapes[j].layout == h.shapes[j].layout && r.shapes[j].gcMark == h.shapes[j].gcMark
  }

  lemma {:induction false} SweepKeeps(h: Heap, owners: multiset<Id>, i: nat)
    requires Sound(h, owners)
    ensures Sound(Sweep(h, i).0, owners) && SweepFrame(h, Sweep(h, i).0)
    ensures Private(h) && HeldMarked(h, owners) ==> Private(Sweep(h, i).0)
    ensures !Sweep(h, i).1 ==> Sweep(h, i).0 == h
    decreases INOBJ_MAX_SLOTS + 1 - i
  {
    hide Inv, Private, Prune;
    if i <= INOBJ_MAX_SLOTS {
      var h1 := if i in h.roots then Prune(h, h.roots[i]).0 else h;
      if i in h.roots {
        PruneKeeps(h, owners, h.roots[i]);
        PruneReports(h, h.roots[i]);
      }
      SweepKeeps(h1, owners, i + 1);
    }
  }

  /** Marking changes nothing but marks, and marks the shape it is given. */
  ghost predicate MarkFrame(h: Heap, r: Heap) {
    && r == h.(shapes := r.shapes) && SameTree(h, r)
    && forall j <- h.shapes ::
      && r.shapes[j].refCount == h.shapes[j].refCount
      && (h.shapes[j].gcMark == h.gcEpoch ==> r.shapes[j].gcMark == h.gcEpoch)
  }

  lemma {:induction false} MarkKeeps(h: Heap, id: Id)
    ensures MarkFrame(h, Mark(h, id))
    ensures id in h.shapes ==> Mark(h, id).shapes[id].gcMark == h.gcEpoch
    decreases Unmarked(h)
  {
    if id in h.shapes && h.shapes[id].gcMark != h.gcEpoch {
      var h1 := Set(h, id, h.shapes[id].(gcMark := h.gcEpoch));
      assert Unmarked(h1) == Unmarked(h) - {id};
      MarkKeeps(h1, h.shapes[id].parent);
    }
  }

  lemma {:induction false} MarkAllKeeps(h: Heap, ids: seq<Id>)
    ensures MarkFrame(h, MarkAll(h, ids))
    ensures forall id <- ids :: id in h.shapes ==> MarkAll(h, ids).shapes[id].gcMark == h.gcEpoch
    decreases |ids|
  {
    if ids != [] {
      MarkKeeps(h, ids[0]);
      MarkAllKeeps(Mark(h, ids[0]), ids[1..]);
      assert forall id <- ids :: id == ids[0] || id in ids[1..];
    }
  }

  /** Whatever is marked, a collection keeps the tree sound, keeps all layouts and moves the
      inline-cache epoch unless it left the whole tree as it was. If every held shape is marked,
      shapes outside the tree stay unshared. */
  lemma CollectKeeps(h: Heap, owners: multiset<Id>, marked: seq<Id>)
    requires Sound(h, owners)
    ensures var r := Collect(h, marked);
      && Sound(r, owners) && SameLayouts(h, r) && r.shapes.Keys <= h.shapes.Keys
      && (Private(h) && (forall id <- owners | id != 0 :: id in marked) ==> Private(r))
      && (r.bumps == h.bumps ==> SameTree(h, r))
  {
    var b := BeginGc(h);
    var m := MarkAll(b, marked);
    MarkAllKeeps(b, marked);
    MarksKeep(h, m, owners);
    assert Private(h) ==> Private(m) by {
      assert forall j :: IsRoot(m, j) <==> IsRoot(h, j);
    }
    SweepKeeps(m, owners, 0);
    var s := Sweep(m, 0).0;
    MarksKeep(s, Bump(s), owners);
    assert Private(s) ==> Private(Bump(s)) by {
      assert forall j :: IsRoot(Bump(s), j) <==> IsRoot(s, j);
    }
  }
}
