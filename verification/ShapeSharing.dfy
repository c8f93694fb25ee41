/** What goes wrong when a private shape gains a second holder. The runtime decides whether a
    shape may change in place by its reference count, so a shape that was shared for a while and
    is held once again may carry transitions that an in-place addition leaves behind. */
module ShapeSharing {
  import opened ShapeLayout
  import opened ShapeHeap
  import opened ShapeTree
  import opened ShapeSteps

  // ---------------------------------------------------------------- in-place change

  /** What an in-place change touches: one layout, and perhaps that shape's guard. */
  ghost predicate Relaid(h: Heap, r: Heap, id: Id, l: Layout)
    requires id in h.shapes
  {
    && r.roots == h.roots && r.next == h.next && r.shapes.Keys == h.shapes.Keys
    && r.shapes[id] == h.shapes[id].(layout := l, guardEpoch := r.shapes[id].guardEpoch)
    && forall j <- h.shapes | j != id :: r.shapes[j] == h.shapes[j]
  }

  /** Every recorded transition leads from the layout `l` where it led from the old one. */
  ghost predicate Survive(s: Shape, l: Layout) {
    forall e <- s.children :: AddKey(l, e.key, e.attrs) == AddKey(s.layout, e.key, e.attrs)
  }

  lemma RelaidEdges(h: Heap, r: Heap, owners: multiset<Id>, id: Id, l: Layout, j: Id)
    requires Sound(h, owners) && id in h.shapes && h.shapes[id].parent == 0
    requires Relaid(h, r, id, l) && Survive(h.shapes[id], l) && j in h.shapes
    ensures EdgesOk(r, j, {})
  {
    hide AddKey, RootsOk, WellFormed;
    assert ShapeOk(h, id, owners, {});
    assert ShapeOk(h, j, owners, {});
    forall e <- r.shapes[j].children ensures EdgeOk(r, j, e, {}) { assert EdgeOk(h, j, e, {}); }
  }

  lemma RelaidShape(h: Heap, r: Heap, owners: multiset<Id>, id: Id, l: Layout, j: Id)
    requires Sound(h, owners) && id in h.shapes && h.shapes[id].parent == 0
    requires Relaid(h, r, id, l) && Survive(h.shapes[id], l) && WellFormed(l) && j in h.shapes
    ensures ShapeOk(r, j, owners, {})
  {
    hide AddKey, RootsOk, WellFormed, EdgesOk;
    assert ShapeOk(h, id, owners, {});
    assert ShapeOk(h, j, owners, {});
    RelaidEdges(h, r, owners, id, l, j);
  }

  lemma RelaidBreaks(h: Heap, r: Heap, owners: multiset<Id>, id: Id, l: Layout)
    requires Sound(h, owners) && id in h.shapes && Relaid(h, r, id, l) && !Survive(h.shapes[id], l)
    ensures !Sound(r, owners)
  {
    hide AddKey, WellFormed, RootsOk;
    var s := h.shapes[id];
    assert ShapeOk(h, id, owners, {});
    var e :| e in s.children && AddKey(l, e.key, e.attrs) != AddKey(s.layout, e.key, e.attrs);
    assert EdgeOk(h, id, e, {});
    assert !EdgeOk(r, id, e, {});
    assert !ShapeOk(r, id, owners, {});
  }

  /** Changing the layout of a shape outside the tree keeps the tree sound exactly when its
      recorded transitions survive the change. */
  lemma RelaidExact(h: Heap, r: Heap, owners: multiset<Id>, id: Id, l: Layout)
    requires Sound(h, owners) && id in h.shapes && h.shapes[id].parent == 0 && !IsRoot(h, id)
    requires Relaid(h, r, id, l) && WellFormed(l)
    ensures Sound(r, owners) <==> Survive(h.shapes[id], l)
  {
    hide AddKey, WellFormed, ShapeOk, Survive;
    if Survive(h.shapes[id], l) {
      forall j <- r.shapes ensures ShapeOk(r, j, owners, {}) { RelaidShape(h, r, owners, id, l, j); }
    } else {
      RelaidBreaks(h, r, owners, id, l);
    }
  }

  /** A shape that one owner holds, and nothing else, is outside the tree. */
  lemma HeldOnce(h: Heap, owners: multiset<Id>, id: Id)
    requires Sound(h, owners + multiset{id}) && id in h.shapes && h.shapes[id].refCount == 1
    ensures h.shapes[id].parent == 0 && !IsRoot(h, id) && id !in owners && WellFormed(h.shapes[id].layout)
  {
    hide WellFormed, EdgesOk, LinkOk, RootsOk;
    assert ShapeOk(h, id, owners + multiset{id}, {});
    assert (owners + multiset{id})[id] == owners[id] + 1;
  }

  // ---------------------------------------------------------------- adding and redefining

  lemma AddKeyTwice(l: Layout, k: Key, a: nat, b: nat)
    requires WellFormed(l)
    ensures AddKey(AddKey(l, k, a), k, b) == AddKey(l, k, b)
  {
  }

  lemma AddKeyOther(l: Layout, k: Key, a: nat, x: Key, b: nat)
    requires WellFormed(l) && x != k && AddKey(l, k, a) != l
    ensures AddKey(AddKey(l, k, a), x, b) != AddKey(l, x, b)
  {
    var m := AddKey(l, k, a);
    if k in l.index {
      assert AddKey(m, x, b).props[l.index[k]] == Live(k, a);
      assert AddKey(l, x, b).props[l.index[k]] == l.props[l.index[k]];
    } else {
      assert k in AddKey(m, x, b).index && k !in AddKey(l, x, b).index;
    }
  }

  /** The shapes on which `k` may be added, or its attributes changed, in place: every recorded
      transition is for that same key, or nothing changes. */
  ghost predicate EdgesAllow(s: Shape, k: Key, a: nat) {
    AddKey(s.layout, k, a) == s.layout || forall e <- s.children :: e.key == k
  }

  lemma AddSurvives(s: Shape, k: Key, a: nat)
    requires WellFormed(s.layout)
    ensures Survive(s, AddKey(s.layout, k, a)) <==> EdgesAllow(s, k, a)
  {
    hide AddKey, WellFormed;
    forall e <- s.children
      ensures AddKey(AddKey(s.layout, k, a), e.key, e.attrs) == AddKey(s.layout, e.key, e.attrs)
        <==> AddKey(s.layout, k, a) == s.layout || e.key == k
    {
      AddKeyTwice(s.layout, k, a, e.attrs);
      if e.key != k && AddKey(s.layout, k, a) != s.layout { AddKeyOther(s.layout, k, a, e.key, e.attrs); }
    }
  }

  lemma AddKeyInFrame(h: Heap, id: Id, k: Key, a: nat)
    requires id in h.shapes
    ensures Relaid(h, AddKeyIn(h, id, k, a), id, AddKey(h.shapes[id].layout, k, a))
  {
  }

  /** An in-place addition keeps the transition tree sound exactly when the shape's recorded
      transitions all add that same key, or the addition changes nothing. */
  lemma InPlaceAddExact(h: Heap, owners: multiset<Id>, id: Id, k: Key, a: nat)
    requires Sound(h, owners + multiset{id}) && id in h.shapes && !InTree(h.shapes[id])
    ensures Sound(AddTr(h, id, k, a).0, owners + multiset{id}) <==> EdgesAllow(h.shapes[id], k, a)
  {
    hide AddKey, AddKeyIn, WellFormed, EdgesOk, LinkOk, RootsOk, Survive, EdgesAllow;
    assert ShapeOk(h, id, owners + multiset{id}, {});
    HeldOnce(h, owners, id);
    AddKeyInFrame(h, id, k, a);
    AddKeyWellFormed(h.shapes[id].layout, k, a);
    AddSurvives(h.shapes[id], k, a);
    RelaidExact(h, AddKeyIn(h, id, k, a), owners + multiset{id}, id, AddKey(h.shapes[id].layout, k, a));
  }

  /** Changing attributes goes through `js_obj_ensure_unique_shape`, which keeps a shape held
      once. In place it keeps the tree sound under the same condition as an addition. */
  lemma InPlaceAttrsExact(h: Heap, owners: multiset<Id>, id: Id, k: Key, a: nat)
    requires Sound(h, owners + multiset{id}) && id in h.shapes && h.shapes[id].refCount == 1
    requires k in h.shapes[id].layout.index
    ensures Unique(h, id) == (h, id)
    ensures Sound(SetAttrs(h, id, k, a), owners + multiset{id}) <==> EdgesAllow(h.shapes[id], k, a)
  {
    hide AddKey, Inv, WellFormed, Survive, EdgesAllow;
    HeldOnce(h, owners, id);
    AddKeyWellFormed(h.shapes[id].layout, k, a);
    AddSurvives(h.shapes[id], k, a);
    RelaidExact(h, SetAttrs(h, id, k, a), owners + multiset{id}, id, AddKey(h.shapes[id].layout, k, a));
  }

  // ---------------------------------------------------------------- deleting

  /** Deleting `k` only cuts off the last slot: no tombstone before it, no compaction due. */
  predicate CutsLast(l: Layout, k: Key) {
    var n := |l.props|;
    && k in l.index && l.index[k] + 1 == n && (n == 1 || l.props[n - 2].Live?)
    && !(COMPACT_MIN_TOMBSTONES <= l.deleted && n - 1 - l.deleted <= l.deleted)
  }

  /** The shapes from which `k` may be deleted in place: without transitions, or with
      transitions for `k` alone while `k` is the last slot. */
  ghost predicate DeleteAllows(s: Shape, k: Key) {
    s.children == [] || (CutsLast(s.layout, k) && forall e <- s.children :: e.key == k)
  }

  lemma CutIsPrefix(l: Layout, k: Key)
    requires WellFormed(l) && CutsLast(l, k)
    ensures Delete(l, k) == Layout(l.props[..|l.props| - 1], l.index - {k}, l.deleted)
  {
    var n := |l.props| - 1;
    var dead := l.props[n := Deleted];
    assert dead[..n] == l.props[..n];
    assert Trim(dead) == Trim(dead[..n]) == dead[..n];
  }

  lemma CutReAdds(l: Layout, k: Key, b: nat)
    requires WellFormed(l) && CutsLast(l, k)
    ensures AddKey(Delete(l, k), k, b) == AddKey(l, k, b)
  {
    CutIsPrefix(l, k);
    var n := |l.props| - 1;
    assert l.props[n := Live(k, b)] == l.props[..n] + [Live(k, b)];
    assert (l.index - {k})[k := n] == l.index;
  }

  /** How many slots are left when the tombstones at the end are dropped. */
  lemma RemovedLength(l: Layout, k: Key)
    requires WellFormed(l) && k in l.index
    ensures l.index[k] < |l.props|
    ensures var n, i, t := |l.props|, l.index[k], RemoveSlot(l, l.index[k]);
      && (|t.props| + 1 == n <==> i + 1 == n && (n == 1 || l.props[n - 2].Live?))
      && (|t.props| + 1 == n ==> t.deleted == l.deleted)
  {
    hide Indexed, Tombstones, LiveProps;
    KeyAt(l, k);
    var n, i := |l.props|, l.index[k];
    var dead := l.props[i := Deleted];
    TrimOne(dead);
    if i + 1 == n {
      assert dead[..n - 1] == l.props[..n - 1];
      TrimOne(dead[..n - 1]);
    }
  }

  /** Trimming stops at a live last slot and goes on past a deleted one. */
  lemma TrimOne(p: seq<Slot>)
    ensures p == [] || p[|p| - 1].Live? ==> Trim(p) == p
    ensures p != [] && p[|p| - 1].Deleted? ==> Trim(p) == Trim(p[..|p| - 1]) && |Trim(p)| < |p|
  {
  }

  /** Otherwise the key does not come back to its place: the number of slots differs. */
  lemma ReAddMoves(l: Layout, k: Key)
    requires WellFormed(l) && k in l.index && !CutsLast(l, k)
    ensures |Delete(l, k).props| + 1 != |l.props|
  {
    hide Indexed, Tombstones, LiveProps, RemoveSlot, Compact;
    var t := RemoveSlot(l, l.index[k]);
    RemovedLength(l, k);
    if ShouldCompact(t) {
      RemoveSlotWellFormed(l, l.index[k]);
      LiveCount(t.props);
      CompactWellFormed(t);
      assert |t.props| <= |l.props| by { RemovedShorter(l, l.index[k]); }
    }
  }

  lemma RemovedShorter(l: Layout, i: nat)
    ensures |RemoveSlot(l, i).props| <= |l.props|
  {
  }

  lemma DeleteSurvives(s: Shape, k: Key)
    requires WellFormed(s.layout) && k in s.layout.index
    ensures Survive(s, Delete(s.layout, k)) <==> DeleteAllows(s, k)
  {
    hide CutsLast, Delete;
    var l := s.layout;
    DeleteIsWithout(l, k);
    KeyAt(l, k);
    if CutsLast(l, k) {
      forall e <- s.children | e.key == k ensures AddKey(Delete(l, k), k, e.attrs) == AddKey(l, k, e.attrs) {
        CutReAdds(l, k, e.attrs);
      }
    } else {
      ReAddMoves(l, k);
    }
    forall e <- s.children | !(e.key == k && CutsLast(l, k))
      ensures AddKey(Delete(l, k), e.key, e.attrs) != AddKey(l, e.key, e.attrs)
    {
      if e.key != k {
        assert k in AddKey(l, e.key, e.attrs).index && k !in AddKey(Delete(l, k), e.key, e.attrs).index;
      } else {
        assert |AddKey(l, k, e.attrs).props| == |l.props|;
        assert |AddKey(Delete(l, k), k, e.attrs).props| == |Delete(l, k).props| + 1;
      }
    }
    if s.children != [] { assert s.children[0] in s.children; }
  }

  /** An in-place deletion keeps the tree sound exactly when the shape has no transitions, or
      only transitions for the deleted key while that key was the last slot. */
  lemma InPlaceDeleteExact(h: Heap, owners: multiset<Id>, id: Id, k: Key)
    requires Sound(h, owners + multiset{id}) && id in h.shapes && h.shapes[id].refCount == 1
    requires k in h.shapes[id].layout.index
    ensures Unique(h, id) == (h, id)
    ensures Sound(DeleteIn(h, id, k), owners + multiset{id}) <==> DeleteAllows(h.shapes[id], k)
  {
    hide Delete, Inv, WellFormed, Survive, DeleteAllows;
    HeldOnce(h, owners, id);
    DeleteWellFormed(h.shapes[id].layout, k);
    DeleteSurvives(h.shapes[id], k);
    RelaidExact(h, DeleteIn(h, id, k), owners + multiset{id}, id, Delete(h.shapes[id].layout, k));
  }

  // ---------------------------------------------------------------- a second holder

  lemma {:induction false} FindAppended(edges: seq<Edge>, k: Key, a: nat, c: Id)
    requires FindChild(edges, k, a) == 0 && (forall e <- edges :: e.child != 0)
    ensures FindChild(edges + [Edge(k, a, c)], k, a) == c
  {
    if edges != [] {
      FindAppended(edges[1..], k, a, c);
      assert (edges + [Edge(k, a, c)])[1..] == edges[1..] + [Edge(k, a, c)];
    }
  }

  /** Any private shape with two holders shows it: one holder adds `y` and moves on, the other
      adds `z` in place, the shape is held twice again, and adding `y` now follows the old
      transition to a layout in which `z` is missing. */
  lemma SecondHolderLosesProperty(h: Heap, owners: multiset<Id>, id: Id, y: Key, z: Key, a: nat, b: nat)
    requires Sound(h, owners + multiset{id}) && id in h.shapes
    requires h.shapes[id].parent == 0 && h.shapes[id].refCount == 2
    requires FindChild(h.shapes[id].children, y, a) == 0 && y != z && z !in h.shapes[id].layout.index
    ensures var h1 := AddTr(h, id, y, a).0;
      id in h1.shapes &&
      var (h2, id2) := AddTr(h1, id, z, b);
      id2 == id && id in h2.shapes && z in h2.shapes[id].layout.index &&
      var (h4, id4) := AddTr(Retain(h2, id), id, y, a);
      id4 in h4.shapes && z !in h4.shapes[id4].layout.index
  {
    hide AddTr, Inv, AddKey;
    FirstHolderMoves(h, owners, id, y, a);
    FindAppended(h.shapes[id].children, y, a, h.next);
    StaleTransition(AddTr(h, id, y, a).0, id, h.next, y, z, a, b);
  }

  lemma StaleTransition(h: Heap, id: Id, c: Id, y: Key, z: Key, a: nat, b: nat)
    requires id in h.shapes && h.shapes[id].refCount == 1 && h.shapes[id].parent == 0
    requires FindChild(h.shapes[id].children, y, a) == c && c in h.shapes && c != id
    requires h.shapes[c].layout == AddKey(h.shapes[id].layout, y, a)
    requires y != z && z !in h.shapes[id].layout.index
    ensures var (r, id1) := AddTr(h, id, z, b);
      id1 == id && id in r.shapes && z in r.shapes[id].layout.index &&
      var (t, id2) := AddTr(Retain(r, id), id, y, a);
      id2 in t.shapes && z !in t.shapes[id2].layout.index
  {
    hide AddKeyIn, Follow, Extend, Branch, Release;
    AddKeyInFrame(h, id, z, b);
    var r := AddKeyIn(h, id, z, b);
    FollowStays(Retain(r, id), id, c);
  }

  lemma FirstHolderMoves(h: Heap, owners: multiset<Id>, id: Id, y: Key, a: nat)
    requires Sound(h, owners + multiset{id}) && id in h.shapes
    requires h.shapes[id].refCount == 2 && h.shapes[id].parent == 0
    requires FindChild(h.shapes[id].children, y, a) == 0
    ensures var h1 := AddTr(h, id, y, a).0;
      && id in h1.shapes && h1.shapes[id].refCount == 1 && h1.shapes[id].parent == 0
      && h1.shapes[id].layout == h.shapes[id].layout
      && h1.shapes[id].children == h.shapes[id].children + [Edge(y, a, h.next)]
      && h.next in h1.shapes && h1.shapes[h.next].layout == AddKey(h.shapes[id].layout, y, a) && h.next != id
      && forall e <- h.shapes[id].children :: e.child != 0
  {
    hide Extend, Branch, AddKey, WellFormed, RootsOk, LinkOk;
    var x := owners + multiset{id};
    assert ShapeOk(h, id, x, {});
    forall e <- h.shapes[id].children ensures e.child != 0 { assert EdgeOk(h, id, e, {}); }
    ExtendKeeps(h, x, id, y, a);
    var h1 := Extend(h, id, y, a);
    SoundIds(h, x);
    SoundIds(h1, x);
    BranchFrame(h1, id, h.next);
  }

  lemma FollowStays(h: Heap, id: Id, c: Id)
    requires id in h.shapes && c in h.shapes && h.shapes[id].refCount == 2 && id != c
    ensures c in Follow(h, id, c).shapes && Follow(h, id, c).shapes[c].layout == h.shapes[c].layout
  {
  }
}
