/** What each operation of a reference holder does to the heap, when the exact conditions for
    changing a shape in place are met. */
module ShapeChange {
  import opened ShapeLayout
  import opened ShapeHeap
  import opened ShapeTree
  import opened ShapeSteps
  import opened ShapeGc
  import opened ShapeSharing

  /** No shape of the tree, and no shared one, changes its layout; a shape that does change keeps
      its recorded transitions right. */
  ghost predicate TreeKept(h: Heap, r: Heap) {
    forall j {:trigger r.shapes[j]} {:trigger h.shapes[j]} :: j in h.shapes && j in r.shapes ==>
      || r.shapes[j].layout == h.shapes[j].layout
      || (!InTree(h.shapes[j]) && !IsRoot(h, j) && Survive(h.shapes[j], r.shapes[j].layout))
  }

  /** No shape with transitions changes its layout. */
  ghost predicate ParentsKept(h: Heap, r: Heap) {
    forall j {:trigger r.shapes[j]} {:trigger h.shapes[j]} ::
      j in h.shapes && j in r.shapes && h.shapes[j].children != [] ==> r.shapes[j].layout == h.shapes[j].layout
  }

  /** Where no shape outside the tree has transitions, parents keep their layout. */
  lemma PrivateParents(h: Heap, r: Heap)
    requires Private(h) && TreeKept(h, r)
    ensures ParentsKept(h, r)
  {
    hide Survive;
    forall j | j in h.shapes && j in r.shapes && h.shapes[j].children != []
      ensures r.shapes[j].layout == h.shapes[j].layout
    {
      assert h.shapes[j].parent != 0 || IsRoot(h, j);
    }
  }

  lemma OwnersThere(h: Heap, owners: multiset<Id>, id: Id)
    requires Sound(h, owners + multiset{id})
    ensures forall j <- owners | j != 0 :: j in h.shapes
  {
    forall j <- owners | j != 0 ensures j in h.shapes { assert j in owners + multiset{id}; }
  }

  // ---------------------------------------------------------------- in place

  /** Changing a shape that only the caller holds, with its transitions surviving. */
  lemma ChangeKeeps(h: Heap, owners: multiset<Id>, id: Id, r: Heap, l: Layout)
    requires Sound(h, owners + multiset{id}) && id in h.shapes && h.shapes[id].refCount == 1
    requires Relaid(h, r, id, l) && WellFormed(l) && Survive(h.shapes[id], l)
    ensures Moved(h, owners, id, r, id, l) && TreeKept(h, r)
  {
    hide Inv, WellFormed, Survive;
    HeldOnce(h, owners, id);
    RelaidExact(h, r, owners + multiset{id}, id, l);
    OwnersThere(h, owners, id);
  }

  /** In the tree, adding moves the caller and changes no layout. */
  lemma AddTrSame(h: Heap, owners: multiset<Id>, id: Id, k: Key, a: nat)
    requires Sound(h, owners + multiset{id}) && id in h.shapes && InTree(h.shapes[id])
    ensures SameLayouts(h, AddTr(h, id, k, a).0)
  {
    hide Inv, Extend, Branch, Follow, AddKey;
    var x := owners + multiset{id};
    KnownChild(h, x, id, k, a);
    var c := FindChild(h.shapes[id].children, k, a);
    if c != 0 {
      FollowKeeps(h, owners, id, c);
    } else {
      ExtendKeeps(h, x, id, k, a);
      BranchKeeps(Extend(h, id, k, a), owners, id, h.next);
      SoundIds(h, x);
    }
  }

  /** The shapes to which `k` may be added through the caller's reference. */
  ghost predicate AddClear(s: Shape, k: Key, a: nat) { InTree(s) || EdgesAllow(s, k, a) }

  lemma AddKeeps(h: Heap, owners: multiset<Id>, id: Id, k: Key, a: nat)
    requires Sound(h, owners + multiset{id}) && id in h.shapes && AddClear(h.shapes[id], k, a)
    ensures var (r, u) := AddTr(h, id, k, a);
      Moved(h, owners, id, r, u, AddKey(h.shapes[id].layout, k, a)) && TreeKept(h, r)
  {
    hide Inv, AddKey, AddKeyIn, Extend, Branch, Follow, Survive, EdgesAllow, WellFormed;
    if InTree(h.shapes[id]) {
      AddTrKeeps(h, owners, id, k, a);
      AddTrSame(h, owners, id, k, a);
    } else {
      assert h.shapes[id].refCount == 1 by {
        assert ShapeOk(h, id, owners + multiset{id}, {}) by { SoundShape(h, owners + multiset{id}, id); }
      }
      HeldOnce(h, owners, id);
      AddKeyInFrame(h, id, k, a);
      AddKeyWellFormed(h.shapes[id].layout, k, a);
      AddSurvives(h.shapes[id], k, a);
      ChangeKeeps(h, owners, id, AddKeyIn(h, id, k, a), AddKey(h.shapes[id].layout, k, a));
    }
  }

  lemma SoundShape(h: Heap, owners: multiset<Id>, id: Id)
    requires Sound(h, owners) && id in h.shapes
    ensures ShapeOk(h, id, owners, {})
  {
  }

  // ---------------------------------------------------------------- through a private copy

  /** `js_obj_ensure_unique_shape` leaves the caller alone on its shape, with the same layout. */
  lemma UniqueKeeps(h: Heap, owners: multiset<Id>, id: Id)
    requires Sound(h, owners + multiset{id}) && id in h.shapes
    ensures var (r, u) := Unique(h, id);
      && Moved(h, owners, id, r, u, h.shapes[id].layout) && SameLayouts(h, r) && r.shapes[u].refCount == 1
      && (h.shapes[id].refCount > 1 ==> u !in h.shapes && r.shapes[u].children == [])
  {
    var x := owners + multiset{id};
    assert ShapeOk(h, id, x, {});
    OwnersThere(h, owners, id);
    if h.shapes[id].refCount > 1 {
      CloneKeeps(h, x, id);
      var h1 := Clone(h, id);
      assert x + multiset{h.next} == owners + multiset{h.next} + multiset{id};
      InTreeRelease(h1, owners + multiset{h.next}, id);
    }
  }

  /** A change of layout after `js_obj_ensure_unique_shape`. */
  lemma UniqueThen(h: Heap, owners: multiset<Id>, id: Id, l: Layout, r: Heap)
    requires Sound(h, owners + multiset{id}) && id in h.shapes && WellFormed(l)
    requires h.shapes[id].refCount == 1 ==> Survive(h.shapes[id], l)
    requires var (m, u) := Unique(h, id); u in m.shapes && Relaid(m, r, u, l)
    ensures Moved(h, owners, id, r, Unique(h, id).1, l) && TreeKept(h, r)
  {
    hide Inv, WellFormed, AddKey, Unique;
    assert h.shapes[id].refCount > 0 by {
      assert ShapeOk(h, id, owners + multiset{id}, {}) by { SoundShape(h, owners + multiset{id}, id); }
    }
    UniqueKeeps(h, owners, id);
    var (m, u) := Unique(h, id);
    if h.shapes[id].refCount == 1 {
      assert (m, u) == (h, id) by { Alone(h, id); }
      ChangeKeeps(h, owners, id, r, l);
    } else {
      ChangeKeeps(m, owners, u, r, l);
    }
  }

  lemma Alone(h: Heap, id: Id)
    requires id in h.shapes && h.shapes[id].refCount == 1
    ensures Unique(h, id) == (h, id)
  {
  }

  ghost predicate AttrsClear(s: Shape, k: Key, a: nat) {
    s.refCount > 1 || k !in s.layout.index || EdgesAllow(s, k, a)
  }

  lemma AttrsKeep(h: Heap, owners: multiset<Id>, id: Id, k: Key, a: nat)
    requires Sound(h, owners + multiset{id}) && id in h.shapes && AttrsClear(h.shapes[id], k, a)
    requires k in h.shapes[id].layout.index
    ensures var (m, u) := Unique(h, id);
      && Moved(h, owners, id, SetAttrs(m, u, k, a), u, AddKey(h.shapes[id].layout, k, a))
      && TreeKept(h, SetAttrs(m, u, k, a))
  {
    hide Inv, WellFormed, AddKey, Unique, Survive, EdgesAllow;
    SoundShape(h, owners + multiset{id}, id);
    UniqueKeeps(h, owners, id);
    var (m, u) := Unique(h, id);
    AddKeyWellFormed(h.shapes[id].layout, k, a);
    AddSurvives(h.shapes[id], k, a);
    UniqueThen(h, owners, id, AddKey(h.shapes[id].layout, k, a), SetAttrs(m, u, k, a));
  }

  ghost predicate DeleteClear(s: Shape, k: Key) {
    s.refCount > 1 || k !in s.layout.index || DeleteAllows(s, k)
  }

  lemma DeleteKeeps(h: Heap, owners: multiset<Id>, id: Id, k: Key)
    requires Sound(h, owners + multiset{id}) && id in h.shapes && DeleteClear(h.shapes[id], k)
    requires k in h.shapes[id].layout.index
    ensures var (m, u) := Unique(h, id);
      Moved(h, owners, id, DeleteIn(m, u, k), u, Delete(h.shapes[id].layout, k)) && TreeKept(h, DeleteIn(m, u, k))
  {
    hide Inv, WellFormed, Delete, Unique, Survive, DeleteAllows;
    SoundShape(h, owners + multiset{id}, id);
    UniqueKeeps(h, owners, id);
    var (m, u) := Unique(h, id);
    DeleteWellFormed(h.shapes[id].layout, k);
    DeleteSurvives(h.shapes[id], k);
    UniqueThen(h, owners, id, Delete(h.shapes[id].layout, k), DeleteIn(m, u, k));
  }

  // ---------------------------------------------------------------- references come and go

  lemma NewKeeps(h: Heap, owners: multiset<Id>, limit: nat)
    requires Sound(h, owners)
    ensures var (r, id) := NewShape(h, limit);
      && Sound(r, owners + multiset{id}) && id in r.shapes && r.shapes[id].layout == EMPTY
      && SameLayouts(h, r) && (Private(h) ==> Private(r))
  {
    var l := if limit > INOBJ_MAX_SLOTS then INOBJ_MAX_SLOTS else limit;
    if l in h.roots {
      RetainKeeps(h, owners, h.roots[l]);
      assert IsRoot(h, h.roots[l]);
      assert forall j :: IsRoot(NewShape(h, limit).0, j) <==> IsRoot(h, j);
    } else {
      NewRootKeeps(h, owners, l);
      var h1 := AddRoot(h, l);
      RetainKeeps(h1, owners, h.next);
      assert h1.roots[l] == h.next;
      assert forall j :: IsRoot(Retain(h1, h.next), j) <==> IsRoot(h1, j);
    }
  }

  lemma NewRootKeeps(h: Heap, owners: multiset<Id>, l: nat)
    requires Sound(h, owners) && l !in h.roots && l <= INOBJ_MAX_SLOTS
    ensures Sound(AddRoot(h, l), owners) && h.next !in h.shapes && (Private(h) ==> Private(AddRoot(h, l)))
  {
    SoundIds(h, owners);
    var n, r := h.next, AddRoot(h, l);
    forall j ensures IsRoot(r, j) <==> IsRoot(h, j) || j == n { NewRootOnly(h, l, j); }
    forall j <- r.shapes ensures ShapeOk(r, j, owners, {}) {
      if j != n { OldShapeStays(h, owners, l, j); }
    }
  }

  lemma NewRootOnly(h: Heap, l: nat, j: Id)
    requires l !in h.roots
    ensures IsRoot(AddRoot(h, l), j) <==> IsRoot(h, j) || j == h.next
  {
    var r := AddRoot(h, l);
    if IsRoot(h, j) { var m :| m in h.roots && h.roots[m] == j; assert r.roots[m] == j; }
    if j == h.next { assert r.roots[l] == j; }
  }

  lemma OldShapeStays(h: Heap, owners: multiset<Id>, l: nat, j: Id)
    requires Sound(h, owners) && l !in h.roots && j in h.shapes && j < h.next
    ensures ShapeOk(AddRoot(h, l), j, owners, {})
  {
    var r := AddRoot(h, l);
    SoundIds(h, owners);
    NewRootOnly(h, l, j);
    assert ShapeOk(h, j, owners, {});
    forall e <- r.shapes[j].children ensures EdgeOk(r, j, e, {}) { assert EdgeOk(h, j, e, {}); }
  }

  lemma DropKeeps(h: Heap, owners: multiset<Id>, id: Id)
    requires Sound(h, owners + multiset{id}) && id in h.shapes
    ensures var r := Release(h, id); Sound(r, owners) && SameLayouts(h, r) && (Private(h) ==> Private(r))
  {
    ReleaseKeeps(h, id, owners, {});
    ReleaseFrame(h, id);
    assert ShapeOk(h, id, owners + multiset{id}, {});
    if h.shapes[id].refCount == 1 && h.shapes[id].children == [] { LeafRelease(h, id); }
    assert forall j :: IsRoot(Release(h, id), j) <==> IsRoot(h, j);
  }

  /** Taking another reference and giving up the old one. */
  lemma AdoptKeeps(h: Heap, owners: multiset<Id>, id: Id, other: Id)
    requires Sound(h, owners + multiset{id}) && id in h.shapes && other in h.shapes
    ensures var r := Release(Retain(h, other), id);
      Sound(r, owners + multiset{other}) && SameLayouts(h, r) && other in r.shapes
  {
    hide Inv, Release;
    var m := Retain(h, other);
    RetainKeeps(h, owners + multiset{id}, other);
    assert owners + multiset{id} + multiset{other} == owners + multiset{other} + multiset{id};
    DropKeeps(m, owners + multiset{other}, id);
    SoundIds(Release(m, id), owners + multiset{other});
    SoundIds(h, owners + multiset{id});
    assert other in owners + multiset{other};
  }
}
