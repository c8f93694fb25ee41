/** Each operation on the shape heap keeps the tree sound, gives the calling object the layout
    it asked for and leaves the layouts of all other owners alone. */
module ShapeSteps {
  import opened ShapeLayout
  import opened ShapeHeap
  import opened ShapeTree

  /** Shapes present before and after keep their layout. */
  ghost predicate SameLayouts(h: Heap, r: Heap) {
    forall j {:trigger r.shapes[j]} {:trigger h.shapes[j]} ::
      j in h.shapes && j in r.shapes ==> r.shapes[j].layout == h.shapes[j].layout
  }

  /** Shapes outside the tree are held by one owner and have no transitions. */
  ghost predicate Private(h: Heap) {
    forall j <- h.shapes | h.shapes[j].parent == 0 && !IsRoot(h, j) ::
      h.shapes[j].children == [] && h.shapes[j].refCount == 1
  }

  lemma InvalidateKeeps(h: Heap, owners: multiset<Id>, id: Id)
    requires Sound(h, owners) && id in h.shapes
    ensures var r := InvalidateAbsence(h, id);
      && Sound(r, owners) && SameTree(h, r)
      && forall j <- h.shapes :: r.shapes[j].refCount == h.shapes[j].refCount
  {
    MarksKeep(h, InvalidateAbsence(h, id), owners);
  }

  lemma AddKeyInKeeps(h: Heap, owners: multiset<Id>, id: Id, k: Key, a: nat)
    requires Sound(h, owners) && id in h.shapes
    requires h.shapes[id].parent == 0 && h.shapes[id].children == [] && !IsRoot(h, id)
    ensures var r := AddKeyIn(h, id, k, a);
      && Sound(r, owners) && r.shapes.Keys == h.shapes.Keys && r.roots == h.roots && r.next == h.next
      && r.shapes[id].layout == AddKey(h.shapes[id].layout, k, a)
      && r.shapes[id].refCount == h.shapes[id].refCount
      && r.shapes[id].parent == 0 && r.shapes[id].children == []
      && forall j <- h.shapes | j != id :: r.shapes[j] == h.shapes[j]
  {
    var l := AddKey(h.shapes[id].layout, k, a);
    assert ShapeOk(h, id, owners, {});
    AddKeyWellFormed(h.shapes[id].layout, k, a);
    RelayoutKeeps(h, owners, id, l);
    var h1 := Set(h, id, h.shapes[id].(layout := l));
    if k in h.shapes[id].layout.index {
      MarksKeep(h1, Bump(h1), owners);
    } else if k.Str? {
      InvalidateKeeps(h1, owners, id);
    }
  }

  lemma CloneKeeps(h: Heap, owners: multiset<Id>, id: Id)
    requires Sound(h, owners) && id in h.shapes
    ensures var r := Clone(h, id);
      && Sound(r, owners + multiset{h.next}) && h.next !in h.shapes
      && !IsRoot(r, h.next) && r.roots == h.roots
  {
    SoundIds(h, owners);
    assert ShapeOk(h, id, owners, {});
    var s := h.shapes[id];
    FreshKeeps(h, owners, Shape(1, s.layout, s.inobjLimit, 0, 0, [], 0, Str(0), 0));
  }

  /** A shape in the tree outlives the release of one reference. */
  lemma InTreeRelease(h: Heap, owners: multiset<Id>, id: Id)
    requires Sound(h, owners + multiset{id}) && id in h.shapes && InTree(h.shapes[id])
    ensures h.shapes[id].refCount > 1
    ensures Release(h, id) == Set(h, id, h.shapes[id].(refCount := h.shapes[id].refCount - 1))
    ensures Sound(Release(h, id), owners)
  {
    assert ShapeOk(h, id, owners + multiset{id}, {});
    DecrementKeeps(h, id, owners, {});
  }

  lemma KnownChild(h: Heap, owners: multiset<Id>, id: Id, k: Key, a: nat)
    requires Sound(h, owners) && id in h.shapes
    ensures var c := FindChild(h.shapes[id].children, k, a);
      c != 0 ==>
        && c in h.shapes && id < c && h.shapes[c].parent == id
        && h.shapes[c].layout == AddKey(h.shapes[id].layout, k, a)
        && k in h.shapes[c].layout.index
  {
    assert ShapeOk(h, id, owners, {});
    var es := h.shapes[id].children;
    forall e <- es ensures e.child != 0 { assert EdgeOk(h, id, e, {}); }
    FindChildOk(es, k, a);
    var c := FindChild(es, k, a);
    if c != 0 { assert EdgeOk(h, id, Edge(k, a, c), {}); }
  }

  /** What a step of the object holding `id` owes everyone. */
  ghost predicate Moved(h: Heap, owners: multiset<Id>, id: Id, r: Heap, id': Id, l: Layout)
    requires id in h.shapes
  {
    && Sound(r, owners + multiset{id'})
    && id' in r.shapes && r.shapes[id'].layout == l
    && forall j <- owners | j != 0 :: j in h.shapes && r.shapes[j].layout == h.shapes[j].layout
  }

  /** Taking a transition that is already recorded. */
  lemma FollowKeeps(h: Heap, owners: multiset<Id>, id: Id, c: Id)
    requires Sound(h, owners + multiset{id}) && id in h.shapes && InTree(h.shapes[id])
    requires c in h.shapes && id < c
    ensures var r := Follow(h, id, c);
      && Sound(r, owners + multiset{c}) && SameTree(h, r)
      && forall j <- h.shapes | j != id && j != c :: r.shapes[j].refCount == h.shapes[j].refCount
  {
    var x := owners + multiset{id};
    var h1 := InvalidateAbsence(h, id);
    InvalidateKeeps(h, x, id);
    RetainKeeps(h1, x, c);
    assert x + multiset{c} == owners + multiset{c} + multiset{id};
    InTreeRelease(Retain(h1, c), owners + multiset{c}, id);
  }

  lemma FollowPrivate(h: Heap, owners: multiset<Id>, id: Id, c: Id)
    requires Sound(h, owners + multiset{id}) && id in h.shapes && InTree(h.shapes[id])
    requires c in h.shapes && id < c && h.shapes[c].parent != 0 && Private(h)
    ensures Private(Follow(h, id, c))
  {
    FollowKeeps(h, owners, id, c);
    var r := Follow(h, id, c);
    assert h.shapes[id].parent != 0 || IsRoot(h, id);
    assert forall j :: IsRoot(r, j) <==> IsRoot(h, j);
  }

  lemma ExtendKeeps(h: Heap, owners: multiset<Id>, id: Id, k: Key, a: nat)
    requires Sound(h, owners) && id in h.shapes && FindChild(h.shapes[id].children, k, a) == 0
    ensures var r := Extend(h, id, k, a);
      && Sound(r, owners)
      && r.shapes.Keys == h.shapes.Keys + {h.next} && r.next == h.next + 1 && r.roots == h.roots
      && r.shapes[h.next].layout == AddKey(h.shapes[id].layout, k, a)
      && r.shapes[h.next].parent == id
      && r.shapes[id] == h.shapes[id].(children := h.shapes[id].children + [Edge(k, a, h.next)])
      && forall j <- h.shapes | j != id :: r.shapes[j] == h.shapes[j]
  {
    var c := h.next;
    CloneKeeps(h, owners, id);
    var h0 := Clone(h, id);
    AddKeyInKeeps(h0, owners + multiset{c}, c, k, a);
    var h1 := AddKeyIn(h0, c, k, a);
    SoundIds(h, owners);
    RecordKeeps(h1, owners + multiset{c}, id, k, a, c);
    InTreeRelease(RecordChild(h1, id, k, a, c), owners, c);
  }

  lemma ExtendPrivate(h: Heap, owners: multiset<Id>, id: Id, k: Key, a: nat)
    requires Sound(h, owners) && id in h.shapes && FindChild(h.shapes[id].children, k, a) == 0
    requires Private(h) && InTree(h.shapes[id])
    ensures Private(Extend(h, id, k, a))
  {
    ExtendKeeps(h, owners, id, k, a);
    assert ShapeOk(h, id, owners, {});
    assert h.shapes[id].parent != 0 || IsRoot(h, id);
    assert forall j :: IsRoot(Extend(h, id, k, a), j) <==> IsRoot(h, j);
  }

  lemma BranchSound(h: Heap, owners: multiset<Id>, id: Id, c: Id)
    requires Sound(h, owners + multiset{id}) && id in h.shapes && InTree(h.shapes[id]) && c in h.shapes
    ensures Sound(Branch(h, id, c), owners + multiset{h.next})
    ensures id != h.next && h.shapes[id].refCount > 1
  {
    var x := owners + multiset{id};
    CloneKeeps(h, x, c);
    var h1 := Clone(h, c);
    InvalidateKeeps(h1, x + multiset{h.next}, id);
    assert x + multiset{h.next} == owners + multiset{h.next} + multiset{id};
    InTreeRelease(InvalidateAbsence(h1, id), owners + multiset{h.next}, id);
  }

  lemma BranchFrame(h: Heap, id: Id, c: Id)
    requires id in h.shapes && c in h.shapes && h.shapes[id].refCount > 1 && h.next !in h.shapes
    ensures var r := Branch(h, id, c);
      && r.shapes.Keys == h.shapes.Keys + {h.next} && r.roots == h.roots
      && r.shapes[h.next] == Clone(h, c).shapes[h.next]
      && r.shapes[id] == h.shapes[id].(refCount := h.shapes[id].refCount - 1, guardEpoch := 0)
      && forall j <- h.shapes | j != id :: r.shapes[j] == h.shapes[j]
  {
    var h1 := Clone(h, c);
    assert h1.shapes[id] == h.shapes[id];
    var h2 := InvalidateAbsence(h1, id);
    assert h2.shapes == h1.shapes[id := h1.shapes[id].(guardEpoch := 0)];
  }

  lemma BranchKeeps(h: Heap, owners: multiset<Id>, id: Id, c: Id)
    requires Sound(h, owners + multiset{id}) && id in h.shapes && InTree(h.shapes[id]) && c in h.shapes
    ensures var r := Branch(h, id, c);
      && Sound(r, owners + multiset{h.next})
      && r.shapes.Keys == h.shapes.Keys + {h.next} && r.roots == h.roots && SameLayouts(h, r)
      && r.shapes[h.next] == Clone(h, c).shapes[h.next]
      && (forall j <- h.shapes ::
            r.shapes[j].parent == h.shapes[j].parent && r.shapes[j].children == h.shapes[j].children)
      && (forall j <- h.shapes | j != id :: r.shapes[j].refCount == h.shapes[j].refCount)
  {
    hide Inv, Branch, Clone;
    BranchSound(h, owners, id, c);
    SoundIds(h, owners + multiset{id});
    BranchFrame(h, id, c);
  }

  lemma BranchPrivate(h: Heap, owners: multiset<Id>, id: Id, c: Id)
    requires Sound(h, owners + multiset{id}) && id in h.shapes && InTree(h.shapes[id]) && c in h.shapes
    requires Private(h)
    ensures Private(Branch(h, id, c))
  {
    BranchKeeps(h, owners, id, c);
    SoundIds(h, owners + multiset{id});
    assert h.shapes[id].parent != 0 || IsRoot(h, id);
    assert forall j :: IsRoot(Branch(h, id, c), j) <==> IsRoot(h, j);
  }

  /** Adding in place is allowed when nobody else can see the shape change: it is in the tree,
      where adding means moving, or no transition depends on it. */
  predicate MayAdd(s: Shape) { InTree(s) || s.children == [] }

  /** `ant_shape_add_*_tr`: the object ends at its old layout plus the property, every other
      owner's layout is untouched and the tree stays sound. */
  lemma AddTrKeeps(h: Heap, owners: multiset<Id>, id: Id, k: Key, a: nat)
    requires Sound(h, owners + multiset{id}) && id in h.shapes && MayAdd(h.shapes[id])
    ensures var (r, id') := AddTr(h, id, k, a);
      Moved(h, owners, id, r, id', AddKey(h.shapes[id].layout, k, a))
  {
    hide WellFormed, AddKey, Extend, Branch, Follow, AddKeyIn, EdgesOk, LinkOk, RootsOk;
    var x := owners + multiset{id};
    assert ShapeOk(h, id, x, {});
    if !InTree(h.shapes[id]) {
      assert x[id] == 1;
      AddKeyInKeeps(h, x, id, k, a);
    } else {
      KnownChild(h, x, id, k, a);
      var c := FindChild(h.shapes[id].children, k, a);
      if c != 0 {
        FollowKeeps(h, owners, id, c);
      } else {
        ExtendKeeps(h, x, id, k, a);
        BranchKeeps(Extend(h, id, k, a), owners, id, h.next);
      }
    }
    forall j <- owners | j != 0 ensures j in h.shapes { assert j in x; }
  }

  lemma AddTrPrivate(h: Heap, owners: multiset<Id>, id: Id, k: Key, a: nat)
    requires Sound(h, owners + multiset{id}) && id in h.shapes && Private(h)
    ensures MayAdd(h.shapes[id])
    ensures Private(AddTr(h, id, k, a).0)
  {
    var x := owners + multiset{id};
    assert ShapeOk(h, id, x, {});
    if !InTree(h.shapes[id]) {
      AddKeyInKeeps(h, x, id, k, a);
      assert forall j :: IsRoot(AddKeyIn(h, id, k, a), j) <==> IsRoot(h, j);
    } else {
      KnownChild(h, x, id, k, a);
      var c := FindChild(h.shapes[id].children, k, a);
      if c != 0 {
        FollowPrivate(h, owners, id, c);
      } else {
        ExtendKeeps(h, x, id, k, a);
        ExtendPrivate(h, x, id, k, a);
        BranchPrivate(Extend(h, id, k, a), owners, id, h.next);
      }
    }
  }
}
