/** The shape table as the runtime updates it: in place, step by step. Each method is proved
    against the function that says what it does to the whole heap. */
module ShapeStore {
  import opened Common
  import opened ShapeLayout
  import H = ShapeHeap

  /** One shape's slot array, key index and tombstone count. */
  class Table {
    var props: seq<Slot>
    var index: map<Key, nat>
    var deleted: nat

    function View(): Layout
      reads this
    {
      Layout(props, index, deleted)
    }

    constructor ()
      ensures View() == EMPTY && WellFormed(View())
    {
      props, index, deleted := [], map[], 0;
    }

    method Add(k: Key, a: nat) returns (slot: nat)
      requires WellFormed(View())
      modifies this
      ensures View() == AddKey(old(View()), k, a) && WellFormed(View())
      ensures slot < |props| && props[slot] == Live(k, a) && index[k] == slot
    {
      AddKeyWellFormed(View(), k, a);
      if k in index {
        slot := index[k];
        props := props[slot := Live(k, a)];
      } else {
        slot := |props|;
        props, index := props + [Live(k, a)], index[k := slot];
      }
    }

    method Remove(slot: nat) returns (removed: bool)
      requires WellFormed(View())
      modifies this
      ensures View() == RemoveSlot(old(View()), slot) && WellFormed(View())
      ensures removed <==> slot < |old(props)| && old(props)[slot].Live?
    {
      RemoveSlotWellFormed(View(), slot);
      if slot >= |props| || props[slot].Deleted? { return false; }
      TombstoneUpdate(props, slot, Deleted);
      index := index - {props[slot].key};
      props := props[slot := Deleted];
      deleted := deleted + 1;
      while |props| > 0 && props[|props| - 1].Deleted?
        invariant Trim(props) == Trim(old(props)[slot := Deleted])
        invariant deleted == Tombstones(props)
        invariant |props| + old(deleted) + 1 == |old(props)| + deleted
        invariant index == old(index) - {old(props)[slot].key}
        decreases |props|
      {
        props, deleted := props[..|props| - 1], deleted - 1;
      }
      return true;
    }

    method RebuildIndex()
      modifies this`index
      ensures index == IndexOf(props)
    {
      index := map[];
      for i := 0 to |props|
        invariant index == IndexOf(props[..i])
      {
        assert props[..i + 1][..i] == props[..i];
        if props[i].Live? { index := index[props[i].key := i]; }
      }
      assert props[..|props|] == props;
    }

    /** The live slots slide down over the tombstones; the index follows each of them. */
    method Squeeze() returns (count: nat)
      requires WellFormed(View())
      modifies this
      ensures View() == Compact(old(View())) && WellFormed(View()) && count == |props|
    {
      hide Slid, IndexOf;
      CompactWellFormed(View());
      CompactKeepsOrder(View());
      if deleted == 0 { return |props|; }
      var dst: nat, n := 0, |props|;
      SlidStart(props, index);
      for src := 0 to n
        invariant dst <= src && |props| == |old(props)| == n
        invariant Slid(props, index, old(props), old(index), src, dst)
      {
        dst := Slide(src, dst, old(props), old(index));
      }
      SlidEnd(props, index, old(props), old(index), dst);
      props := props[..dst];
      deleted := 0;
      return dst;
    }

    /** One step of `Squeeze`. */
    method Slide(src: nat, dst: nat, ghost was: seq<Slot>, ghost at: map<Key, nat>) returns (next: nat)
      requires dst <= src < |props| == |was| && Indexed(was, at) && Slid(props, index, was, at, src, dst)
      modifies this`props, this`index
      ensures next <= src + 1 && |props| == |was| && Slid(props, index, was, at, src + 1, next)
    {
      hide Slid, Indexed;
      SlidHere(props, index, was, at, src, dst);
      next := dst;
      if props[src].Live? {
        SlideLive(props, index, was, at, src, dst);
        var k := props[src].key;
        if k in index { index := index[k := dst]; }
        props := props[dst := props[src]];
        next := dst + 1;
      } else {
        SlideDead(props, index, was, at, src, dst);
      }
    }
  }

  /** The slots before `src` have slid down to before `dst`, the others wait, and the index has
      followed. */
  ghost predicate Slid(props: seq<Slot>, index: map<Key, nat>, was: seq<Slot>, at: map<Key, nat>, src: nat, dst: nat) {
    && dst <= src <= |props| == |was| && index.Keys == at.Keys
    && props[..dst] == LiveProps(was[..src]) && props[src..] == was[src..]
    && (forall k <- index | at[k] < src :: index[k] < dst && props[index[k]].Live? && props[index[k]].key == k)
    && (forall k <- index | at[k] >= src :: index[k] == at[k])
  }

  lemma SlidStart(props: seq<Slot>, index: map<Key, nat>)
    ensures Slid(props, index, props, index, 0, 0)
  {
  }

  lemma SlidHere(props: seq<Slot>, index: map<Key, nat>, was: seq<Slot>, at: map<Key, nat>, src: nat, dst: nat)
    requires Slid(props, index, was, at, src, dst) && src < |props|
    ensures props[src] == was[src]
  {
    assert props[src] == props[src..][0] == was[src..][0];
  }

  lemma SlideLive(props: seq<Slot>, index: map<Key, nat>, was: seq<Slot>, at: map<Key, nat>, src: nat, dst: nat)
    requires Indexed(was, at) && Slid(props, index, was, at, src, dst) && src < |was| && was[src].Live?
    ensures var k := was[src].key;
      k in index && Slid(props[dst := was[src]], index[k := dst], was, at, src + 1, dst + 1)
  {
    hide LiveProps;
    var k, p := was[src].key, props[dst := was[src]];
    LiveMoves(props, was, src, dst);
    assert k in at && at[k] == src;
    var m := index[k := dst];
    forall x <- m | at[x] < src + 1 ensures m[x] < dst + 1 && p[m[x]].Live? && p[m[x]].key == x {
      if x != k { OtherKey(was, at, x, src); }
    }
  }

  lemma OtherKey(was: seq<Slot>, at: map<Key, nat>, x: Key, src: nat)
    requires Indexed(was, at) && x in at && src < |was| && was[src].Live? && x != was[src].key
    ensures at[x] != src
  {
  }

  lemma LiveMoves(props: seq<Slot>, was: seq<Slot>, src: nat, dst: nat)
    requires dst <= src < |props| == |was| && props[..dst] == LiveProps(was[..src]) && props[src..] == was[src..]
    requires was[src].Live?
    ensures var p := props[dst := was[src]];
      p[..dst + 1] == LiveProps(was[..src + 1]) && p[src + 1..] == was[src + 1..]
  {
    var p := props[dst := was[src]];
    assert was[..src + 1] == was[..src] + [was[src]];
    LiveAppend(was[..src], was[src]);
    assert p[..dst + 1] == props[..dst] + [was[src]];
    assert p[src + 1..] == props[src..][1..];
    assert was[src + 1..] == was[src..][1..];
  }

  lemma SlideDead(props: seq<Slot>, index: map<Key, nat>, was: seq<Slot>, at: map<Key, nat>, src: nat, dst: nat)
    requires Indexed(was, at) && Slid(props, index, was, at, src, dst) && src < |was| && was[src].Deleted?
    ensures Slid(props, index, was, at, src + 1, dst)
  {
    assert was[..src + 1] == was[..src] + [was[src]];
    LiveAppend(was[..src], was[src]);
    assert props[src + 1..] == props[src..][1..];
    assert was[src + 1..] == was[src..][1..];
  }

  lemma SlidEnd(props: seq<Slot>, index: map<Key, nat>, was: seq<Slot>, at: map<Key, nat>, dst: nat)
    requires Indexed(was, at) && Slid(props, index, was, at, |was|, dst)
    requires Indexed(LiveProps(was), IndexOf(LiveProps(was))) && IndexOf(LiveProps(was)).Keys == at.Keys
    ensures props[..dst] == LiveProps(was) && index == IndexOf(LiveProps(was))
  {
    hide IndexOf;
    assert was[..|was|] == was;
    assert props[..dst] == LiveProps(was);
    IndexPositions(LiveProps(was), index, IndexOf(LiveProps(was)));
  }

  /** All shapes, the root table and the epoch counters. */
  class Store {
    var heap: H.Heap

    constructor ()
      ensures heap == H.Heap(map[], map[], 1, 0, 0)
    {
      heap := H.Heap(map[], map[], 1, 0, 0);
    }

    method Put(id: H.Id, s: H.Shape)
      modifies this
      ensures heap == H.Set(old(heap), id, s)
    {
      heap := H.Set(heap, id, s);
    }

    method Release(id: H.Id)
      modifies this
      ensures heap == H.Release(old(heap), id)
      decreases |heap.shapes|, 0
    {
      if id !in heap.shapes || heap.shapes[id].refCount == 0 { return; }
      var s := heap.shapes[id];
      if s.refCount > 1 {
        Put(id, s.(refCount := s.refCount - 1));
        return;
      }
      if s.parent in heap.shapes {
        heap := H.UnlinkFrom(heap, s.parent, s.parentKey, s.parentAttrs);
      }
      heap := heap.(shapes := heap.shapes - {id});
      assert heap.shapes.Keys == old(heap.shapes.Keys) - {id};
      ReleaseChildren(s.children);
    }

    method ReleaseChildren(edges: seq<H.Edge>)
      modifies this
      ensures heap == H.ReleaseAll(old(heap), edges)
      decreases |heap.shapes|, 1
    {
      ghost var h := heap;
      for i := 0 to |edges|
        invariant heap.shapes.Keys <= h.shapes.Keys && |heap.shapes.Keys| <= |h.shapes.Keys|
        invariant H.ReleaseAll(heap, edges[i..]) == H.ReleaseAll(h, edges)
      {
        var c := edges[i].child;
        assert edges[i..][1..] == edges[i + 1..];
        ghost var m := heap;
        if c in heap.shapes { Put(c, heap.shapes[c].(parent := 0)); }
        assert heap.shapes.Keys == m.shapes.Keys;
        Release(c);
        SubsetSize(heap.shapes.Keys, m.shapes.Keys);
      }
    }

    /** Marks up the parent chain until it meets a marked shape. */
    method Mark(id: H.Id)
      modifies this
      ensures heap == H.Mark(old(heap), id)
    {
      var cur := id;
      while cur in heap.shapes && heap.shapes[cur].gcMark != heap.gcEpoch
        invariant H.Mark(heap, cur) == H.Mark(old(heap), id)
        decreases H.Unmarked(heap)
      {
        ghost var h := heap;
        var up := heap.shapes[cur].parent;
        Put(cur, heap.shapes[cur].(gcMark := heap.gcEpoch));
        assert H.Unmarked(heap) == H.Unmarked(h) - {cur};
        cur := up;
      }
    }

    method Prune(id: H.Id) returns (freed: bool)
      modifies this
      ensures (heap, freed) == H.Prune(old(heap), id)
      decreases heap.next - id
    {
      freed := false;
      if id !in heap.shapes || id >= heap.next { return; }
      ghost var h := heap;
      var edges := heap.shapes[id].children;
      for i := 0 to |edges|
        invariant heap.next == h.next
        invariant H.PruneEdges(h, id, edges).0 == H.PruneEdges(heap, id, edges[i..]).0
        invariant H.PruneEdges(h, id, edges).1 == (freed || H.PruneEdges(heap, id, edges[i..]).1)
      {
        var e := edges[i];
        assert edges[i..][1..] == edges[i + 1..];
        var below := false;
        if id < e.child { below := Prune(e.child); }
        if e.child in heap.shapes && id in heap.shapes
          && heap.shapes[e.child].gcMark != heap.gcEpoch && heap.shapes[e.child].children == []
        {
          H.ReleaseFrame(H.Detach(heap, id, e), e.child);
          heap := H.Detach(heap, id, e);
          Release(e.child);
          below := true;
        }
        freed := freed || below;
      }
    }

    method Sweep() returns (freed: bool)
      modifies this
      ensures (heap, freed) == H.Sweep(old(heap), 0)
    {
      freed := false;
      for i := 0 to H.INOBJ_MAX_SLOTS + 1
        invariant H.Sweep(old(heap), 0).0 == H.Sweep(heap, i).0
        invariant H.Sweep(old(heap), 0).1 == (freed || H.Sweep(heap, i).1)
      {
        if i in heap.roots {
          var f := Prune(heap.roots[i]);
          freed := freed || f;
        }
      }
    }

    /** `ant_shape_add_interned_tr` and `ant_shape_add_symbol_tr`. */
    method Add(id: H.Id, k: Key, a: nat) returns (at: H.Id)
      requires id in heap.shapes && heap.next !in heap.shapes
      modifies this
      ensures (heap, at) == H.AddTr(old(heap), id, k, a)
    {
      if !H.InTree(heap.shapes[id]) {
        heap := H.AddKeyIn(heap, id, k, a);
        return id;
      }
      var child := H.FindChild(heap.shapes[id].children, k, a);
      if child in heap.shapes && k in heap.shapes[child].layout.index {
        heap := H.InvalidateAbsence(heap, id);
        heap := H.Retain(heap, child);
        Release(id);
        return child;
      }
      var shared := heap.next;
      heap := H.Clone(heap, id);
      heap := H.AddKeyIn(heap, shared, k, a);
      heap := H.RecordChild(heap, id, k, a, shared);
      Release(shared);
      if shared !in heap.shapes || id !in heap.shapes { return id; }
      at := heap.next;
      heap := H.Clone(heap, shared);
      heap := H.InvalidateAbsence(heap, id);
      Release(id);
    }
  }
}
