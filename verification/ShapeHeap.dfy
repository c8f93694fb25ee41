/** The heap of hidden classes: reference-counted layouts linked by a transition tree, the
    root shapes, the inline-cache epoch and the collector that prunes dead tree leaves.
    A shape is named by an id that is never used again; 0 stands for the null pointer. */
module ShapeHeap {
  import opened ShapeLayout

  type Id = nat

  /** A recorded transition: adding `key` with `attrs` leads to `child`. */
  datatype Edge = Edge(key: Key, attrs: nat, child: Id)

  datatype Shape = Shape(
    refCount: nat, layout: Layout, inobjLimit: nat, gcMark: nat, guardEpoch: nat,
    children: seq<Edge>, parent: Id, parentKey: Key, parentAttrs: nat)

  datatype Heap = Heap(shapes: map<Id, Shape>, roots: map<nat, Id>, next: Id, bumps: nat, gcEpoch: nat)

  const INOBJ_MAX_SLOTS: nat := 4

  /** The 32-bit epoch counter after `bumps` bumps: it starts at 1 and skips 0. */
  function EpochAfter(bumps: nat): (e: nat)
    ensures 1 <= e <= 0xFFFF_FFFF
  {
    1 + bumps % 0xFFFF_FFFF
  }

  function Epoch(h: Heap): nat { EpochAfter(h.bumps) }

  function Bump(h: Heap): Heap { h.(bumps := h.bumps + 1) }

  function Set(h: Heap, id: Id, s: Shape): Heap {
    h.(shapes := h.shapes[id := s])
  }

  /** `shape_invalidate_guarded_absence` */
  function InvalidateAbsence(h: Heap, id: Id): Heap
    requires id in h.shapes
  {
    var s := h.shapes[id];
    if s.guardEpoch == 0 then h
    else
      var h1 := Set(h, id, s.(guardEpoch := 0));
      if s.guardEpoch == Epoch(h) then Bump(h1) else h1
  }

  /** `ant_shape_guard_absence` */
  function GuardAbsence(h: Heap, id: Id): Heap
    requires id in h.shapes
  {
    Set(h, id, h.shapes[id].(guardEpoch := Epoch(h)))
  }

  /** `shape_add_key` */
  function AddKeyIn(h: Heap, id: Id, k: Key, a: nat): Heap
    requires id in h.shapes
  {
    var s := h.shapes[id];
    var h1 := Set(h, id, s.(layout := AddKey(s.layout, k, a)));
    if k in s.layout.index then Bump(h1)
    else if k.Str? then InvalidateAbsence(h1, id)
    else h1
  }

  /** `ant_shape_clone`: a private copy with reference count 1. */
  function Clone(h: Heap, id: Id): Heap
    requires id in h.shapes
  {
    var s := h.shapes[id];
    Set(h, h.next, Shape(1, s.layout, s.inobjLimit, 0, 0, [], 0, Str(0), 0)).(next := h.next + 1)
  }

  function Retain(h: Heap, id: Id): Heap
    requires id in h.shapes
  {
    Set(h, id, h.shapes[id].(refCount := h.shapes[id].refCount + 1))
  }

  /** The child recorded for a transition, or 0. */
  function FindChild(edges: seq<Edge>, k: Key, a: nat): Id {
    if edges == [] then 0
    else if edges[0].key == k && edges[0].attrs == a then edges[0].child
    else FindChild(edges[1..], k, a)
  }

  function DropEdge(edges: seq<Edge>, k: Key, a: nat): seq<Edge> {
    if edges == [] then []
    else if edges[0].key == k && edges[0].attrs == a then edges[1..]
    else [edges[0]] + DropEdge(edges[1..], k, a)
  }

  /** `shape_record_child` */
  function RecordChild(h: Heap, p: Id, k: Key, a: nat, c: Id): Heap
    requires p in h.shapes && c in h.shapes
  {
    if FindChild(h.shapes[p].children, k, a) != 0 then h
    else
      var h1 := Retain(h, c);
      var h2 := Set(h1, p, h1.shapes[p].(children := h1.shapes[p].children + [Edge(k, a, c)]));
      Set(h2, c, h2.shapes[c].(parent := p, parentKey := k, parentAttrs := a))
  }

  predicate InTree(s: Shape) { s.refCount > 1 || s.parent != 0 }

  /** `ant_shape_release`: the last reference frees the shape and lets go of its children. */
  function Release(h: Heap, id: Id): (r: Heap)
    ensures r.shapes.Keys <= h.shapes.Keys
    decreases h.shapes.Keys, 0
  {
    if id !in h.shapes || h.shapes[id].refCount == 0 then h
    else
      var s := h.shapes[id];
      if s.refCount > 1 then Set(h, id, s.(refCount := s.refCount - 1))
      else
        var h1 := if s.parent in h.shapes then UnlinkFrom(h, s.parent, s.parentKey, s.parentAttrs) else h;
        var h2 := h1.(shapes := h1.shapes - {id});
        assert h2.shapes.Keys == h.shapes.Keys - {id};
        ReleaseAll(h2, s.children)
  }

  function ReleaseAll(h: Heap, edges: seq<Edge>): (r: Heap)
    ensures r.shapes.Keys <= h.shapes.Keys
    decreases h.shapes.Keys, |edges|
  {
    if edges == [] then h
    else
      var c := edges[0].child;
      var h1 := if c in h.shapes then Set(h, c, h.shapes[c].(parent := 0)) else h;
      assert h1.shapes.Keys == h.shapes.Keys;
      ReleaseAll(Release(h1, c), edges[1..])
  }

  function UnlinkFrom(h: Heap, p: Id, k: Key, a: nat): (r: Heap)
    requires p in h.shapes
    ensures r.shapes.Keys == h.shapes.Keys
  {
    Set(h, p, h.shapes[p].(children := DropEdge(h.shapes[p].children, k, a)))
  }

  /** Move the caller's reference from `id` to a child that is already recorded. */
  function Follow(h: Heap, id: Id, c: Id): Heap
    requires id in h.shapes && c in h.shapes
  {
    Release(Retain(InvalidateAbsence(h, id), c), id)
  }

  /** Make the child for a transition and record it; its id is `h.next`. */
  function Extend(h: Heap, id: Id, k: Key, a: nat): Heap
    requires id in h.shapes
  {
    var h1 := AddKeyIn(Clone(h, id), h.next, k, a);
    Release(RecordChild(h1, id, k, a, h.next), h.next)
  }

  /** Move the caller's reference from `id` to a private copy of `c`; its id is `h.next`. */
  function Branch(h: Heap, id: Id, c: Id): Heap
    requires id in h.shapes && c in h.shapes
  {
    Release(InvalidateAbsence(Clone(h, c), id), id)
  }

  /** `ant_shape_add_interned_tr` and `ant_shape_add_symbol_tr`: the new heap and the shape
      the caller's pointer is left at. */
  function AddTr(h: Heap, id: Id, k: Key, a: nat): (Heap, Id)
    requires id in h.shapes
  {
    var s := h.shapes[id];
    if !InTree(s) then (AddKeyIn(h, id, k, a), id)
    else
      var child := FindChild(s.children, k, a);
      if child in h.shapes && k in h.shapes[child].layout.index then
        (Follow(h, id, child), child)
      else
        var h1 := Extend(h, id, k, a);
        // the copy is always there: ShapeSteps.ExtendKeeps
        if h.next in h1.shapes && id in h1.shapes then (Branch(h1, id, h.next), h1.next) else (h1, id)
  }

  /** A root shape for a slot limit, held by the root table. */
  function AddRoot(h: Heap, limit: nat): Heap {
    Set(h, h.next, Shape(1, EMPTY, limit, 0, 0, [], 0, Str(0), 0))
      .(next := h.next + 1, roots := h.roots[limit := h.next])
  }

  /** `ant_shape_new_with_inobj_limit`: the shared root for a slot limit, made on first use. */
  function NewShape(h: Heap, limit: nat): (Heap, Id)
    requires forall l <- h.roots :: h.roots[l] in h.shapes
  {
    var clamped := if limit > INOBJ_MAX_SLOTS then INOBJ_MAX_SLOTS else limit;
    var h1 := if clamped in h.roots then h else AddRoot(h, clamped);
    (Retain(h1, h1.roots[clamped]), h1.roots[clamped])
  }

  /** `js_obj_ensure_unique_shape`: a private copy unless the caller holds the only reference. */
  function Unique(h: Heap, id: Id): (Heap, Id)
    requires id in h.shapes
  {
    if h.shapes[id].refCount > 1 then (Release(Clone(h, id), id), h.next) else (h, id)
  }

  /** `ant_shape_set_attrs_interned` and `ant_shape_set_attrs_symbol` */
  function SetAttrs(h: Heap, id: Id, k: Key, a: nat): Heap {
    if id in h.shapes && k in h.shapes[id].layout.index then
      var s := h.shapes[id];
      Bump(Set(h, id, s.(layout := AddKey(s.layout, k, a))))
    else h
  }

  /** `ant_shape_remove_slot` and, when due, `ant_shape_compact`. */
  function DeleteIn(h: Heap, id: Id, k: Key): Heap {
    if id in h.shapes && k in h.shapes[id].layout.index then
      var s := h.shapes[id];
      Bump(Set(h, id, s.(layout := Delete(s.layout, k))))
    else h
  }

  // ---------------------------------------------------------------- collector

  ghost function Unmarked(h: Heap): set<Id> {
    set id | id in h.shapes && h.shapes[id].gcMark != h.gcEpoch
  }

  function BeginGc(h: Heap): Heap {
    h.(gcEpoch := if (h.gcEpoch + 1) % 0x1_0000 == 0 then 1 else (h.gcEpoch + 1) % 0x1_0000)
  }

  /** `ant_gc_shapes_mark`: mark up the parent chain until a marked shape. */
  ghost function Mark(h: Heap, id: Id): (r: Heap)
    decreases Unmarked(h)
  {
    if id !in h.shapes || h.shapes[id].gcMark == h.gcEpoch then h
    else
      var h1 := Set(h, id, h.shapes[id].(gcMark := h.gcEpoch));
      assert Unmarked(h1) == Unmarked(h) - {id};
      Mark(h1, h.shapes[id].parent)
  }

  ghost function MarkAll(h: Heap, ids: seq<Id>): Heap
    decreases |ids|
  {
    if ids == [] then h else MarkAll(Mark(h, ids[0]), ids[1..])
  }

  /** Shapes that survive keep their contents. */
  ghost predicate Keeps(h: Heap, r: Heap) {
    && r.next == h.next && r.roots == h.roots && r.bumps == h.bumps && r.gcEpoch == h.gcEpoch
    && forall id <- r.shapes ::
      && id in h.shapes
      && r.shapes[id].layout == h.shapes[id].layout
      && r.shapes[id].inobjLimit == h.shapes[id].inobjLimit
      && r.shapes[id].gcMark == h.shapes[id].gcMark
      && r.shapes[id].guardEpoch == h.shapes[id].guardEpoch
  }

  /** Releasing a shape changes no surviving shape's layout. */
  lemma {:induction false} ReleaseFrame(h: Heap, id: Id)
    ensures Keeps(h, Release(h, id))
    decreases h.shapes.Keys, 0
  {
    if id in h.shapes && h.shapes[id].refCount == 1 {
      var s := h.shapes[id];
      var h1 := if s.parent in h.shapes then UnlinkFrom(h, s.parent, s.parentKey, s.parentAttrs) else h;
      var h2 := h1.(shapes := h1.shapes - {id});
      assert h2.shapes.Keys == h.shapes.Keys - {id};
      ReleaseAllFrame(h2, s.children);
    }
  }

  lemma {:induction false} ReleaseAllFrame(h: Heap, edges: seq<Edge>)
    ensures Keeps(h, ReleaseAll(h, edges))
    decreases h.shapes.Keys, |edges|
  {
    if edges != [] {
      var c := edges[0].child;
      var h1 := if c in h.shapes then Set(h, c, h.shapes[c].(parent := 0)) else h;
      assert h1.shapes.Keys == h.shapes.Keys;
      ReleaseFrame(h1, c);
      ReleaseAllFrame(Release(h1, c), edges[1..]);
    }
  }

  /** Take a child out of the tree and give up the tree's reference to it. */
  function PruneLeaf(h: Heap, id: Id, e: Edge): Heap
    requires id in h.shapes && e.child in h.shapes
  {
    Release(Detach(h, id, e), e.child)
  }

  function Detach(h: Heap, id: Id, e: Edge): Heap
    requires id in h.shapes && e.child in h.shapes
  {
    UnlinkFrom(Set(h, e.child, h.shapes[e.child].(parent := 0)), id, e.key, e.attrs)
  }

  /** `shape_prune_dead_children`: the children first, then every unmarked child that is left
      without children. Ids grow along every edge, which is what makes the recursion end. */
  function Prune(h: Heap, id: Id): (r: (Heap, bool))
    ensures r.0.next == h.next
    decreases h.next - id, |(if id in h.shapes then h.shapes[id].children else [])| + 1
  {
    if id in h.shapes && id < h.next then PruneEdges(h, id, h.shapes[id].children) else (h, false)
  }

  function PruneEdges(h: Heap, id: Id, edges: seq<Edge>): (r: (Heap, bool))
    requires id < h.next
    ensures r.0.next == h.next
    decreases h.next - id, |edges|
  {
    if edges == [] then (h, false)
    else
      var e := edges[0];
      var (h1, f1) := if id < e.child then Prune(h, e.child) else (h, false);
      if e.child in h1.shapes && id in h1.shapes
         && h1.shapes[e.child].gcMark != h1.gcEpoch && h1.shapes[e.child].children == [] then
        ReleaseFrame(Detach(h1, id, e), e.child);
        (PruneEdges(PruneLeaf(h1, id, e), id, edges[1..]).0, true)
      else
        var (h3, f3) := PruneEdges(h1, id, edges[1..]);
        (h3, f1 || f3)
  }

  /** `ant_gc_shapes_sweep` from root slot `i` on. */
  function Sweep(h: Heap, i: nat): (Heap, bool)
    decreases INOBJ_MAX_SLOTS + 1 - i
  {
    if i > INOBJ_MAX_SLOTS then (h, false)
    else
      var (h1, f1) := if i in h.roots then Prune(h, h.roots[i]) else (h, false);
      var (h2, f2) := Sweep(h1, i + 1);
      (h2, f1 || f2)
  }

  /** A collection as the runtime drives it: mark every held shape, sweep, and move the
      inline-cache epoch if anything was freed. */
  ghost function Collect(h: Heap, held: seq<Id>): Heap {
    var (h1, freed) := Sweep(MarkAll(BeginGc(h), held), 0);
    if freed then Bump(h1) else h1
  }
}
