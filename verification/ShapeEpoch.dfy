/** Inline caches: a lookup remembered with the epoch at which it was made stays right for as
    long as the epoch counter shows the same number. */
module ShapeEpoch {
  import opened ShapeLayout
  import opened ShapeHeap

  datatype HeapOp =
    | AddInPlace(id: Id, key: Key, attrs: nat)
    | AddMoving(id: Id, key: Key, attrs: nat)
    | ChangeAttrs(id: Id, key: Key, attrs: nat)
    | RemoveKey(id: Id, key: Key)
    | Guard(id: Id)
    | Copy(id: Id)
    | Hold(id: Id)
    | LetGo(id: Id)
    | MakeRoot(limit: nat)
    | CollectGarbage(held: seq<Id>)

  /** What a lookup finds: the slot and its attributes, or nothing. */
  datatype Answer = Absent | Found(slot: nat, attrs: nat)

  function Lookup(l: Layout, k: Key): Answer {
    if k in l.index && l.index[k] < |l.props| && l.props[l.index[k]].Live?
    then Found(l.index[k], l.props[l.index[k]].attrs) else Absent
  }

  ghost function Apply(h: Heap, op: HeapOp): Heap {
    if op.MakeRoot? then
      if forall l <- h.roots :: h.roots[l] in h.shapes then NewShape(h, op.limit).0 else h
    else if op.CollectGarbage? then Collect(h, op.held)
    else if op.id !in h.shapes then h
    else match op
      case AddInPlace(id, k, a) => AddKeyIn(h, id, k, a)
      case AddMoving(id, k, a) => AddTr(h, id, k, a).0
      case ChangeAttrs(id, k, a) => SetAttrs(h, id, k, a)
      case RemoveKey(id, k) => DeleteIn(h, id, k)
      case Guard(id) => GuardAbsence(h, id)
      case Copy(id) => Clone(h, id)
      case Hold(id) => Retain(h, id)
      case LetGo(id) => Release(h, id)
  }

  ghost function ApplyAll(h: Heap, ops: seq<HeapOp>): Heap {
    if ops == [] then h else Apply(ApplyAll(h, ops[..|ops| - 1]), ops[|ops| - 1])
  }

  /** Ids in use lie below the next id. */
  ghost predicate Ids(h: Heap) { forall id <- h.shapes :: id < h.next }

  /** How one shape may change while the epoch stands still: it may gain a property, but not
      a string-keyed one if an absence was guarded in this epoch. */
  ghost predicate Quiet(h: Heap, r: Heap, id: Id)
    requires id in h.shapes && id in r.shapes
  {
    var s, t := h.shapes[id], r.shapes[id];
    var guarded := s.guardEpoch == Epoch(h);
    && (guarded ==> t.guardEpoch == Epoch(h))
    && (t.layout == s.layout ||
        exists k, a :: k !in s.layout.index && t.layout == AddKey(s.layout, k, a) && (guarded ==> k.Sym?))
  }

  /** A step never turns the epoch back, never revives an id and is quiet if it does not bump. */
  ghost predicate Steady(h: Heap, r: Heap) {
    && h.bumps <= r.bumps && h.next <= r.next && Ids(r)
    && (forall id <- r.shapes | id < h.next :: id in h.shapes)
    && (h.bumps == r.bumps ==> forall id <- h.shapes | id in r.shapes :: Quiet(h, r, id))
  }

  // ---------------------------------------------------------------- steps that keep contents

  ghost predicate SameContents(h: Heap, r: Heap) {
    && r.bumps == h.bumps && r.next == h.next
    && forall id <- r.shapes ::
      id in h.shapes && r.shapes[id].layout == h.shapes[id].layout && r.shapes[id].guardEpoch == h.shapes[id].guardEpoch
  }

  lemma {:induction false} PruneContents(h: Heap, id: Id)
    ensures SameContents(h, Prune(h, id).0)
    decreases h.next - id, |(if id in h.shapes then h.shapes[id].children else [])| + 1
  {
    if id in h.shapes && id < h.next { PruneEdgesContents(h, id, h.shapes[id].children); }
  }

  lemma {:induction false} PruneEdgesContents(h: Heap, id: Id, edges: seq<Edge>)
    requires id < h.next
    ensures SameContents(h, PruneEdges(h, id, edges).0)
    decreases h.next - id, |edges|
  {
    if edges != [] {
      var e := edges[0];
      if id < e.child { PruneContents(h, e.child); }
      var h1 := if id < e.child then Prune(h, e.child).0 else h;
      if e.child in h1.shapes && id in h1.shapes
        && h1.shapes[e.child].gcMark != h1.gcEpoch && h1.shapes[e.child].children == []
      {
        ReleaseFrame(Detach(h1, id, e), e.child);
        PruneEdgesContents(PruneLeaf(h1, id, e), id, edges[1..]);
      } else {
        PruneEdgesContents(h1, id, edges[1..]);
      }
    }
  }

  lemma {:induction false} SweepContents(h: Heap, i: nat)
    ensures SameContents(h, Sweep(h, i).0)
    decreases INOBJ_MAX_SLOTS + 1 - i
  {
    if i <= INOBJ_MAX_SLOTS {
      if i in h.roots { PruneContents(h, h.roots[i]); }
      SweepContents(if i in h.roots then Prune(h, h.roots[i]).0 else h, i + 1);
    }
  }

  lemma {:induction false} MarkContents(h: Heap, id: Id)
    ensures SameContents(h, Mark(h, id)) && Mark(h, id).shapes.Keys == h.shapes.Keys
    decreases Unmarked(h)
  {
    if id in h.shapes && h.shapes[id].gcMark != h.gcEpoch {
      var h1 := Set(h, id, h.shapes[id].(gcMark := h.gcEpoch));
      assert Unmarked(h1) == Unmarked(h) - {id};
      MarkContents(h1, h.shapes[id].parent);
    }
  }

  lemma {:induction false} MarkAllContents(h: Heap, ids: seq<Id>)
    ensures SameContents(h, MarkAll(h, ids))
    decreases |ids|
  {
    if ids != [] {
      MarkContents(h, ids[0]);
      MarkAllContents(Mark(h, ids[0]), ids[1..]);
    }
  }

  lemma ContentsSteady(h: Heap, r: Heap)
    requires Ids(h) && SameContents(h, r)
    ensures Steady(h, r)
  {
  }

  lemma SteadyTrans(h: Heap, m: Heap, r: Heap)
    requires Steady(h, m) && SameContents(m, r)
    ensures Steady(h, r)
  {
  }

  lemma BumpSteady(h: Heap, r: Heap)
    requires Steady(h, r)
    ensures Steady(h, Bump(r))
  {
  }

  // ---------------------------------------------------------------- each operation

  lemma InvalidateSteady(h: Heap, id: Id)
    requires Ids(h) && id in h.shapes
    ensures Steady(h, InvalidateAbsence(h, id))
  {
  }

  lemma AddInPlaceSteady(h: Heap, id: Id, k: Key, a: nat)
    requires Ids(h) && id in h.shapes
    ensures Steady(h, AddKeyIn(h, id, k, a))
  {
    var r := AddKeyIn(h, id, k, a);
    if h.bumps == r.bumps {
      assert r.shapes[id].layout == AddKey(h.shapes[id].layout, k, a);
      assert Quiet(h, r, id);
    }
  }

  /** Every shape that was there before has its old contents. */
  ghost predicate SameOld(h: Heap, r: Heap) {
    && h.bumps <= r.bumps && h.next <= r.next && Ids(r)
    && forall id <- r.shapes | id < h.next ::
      id in h.shapes && r.shapes[id].layout == h.shapes[id].layout && r.shapes[id].guardEpoch == h.shapes[id].guardEpoch
  }

  lemma SameOldSteady(h: Heap, m: Heap, r: Heap)
    requires Ids(h) && SameOld(h, m) && Steady(m, r)
    ensures Steady(h, r)
  {
  }

  lemma ReleaseContents(h: Heap, id: Id)
    ensures SameContents(h, Release(h, id))
  {
    ReleaseFrame(h, id);
  }

  lemma CopyOld(h: Heap, id: Id, k: Key, a: nat)
    requires Ids(h) && id in h.shapes
    ensures SameOld(h, AddKeyIn(Clone(h, id), h.next, k, a))
    ensures var r := AddKeyIn(Clone(h, id), h.next, k, a); r.next == h.next + 1 && id in r.shapes && h.next in r.shapes
  {
    hide AddKey;
  }

  lemma RecordOld(h: Heap, p: Id, k: Key, a: nat, c: Id)
    requires Ids(h) && p in h.shapes && c in h.shapes
    ensures SameContents(h, RecordChild(h, p, k, a, c)) && RecordChild(h, p, k, a, c).next == h.next
  {
    hide FindChild;
  }

  lemma ContentsOld(h: Heap, m: Heap, r: Heap)
    requires SameOld(h, m) && SameContents(m, r)
    ensures SameOld(h, r)
  {
  }

  lemma ExtendOld(h: Heap, id: Id, k: Key, a: nat)
    requires Ids(h) && id in h.shapes
    ensures SameOld(h, Extend(h, id, k, a)) && h.bumps <= Extend(h, id, k, a).bumps
    ensures h.next + 1 == Extend(h, id, k, a).next
  {
    hide AddKeyIn, RecordChild, Release;
    var h1 := AddKeyIn(Clone(h, id), h.next, k, a);
    CopyOld(h, id, k, a);
    var h2 := RecordChild(h1, id, k, a, h.next);
    RecordOld(h1, id, k, a, h.next);
    ContentsOld(h, h1, h2);
    ReleaseContents(h2, h.next);
    ContentsOld(h, h2, Release(h2, h.next));
  }

  lemma BranchSteady(h: Heap, id: Id, c: Id)
    requires Ids(h) && id in h.shapes && c in h.shapes
    ensures Steady(h, Branch(h, id, c))
  {
    hide AddKey, Release;
    var h1 := Clone(h, c);
    assert SameOld(h, h1);
    var h2 := InvalidateAbsence(h1, id);
    InvalidateSteady(h1, id);
    ReleaseContents(h2, id);
    SteadyTrans(h1, h2, Release(h2, id));
    SameOldSteady(h, h1, Release(h2, id));
  }

  lemma FollowSteady(h: Heap, id: Id, c: Id)
    requires Ids(h) && id in h.shapes && c in h.shapes
    ensures Steady(h, Follow(h, id, c))
  {
    hide AddKey, Release, InvalidateAbsence;
    var h1 := InvalidateAbsence(h, id);
    assert h1.shapes.Keys == h.shapes.Keys by { InvalidateIds(h, id); }
    InvalidateSteady(h, id);
    var h2 := Retain(h1, c);
    assert SameContents(h1, h2);
    SteadyTrans(h, h1, h2);
    ReleaseContents(h2, id);
    SteadyTrans(h, h2, Release(h2, id));
  }

  lemma InvalidateIds(h: Heap, id: Id)
    requires id in h.shapes
    ensures InvalidateAbsence(h, id).shapes.Keys == h.shapes.Keys
  {
  }

  lemma AddMovingSteady(h: Heap, id: Id, k: Key, a: nat)
    requires Ids(h) && id in h.shapes
    ensures Steady(h, AddTr(h, id, k, a).0)
  {
    hide AddKey, Release, Extend, Branch, Follow, AddKeyIn, Quiet;
    var s := h.shapes[id];
    var child := FindChild(s.children, k, a);
    if !InTree(s) {
      AddInPlaceSteady(h, id, k, a);
    } else if child in h.shapes && k in h.shapes[child].layout.index {
      FollowSteady(h, id, child);
    } else {
      var h1 := Extend(h, id, k, a);
      ExtendOld(h, id, k, a);
      if h.next in h1.shapes && id in h1.shapes {
        BranchSteady(h1, id, h.next);
        SameOldSteady(h, h1, Branch(h1, id, h.next));
      } else {
        ContentsSteady(h1, h1);
        SameOldSteady(h, h1, h1);
      }
    }
  }

  lemma CollectSteady(h: Heap, held: seq<Id>)
    requires Ids(h)
    ensures Steady(h, Collect(h, held))
  {
    hide MarkAll, Sweep, Quiet;
    var b := BeginGc(h);
    MarkAllContents(b, held);
    SweepContents(MarkAll(b, held), 0);
    var s := Sweep(MarkAll(b, held), 0).0;
    assert SameContents(h, s);
    ContentsSteady(h, s);
    BumpSteady(h, s);
  }

  lemma ApplySteady(h: Heap, op: HeapOp)
    requires Ids(h)
    ensures Steady(h, Apply(h, op))
  {
    hide AddTr, AddKeyIn, Release, Collect, AddKey, Delete, Quiet;
    if op.MakeRoot? {
      if forall l <- h.roots :: h.roots[l] in h.shapes {
        assert SameOld(h, NewShape(h, op.limit).0);
        OldSteady(h, NewShape(h, op.limit).0);
      } else {
        OldSteady(h, h);
      }
    } else if op.CollectGarbage? {
      CollectSteady(h, op.held);
    } else if op.id !in h.shapes {
      OldSteady(h, h);
    } else {
      match op
      case AddInPlace(id, k, a) => AddInPlaceSteady(h, id, k, a);
      case AddMoving(id, k, a) => AddMovingSteady(h, id, k, a);
      case ChangeAttrs(id, k, a) => if k !in h.shapes[id].layout.index { OldSteady(h, h); }
      case RemoveKey(id, k) => if k !in h.shapes[id].layout.index { OldSteady(h, h); }
      case Guard(id) => GuardSteady(h, id);
      case Copy(id) =>
        assert SameOld(h, Clone(h, id));
        OldSteady(h, Clone(h, id));
      case Hold(id) => ContentsSteady(h, Retain(h, id));
      case LetGo(id) =>
        ReleaseContents(h, id);
        ContentsSteady(h, Release(h, id));
    }
  }

  lemma GuardSteady(h: Heap, id: Id)
    requires Ids(h) && id in h.shapes
    ensures Steady(h, GuardAbsence(h, id))
  {
  }

  lemma OldSteady(h: Heap, r: Heap)
    requires Ids(h) && SameOld(h, r)
    ensures Steady(h, r)
  {
  }

  // ---------------------------------------------------------------- cached lookups

  /** A remembered lookup of a string key; an absence is remembered only behind a guard. */
  datatype Cached = Cached(id: Id, key: Key, answer: Answer, bumps: nat)

  ghost predicate Fresh(h: Heap, c: Cached) {
    && Ids(h) && c.bumps == h.bumps && c.id in h.shapes
    && WellFormed(h.shapes[c.id].layout)
    && Lookup(h.shapes[c.id].layout, c.key) == c.answer
    && (c.answer.Absent? ==> c.key.Str? && h.shapes[c.id].guardEpoch == Epoch(h))
  }

  /** What holds of a cached lookup after any number of steps. */
  ghost predicate Trusted(h: Heap, c: Cached) {
    && Ids(h) && c.bumps <= h.bumps && c.id < h.next
    && (c.bumps == h.bumps && c.id in h.shapes ==> Fresh(h, c))
  }

  lemma QuietFresh(h: Heap, r: Heap, c: Cached)
    requires Fresh(h, c) && c.id in r.shapes && Ids(r) && h.bumps == r.bumps && Quiet(h, r, c.id)
    ensures Fresh(r, c)
  {
    hide AddKey, WellFormed, Lookup, Ids;
    var l := h.shapes[c.id].layout;
    if r.shapes[c.id].layout != l {
      var k, a :| k !in l.index && r.shapes[c.id].layout == AddKey(l, k, a)
        && (h.shapes[c.id].guardEpoch == Epoch(h) ==> k.Sym?);
      AddKeyWellFormed(l, k, a);
      LookupOther(l, k, a, c.key);
    }
  }

  /** A new key leaves the answer for every key that was found, and for every other key. */
  lemma LookupOther(l: Layout, k: Key, a: nat, key: Key)
    requires WellFormed(l) && k !in l.index
    ensures Lookup(l, key).Found? || key != k ==> Lookup(AddKey(l, k, a), key) == Lookup(l, key)
  {
  }

  lemma StepTrusted(h: Heap, op: HeapOp, c: Cached)
    requires Trusted(h, c)
    ensures Trusted(Apply(h, op), c)
  {
    hide Apply, Quiet, Fresh, Ids;
    ApplySteady(h, op);
    var r := Apply(h, op);
    if c.bumps == r.bumps && c.id in r.shapes {
      QuietFresh(h, r, c);
    }
  }

  lemma {:induction false} RunTrusted(h: Heap, ops: seq<HeapOp>, c: Cached)
    requires Trusted(h, c)
    ensures Trusted(ApplyAll(h, ops), c)
  {
    if ops != [] {
      RunTrusted(h, ops[..|ops| - 1], c);
      StepTrusted(ApplyAll(h, ops[..|ops| - 1]), ops[|ops| - 1], c);
    }
  }

  /** A cached lookup whose epoch number still matches gives the current answer, after any
      operations on any shapes, as long as the 32-bit counter has not gone all the way round. */
  lemma CachedLookupStaysRight(h: Heap, ops: seq<HeapOp>, c: Cached)
    requires Fresh(h, c)
    requires var r := ApplyAll(h, ops);
      c.id in r.shapes && Epoch(r) == Epoch(h) && r.bumps - h.bumps < 0xFFFF_FFFF
    ensures Lookup(ApplyAll(h, ops).shapes[c.id].layout, c.key) == c.answer
  {
    hide ApplyAll;
    RunTrusted(h, ops, c);
    var r := ApplyAll(h, ops);
    assert r.bumps % 0xFFFF_FFFF == h.bumps % 0xFFFF_FFFF;
    SameResidue(h.bumps, r.bumps);
  }

  lemma SameResidue(a: nat, b: nat)
    requires a <= b < a + 0xFFFF_FFFF && a % 0xFFFF_FFFF == b % 0xFFFF_FFFF
    ensures a == b
  {
  }

  /** Why absences are cached for string keys only: a guarded absence notices the addition of
      its key exactly when the key is a string. */
  lemma GuardSeesStringsOnly(h: Heap, id: Id, k: Key, a: nat)
    requires id in h.shapes && h.shapes[id].guardEpoch == Epoch(h) && k !in h.shapes[id].layout.index
    ensures Lookup(AddKeyIn(h, id, k, a).shapes[id].layout, k).Found?
    ensures Epoch(AddKeyIn(h, id, k, a)) == Epoch(h) <==> k.Sym?
  {
    if k.Str? {
      assert AddKeyIn(h, id, k, a).bumps == h.bumps + 1;
      if EpochAfter(h.bumps + 1) == EpochAfter(h.bumps) { SameResidue(h.bumps, h.bumps + 1); assert false; }
    }
  }
}
