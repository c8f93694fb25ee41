/** Runs over one shape heap. Whatever the other holders of references do and whenever the
    collector runs, each object's property list is the one its own history alone gives. */
module ShapeRuns {
  import opened Common
  import opened ShapeLayout
  import opened ShapeHeap
  import opened ShapeTree
  import opened ShapeSteps
  import opened ShapeGc
  import opened ShapeSharing
  import opened ShapeChange

  /** `refs` are the references to shapes from outside the tree: those of objects, and those that
      inline caches and literal sites take. A reference that was given up is 0. */
  datatype World = World(heap: Heap, refs: seq<Id>)

  datatype Op =
    | New(limit: nat)
    | Add(ref: nat, key: Key, attrs: nat)
    | Redefine(ref: nat, key: Key, attrs: nat)
    | Remove(ref: nat, key: Key)
    | Drop(ref: nat)
    | Copy(ref: nat)
    | Adopt(ref: nat, from: nat)
    | Gc(missed: set<nat>)

  const START: World := World(Heap(map[], map[], 1, 0, 0), [])

  predicate Holds(w: World, i: nat) { i < |w.refs| && w.refs[i] in w.heap.shapes }

  ghost predicate Good(w: World) { Sound(w.heap, multiset(w.refs)) }

  /** The shapes a collection marks: those of all references but the missed ones. */
  function Marked(refs: seq<Id>, missed: set<nat>): seq<Id> {
    if refs == [] then []
    else
      var n := |refs| - 1;
      Marked(refs[..n], missed) + if n in missed then [] else [refs[n]]
  }

  ghost function Step(w: World, op: Op): World
    requires Good(w)
  {
    match op
    case New(limit) =>
      var (h, id) := NewShape(w.heap, limit);
      World(h, w.refs + [id])
    case Add(i, k, a) =>
      if !Holds(w, i) then w
      else var (h, id) := AddTr(w.heap, w.refs[i], k, a); World(h, w.refs[i := id])
    case Redefine(i, k, a) =>
      if !Holds(w, i) then w
      else var (h, id) := Unique(w.heap, w.refs[i]); World(SetAttrs(h, id, k, a), w.refs[i := id])
    case Remove(i, k) =>
      if !Holds(w, i) || k !in w.heap.shapes[w.refs[i]].layout.index then w
      else var (h, id) := Unique(w.heap, w.refs[i]); World(DeleteIn(h, id, k), w.refs[i := id])
    case Drop(i) =>
      if !Holds(w, i) then w else World(Release(w.heap, w.refs[i]), w.refs[i := 0])
    case Copy(i) =>
      if !Holds(w, i) then w.(refs := w.refs + [0])
      else World(Retain(w.heap, w.refs[i]), w.refs + [w.refs[i]])
    case Adopt(i, j) =>
      if !Holds(w, i) || !Holds(w, j) then w
      else World(Release(Retain(w.heap, w.refs[j]), w.refs[i]), w.refs[i := w.refs[j]])
    case Gc(missed) => w.(heap := Collect(w.heap, Marked(w.refs, missed)))
  }

  /** Whether the operation changes no shape whose recorded transitions would then be wrong. A
      caller can tell from the shape it holds: its count, its recorded keys and its last slot. */
  ghost predicate Clear(w: World, op: Op) {
    match op
    case Add(i, k, a) => Holds(w, i) ==> AddClear(w.heap.shapes[w.refs[i]], k, a)
    case Redefine(i, k, a) => Holds(w, i) ==> AttrsClear(w.heap.shapes[w.refs[i]], k, a)
    case Remove(i, k) => Holds(w, i) ==> DeleteClear(w.heap.shapes[w.refs[i]], k)
    case _ => true
  }

  // ---------------------------------------------------------------- what it looks like from outside

  /** A property list per reference, none for one that was given up. */
  type Lists = seq<Maybe<seq<Slot>>>

  function ListAt(w: World, i: nat): Maybe<seq<Slot>> {
    if Holds(w, i) then Some(LiveProps(w.heap.shapes[w.refs[i]].layout.props)) else None
  }

  function View(w: World): Lists { seq(|w.refs|, i requires i >= 0 => ListAt(w, i)) }

  function At(v: Lists, i: nat): Maybe<seq<Slot>> { if i < |v| then v[i] else None }

  /** The same operation on separate ordered property lists. */
  ghost function Wanted(v: Lists, op: Op): Lists {
    match op
    case New(_) => v + [Some([])]
    case Add(i, k, a) => if At(v, i).Some? then v[i := Some(Put(v[i].value, k, a))] else v
    case Redefine(i, k, a) => if At(v, i).Some? then v[i := Some(SetIn(v[i].value, k, a))] else v
    case Remove(i, k) => if At(v, i).Some? then v[i := Some(Without(v[i].value, k))] else v
    case Drop(i) => if At(v, i).Some? then v[i := None] else v
    case Copy(i) => v + [At(v, i)]
    case Adopt(i, j) => if At(v, i).Some? && At(v, j).Some? then v[i := v[j]] else v
    case Gc(_) => v
  }

  /** What a step from `w` to `v` owes everyone. */
  ghost predicate Faithful(w: World, op: Op, v: World) {
    Good(v) && View(v) == Wanted(View(w), op) && TreeKept(w.heap, v.heap)
  }

  // ---------------------------------------------------------------- one step

  /** Reference `i` moved to `id` and everyone else stayed. */
  lemma OwnersUpdate(refs: seq<Id>, i: nat, id: Id)
    requires i < |refs|
    ensures multiset(refs) == (multiset(refs) - multiset{refs[i]}) + multiset{refs[i]}
    ensures multiset(refs[i := id]) == (multiset(refs) - multiset{refs[i]}) + multiset{id}
    ensures forall j | 0 <= j < |refs| && j != i :: refs[j] in multiset(refs) - multiset{refs[i]}
  {
    assert refs == refs[..i] + [refs[i]] + refs[i + 1..];
    assert refs[i := id] == refs[..i] + [id] + refs[i + 1..];
    assert multiset(refs) - multiset{refs[i]} == multiset(refs[..i]) + multiset(refs[i + 1..]);
    forall j | 0 <= j < |refs| && j != i ensures refs[j] in multiset(refs) - multiset{refs[i]} {
      if j < i { assert refs[..i][j] == refs[j]; } else { assert refs[i + 1..][j - i - 1] == refs[j]; }
    }
  }

  lemma RefThere(w: World, i: nat)
    requires Good(w) && i < |w.refs|
    ensures Holds(w, i) <==> w.refs[i] != 0
  {
    SoundIds(w.heap, multiset(w.refs));
    assert w.refs[i] in multiset(w.refs);
  }

  /** A holder that ends on a shape with the layout `l`, while the others stay. */
  lemma MoveView(w: World, i: nat, h: Heap, id: Id, l: Layout)
    requires Good(w) && Holds(w, i)
    requires Moved(w.heap, multiset(w.refs) - multiset{w.refs[i]}, w.refs[i], h, id, l)
    ensures var v := World(h, w.refs[i := id]); Good(v) && View(v) == View(w)[i := Some(LiveProps(l.props))]
  {
    hide Inv, LiveProps;
    var v := World(h, w.refs[i := id]);
    assert multiset(v.refs) == (multiset(w.refs) - multiset{w.refs[i]}) + multiset{id} by {
      OwnersUpdate(w.refs, i, id);
    }
    forall j | 0 <= j < |w.refs| ensures ListAt(v, j) == if j == i then Some(LiveProps(l.props)) else ListAt(w, j) {
      RefThere(v, j);
      RefThere(w, j);
      if j != i && w.refs[j] != 0 { OtherStays(w, i, h, id, l, j); }
    }
  }

  lemma OtherStays(w: World, i: nat, h: Heap, id: Id, l: Layout, j: nat)
    requires Good(w) && Holds(w, i) && j < |w.refs| && j != i && w.refs[j] != 0
    requires Moved(w.heap, multiset(w.refs) - multiset{w.refs[i]}, w.refs[i], h, id, l)
    ensures var x := w.refs[j];
      x in w.heap.shapes && x in h.shapes && h.shapes[x].layout == w.heap.shapes[x].layout
  {
    hide Inv;
    OwnersUpdate(w.refs, i, id);
    SoundIds(h, multiset(w.refs[i := id]));
    assert w.refs[j] in multiset(w.refs) - multiset{w.refs[i]};
    assert w.refs[i := id][j] in multiset(w.refs[i := id]);
  }

  /** Steps that leave all layouts alone. */
  lemma SameView(w: World, v: World)
    requires Good(w) && Good(v) && SameLayouts(w.heap, v.heap)
    ensures forall i | 0 <= i < |w.refs| && i < |v.refs| && v.refs[i] == w.refs[i] :: ListAt(v, i) == ListAt(w, i)
    ensures TreeKept(w.heap, v.heap)
  {
    hide Inv, LiveProps;
    forall i | 0 <= i < |w.refs| && i < |v.refs| && v.refs[i] == w.refs[i] ensures ListAt(v, i) == ListAt(w, i) {
      SameList(w, v, i, i);
    }
  }

  lemma SameList(w: World, v: World, i: nat, j: nat)
    requires Good(w) && Good(v) && SameLayouts(w.heap, v.heap)
    requires i < |v.refs| && j < |w.refs| && v.refs[i] == w.refs[j]
    ensures ListAt(v, i) == ListAt(w, j)
  {
    hide Inv, LiveProps;
    RefThere(v, i);
    RefThere(w, j);
  }

  lemma HeldLayout(w: World, i: nat)
    requires Good(w) && Holds(w, i)
    ensures WellFormed(w.heap.shapes[w.refs[i]].layout)
    ensures Sound(w.heap, (multiset(w.refs) - multiset{w.refs[i]}) + multiset{w.refs[i]})
    ensures View(w)[i] == Some(LiveProps(w.heap.shapes[w.refs[i]].layout.props))
  {
    hide LiveProps;
    OwnersUpdate(w.refs, i, w.refs[i]);
    assert ShapeOk(w.heap, w.refs[i], multiset(w.refs), {});
  }

  lemma AddFaithful(w: World, i: nat, k: Key, a: nat)
    requires Good(w) && Holds(w, i) && Clear(w, Add(i, k, a))
    ensures Faithful(w, Add(i, k, a), Step(w, Add(i, k, a)))
  {
    hide Inv, LiveProps, AddTr, AddKey, WellFormed, Put, AddClear;
    var x, id := multiset(w.refs) - multiset{w.refs[i]}, w.refs[i];
    HeldLayout(w, i);
    AddKeeps(w.heap, x, id, k, a);
    AddKeyIsPut(w.heap.shapes[id].layout, k, a);
    var (h, u) := AddTr(w.heap, id, k, a);
    MoveView(w, i, h, u, AddKey(w.heap.shapes[id].layout, k, a));
  }

  lemma RedefineFaithful(w: World, i: nat, k: Key, a: nat)
    requires Good(w) && Holds(w, i) && Clear(w, Redefine(i, k, a))
    ensures Faithful(w, Redefine(i, k, a), Step(w, Redefine(i, k, a)))
  {
    hide Inv, LiveProps, Unique, AddKey, WellFormed, AttrsClear, SetIn, Without;
    var x, id := multiset(w.refs) - multiset{w.refs[i]}, w.refs[i];
    HeldLayout(w, i);
    var l := w.heap.shapes[id].layout;
    UniqueKeeps(w.heap, x, id);
    var (m, u) := Unique(w.heap, id);
    HasIndexed(l, k);
    if k in l.index {
      AttrsKeep(w.heap, x, id, k, a);
      AddKeyIsPut(l, k, a);
      MoveView(w, i, SetAttrs(m, u, k, a), u, AddKey(l, k, a));
    } else {
      LiveFromProps(l.props);
      SetInAbsent(LiveProps(l.props), k, a);
      MoveView(w, i, m, u, l);
    }
  }

  lemma RemoveFaithful(w: World, i: nat, k: Key)
    requires Good(w) && Holds(w, i) && Clear(w, Remove(i, k))
    ensures Faithful(w, Remove(i, k), Step(w, Remove(i, k)))
  {
    hide Inv, LiveProps, Unique, Delete, WellFormed, DeleteClear, Without, SetIn;
    var x, id := multiset(w.refs) - multiset{w.refs[i]}, w.refs[i];
    HeldLayout(w, i);
    var l := w.heap.shapes[id].layout;
    DeleteIsWithout(l, k);
    if k in l.index {
      DeleteKeeps(w.heap, x, id, k);
      var (m, u) := Unique(w.heap, id);
      MoveView(w, i, DeleteIn(m, u, k), u, Delete(l, k));
    } else {
      HasIndexed(l, k);
      LiveFromProps(l.props);
      SetInAbsent(LiveProps(l.props), k, 0);
    }
  }

  lemma NewFaithful(w: World, limit: nat)
    requires Good(w)
    ensures Faithful(w, New(limit), Step(w, New(limit)))
  {
    hide NewShape, LiveProps, Inv;
    NewKeeps(w.heap, multiset(w.refs), limit);
    var v := Step(w, New(limit));
    assert multiset(v.refs) == multiset(w.refs) + multiset{v.refs[|w.refs|]};
    SameView(w, v);
    assert LiveProps(EMPTY.props) == [] by { EmptyProps(); }
    assert View(v) == View(w) + [Some([])];
  }

  lemma EmptyProps()
    ensures LiveProps(EMPTY.props) == []
  {
  }

  lemma DropFaithful(w: World, i: nat)
    requires Good(w) && Holds(w, i)
    ensures Faithful(w, Drop(i), Step(w, Drop(i)))
  {
    hide Inv, Release, LiveProps;
    var x, v := multiset(w.refs) - multiset{w.refs[i]}, Step(w, Drop(i));
    HeldLayout(w, i);
    DropKeeps(w.heap, x, w.refs[i]);
    ZeroOwner(v.heap, x);
    assert multiset(v.refs) == x + multiset{0} by { OwnersUpdate(w.refs, i, 0); }
    SameView(w, v);
    RefThere(v, i);
    assert View(v) == View(w)[i := None];
  }

  lemma ZeroOwner(h: Heap, owners: multiset<Id>)
    requires Sound(h, owners)
    ensures Sound(h, owners + multiset{0})
  {
    forall j <- h.shapes ensures ShapeOk(h, j, owners + multiset{0}, {}) { assert ShapeOk(h, j, owners, {}); }
  }

  lemma CopyFaithful(w: World, i: nat)
    requires Good(w)
    ensures Faithful(w, Copy(i), Step(w, Copy(i)))
  {
    hide Inv, LiveProps;
    var v := Step(w, Copy(i));
    assert multiset(v.refs) == multiset(w.refs) + multiset{v.refs[|w.refs|]};
    if Holds(w, i) {
      RetainKeeps(w.heap, multiset(w.refs), w.refs[i]);
    } else {
      ZeroOwner(w.heap, multiset(w.refs));
    }
    SameView(w, v);
    RefThere(v, |w.refs|);
    assert View(v) == View(w) + [At(View(w), i)];
  }

  lemma AdoptFaithful(w: World, i: nat, j: nat)
    requires Good(w) && Holds(w, i) && Holds(w, j)
    ensures Faithful(w, Adopt(i, j), Step(w, Adopt(i, j)))
  {
    hide Inv, Release, Retain, LiveProps, TreeKept, SameLayouts;
    var v := Step(w, Adopt(i, j));
    AdoptGood(w, i, j);
    SameView(w, v);
    SameList(w, v, i, j);
    AdoptView(w, v, i, j);
  }

  lemma AdoptGood(w: World, i: nat, j: nat)
    requires Good(w) && Holds(w, i) && Holds(w, j)
    ensures var v := Step(w, Adopt(i, j)); Good(v) && SameLayouts(w.heap, v.heap)
  {
    hide Inv, Release, Retain, SameLayouts;
    var x := multiset(w.refs) - multiset{w.refs[i]};
    HeldLayout(w, i);
    AdoptKeeps(w.heap, x, w.refs[i], w.refs[j]);
    assert multiset(w.refs[i := w.refs[j]]) == x + multiset{w.refs[j]} by { OwnersUpdate(w.refs, i, w.refs[j]); }
  }

  lemma AdoptView(w: World, v: World, i: nat, j: nat)
    requires i < |w.refs| && j < |w.refs| && v.refs == w.refs[i := w.refs[j]] && ListAt(v, i) == ListAt(w, j)
    requires forall n | 0 <= n < |w.refs| && n < |v.refs| && v.refs[n] == w.refs[n] :: ListAt(v, n) == ListAt(w, n)
    ensures View(v) == View(w)[i := View(w)[j]]
  {
    hide ListAt;
  }

  lemma GcFaithful(w: World, missed: set<nat>)
    requires Good(w)
    ensures Faithful(w, Gc(missed), Step(w, Gc(missed)))
  {
    hide Collect, LiveProps, Inv;
    CollectKeeps(w.heap, multiset(w.refs), Marked(w.refs, missed));
    SameView(w, Step(w, Gc(missed)));
    assert View(Step(w, Gc(missed))) == View(w);
  }

  /** Every clear step keeps the tree sound, does to each property list what the operation asks of
      it, and changes no layout that a transition depends on. */
  lemma StepFaithful(w: World, op: Op)
    requires Good(w) && Clear(w, op)
    ensures Faithful(w, op, Step(w, op))
  {
    hide Inv, Clear, AddTr, Unique, LiveProps, NewShape, Collect, Release;
    match op
    case Add(i, k, a) => if Holds(w, i) { AddFaithful(w, i, k, a); }
    case Redefine(i, k, a) => if Holds(w, i) { RedefineFaithful(w, i, k, a); }
    case Remove(i, k) => if Holds(w, i) { RemoveFaithful(w, i, k); }
    case New(limit) => NewFaithful(w, limit);
    case Drop(i) => if Holds(w, i) { DropFaithful(w, i); }
    case Copy(i) => CopyFaithful(w, i);
    case Adopt(i, j) => if Holds(w, i) && Holds(w, j) { AdoptFaithful(w, i, j); }
    case Gc(missed) => GcFaithful(w, missed);
  }

  /** The condition is exact: a step that is not clear leaves a tree that is not sound. */
  lemma StepExact(w: World, op: Op)
    requires Good(w)
    ensures Good(Step(w, op)) <==> Clear(w, op)
  {
    hide Inv, AddTr, AddKey, WellFormed, Delete, EdgesAllow, DeleteAllows, Step;
    if Clear(w, op) {
      StepFaithful(w, op);
    } else {
      var i := op.ref;
      HeldLayout(w, i);
      SoundShape(w.heap, multiset(w.refs), w.refs[i]);
      UnclearBreaks(w, op);
    }
  }

  lemma UnclearBreaks(w: World, op: Op)
    requires Good(w) && !Clear(w, op)
    ensures !Good(Step(w, op))
  {
    hide Inv, AddTr, AddKey, WellFormed, Delete, EdgesAllow, DeleteAllows, SetAttrs, DeleteIn;
    var i := op.ref;
    var x, id := multiset(w.refs) - multiset{w.refs[i]}, w.refs[i];
    HeldLayout(w, i);
    SoundShape(w.heap, multiset(w.refs), id);
    assert w.refs[i := id] == w.refs;
    assert multiset(w.refs) == x + multiset{id} by { OwnersUpdate(w.refs, i, id); }
    match op {
      case Add(_, k, a) =>
        InPlaceAddExact(w.heap, x, id, k, a);
        assert AddTr(w.heap, id, k, a).1 == id by { AddsHere(w.heap, id, k, a); }
      case Redefine(_, k, a) => InPlaceAttrsExact(w.heap, x, id, k, a);
      case Remove(_, k) => InPlaceDeleteExact(w.heap, x, id, k);
      case _ =>
    }
  }

  lemma AddsHere(h: Heap, id: Id, k: Key, a: nat)
    requires id in h.shapes && !InTree(h.shapes[id])
    ensures AddTr(h, id, k, a).1 == id
  {
  }

  // ---------------------------------------------------------------- whole runs

  /** Every step of the run is clear when its turn comes. */
  ghost predicate Safe(ops: seq<Op>)
    decreases |ops|, 0
  {
    ops == [] || (Safe(ops[..|ops| - 1]) && Clear(Run(ops[..|ops| - 1]), ops[|ops| - 1]))
  }

  ghost function Run(ops: seq<Op>): (w: World)
    requires Safe(ops)
    ensures Good(w)
    decreases |ops|, 1
  {
    if ops == [] then START
    else
      var w := Run(ops[..|ops| - 1]);
      StepFaithful(w, ops[|ops| - 1]);
      Step(w, ops[|ops| - 1])
  }

  /** The same run on separate ordered property lists. */
  ghost function Plan(ops: seq<Op>): Lists {
    if ops == [] then [] else Wanted(Plan(ops[..|ops| - 1]), ops[|ops| - 1])
  }

  /** In every safe run, inline caches and literal sites taking and handing on shapes included, the
      shared shapes show exactly the property lists that separate lists would show, and the same
      references are held. */
  lemma {:induction false} RunRefinesPlan(ops: seq<Op>)
    requires Safe(ops)
    ensures Good(Run(ops)) && View(Run(ops)) == Plan(ops)
    ensures ops != [] ==> TreeKept(Run(ops[..|ops| - 1]).heap, Run(ops).heap)
  {
    hide Inv, Step, Wanted, TreeKept;
    if ops != [] {
      RunRefinesPlan(ops[..|ops| - 1]);
      StepFaithful(Run(ops[..|ops| - 1]), ops[|ops| - 1]);
    }
  }

  // ---------------------------------------------------------------- runs of objects alone

  /** Operations of objects, and collections that mark every object's shape. */
  predicate Plain(op: Op) { !op.Copy? && !op.Adopt? && (op.Gc? ==> op.missed == {}) }

  predicate AllPlain(ops: seq<Op>) { forall op <- ops :: Plain(op) }

  lemma {:induction false} MarksAll(refs: seq<Id>)
    ensures Marked(refs, {}) == refs
  {
    if refs != [] { MarksAll(refs[..|refs| - 1]); }
  }

  /** In-place change of a shape that only its owner holds. */
  lemma RelayoutPrivate(h: Heap, id: Id, r: Heap, l: Layout)
    requires Private(h) && id in h.shapes && Relaid(h, r, id, l)
    ensures Private(r)
  {
    assert forall j :: IsRoot(r, j) <==> IsRoot(h, j);
  }

  lemma UniquePrivate(h: Heap, owners: multiset<Id>, id: Id)
    requires Sound(h, owners + multiset{id}) && Private(h) && id in h.shapes
    ensures Private(Unique(h, id).0)
  {
    var x := owners + multiset{id};
    assert ShapeOk(h, id, x, {});
    if h.shapes[id].refCount > 1 {
      CloneKeeps(h, x, id);
      assert x + multiset{h.next} == owners + multiset{h.next} + multiset{id};
      InTreeRelease(Clone(h, id), owners + multiset{h.next}, id);
      assert forall j :: IsRoot(Unique(h, id).0, j) <==> IsRoot(h, j);
      assert h.shapes[id].parent != 0 || IsRoot(h, id);
    }
  }

  /** A shape outside the tree has no transitions, so every change in place is clear. */
  lemma PrivateIsClear(w: World, op: Op)
    requires Good(w) && Private(w.heap)
    ensures Clear(w, op)
  {
    hide AddKey, Delete, WellFormed, CutsLast;
    if (op.Add? || op.Redefine? || op.Remove?) && Holds(w, op.ref) {
      var i, id := op.ref, w.refs[op.ref];
      HeldLayout(w, i);
      SoundShape(w.heap, multiset(w.refs), id);
      if w.heap.shapes[id].refCount == 1 {
        HeldOnce(w.heap, multiset(w.refs) - multiset{id}, id);
        assert w.heap.shapes[id].children == [];
      }
    }
  }

  lemma PlainPrivate(w: World, op: Op)
    requires Good(w) && Private(w.heap) && Plain(op)
    ensures Private(Step(w, op).heap)
  {
    hide Inv, Private, AddTr, Unique, NewShape, Release, Collect, AddKey, Delete;
    match op
    case New(limit) => NewKeeps(w.heap, multiset(w.refs), limit);
    case Add(i, k, a) =>
      if Holds(w, i) {
        HeldLayout(w, i);
        AddTrPrivate(w.heap, multiset(w.refs) - multiset{w.refs[i]}, w.refs[i], k, a);
      }
    case Redefine(i, k, a) =>
      if Holds(w, i) { ChangePrivate(w, i); }
    case Remove(i, k) =>
      if Holds(w, i) { ChangePrivate(w, i); }
    case Drop(i) =>
      if Holds(w, i) {
        HeldLayout(w, i);
        DropKeeps(w.heap, multiset(w.refs) - multiset{w.refs[i]}, w.refs[i]);
      }
    case Gc(_) =>
      MarksAll(w.refs);
      CollectKeeps(w.heap, multiset(w.refs), w.refs);
  }

  lemma ChangePrivate(w: World, i: nat)
    requires Good(w) && Private(w.heap) && Holds(w, i)
    ensures var (m, u) := Unique(w.heap, w.refs[i]);
      && Private(m)
      && (forall k, a :: Private(SetAttrs(m, u, k, a)))
      && (forall k :: Private(DeleteIn(m, u, k)))
  {
    hide Inv, Private, Unique, AddKey, Delete;
    HeldLayout(w, i);
    UniquePrivate(w.heap, multiset(w.refs) - multiset{w.refs[i]}, w.refs[i]);
    var (m, u) := Unique(w.heap, w.refs[i]);
    forall k, a ensures Private(SetAttrs(m, u, k, a)) {
      if u in m.shapes && k in m.shapes[u].layout.index {
        RelayoutPrivate(m, u, SetAttrs(m, u, k, a), AddKey(m.shapes[u].layout, k, a));
      }
    }
    forall k ensures Private(DeleteIn(m, u, k)) {
      if u in m.shapes && k in m.shapes[u].layout.index {
        RelayoutPrivate(m, u, DeleteIn(m, u, k), Delete(m.shapes[u].layout, k));
      }
    }
  }

  /** Runs of objects alone are safe, and no shape outside the tree is ever shared. */
  lemma {:induction false} PlainRunsAreSafe(ops: seq<Op>)
    requires AllPlain(ops)
    ensures Safe(ops) && Private(Run(ops).heap)
  {
    hide Inv, Step, Private, Clear;
    if ops == [] {
      assert Private(START.heap) by { StartPrivate(); }
    } else {
      var before, op := ops[..|ops| - 1], ops[|ops| - 1];
      forall o <- before ensures Plain(o) { assert o in ops; }
      PlainRunsAreSafe(before);
      PrivateIsClear(Run(before), op);
      PlainPrivate(Run(before), op);
    }
  }

  lemma StartPrivate()
    ensures Private(START.heap)
  {
  }

  /** The number of objects made by a run. */
  function Made(ops: seq<Op>): nat {
    if ops == [] then 0 else Made(ops[..|ops| - 1]) + if ops[|ops| - 1].New? then 1 else 0
  }

  /** Whether object `i` was given up. */
  function Dropped(ops: seq<Op>, i: nat): bool {
    ops != [] && (Dropped(ops[..|ops| - 1], i) || (ops[|ops| - 1] == Drop(i) && i < Made(ops[..|ops| - 1])))
  }

  /** The property list of object `i` by its own operations alone. */
  ghost function History(ops: seq<Op>, i: nat): seq<Slot> {
    if ops == [] then []
    else
      var list, op := History(ops[..|ops| - 1], i), ops[|ops| - 1];
      if i >= Made(ops[..|ops| - 1]) || op.Gc? || op.New? || op.ref != i then list
      else match op
        case Add(_, k, a) => Put(list, k, a)
        case Redefine(_, k, a) => SetIn(list, k, a)
        case Remove(_, k) => Without(list, k)
        case _ => list
  }

  lemma {:induction false} PlanIsHistory(ops: seq<Op>)
    requires AllPlain(ops)
    ensures |Plan(ops)| == Made(ops)
    ensures forall i: nat | i < Made(ops) :: Plan(ops)[i] == if Dropped(ops, i) then None else Some(History(ops, i))
  {
    hide Put, SetIn, Without;
    if ops != [] {
      var before, op := ops[..|ops| - 1], ops[|ops| - 1];
      assert op in ops;
      forall o <- before ensures Plain(o) { assert o in ops; }
      PlanIsHistory(before);
      if op.New? { FreshHistory(before, Made(before)); }
    }
  }

  lemma {:induction false} FreshHistory(ops: seq<Op>, i: nat)
    requires Made(ops) <= i
    ensures History(ops, i) == [] && !Dropped(ops, i)
  {
    if ops != [] { FreshHistory(ops[..|ops| - 1], i); }
  }

  /** In every run of objects alone: an object is there exactly when it was made and not given up,
      its properties, in order, are the ones its own history gives, the tree is sound, and no shape
      with transitions was changed by the last step, nor by any before. */
  lemma RunFollowsHistory(ops: seq<Op>)
    requires AllPlain(ops)
    ensures Safe(ops) && Good(Run(ops)) && |Run(ops).refs| == Made(ops)
    ensures forall i: nat :: Holds(Run(ops), i) <==> i < Made(ops) && !Dropped(ops, i)
    ensures forall i: nat | Holds(Run(ops), i) :: ListAt(Run(ops), i) == Some(History(ops, i))
    ensures ops != [] ==> ParentsKept(Run(ops[..|ops| - 1]).heap, Run(ops).heap)
  {
    hide Inv, Run, Step, Plan, History, Dropped, LiveProps, Private, TreeKept, ParentsKept;
    PlainRunsAreSafe(ops);
    RunRefinesPlan(ops);
    PlanIsHistory(ops);
    forall i: nat | i < Made(ops)
      ensures ListAt(Run(ops), i) == if Dropped(ops, i) then None else Some(History(ops, i))
    {
      assert View(Run(ops))[i] == ListAt(Run(ops), i);
    }
    if ops != [] {
      var before := ops[..|ops| - 1];
      forall o <- before ensures Plain(o) { assert o in ops; }
      PlainRunsAreSafe(before);
      PrivateParents(Run(before).heap, Run(ops).heap);
    }
  }
}
