/** A run that ends with an object alone on a shape that still has a recorded transition. An
    inline cache keeps the shape while its first object moves on, a second object adopts it, and
    the cache lets go. From there additions, attribute changes and deletions go wrong in place. */
module ShapeReach {
  import opened Common
  import opened ShapeLayout
  import opened ShapeHeap
  import opened ShapeTree
  import opened ShapeSteps
  import opened ShapeSharing
  import opened ShapeChange
  import opened ShapeRuns

  lemma RunSnoc(ops: seq<Op>, op: Op)
    requires Safe(ops) && Clear(Run(ops), op)
    ensures Safe(ops + [op]) && Run(ops + [op]) == Step(Run(ops), op)
  {
    hide Step, Clear, Good;
    assert (ops + [op])[..|ops|] == ops;
  }

  /** The object's copy of its shape after it took a new transition. */
  lemma AddBranches(h: Heap, owners: multiset<Id>, id: Id, k: Key, a: nat)
    requires Sound(h, owners + multiset{id}) && id in h.shapes && InTree(h.shapes[id])
    requires FindChild(h.shapes[id].children, k, a) == 0
    ensures var (r, u) := AddTr(h, id, k, a);
      && u in r.shapes && u !in h.shapes && r.roots == h.roots
      && r.shapes[u].layout == AddKey(h.shapes[id].layout, k, a) && r.shapes[u].refCount == 1
      && r.shapes[u].parent == 0 && r.shapes[u].children == []
  {
    hide Inv, Extend, Branch, AddKey;
    var x := owners + multiset{id};
    SoundIds(h, x);
    ExtendKeeps(h, x, id, k, a);
    var m := Extend(h, id, k, a);
    BranchKeeps(m, owners, id, h.next);
    SoundIds(m, x);
  }

  /** Shape `id` is outside the tree, held `count` times, with one transition for `y`. */
  predicate Parked(w: World, id: Id, count: nat, x: Key, a: nat, y: Key, b: nat) {
    && id in w.heap.shapes && 0 in w.heap.roots && w.heap.roots[0] != id
    && var s := w.heap.shapes[id];
    && s.refCount == count && s.parent == 0 && s.layout == AddKey(EMPTY, x, a)
    && |s.children| == 1 && s.children[0].key == y && s.children[0].attrs == b
  }

  lemma FirstObject(w: World)
    requires w == Step(START, New(0))
    ensures w.refs == [1] && Good(w) && 0 in w.heap.roots && w.heap.roots[0] == 1 && 1 in w.heap.shapes
    ensures InTree(w.heap.shapes[1]) && w.heap.shapes[1].children == [] && w.heap.shapes[1].layout == EMPTY
  {
    StepFaithful(START, New(0));
  }

  /** An object that moves on from a shape a second reference still holds. */
  lemma MovesOn(w: World, id: Id, x: Key, a: nat, y: Key, b: nat)
    requires Good(w) && w.refs == [id, id] && id in w.heap.shapes && 0 in w.heap.roots && w.heap.roots[0] != id
    requires var s := w.heap.shapes[id];
      s.refCount == 2 && s.parent == 0 && s.children == [] && s.layout == AddKey(EMPTY, x, a)
    ensures var v := Step(w, Add(0, y, b)); |v.refs| == 2 && v.refs[1] == id && Parked(v, id, 1, x, a, y, b)
  {
    hide Inv, AddTr, AddKey;
    HeldLayout(w, 0);
    var owners := multiset(w.refs) - multiset{id};
    FirstHolderMoves(w.heap, owners, id, y, b);
    AddBranches(w.heap, owners, id, y, b);
  }

  lemma NewParked(w: World, id: Id, x: Key, a: nat, y: Key, b: nat)
    requires Good(w) && |w.refs| == 2 && w.refs[1] == id && Parked(w, id, 1, x, a, y, b)
    ensures var v := Step(w, New(0));
      |v.refs| == 3 && v.refs[1] == id && v.refs[2] == v.heap.roots[0] && Parked(v, id, 1, x, a, y, b)
  {
    hide AddKey;
  }

  lemma AdoptParked(w: World, id: Id, x: Key, a: nat, y: Key, b: nat)
    requires Good(w) && |w.refs| == 3 && w.refs[1] == id && Parked(w, id, 1, x, a, y, b)
    requires w.refs[2] == w.heap.roots[0]
    ensures Holds(w, 2)
    ensures var v := Step(w, Adopt(2, 1));
      |v.refs| == 3 && v.refs[1] == id && v.refs[2] == id && Parked(v, id, 2, x, a, y, b)
  {
    hide AddKey;
    var root, owners := w.refs[2], multiset(w.refs) - multiset{w.refs[2]};
    assert w.refs[2] in multiset(w.refs);
    assert IsRoot(w.heap, root);
    HeldLayout(w, 2);
    RetainKeeps(w.heap, owners + multiset{root}, id);
    assert owners + multiset{root} + multiset{id} == owners + multiset{id} + multiset{root};
    assert ShapeOk(w.heap, root, owners + multiset{root}, {});
    InTreeRelease(Retain(w.heap, id), owners + multiset{id}, root);
  }

  lemma DropParked(w: World, id: Id, x: Key, a: nat, y: Key, b: nat)
    requires |w.refs| == 3 && w.refs[1] == id && w.refs[2] == id && Parked(w, id, 2, x, a, y, b) && Good(w)
    ensures var v := Step(w, Drop(1)); |v.refs| == 3 && v.refs[2] == id && Parked(v, id, 1, x, a, y, b)
  {
    hide AddKey, Inv;
  }

  /** The calls, in order. */
  function Calls(x: Key, a: nat, y: Key, b: nat): seq<Op> {
    [New(0), Add(0, x, a), Copy(0), Add(0, y, b), New(0), Adopt(2, 1), Drop(1)]
  }

  lemma FirstThree(x: Key, a: nat) returns (id: Id)
    ensures var ops := [New(0), Add(0, x, a), Copy(0)];
      && Safe(ops)
      && var w := Run(ops);
      && w.refs == [id, id] && id in w.heap.shapes && 0 in w.heap.roots && w.heap.roots[0] != id
      && var s := w.heap.shapes[id];
      && s.refCount == 2 && s.parent == 0 && s.children == [] && s.layout == AddKey(EMPTY, x, a)
  {
    hide AddKey, AddTr, Inv, Step;
    RunSnoc([], New(0));
    var w1 := Run([New(0)]);
    assert [] + [New(0)] == [New(0)];
    FirstObject(w1);
    RunSnoc([New(0)], Add(0, x, a));
    var w2 := Run([New(0), Add(0, x, a)]);
    assert [New(0)] + [Add(0, x, a)] == [New(0), Add(0, x, a)];
    id := SecondCall(w1, x, a);
    RunSnoc([New(0), Add(0, x, a)], Copy(0));
    assert [New(0), Add(0, x, a)] + [Copy(0)] == [New(0), Add(0, x, a), Copy(0)];
    ThirdCall(w2, id);
  }

  lemma SecondCall(w: World, x: Key, a: nat) returns (id: Id)
    requires Good(w) && w.refs == [1] && 0 in w.heap.roots && w.heap.roots[0] == 1 && 1 in w.heap.shapes
    requires InTree(w.heap.shapes[1]) && w.heap.shapes[1].children == [] && w.heap.shapes[1].layout == EMPTY
    ensures var v := Step(w, Add(0, x, a));
      && v.refs == [id] && id in v.heap.shapes && id != 1 && v.heap.roots == w.heap.roots
      && var s := v.heap.shapes[id];
      && s.refCount == 1 && s.parent == 0 && s.children == [] && s.layout == AddKey(EMPTY, x, a)
  {
    hide AddKey, AddTr, Inv;
    HeldLayout(w, 0);
    AddBranches(w.heap, multiset(w.refs) - multiset{1}, 1, x, a);
    id := AddTr(w.heap, 1, x, a).1;
  }

  lemma ThirdCall(w: World, id: Id)
    requires Good(w) && w.refs == [id] && id in w.heap.shapes
    ensures var v := Step(w, Copy(0));
      v.refs == [id, id] && v.heap == Set(w.heap, id, w.heap.shapes[id].(refCount := w.heap.shapes[id].refCount + 1))
  {
  }

  /** After these calls the second object is alone on a shape that a transition starts from. */
  lemma SharingReaches(x: Key, a: nat, y: Key, b: nat) returns (id: Id)
    ensures Safe(Calls(x, a, y, b))
    ensures var w := Run(Calls(x, a, y, b)); |w.refs| == 3 && w.refs[2] == id && Parked(w, id, 1, x, a, y, b)
  {
    hide Step, Clear, Good, Parked, AddClear, AttrsClear, DeleteClear;
    id := FirstThree(x, a);
    var o3 := [New(0), Add(0, x, a), Copy(0)];
    var w3 := Run(o3);
    assert Clear(w3, Add(0, y, b)) by { SharedIsClear(w3, id, y, b); }
    RunSnoc(o3, Add(0, y, b));
    var o4 := o3 + [Add(0, y, b)];
    MovesOn(w3, id, x, a, y, b);
    assert Clear(Run(o4), New(0)) by { AlwaysClear(Run(o4), New(0)); }
    RunSnoc(o4, New(0));
    var o5 := o4 + [New(0)];
    NewParked(Run(o4), id, x, a, y, b);
    assert Clear(Run(o5), Adopt(2, 1)) by { AlwaysClear(Run(o5), Adopt(2, 1)); }
    RunSnoc(o5, Adopt(2, 1));
    var o6 := o5 + [Adopt(2, 1)];
    AdoptParked(Run(o5), id, x, a, y, b);
    assert Clear(Run(o6), Drop(1)) by { AlwaysClear(Run(o6), Drop(1)); }
    RunSnoc(o6, Drop(1));
    DropParked(Run(o6), id, x, a, y, b);
    assert o6 + [Drop(1)] == Calls(x, a, y, b);
  }

  lemma AlwaysClear(w: World, op: Op)
    requires !op.Add? && !op.Redefine? && !op.Remove?
    ensures Clear(w, op)
  {
  }

  lemma SharedIsClear(w: World, id: Id, y: Key, b: nat)
    requires w.refs == [id, id] && id in w.heap.shapes && w.heap.shapes[id].refCount == 2
    ensures Clear(w, Add(0, y, b))
  {
  }

  /** There each way of changing the object's shape in place leaves an unsound tree: adding any
      other key, changing the attributes of `x`, and deleting `x`. */
  lemma SharingBreaks(x: Key, a: nat, y: Key, b: nat, z: Key, c: nat)
    requires x != y && z != x && z != y && c != a
    ensures Safe(Calls(x, a, y, b))
    ensures var w := Run(Calls(x, a, y, b));
      !Good(Step(w, Add(2, z, c))) && !Good(Step(w, Redefine(2, x, c))) && !Good(Step(w, Remove(2, x)))
  {
    hide Step, Good, Run, Safe;
    var id := SharingReaches(x, a, y, b);
    var w := Run(Calls(x, a, y, b));
    ParkedUnclear(w, id, x, a, y, b, z, c);
    StepExact(w, Add(2, z, c));
    StepExact(w, Redefine(2, x, c));
    StepExact(w, Remove(2, x));
  }

  lemma ParkedUnclear(w: World, id: Id, x: Key, a: nat, y: Key, b: nat, z: Key, c: nat)
    requires x != y && z != x && z != y && c != a
    requires |w.refs| == 3 && w.refs[2] == id && Parked(w, id, 1, x, a, y, b)
    ensures !Clear(w, Add(2, z, c)) && !Clear(w, Redefine(2, x, c)) && !Clear(w, Remove(2, x))
  {
    var s := w.heap.shapes[id];
    assert s.children[0] in s.children;
    assert s.layout == Layout([Live(x, a)], map[x := 0], 0);
    assert AddKey(s.layout, x, c).props[0] == Live(x, c);
  }
}
