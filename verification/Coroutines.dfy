/** Coroutines as the runtime stores them: a reference count, hold bits, a doubly linked chain of
    active coroutines and a singly linked list of retired ones that reuses the chain's link field. */
module Coroutines {
  import opened Common
  import opened CoroutineLife

  /** `link` is the parent on the active chain, or the next on the retired list. */
  datatype Coro = Coro(refcount: nat, holds: set<Hold>, registered: bool, link: Maybe<nat>, prev: Maybe<nat>)

  function At(q: seq<nat>, i: int): Maybe<nat> { if 0 <= i < |q| then Some(q[i]) else None }

  // ---------------------------------------------------------------- what the pointers stand for

  predicate LinkOk(m: map<nat, Coro>, q: seq<nat>, i: nat)
    requires i < |q|
  {
    q[i] in m && m[q[i]].link == At(q, i + 1) && m[q[i]].prev == At(q, i - 1)
  }

  /** The active chain is a well-formed doubly linked list holding `q`. */
  ghost predicate Linked(m: map<nat, Coro>, head: Maybe<nat>, q: seq<nat>) {
    head == At(q, 0) && forall i | 0 <= i < |q| :: LinkOk(m, q, i)
  }

  predicate NextOk(m: map<nat, Coro>, q: seq<nat>, i: nat)
    requires i < |q|
  {
    q[i] in m && m[q[i]].link == At(q, i + 1) && m[q[i]].refcount == 0 && m[q[i]].holds == {}
  }

  /** The retired list is a well-formed list holding `q`, nobody referring to its members. */
  ghost predicate Listed(m: map<nat, Coro>, head: Maybe<nat>, q: seq<nat>) {
    head == At(q, 0) && forall i | 0 <= i < |q| :: NextOk(m, q, i)
  }

  /** The count is the owners plus the set bits. */
  predicate RecOk(r: Coro, k: Keep) {
    r.refcount == Count(k) && r.holds == k.holds && (r.registered ==> Await in r.holds)
  }

  ghost predicate Rep(m: map<nat, Coro>, head: Maybe<nat>, ret: Maybe<nat>, s: Life) {
    && (forall c :: c in m <==> c in s.live || c in s.retired)
    && Linked(m, head, s.active) && Listed(m, ret, s.retired)
    && (forall c | c in s.live :: RecOk(m[c], s.live[c]))
    && (forall c | c in s.live && c !in s.active :: m[c].link == None && m[c].prev == None)
  }

  /** What the pointer steps need of the lists: no repeats, nobody both live and retired. */
  ghost predicate Apart(s: Life) {
    && Distinct(s.active) && Distinct(s.retired)
    && (forall c | c in s.active :: c in s.live) && (forall c | c in s.retired :: c !in s.live)
  }

  // ---------------------------------------------------------------- one update at a time

  /** Changing a live record but not its links. */
  lemma Recount(m: map<nat, Coro>, head: Maybe<nat>, ret: Maybe<nat>, s: Life, c: nat, r: Coro, k: Keep)
    requires Apart(s) && Rep(m, head, ret, s) && c in s.live
    requires r.link == m[c].link && r.prev == m[c].prev && RecOk(r, k)
    ensures Rep(m[c := r], head, ret, s.(live := s.live[c := k])) && Apart(s.(live := s.live[c := k]))
  {
    var n := m[c := r];
    forall i | 0 <= i < |s.active| ensures LinkOk(n, s.active, i) { assert LinkOk(m, s.active, i); }
    forall i | 0 <= i < |s.retired| ensures NextOk(n, s.retired, i) { assert NextOk(m, s.retired, i); }
  }

  lemma Retires(m: map<nat, Coro>, head: Maybe<nat>, ret: Maybe<nat>, s: Life, c: nat, r: Coro)
    requires Apart(s) && Rep(m, head, ret, s) && c in s.live && c !in s.active
    requires r.refcount == 0 && r.holds == {} && r.link == ret
    ensures var t := s.(live := s.live - {c}, retired := [c] + s.retired);
      Rep(m[c := r], head, Some(c), t) && Apart(t)
  {
    var n, q := m[c := r], [c] + s.retired;
    forall i | 0 <= i < |s.active| ensures LinkOk(n, s.active, i) { assert LinkOk(m, s.active, i); }
    forall i | 0 <= i < |q| ensures NextOk(n, q, i) { if i > 0 { assert NextOk(m, s.retired, i - 1); } }
  }

  lemma Freed(m: map<nat, Coro>, head: Maybe<nat>, ret: Maybe<nat>, s: Life, c: nat)
    requires Apart(s) && Rep(m, head, ret, s) && c in s.live && c !in s.active
    ensures var t := s.(live := s.live - {c}, destroyed := s.destroyed + [c]); Rep(m - {c}, head, ret, t) && Apart(t)
  {
    var n := m - {c};
    forall i | 0 <= i < |s.active| ensures LinkOk(n, s.active, i) { assert LinkOk(m, s.active, i); }
    forall i | 0 <= i < |s.retired| ensures NextOk(n, s.retired, i) { assert NextOk(m, s.retired, i); }
  }

  /** The records after `c` was put before the head. */
  function Pushed(m: map<nat, Coro>, head: Maybe<nat>, c: nat): map<nat, Coro>
    requires c in m && (head.Some? ==> head.value in m && head.value != c)
  {
    var n := m[c := m[c].(link := head, prev := None)];
    if head.Some? then n[head.value := n[head.value].(prev := Some(c))] else n
  }

  lemma Pushes(m: map<nat, Coro>, head: Maybe<nat>, ret: Maybe<nat>, s: Life, c: nat)
    requires Apart(s) && Rep(m, head, ret, s) && c in s.live && c !in s.active
    ensures head.Some? ==> head.value in m && head.value != c
    ensures Rep(Pushed(m, head, c), Some(c), ret, s.(active := [c] + s.active))
  {
    if head.Some? { assert LinkOk(m, s.active, 0) && s.active[0] in s.active; }
    var n, q := Pushed(m, head, c), [c] + s.active;
    forall i | 0 <= i < |q| ensures LinkOk(n, q, i) {
      if i > 0 { assert LinkOk(m, s.active, i - 1); }
    }
    forall i | 0 <= i < |s.retired| ensures NextOk(n, s.retired, i) {
      assert NextOk(m, s.retired, i) && s.retired[i] in s.retired;
    }
  }

  /** The records after `c` was taken out of wherever it is on the chain. */
  function Popped(m: map<nat, Coro>, c: nat): map<nat, Coro>
    requires c in m && (m[c].prev.Some? ==> m[c].prev.value in m) && (m[c].link.Some? ==> m[c].link.value in m)
  {
    var r := m[c];
    var n := if r.prev.Some? then m[r.prev.value := m[r.prev.value].(link := r.link)] else m;
    var o := if r.link.Some? then n[r.link.value := n[r.link.value].(prev := r.prev)] else n;
    o[c := o[c].(link := None, prev := None)]
  }

  lemma {:induction false} WithoutAt(q: seq<nat>, i: nat)
    requires Distinct(q) && i < |q|
    ensures Without(q, q[i]) == q[..i] + q[i + 1..]
  {
    if i > 0 {
      WithoutAt(q[1..], i - 1);
      assert q[1..][i - 1] == q[i] && q[0] != q[i];
      assert q[..i] == [q[0]] + q[1..][..i - 1];
    }
  }

  lemma Pops(m: map<nat, Coro>, head: Maybe<nat>, ret: Maybe<nat>, s: Life, i: nat)
    requires Apart(s) && Rep(m, head, ret, s) && i < |s.active|
    ensures var c := s.active[i];
      && c in m && (m[c].prev.Some? ==> m[c].prev.value in m) && (m[c].link.Some? ==> m[c].link.value in m)
      && Rep(Popped(m, c), if m[c].prev.Some? then head else m[c].link, ret, s.(active := Without(s.active, c)))
  {
    hide Linked, LinkOk, NextOk, RecOk, Popped, Distinct, Without;
    var q := s.active;
    var c := q[i];
    Neighbours(m, head, q, i);
    WithoutAt(q, i);
    WithoutIs(q, c);
    PopLinks(m, head, q, i);
    forall x | x in m && x !in q ensures x in Popped(m, c) && Popped(m, c)[x] == m[x] { Untouched(m, head, q, i, x); }
    NewChain(m, Popped(m, c), head, if m[c].prev.Some? then head else m[c].link, ret, s, Without(q, c));
  }

  /** The chain was relinked within its old members; all else stayed. */
  lemma NewChain(m: map<nat, Coro>, n: map<nat, Coro>, head: Maybe<nat>, first: Maybe<nat>, ret: Maybe<nat>,
                 s: Life, p: seq<nat>)
    requires Apart(s) && Rep(m, head, ret, s) && n.Keys == m.Keys && Linked(n, first, p)
    requires forall x | x in m && x !in s.active :: n[x] == m[x]
    requires forall x | x in m :: RecSame(n[x], m[x])
    requires forall x | x in s.active && x !in p :: x in n && n[x].link == None && n[x].prev == None
    ensures Rep(n, first, ret, s.(active := p))
  {
    hide Linked, Distinct;
    forall j | 0 <= j < |s.retired| ensures NextOk(n, s.retired, j) {
      assert NextOk(m, s.retired, j) && s.retired[j] in s.retired;
    }
  }

  lemma Neighbours(m: map<nat, Coro>, head: Maybe<nat>, q: seq<nat>, i: nat)
    requires Linked(m, head, q) && i < |q|
    ensures q[i] in m && m[q[i]].prev == At(q, i - 1) && m[q[i]].link == At(q, i + 1)
    ensures i > 0 ==> q[i - 1] in m
    ensures i + 1 < |q| ==> q[i + 1] in m
  {
    assert LinkOk(m, q, i);
    if i > 0 { assert LinkOk(m, q, i - 1); }
    if i + 1 < |q| { assert LinkOk(m, q, i + 1); }
  }

  lemma Untouched(m: map<nat, Coro>, head: Maybe<nat>, q: seq<nat>, i: nat, x: nat)
    requires Linked(m, head, q) && i < |q| && x in m && x !in q
    ensures var c := q[i];
      && c in m && (m[c].prev.Some? ==> m[c].prev.value in m) && (m[c].link.Some? ==> m[c].link.value in m)
      && x in Popped(m, c) && Popped(m, c)[x] == m[x]
  {
    Neighbours(m, head, q, i);
    assert q[i] in q && (i > 0 ==> q[i - 1] in q) && (i + 1 < |q| ==> q[i + 1] in q);
  }

  /** Removal from any position leaves a well-formed chain. */
  lemma PopLinks(m: map<nat, Coro>, head: Maybe<nat>, q: seq<nat>, i: nat)
    requires Linked(m, head, q) && Distinct(q) && i < |q|
    ensures var c := q[i];
      && c in m && (m[c].prev.Some? ==> m[c].prev.value in m) && (m[c].link.Some? ==> m[c].link.value in m)
      && var n := Popped(m, c);
      && Linked(n, if m[c].prev.Some? then head else m[c].link, q[..i] + q[i + 1..])
      && n.Keys == m.Keys && n[c] == m[c].(link := None, prev := None)
      && (forall x | x in m :: RecSame(n[x], m[x]))
  {
    var c := q[i];
    Neighbours(m, head, q, i);
    var n, p := Popped(m, c), q[..i] + q[i + 1..];
    forall j | 0 <= j < |p| ensures LinkOk(n, p, j) {
      var k := if j < i then j else j + 1;
      assert p[j] == q[k] && LinkOk(m, q, k);
      assert q[k] != q[i];
    }
  }

  predicate RecSame(a: Coro, b: Coro) { a == b.(link := a.link, prev := a.prev) }

  // ---------------------------------------------------------------- the runtime

  class Runtime {
    var coros: map<nat, Coro>
    var active: Maybe<nat>
    var retired: Maybe<nat>
    var depth: nat
    var next: nat
    ghost var life: Life

    ghost predicate Stored() reads this {
      && Rep(coros, active, retired, life) && Apart(life)
      && depth == life.depth && next == life.next
    }

    ghost predicate Valid() reads this { Stored() && Inv(life) }

    constructor ()
      ensures Valid() && life == START
    {
      coros, active, retired, depth, next, life := map[], None, None, 0, 0, START;
    }

    method New() returns (c: nat)
      requires Valid()
      modifies this
      ensures Valid() && life == Create(old(life)) && c == old(next)
    {
      CreateKeeps(life);
      c := next;
      assert c !in coros;
      ghost var m, s := coros, life;
      coros := coros[c := Coro(1, {}, false, None, None)];
      next := next + 1;
      life := Create(life);
      forall i | 0 <= i < |s.active| ensures LinkOk(coros, s.active, i) { assert LinkOk(m, s.active, i); }
      forall i | 0 <= i < |s.retired| ensures NextOk(coros, s.retired, i) { assert NextOk(m, s.retired, i); }
    }

    method Retain(c: nat)
      requires Valid() && c in life.live
      modifies this
      ensures Valid() && life == CoroutineLife.Retain(old(life), c)
    {
      hide Rep, Inv, Apart;
      StepKeeps(life, Own(c));
      AddRef(c);
    }

    method AddRef(c: nat)
      requires Stored() && c in life.live
      modifies this
      ensures Stored() && life == CoroutineLife.Retain(old(life), c)
    {
      hide Apart;
      ghost var k := life.live[c].(owners := life.live[c].owners + 1);
      var r := coros[c].(refcount := coros[c].refcount + 1);
      Recount(coros, active, retired, life, c, r, k);
      coros := coros[c := r];
      life := life.(live := life.live[c := k]);
    }

    /** Dropping a reference of a live coroutine; on a retired one nothing happens. */
    method Release(c: nat)
      requires Valid() && c in coros && (c in life.live ==> life.live[c].owners > 0)
      modifies this
      ensures Valid() && life == if c in old(life).live then CoroutineLife.Release(old(life), c) else old(life)
    {
      if coros[c].refcount == 0 {
        assert c !in life.live;
        return;
      }
      assert c in life.live by { NotRetired(coros, active, retired, life, c); }
      StepKeeps(life, Disown(c));
      ReleaseRef(c);
    }

    method ReleaseRef(c: nat)
      requires Stored() && c in life.live && life.live[c].owners > 0
      requires c in life.active ==> Count(life.live[c]) > 1
      modifies this
      ensures Stored() && life == CoroutineLife.Release(old(life), c)
    {
      hide Rep, Apart;
      RecordOf(coros, active, retired, life, c);
      ghost var s, k := life, life.live[c].(owners := life.live[c].owners - 1);
      var r := coros[c].(refcount := coros[c].refcount - 1);
      Recount(coros, active, retired, life, c, r, k);
      coros := coros[c := r];
      life := life.(live := life.live[c := k]);
      if r.refcount != 0 { return; }
      assert life.live - {c} == s.live - {c};
      if depth > 0 {
        Retires(coros, active, retired, life, c, r.(link := retired));
        coros := coros[c := r.(link := retired)];
        retired := Some(c);
      } else {
        Freed(coros, active, retired, life, c);
        coros := coros - {c};
      }
      life := CoroutineLife.Release(s, c);
    }

    method HoldBit(c: nat, h: Hold)
      requires Stored() && c in life.live
      modifies this
      ensures Stored() && life == HoldFor(old(life), c, h)
    {
      hide Apart;
      var r := coros[c];
      if h in r.holds {
        assert life.live[c].holds + {h} == life.live[c].holds;
        assert life.live[c := life.live[c]] == life.live;
        return;
      }
      ghost var k := life.live[c].(holds := life.live[c].holds + {h});
      var n := r.(holds := r.holds + {h}, refcount := r.refcount + 1);
      Recount(coros, active, retired, life, c, n, k);
      coros := coros[c := n];
      life := life.(live := life.live[c := k]);
    }

    method UnholdBit(c: nat, h: Hold)
      requires Stored() && c in life.live && (h == Await ==> !coros[c].registered)
      requires c in life.active ==> h != Active && Active in life.live[c].holds
      modifies this
      ensures Stored() && life == Unhold(old(life), c, h)
    {
      hide Rep, Apart;
      assert RecOk(coros[c], life.live[c]) by { RecordOf(coros, active, retired, life, c); }
      var r := coros[c];
      if h !in r.holds { return; }
      ghost var s, k := life, life.live[c].(holds := life.live[c].holds - {h});
      ghost var one := k.(owners := k.owners + 1);
      var n := r.(holds := r.holds - {h});
      Recount(coros, active, retired, life, c, n, one);
      coros := coros[c := n];
      life := life.(live := life.live[c := one]);
      if c in life.active { assert Active in k.holds; }
      assert life.live - {c} == s.live - {c} && life.live[c := k] == s.live[c := k];
      ReleaseRef(c);
    }

    method Hold(c: nat, h: Hold)
      requires Valid() && c in life.live && h != Active
      modifies this
      ensures Valid() && life == HoldFor(old(life), c, h)
    {
      hide Rep, Inv, Apart;
      StepKeeps(life, KeepFor(c, h));
      HoldBit(c, h);
    }

    /** Dropping the generator's hold. */
    method UnholdGenerator(c: nat)
      requires Valid() && c in life.live
      modifies this
      ensures Valid() && life == Unhold(old(life), c, Generator)
    {
      hide Rep, Apart;
      StepKeeps(life, DropFor(c, Generator));
      UnholdBit(c, Generator);
    }

    method RegisterAwait(c: nat)
      requires Valid() && c in life.live
      modifies this
      ensures Valid() && life == HoldFor(old(life), c, Await)
    {
      hide Rep, Apart, Inv;
      StepKeeps(life, KeepFor(c, Await));
      HoldBit(c, Await);
      RecordOf(coros, active, retired, life, c);
      var r := coros[c].(registered := true);
      ghost var k := life.live[c];
      Recount(coros, active, retired, life, c, r, k);
      coros := coros[c := r];
      assert life.live[c := k] == life.live;
    }

    /** Ends an await: the registration and its hold go together. */
    method ClearAwait(c: nat)
      requires Valid() && c in life.live
      modifies this
      ensures Valid() && life == if old(coros)[c].registered then Unhold(old(life), c, Await) else old(life)
    {
      hide Rep, Apart;
      RecordOf(coros, active, retired, life, c);
      if !coros[c].registered { return; }
      StepKeeps(life, DropFor(c, Await));
      var r := coros[c].(registered := false);
      ghost var k := life.live[c];
      Recount(coros, active, retired, life, c, r, k);
      coros := coros[c := r];
      assert life.live[c := k] == life.live;
      UnholdBit(c, Await);
    }

    /** Gives up a reference, and the await registration with it. */
    method FreeCoroutine(c: nat)
      requires Valid() && c in life.live && life.live[c].owners > 0
      modifies this
      ensures Valid()
      ensures life == if old(coros)[c].registered then Free(old(life), c) else CoroutineLife.Release(old(life), c)
    {
      hide Rep, Apart;
      RecordOf(coros, active, retired, life, c);
      ClearAwait(c);
      RecordOf(coros, active, retired, life, c);
      Release(c);
    }

    method Activate(c: nat)
      requires Valid() && c in life.live && c !in life.active
      modifies this
      ensures Valid() && life == CoroutineLife.Activate(old(life), c)
    {
      hide Rep, Apart, Inv;
      StepKeeps(life, Push(c));
      Link(c);
      HoldBit(c, Active);
    }

    method Link(c: nat)
      requires Stored() && c in life.live && c !in life.active
      modifies this
      ensures Stored() && life == old(life).(active := [c] + old(life).active)
    {
      hide Rep;
      Pushes(coros, active, retired, life, c);
      RecordOf(coros, active, retired, life, c);
      coros := coros[c := coros[c].(link := active, prev := None)];
      if active.Some? {
        coros := coros[active.value := coros[active.value].(prev := Some(c))];
      }
      active := Some(c);
      life := life.(active := [c] + life.active);
    }

    /** Takes the coroutine off the chain, wherever it is, and drops the active hold. */
    method Deactivate(c: nat)
      requires Valid() && c in life.live
      modifies this
      ensures Valid() && life == CoroutineLife.Deactivate(old(life), c)
    {
      hide Rep, Apart, Inv;
      DeactivateKeeps(life, c);
      WithoutIs(life.active, c) by { InvDistinct(life); }
      Unlink(c);
      UnholdBit(c, Active);
    }

    method Unlink(c: nat)
      requires Stored() && c in life.live
      modifies this
      ensures Stored() && life == old(life).(active := Without(old(life).active, c))
    {
      hide Rep;
      RecordOf(coros, active, retired, life, c);
      WithoutIs(life.active, c);
      Detachable(coros, active, retired, life, c);
      ghost var m := coros;
      var r := coros[c];
      if r.prev.Some? {
        coros := coros[r.prev.value := coros[r.prev.value].(link := r.link)];
      } else if active == Some(c) {
        active := r.link;
      }
      if r.link.Some? {
        coros := coros[r.link.value := coros[r.link.value].(prev := r.prev)];
      }
      coros := coros[c := coros[c].(link := None, prev := None)];
      life := life.(active := Without(life.active, c));
    }

    method Enter()
      requires Valid()
      modifies this
      ensures Valid() && life == old(life).(depth := old(life).depth + 1)
    {
      hide Rep, Inv;
      DepthKeeps(life, life.depth + 1);
      DepthOnly(coros, active, retired, life, life.depth + 1);
      depth := depth + 1;
      life := life.(depth := life.depth + 1);
    }

    method Leave()
      requires Valid() && depth > 0
      modifies this
      ensures Valid() && life == old(life).(depth := old(life).depth - 1)
    {
      hide Rep, Inv;
      DepthKeeps(life, life.depth - 1);
      DepthOnly(coros, active, retired, life, life.depth - 1);
      depth := depth - 1;
      life := life.(depth := life.depth - 1);
    }

    /** Frees everything on the retired list, each member once. */
    method ReapRetired()
      requires Valid()
      modifies this
      ensures Valid() && life == Reap(old(life))
    {
      ReapKeeps(life);
      ghost var q, n := life.retired, 0;
      var c := retired;
      retired := None;
      while c.Some?
        invariant n <= |q| && c == At(q, n)
        invariant forall x :: x in coros <==> x in old(coros) && x !in q[..n]
        invariant forall x | x in coros :: coros[x] == old(coros)[x]
        invariant active == old(active) && life == old(life) && retired == None
        invariant depth == old(depth) && next == old(next)
        decreases |q| - n
      {
        assert NextOk(old(coros), q, n);
        var follow := coros[c.value].link;
        coros := coros - {c.value};
        c := follow;
        n := n + 1;
      }
      assert q[..n] == q;
      life := Reap(life);
      forall i | 0 <= i < |life.active| ensures LinkOk(coros, life.active, i) {
        assert LinkOk(old(coros), life.active, i) && life.active[i] in life.active;
      }
    }
  }

  // ---------------------------------------------------------------- facts the methods use

  lemma NotRetired(m: map<nat, Coro>, head: Maybe<nat>, ret: Maybe<nat>, s: Life, c: nat)
    requires Rep(m, head, ret, s) && c in m && m[c].refcount != 0
    ensures c in s.live
  {
    forall i | 0 <= i < |s.retired| ensures s.retired[i] != c { assert NextOk(m, s.retired, i); }
  }

  lemma RecordOf(m: map<nat, Coro>, head: Maybe<nat>, ret: Maybe<nat>, s: Life, c: nat)
    requires Rep(m, head, ret, s) && c in s.live
    ensures c in m && RecOk(m[c], s.live[c])
  {
  }

  /** Where the pointers of a live coroutine lead, and what unlinking it leaves. */
  lemma Detachable(m: map<nat, Coro>, head: Maybe<nat>, ret: Maybe<nat>, s: Life, c: nat)
    requires Rep(m, head, ret, s) && Apart(s) && c in s.live
    ensures c in m && (m[c].prev.Some? ==> m[c].prev.value in m) && (m[c].link.Some? ==> m[c].link.value in m)
    ensures m[c].prev != Some(c) && m[c].link != Some(c)
    ensures var to := if m[c].prev.Some? || head != Some(c) then head else m[c].link;
      Rep(Popped(m, c), to, ret, s.(active := Without(s.active, c)))
  {
    hide Rep, Popped;
    if c in s.active {
      var i :| 0 <= i < |s.active| && s.active[i] == c;
      Pops(m, head, ret, s, i);
      HeadOf(m, head, ret, s, i);
    } else {
      WithoutAbsent(s.active, c);
      Loose(m, head, ret, s, c);
    }
  }

  lemma InvDistinct(s: Life)
    requires Inv(s)
    ensures Distinct(s.active)
  {
  }

  lemma HeadOf(m: map<nat, Coro>, head: Maybe<nat>, ret: Maybe<nat>, s: Life, i: nat)
    requires Rep(m, head, ret, s) && Apart(s) && i < |s.active|
    ensures s.active[i] in m && (m[s.active[i]].prev.None? ==> head == Some(s.active[i]))
    ensures var r := m[s.active[i]]; r.prev != Some(s.active[i]) && r.link != Some(s.active[i])
  {
    Neighbours(m, head, s.active, i);
  }

  lemma Loose(m: map<nat, Coro>, head: Maybe<nat>, ret: Maybe<nat>, s: Life, c: nat)
    requires Rep(m, head, ret, s) && c in s.live && c !in s.active
    ensures c in m && m[c].link == None && m[c].prev == None && head != Some(c) && Popped(m, c) == m
  {
  }

  lemma DepthOnly(m: map<nat, Coro>, head: Maybe<nat>, ret: Maybe<nat>, s: Life, d: nat)
    requires Rep(m, head, ret, s)
    ensures Rep(m, head, ret, s.(depth := d))
  {
  }
}
