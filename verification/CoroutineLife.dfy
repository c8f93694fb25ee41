/** The life of coroutines, in terms of who keeps them: owners, hold bits, the chain of active
    coroutines (newest first) and the list of those waiting to be freed. */
module CoroutineLife {
  import opened Common

  /** The reasons the runtime itself keeps a coroutine. */
  datatype Hold = Active | Generator | Await

  datatype Keep = Keep(owners: nat, holds: set<Hold>)

  datatype Life = Life(
    live: map<nat, Keep>,
    active: seq<nat>,
    retired: seq<nat>,
    destroyed: seq<nat>,
    depth: nat,
    next: nat)

  const START := Life(map[], [], [], [], 0, 0)

  /** The reference count the code keeps. */
  function Count(k: Keep): nat { k.owners + |k.holds| }

  // ---------------------------------------------------------------- the steps

  /** A new coroutine has one owner: its creator. */
  function Create(s: Life): Life { s.(live := s.live[s.next := Keep(1, {})], next := s.next + 1) }

  /** Puts `k` for `c`; with no reason left to keep it, `c` is freed, or retired while the VM runs. */
  function Settle(s: Life, c: nat, k: Keep): Life {
    if Count(k) > 0 then s.(live := s.live[c := k])
    else if s.depth > 0 then s.(live := s.live - {c}, retired := [c] + s.retired)
    else s.(live := s.live - {c}, destroyed := s.destroyed + [c])
  }

  function Retain(s: Life, c: nat): Life
    requires c in s.live
  {
    s.(live := s.live[c := s.live[c].(owners := s.live[c].owners + 1)])
  }

  function Release(s: Life, c: nat): Life
    requires c in s.live && s.live[c].owners > 0
  {
    Settle(s, c, s.live[c].(owners := s.live[c].owners - 1))
  }

  function HoldFor(s: Life, c: nat, h: Hold): Life
    requires c in s.live
  {
    s.(live := s.live[c := s.live[c].(holds := s.live[c].holds + {h})])
  }

  function Unhold(s: Life, c: nat, h: Hold): Life
    requires c in s.live
  {
    if h !in s.live[c].holds then s else Settle(s, c, s.live[c].(holds := s.live[c].holds - {h}))
  }

  function Activate(s: Life, c: nat): Life
    requires c in s.live
  {
    HoldFor(s.(active := [c] + s.active), c, Active)
  }

  function Without(q: seq<nat>, c: nat): seq<nat> {
    if q == [] then [] else if q[0] == c then q[1..] else [q[0]] + Without(q[1..], c)
  }

  function Deactivate(s: Life, c: nat): Life
    requires c in s.live
  {
    Unhold(s.(active := Without(s.active, c)), c, Active)
  }

  /** Dropping a reference together with the await registration. */
  function Free(s: Life, c: nat): Life
    requires c in s.live && s.live[c].owners > 0
  {
    assert c in Unhold(s, c, Await).live;
    Release(Unhold(s, c, Await), c)
  }

  function Reap(s: Life): Life { s.(retired := [], destroyed := s.destroyed + s.retired) }

  // ---------------------------------------------------------------- runs

  datatype Op =
    | New
    | Own(c: nat)
    | Disown(c: nat)
    | KeepFor(c: nat, h: Hold)
    | DropFor(c: nat, h: Hold)
    | Push(c: nat)
    | Pop(c: nat)
    | FreeIt(c: nat)
    | Enter
    | Leave
    | ReapAll

  /** Calls that balanced callers make: on a live coroutine, releasing only what is owned,
      activating only what is not active, and holding the active bit only through the chain. */
  predicate Enabled(s: Life, op: Op) {
    match op
    case New | Enter | ReapAll => true
    case Leave => s.depth > 0
    case Own(c) => c in s.live
    case Disown(c) => c in s.live && s.live[c].owners > 0
    case FreeIt(c) => c in s.live && s.live[c].owners > 0
    case KeepFor(c, h) => c in s.live && h != Active
    case DropFor(c, h) => c in s.live && h != Active
    case Push(c) => c in s.live && c !in s.active
    case Pop(c) => c in s.live
  }

  function Step(s: Life, op: Op): Life
    requires Enabled(s, op)
  {
    match op
    case New => Create(s)
    case Own(c) => Retain(s, c)
    case Disown(c) => Release(s, c)
    case KeepFor(c, h) => HoldFor(s, c, h)
    case DropFor(c, h) => Unhold(s, c, h)
    case Push(c) => Activate(s, c)
    case Pop(c) => Deactivate(s, c)
    case FreeIt(c) => Free(s, c)
    case Enter => s.(depth := s.depth + 1)
    case Leave => s.(depth := s.depth - 1)
    case ReapAll => Reap(s)
  }

  function Run(s: Life, ops: seq<Op>): Life
    decreases |ops|
  {
    if ops == [] then s else Run(if Enabled(s, ops[0]) then Step(s, ops[0]) else s, ops[1..])
  }

  // ---------------------------------------------------------------- what every run keeps

  /** Each coroutine ever created is live, retired or destroyed, and only one of these, once. The
      active ones are live and held for it. */
  ghost predicate Inv(s: Life) {
    && Distinct(s.active) && Distinct(s.retired) && Distinct(s.destroyed)
    && (forall c | c in s.active :: c in s.live)
    && (forall c | c in s.live :: Count(s.live[c]) > 0 && (Active in s.live[c].holds <==> c in s.active))
    && (forall c | c in s.retired :: c !in s.live && c !in s.destroyed)
    && (forall c | c in s.destroyed :: c !in s.live)
    && (forall c: nat :: c < s.next <==> c in s.live || c in s.retired || c in s.destroyed)
  }

  lemma {:induction false} WithoutIs(q: seq<nat>, c: nat)
    requires Distinct(q)
    ensures forall x :: x in Without(q, c) <==> x in q && x != c
    ensures Distinct(Without(q, c))
  {
    if q != [] && q[0] != c {
      WithoutIs(q[1..], c);
      forall x ensures x in Without(q, c) <==> x in q && x != c {
        assert x in q <==> x == q[0] || x in q[1..];
      }
      assert q[0] !in q[1..];
    }
  }

  /** The count of a live coroutine may change to anything that agrees with the chain. */
  lemma SettleKeeps(s: Life, c: nat, k: Keep)
    requires Inv(s) && c in s.live && c < s.next
    requires Active in k.holds <==> c in s.active
    ensures Inv(Settle(s, c, k))
  {
    if Count(k) == 0 {
      assert c !in s.active;
      var r := Settle(s, c, k);
      forall x: nat ensures x < s.next <==> x in r.live || x in r.retired || x in r.destroyed { }
    }
  }

  lemma KnownId(s: Life, c: nat)
    requires Inv(s) && c in s.live
    ensures c < s.next
  {
  }

  lemma CreateKeeps(s: Life)
    requires Inv(s)
    ensures Inv(Create(s)) && s.next !in s.live
  {
  }

  lemma ActivateKeeps(s: Life, c: nat)
    requires Inv(s) && c in s.live && c !in s.active
    ensures Inv(Activate(s, c))
  {
    KnownId(s, c);
  }

  /** Deactivating, with the chain changed and the bit cleared together. */
  lemma DeactivateKeeps(s: Life, c: nat)
    requires Inv(s) && c in s.live
    ensures Inv(Deactivate(s, c))
    ensures c !in Deactivate(s, c).active
  {
    hide Inv, Distinct;
    KnownId(s, c);
    assert Distinct(s.active) by { Known(s); }
    WithoutIs(s.active, c);
    assert Active in s.live[c].holds <==> c in s.active by { Known(s); }
    if c in s.active {
      var k := s.live[c].(holds := s.live[c].holds - {Active});
      var t := s.(active := Without(s.active, c), live := s.live[c := k.(owners := k.owners + 1)]);
      Unlinked(s, c);
      SettleKeeps(t, c, k);
      assert t.live - {c} == s.live - {c};
      assert t.live[c := k] == s.live[c := k];
    } else {
      WithoutAbsent(s.active, c);
    }
  }

  lemma Known(s: Life)
    requires Inv(s)
    ensures Distinct(s.active) && forall c | c in s.live :: Active in s.live[c].holds <==> c in s.active
  {
  }

  /** Between leaving the chain and dropping the reference, the active hold counts as an owner. */
  lemma Unlinked(s: Life, c: nat)
    requires Inv(s) && c in s.live
    ensures var k := s.live[c];
      Inv(s.(active := Without(s.active, c), live := s.live[c := Keep(k.owners + 1, k.holds - {Active})]))
  {
    hide Distinct, Without, Count;
    WithoutIs(s.active, c);
    var k := s.live[c];
    var one := Keep(k.owners + 1, k.holds - {Active});
    assert Count(one) > 0 by { CountOf(one); }
    assert s.live[c := one].Keys == s.live.Keys;
  }

  lemma {:induction false} WithoutAbsent(q: seq<nat>, c: nat)
    requires c !in q
    ensures Without(q, c) == q
  {
    if q != [] { WithoutAbsent(q[1..], c); }
  }

  lemma FreeKeeps(s: Life, c: nat)
    requires Inv(s) && c in s.live && s.live[c].owners > 0
    ensures Inv(Free(s, c))
  {
    KnownId(s, c);
    var k := s.live[c].(holds := s.live[c].holds - {Await});
    if Await in s.live[c].holds { SettleKeeps(s, c, k); }
    var t := Unhold(s, c, Await);
    KnownId(t, c);
    SettleKeeps(t, c, t.live[c].(owners := t.live[c].owners - 1));
  }

  lemma ReapKeeps(s: Life)
    requires Inv(s)
    ensures Inv(Reap(s))
  {
    var r := Reap(s);
    assert forall c :: c in r.destroyed <==> c in s.destroyed || c in s.retired;
    JoinDistinct(s.destroyed, s.retired);
  }

  lemma JoinDistinct(p: seq<nat>, q: seq<nat>)
    requires Distinct(p) && Distinct(q) && forall c | c in q :: c !in p
    ensures Distinct(p + q)
  {
    forall i, j | 0 <= i < j < |p + q| ensures (p + q)[i] != (p + q)[j] {
      if i < |p| <= j { assert (p + q)[j] in q && (p + q)[i] in p; }
    }
  }

  lemma StepKeeps(s: Life, op: Op)
    requires Inv(s) && Enabled(s, op)
    ensures Inv(Step(s, op))
  {
    hide Inv, Activate, Deactivate, Free, Reap;
    match op
    case New => CreateKeeps(s);
    case Own(c) => SettleKeepsOf(s, c, s.live[c].(owners := s.live[c].owners + 1));
    case Disown(c) => SettleKeepsOf(s, c, s.live[c].(owners := s.live[c].owners - 1));
    case KeepFor(c, h) => HoldKeeps(s, c, h);
    case DropFor(c, h) => SettleKeepsOf(s, c, s.live[c].(holds := s.live[c].holds - {h}));
    case Push(c) => ActivateKeeps(s, c);
    case Pop(c) => DeactivateKeeps(s, c);
    case FreeIt(c) => FreeKeeps(s, c);
    case Enter => DepthKeeps(s, s.depth + 1);
    case Leave => DepthKeeps(s, s.depth - 1);
    case ReapAll => ReapKeeps(s);
  }

  lemma HoldKeeps(s: Life, c: nat, h: Hold)
    requires Inv(s) && c in s.live && h != Active
    ensures Inv(HoldFor(s, c, h))
  {
    hide Inv;
    var k := s.live[c].(holds := s.live[c].holds + {h});
    assert h in k.holds;
    SettleKeepsOf(s, c, k);
  }

  lemma DepthKeeps(s: Life, d: nat)
    requires Inv(s)
    ensures Inv(s.(depth := d))
  {
  }

  lemma SettleKeepsOf(s: Life, c: nat, k: Keep)
    requires Inv(s) && c in s.live && (Active in k.holds <==> Active in s.live[c].holds)
    ensures Inv(Settle(s, c, k))
  {
    KnownId(s, c);
    SettleKeeps(s, c, k);
  }

  /** Balanced runs: the invariant holds at every state reached. */
  lemma {:induction false} RunKeeps(s: Life, ops: seq<Op>)
    requires Inv(s)
    ensures Inv(Run(s, ops))
    decreases |ops|
  {
    hide Inv, Step;
    if ops != [] {
      if Enabled(s, ops[0]) { StepKeeps(s, ops[0]); }
      RunKeeps(if Enabled(s, ops[0]) then Step(s, ops[0]) else s, ops[1..]);
    }
  }

  /** In every run from the start no coroutine is both on the chain and on the retired list, and
      none is destroyed twice, nor while it is still kept. */
  lemma EveryRun(ops: seq<Op>)
    ensures var s := Run(START, ops);
      && Distinct(s.destroyed)
      && (forall c | c in s.active :: c in s.live && Count(s.live[c]) > 0 && c !in s.retired && c !in s.destroyed)
      && (forall c: nat | c < s.next :: (c in s.live) != (c in s.retired || c in s.destroyed))
      && (forall c | c in s.retired :: c !in s.destroyed)
  {
    hide Run;
    RunKeeps(START, ops);
  }

  // ---------------------------------------------------------------- when coroutines go

  /** While the VM runs, nothing but a reap frees a coroutine; the last reason going makes it wait. */
  lemma NothingFreedInside(s: Life, op: Op)
    requires Enabled(s, op) && s.depth > 0 && op != ReapAll
    ensures Step(s, op).destroyed == s.destroyed
    ensures forall c | c in s.live && c !in Step(s, op).live :: c in Step(s, op).retired
  {
  }

  /** A coroutine leaves only when its last owner and last hold go, and only by a call on it. */
  lemma KeptWhileHeld(s: Life, op: Op, c: nat)
    requires Enabled(s, op) && c in s.live && c !in Step(s, op).live
    ensures Count(s.live[c]) == 1 || (op == FreeIt(c) && s.live[c] == Keep(1, {Await}))
    ensures op == Disown(c) || op == FreeIt(c) || (op.DropFor? && op.c == c) || op == Pop(c)
  {
    hide Settle, Count;
    match op {
      case New =>
      case Own(d) =>
      case Disown(d) => Gone(s, d, s.live[d].(owners := s.live[d].owners - 1), c);
      case KeepFor(d, h) =>
      case DropFor(d, h) => GoneUnheld(s, d, h, c);
      case Push(d) =>
      case Pop(d) => GoneUnheld(s.(active := Without(s.active, d)), d, Active, c);
      case FreeIt(d) => GoneFreed(s, d, c);
      case Enter =>
      case Leave =>
      case ReapAll =>
    }
    if op.Disown? { CountOf(s.live[c]); }
  }

  lemma CountOf(k: Keep)
    ensures k.owners > 0 ==> Count(k.(owners := k.owners - 1)) + 1 == Count(k)
  {
  }

  lemma Gone(s: Life, d: nat, k: Keep, c: nat)
    requires c in s.live && c !in Settle(s, d, k).live
    ensures c == d && Count(k) == 0
  {
  }

  lemma GoneUnheld(s: Life, d: nat, h: Hold, c: nat)
    requires d in s.live && c in s.live && c !in Unhold(s, d, h).live
    ensures c == d && Count(s.live[c]) == 1 && h in s.live[c].holds
  {
    var k := s.live[d];
    Gone(s, d, k.(holds := k.holds - {h}), c);
    LessOne(k.holds, h);
  }

  lemma GoneFreed(s: Life, d: nat, c: nat)
    requires d in s.live && s.live[d].owners > 0 && c in s.live && c !in Free(s, d).live
    ensures c == d && (Count(s.live[c]) == 1 || s.live[c] == Keep(1, {Await}))
  {
    var t, k := Unhold(s, d, Await), s.live[d];
    LessOne(k.holds, Await);
    assert d in t.live && t.live[d].owners == k.owners;
    Gone(t, d, t.live[d].(owners := t.live[d].owners - 1), c);
    OnlyHold(k.holds);
  }

  lemma LessOne(q: set<Hold>, h: Hold)
    ensures |q| == |q - {h}| + (if h in q then 1 else 0)
  {
    if h !in q { assert q - {h} == q; }
  }

  lemma OnlyHold(h: set<Hold>)
    ensures |h| == 1 && Await in h ==> h == {Await}
    ensures |h| == 0 ==> h == {}
  {
    if |h| == 1 && Await in h {
      assert |h - {Await}| == 0;
      assert h == (h - {Await}) + {Await};
    }
  }
}
