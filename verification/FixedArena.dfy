/** The arena of equally sized elements: a reserved range, committed step by step, carved front to
    back, with a free list threaded through the elements themselves. */
module FixedArena {
  import opened Common
  import opened Grid

  const KIB: nat := 1024
  const INITIAL: nat := 2048 * KIB
  const MIN_GROW: nat := 64 * KIB
  const MAX_GROW: nat := 8192 * KIB
  const SAFE_ELEM: nat := 512 * KIB

  /** Addresses are offsets from the base. `free` is the free list, newest first. */
  datatype Arena = Arena(elem: nat, reserved: nat, committed: nat, watermark: nat, free: seq<nat>, live: set<nat>)

  function Init(elem: nat, max: nat): Arena {
    Arena(elem, max, if INITIAL > max then max else INITIAL, 0, [], {})
  }

  function Grow(committed: nat): nat {
    var g := committed / 4;
    if g < MIN_GROW then MIN_GROW else if g > MAX_GROW then MAX_GROW else g
  }

  /** Whether carving one more element is possible; `commits` is what the system answers. */
  predicate CanCarve(a: Arena, commits: bool) {
    a.watermark + a.elem <= a.committed || (a.committed + Grow(a.committed) <= a.reserved && commits)
  }

  /** `fixed_arena_alloc`, but for what the element holds. */
  function Alloc(a: Arena, commits: bool): (Arena, Maybe<nat>) {
    if a.free != [] then (a.(free := a.free[1..], live := a.live + {a.free[0]}), Some(a.free[0]))
    else if !CanCarve(a, commits) then (a, None)
    else
      var more := if a.watermark + a.elem <= a.committed then a.committed else a.committed + Grow(a.committed);
      (a.(committed := more, watermark := a.watermark + a.elem, live := a.live + {a.watermark}), Some(a.watermark))
  }

  function Free(a: Arena, p: nat): Arena { a.(free := [p] + a.free, live := a.live - {p}) }

  /** `fixed_arena_contains`, for an address relative to the base. */
  predicate Contains(a: Arena, p: int)
    requires a.elem > 0
  {
    0 <= p < a.watermark && p % a.elem == 0
  }

  // ---------------------------------------------------------------- what every run keeps

  /** Live and free elements together are exactly the multiples of the element size below the
      watermark, none twice; the committed part is reserved. */
  ghost predicate Inv(a: Arena) {
    && 0 < a.elem && a.watermark % a.elem == 0 && a.committed <= a.reserved
    && Distinct(a.free) && (forall p | p in a.live :: p !in a.free)
    && (forall p: nat :: p in a.live || p in a.free <==> Contains(a, p))
  }

  /** Everything handed out is committed. */
  predicate Inside(a: Arena) { a.watermark <= a.committed }

  /** The next allocation does not need more than one growth adds. */
  predicate Fits(a: Arena, commits: bool) {
    a.free == [] && CanCarve(a, commits) ==> a.watermark + a.elem <= a.committed + Grow(a.committed)
  }

  lemma InitKeeps(elem: nat, max: nat)
    requires 0 < elem
    ensures Inv(Init(elem, max)) && Inside(Init(elem, max))
  {
  }

  lemma AllocKeeps(a: Arena, commits: bool)
    requires Inv(a)
    ensures var (r, p) := Alloc(a, commits);
      && Inv(r)
      && (p.None? <==> a.free == [] && !CanCarve(a, commits)) && (p.None? ==> r == a)
      && (p.Some? ==> p.value !in a.live && p.value in r.live && Contains(r, p.value) && |r.live| == |a.live| + 1)
  {
    var (r, p) := Alloc(a, commits);
    if a.free != [] {
      assert a.free[0] in a.free && a.free[0] !in a.free[1..];
      forall q: nat ensures q in r.live || q in r.free <==> Contains(r, q) {
        assert q in a.free <==> q == a.free[0] || q in a.free[1..];
      }
    } else if CanCarve(a, commits) {
      CarveKeeps(a, r.committed);
    }
  }

  /** An allocation stays in the committed part exactly when its need is met before or by one
      growth: growing adds a quarter, however much is needed. */
  lemma AllocInside(a: Arena, commits: bool)
    requires Inside(a)
    ensures Inside(Alloc(a, commits).0) <==> Fits(a, commits)
  {
  }

  lemma CarveKeeps(a: Arena, more: nat)
    requires Inv(a) && a.free == [] && more <= a.reserved
    ensures var r := a.(committed := more, watermark := a.watermark + a.elem, live := a.live + {a.watermark});
      Inv(r) && a.watermark !in a.live && Contains(r, a.watermark)
  {
    var r := a.(committed := more, watermark := a.watermark + a.elem, live := a.live + {a.watermark});
    NextSlot(a.elem, a.watermark);
    assert !Contains(a, a.watermark);
    forall q: nat ensures q in r.live || q in r.free <==> Contains(r, q) {
      if q % a.elem == 0 && q > a.watermark { SlotStep(a.elem, a.watermark, q); }
    }
  }

  lemma FreeKeeps(a: Arena, p: nat)
    requires Inv(a) && p in a.live
    ensures Inv(Free(a, p)) && |Free(a, p).live| == |a.live| - 1
  {
    var r := Free(a, p);
    forall q: nat ensures q in r.live || q in r.free <==> Contains(r, q) {
      assert q in r.free <==> q == p || q in a.free;
    }
  }

  /** Elements never overlap, and lie below the watermark. */
  lemma ElementsApart(a: Arena, p: nat, q: nat)
    requires Inv(a) && p in a.live && q in a.live && p < q
    ensures p + a.elem <= q && q + a.elem <= a.watermark
  {
    assert Contains(a, p) && Contains(a, q);
    SlotStep(a.elem, p, q);
    SlotStep(a.elem, q, a.watermark);
  }

  // ---------------------------------------------------------------- runs

  datatype Op = New(commits: bool) | Drop(p: nat)

  /** Freeing what is not live is no call balanced callers make. */
  function Step(a: Arena, op: Op): Arena {
    match op
    case New(commits) => Alloc(a, commits).0
    case Drop(p) => if p in a.live then Free(a, p) else a
  }

  function Run(a: Arena, ops: seq<Op>): Arena
    decreases |ops|
  {
    if ops == [] then a else Run(Step(a, ops[0]), ops[1..])
  }

  lemma {:induction false} RunKeeps(a: Arena, ops: seq<Op>)
    requires Inv(a)
    ensures Inv(Run(a, ops)) && Run(a, ops).elem == a.elem && Run(a, ops).reserved == a.reserved
    decreases |ops|
  {
    hide Inv;
    if ops != [] {
      match ops[0] {
        case New(commits) => AllocKeeps(a, commits);
        case Drop(p) => if p in a.live { FreeKeeps(a, p); }
      }
      RunKeeps(Step(a, ops[0]), ops[1..]);
    }
  }

  /** Every allocation of the run needs at most one growth. */
  predicate AllFit(a: Arena, ops: seq<Op>)
    decreases |ops|
  {
    ops == [] || ((ops[0].New? ==> Fits(a, ops[0].commits)) && AllFit(Step(a, ops[0]), ops[1..]))
  }

  /** Everything is committed after every step of the run. */
  predicate AllInside(a: Arena, ops: seq<Op>)
    decreases |ops|
  {
    Inside(a) && (ops == [] || AllInside(Step(a, ops[0]), ops[1..]))
  }

  lemma {:induction false} RunInside(a: Arena, ops: seq<Op>)
    requires Inside(a)
    ensures AllInside(a, ops) <==> AllFit(a, ops)
    decreases |ops|
  {
    hide Alloc, Fits;
    if ops != [] {
      if ops[0].New? { AllocInside(a, ops[0].commits); }
      if Inside(Step(a, ops[0])) { RunInside(Step(a, ops[0]), ops[1..]); }
    }
  }

  /** Elements of at most 512 KiB: one growth is always enough. */
  ghost predicate Easy(a: Arena) {
    a.elem <= SAFE_ELEM && Inside(a) && (a.committed >= INITIAL || a.committed == a.reserved)
  }

  lemma {:induction false} SmallElementsFit(a: Arena, ops: seq<Op>)
    requires Easy(a)
    ensures AllFit(a, ops)
    decreases |ops|
  {
    if ops != [] { SmallElementsFit(Step(a, ops[0]), ops[1..]); }
  }

  /** Every run of allocations and frees, for elements of any size: live and free elements tile the
      part below the watermark, and that part is always committed exactly when no allocation
      needed more than one growth; so it is for elements of at most 512 KiB. */
  lemma EveryRun(elem: nat, max: nat, ops: seq<Op>)
    requires 0 < elem
    ensures var a := Run(Init(elem, max), ops);
      && a.committed <= max && Distinct(a.free)
      && (forall p: nat :: p in a.live || p in a.free <==> p < a.watermark && p % elem == 0)
      && (forall p | p in a.live :: p !in a.free)
      && (forall p, q | p in a.live && q in a.live && p < q :: p + elem <= q)
    ensures AllInside(Init(elem, max), ops) <==> AllFit(Init(elem, max), ops)
    ensures elem <= SAFE_ELEM ==> AllInside(Init(elem, max), ops)
  {
    hide Run, AllFit, AllInside;
    InitKeeps(elem, max);
    RunKeeps(Init(elem, max), ops);
    var a := Run(Init(elem, max), ops);
    forall p, q | p in a.live && q in a.live && p < q ensures p + elem <= q { ElementsApart(a, p, q); }
    RunInside(Init(elem, max), ops);
    if elem <= SAFE_ELEM { SmallElementsFit(Init(elem, max), ops); }
  }

  /** Larger elements can be carved past the committed part. */
  lemma LargeElementOverruns()
    ensures var a := Init(3072 * KIB, 65536 * KIB);
      var (r, p) := Alloc(a, true); p == Some(0) && r.watermark > r.committed
  {
  }

  // ---------------------------------------------------------------- in memory

  /** Where the list of free elements leads: each holds the address of the next. */
  ghost predicate Listed(words: map<nat, Maybe<nat>>, head: Maybe<nat>, q: seq<nat>)
    decreases |q|
  {
    if q == [] then head == None
    else head == Some(q[0]) && q[0] in words && Listed(words, words[q[0]], q[1..])
  }

  lemma {:induction false} ListedFrame(words: map<nat, Maybe<nat>>, head: Maybe<nat>, q: seq<nat>,
                                       p: nat, w: Maybe<nat>)
    requires Listed(words, head, q) && p !in q
    ensures Listed(words[p := w], head, q)
    decreases |q|
  {
    if q != [] { ListedFrame(words, words[q[0]], q[1..], p, w); }
  }

  class Fixed {
    const elem: nat
    const reserved: nat
    var committed: nat
    var watermark: nat
    var liveCount: nat
    var freeHead: Maybe<nat>
    var words: map<nat, Maybe<nat>>
    ghost var state: Arena

    ghost predicate Valid() reads this {
      && Inv(state) && state.elem == elem && state.reserved == reserved
      && committed == state.committed && watermark == state.watermark && liveCount == |state.live|
      && Listed(words, freeHead, state.free)
    }

    constructor (size: nat, max: nat)
      requires 0 < size
      ensures Valid() && state == Init(size, max)
    {
      elem, reserved := size, max;
      committed := if INITIAL > max then max else INITIAL;
      watermark, liveCount, freeHead, words := 0, 0, None, map[];
      state := Init(size, max);
    }

    method AllocElem(commits: bool) returns (p: Maybe<nat>)
      requires Valid()
      modifies this
      ensures Valid() && (state, p) == Alloc(old(state), commits)
    {
      hide Inv;
      assert elem > 0 by { InvElem(state); }
      AllocKeeps(state, commits);
      ghost var after := Alloc(state, commits).0;
      if freeHead.Some? {
        p := freeHead;
        freeHead := words[p.value];
        liveCount := liveCount + 1;
        state := after;
        return;
      }
      var needed := watermark + elem;
      if needed > committed {
        var grow := committed / 4;
        if grow < MIN_GROW { grow := MIN_GROW; }
        if grow > MAX_GROW { grow := MAX_GROW; }
        if committed + grow > reserved { return None; }
        if !commits { return None; }
        committed := committed + grow;
      }
      p := Some(watermark);
      watermark := needed;
      liveCount := liveCount + 1;
      state := after;
    }

    method FreeElem(p: nat)
      requires Valid() && p in state.live
      modifies this
      ensures Valid() && state == Free(old(state), p)
    {
      hide Inv;
      FreeKeeps(state, p);
      assert p !in state.free by { InvApart(state, p); }
      ListedFrame(words, freeHead, state.free, p, freeHead);
      words := words[p := freeHead];
      freeHead := Some(p);
      assert ([p] + state.free)[1..] == state.free;
      if liveCount > 0 { liveCount := liveCount - 1; }
      state := Free(state, p);
    }

    /** The membership test answers for exactly the elements ever handed out. */
    method Has(p: int) returns (yes: bool)
      requires Valid()
      ensures yes <==> p >= 0 && (p in state.live || p in state.free)
    {
      if p < 0 || p >= watermark { return false; }
      assert Contains(state, p) <==> p % elem == 0;
      yes := p % elem == 0;
    }
  }

  lemma InvElem(a: Arena)
    requires Inv(a)
    ensures a.elem > 0
  {
  }

  lemma InvApart(a: Arena, p: nat)
    requires Inv(a) && p in a.live
    ensures p !in a.free
  {
  }
}
