/** The pools: size classes, buckets of equal slots with recycled blocks, and block chains. */
module Pool {
  import opened Common
  import opened Grid
  import opened PoolBlocks

  const CACHE_ALIGN: nat := 16

  const SIZE_CLASSES: seq<nat> := [
    16, 24, 32, 40, 48, 56, 64, 80, 96, 112, 128, 160, 192, 224, 256, 320,
    384, 448, 512, 640, 768, 896, 1024, 1280, 1536, 1792, 2048, 2560, 3072, 4096, 8192, 16384]

  /** The smallest class that is large enough, or none. */
  method SizeClass(need: nat) returns (i: int)
    ensures i == -1 <==> need > 16384
    ensures i != -1 ==> 0 <= i < |SIZE_CLASSES| && need <= SIZE_CLASSES[i]
    ensures i > 0 ==> SIZE_CLASSES[i - 1] < need
  {
    i := 0;
    while i < |SIZE_CLASSES|
      invariant 0 <= i <= |SIZE_CLASSES| && (i > 0 ==> SIZE_CLASSES[i - 1] < need)
    {
      if need <= SIZE_CLASSES[i] {
        ClassesGrow(i, 31);
        return;
      }
      i := i + 1;
    }
    i := -1;
  }

  lemma {:induction false} ClassesGrow(i: nat, j: nat)
    requires i <= j < |SIZE_CLASSES|
    ensures SIZE_CLASSES[i] <= SIZE_CLASSES[j]
  {
    if i < j { ClassesGrow(i, j - 1); }
  }

  // ---------------------------------------------------------------- buckets

  datatype Slot = Slot(block: nat, off: nat)

  /** `blocks` is newest first; the current block, if any, is the first one. `spare` are recycled
      blocks, `slots` the list of free slots. */
  datatype Bucket = Bucket(
    stride: nat,
    blockSize: nat,
    blocks: seq<Block>,
    current: bool,
    spare: seq<Block>,
    slots: seq<Slot>,
    live: set<Slot>,
    next: nat)

  function StrideOf(classSize: nat): nat { AlignUp(classSize, CACHE_ALIGN) }

  function EmptyBucket(classSize: nat, blockSize: nat): Bucket {
    Bucket(StrideOf(classSize), blockSize, [], false, [], [], {}, 0)
  }

  /** A block to carve from: the current one if it has room, a recycled one, or a new one. */
  function WithRoom(b: Bucket): Bucket {
    if b.current && b.blocks != [] && b.blocks[0].used + b.stride <= b.blocks[0].cap then b
    else if b.spare != [] then
      b.(blocks := [b.spare[0].(used := 0)] + b.blocks, current := true, spare := b.spare[1..])
    else
      var cap := if b.blockSize < b.stride then b.stride else b.blockSize;
      b.(blocks := [Block(b.next, 0, cap)] + b.blocks, current := true, next := b.next + 1)
  }

  function Carve(b: Bucket): (Bucket, Slot)
    requires b.blocks != []
  {
    var k := b.blocks[0];
    var s := Slot(k.id, k.used);
    (b.(blocks := [k.(used := k.used + b.stride)] + b.blocks[1..], live := b.live + {s}), s)
  }

  /** `pool_bucket_alloc_fast`; alignments beyond what the slots have are refused. */
  function BucketAlloc(b: Bucket, align: nat): (Bucket, Maybe<Slot>) {
    if align > CACHE_ALIGN then (b, None)
    else if b.slots != [] then (b.(slots := b.slots[1..], live := b.live + {b.slots[0]}), Some(b.slots[0]))
    else
      var (r, s) := Carve(WithRoom(b)); (r, Some(s))
  }

  // ---------------------------------------------------------------- the collector's part

  predicate AnyLive(k: Block, marked: set<Slot>) { exists s | s in marked :: s.block == k.id }

  /** Pushes the unmarked slots of a block, from `off` on, onto the list of free slots. */
  function PushFree(id: nat, off: nat, used: nat, stride: nat, marked: set<Slot>, slots: seq<Slot>): seq<Slot>
    requires stride > 0
    decreases used - off
  {
    if off >= used then slots
    else
      var s := Slot(id, off);
      PushFree(id, off + stride, used, stride, marked, if s in marked then slots else [s] + slots)
  }

  /** One block: recycled if none of its slots is marked, else its unmarked slots are freed. */
  function SweepBlock(b: Bucket, k: Block, marked: set<Slot>): Bucket
    requires b.stride > 0
  {
    if AnyLive(k, marked) then b.(slots := PushFree(k.id, 0, k.used, b.stride, marked, b.slots))
    else
      b.(blocks := Less(b.blocks, k.id),
         current := b.current && b.blocks != [] && b.blocks[0].id != k.id,
         spare := [k.(used := 0)] + b.spare)
  }

  function SweepBlocks(b: Bucket, order: seq<Block>, marked: set<Slot>): (r: Bucket)
    requires b.stride > 0
    ensures r.stride == b.stride && r.blockSize == b.blockSize && r.next == b.next && r.live == b.live
    decreases |order|
  {
    if order == [] then b else SweepBlocks(SweepBlock(b, order[0], marked), order[1..], marked)
  }

  /** At most two recycled blocks are kept. */
  function FirstTwo(spare: seq<Block>): seq<Block> { if |spare| > 2 then spare[..2] else spare }

  /** `gc_strings_sweep` on one bucket, after `gc_strings_begin` forgot its free slots: the blocks
      that anything was carved from are visited in the order of their addresses. */
  function SweepBucket(b: Bucket, order: seq<Block>, marked: set<Slot>): Bucket
    requires b.stride > 0
  {
    var r := SweepBlocks(b.(slots := [], live := marked), order, marked);
    r.(spare := FirstTwo(r.spare))
  }

  /** Any order of the carved blocks. */
  ghost predicate IsOrder(order: seq<Block>, blocks: seq<Block>) {
    DistinctIds(order) && forall k :: k in order <==> k in blocks && k.used > 0
  }

  /** Slot `s` was carved from one of the blocks. */
  predicate Carved(ks: seq<Block>, s: Slot, stride: nat)
    requires stride > 0
  {
    ks != [] && ((ks[0].id == s.block && s.off < ks[0].used && s.off % stride == 0) || Carved(ks[1..], s, stride))
  }

  // ---------------------------------------------------------------- what every run keeps

  predicate BlockOk(k: Block, stride: nat, next: nat)
    requires stride > 0
  {
    k.used <= k.cap && k.used % stride == 0 && stride <= k.cap && k.id < next
  }

  /** Every slot carved from the blocks is live or free, and only one of these; blocks are carved
      within their capacity. */
  ghost predicate Inv(b: Bucket) {
    && b.stride > 0 && b.stride % CACHE_ALIGN == 0
    && (forall k <- b.blocks :: BlockOk(k, b.stride, b.next)) && DistinctIds(b.blocks)
    && (forall k <- b.spare :: BlockOk(k, b.stride, b.next)) && DistinctIds(b.spare)
    && (forall j <- b.blocks, k <- b.spare :: j.id != k.id)
    && Distinct(b.slots) && (forall s | s in b.live :: s !in b.slots)
    && (forall s :: s in b.live || s in b.slots <==> Carved(b.blocks, s, b.stride))
  }

  lemma {:induction false} CarvedFrom(ks: seq<Block>, s: Slot, stride: nat)
    requires stride > 0 && Carved(ks, s, stride)
    ensures exists k <- ks :: k.id == s.block && s.off < k.used && s.off % stride == 0
  {
    if !(ks[0].id == s.block && s.off < ks[0].used && s.off % stride == 0) {
      CarvedFrom(ks[1..], s, stride);
      var k :| k in ks[1..] && k.id == s.block && s.off < k.used && s.off % stride == 0;
      assert k in ks;
    }
  }

  lemma EmptyKeeps(classSize: nat, blockSize: nat)
    requires classSize > 0
    ensures Inv(EmptyBucket(classSize, blockSize))
  {
  }

  /** A new first block without a carved byte changes nothing about the slots. */
  lemma FreshBlock(b: Bucket, k: Block, spare: seq<Block>, next: nat)
    requires Inv(b) && b.next <= next && BlockOk(k, b.stride, next) && k.used == 0
    requires forall j <- b.blocks :: j.id != k.id
    requires DistinctIds(spare) && forall j <- spare :: j in b.spare && j.id != k.id
    ensures Inv(b.(blocks := [k] + b.blocks, current := true, spare := spare, next := next))
  {
    var r := b.(blocks := [k] + b.blocks, current := true, spare := spare, next := next);
    assert r.blocks[1..] == b.blocks;
    forall s ensures Carved(r.blocks, s, b.stride) <==> Carved(b.blocks, s, b.stride) { }
    forall j <- r.blocks ensures BlockOk(j, r.stride, r.next) { assert j == k || j in b.blocks; }
    forall j <- r.spare ensures BlockOk(j, r.stride, r.next) { assert j in b.spare; }
    forall i, j | 0 <= i < j < |r.blocks| ensures r.blocks[i].id != r.blocks[j].id {
      if i == 0 { assert r.blocks[j] in b.blocks; }
    }
  }

  lemma RoomKeeps(b: Bucket)
    requires Inv(b)
    ensures var r := WithRoom(b);
      && Inv(r) && r.blocks != [] && r.blocks[0].used + r.stride <= r.blocks[0].cap
      && r.live == b.live && r.slots == b.slots && r.stride == b.stride
  {
    if b.current && b.blocks != [] && b.blocks[0].used + b.stride <= b.blocks[0].cap {
    } else if b.spare != [] {
      var k := b.spare[0];
      assert k in b.spare;
      ZeroMod(b.stride);
      forall j <- b.spare[1..] ensures j in b.spare && j.id != k.id { }
      FreshBlock(b, k.(used := 0), b.spare[1..], b.next);
    } else {
      var cap := if b.blockSize < b.stride then b.stride else b.blockSize;
      ZeroMod(b.stride);
      FreshBlock(b, Block(b.next, 0, cap), b.spare, b.next + 1);
    }
  }

  lemma ZeroMod(e: nat)
    requires e > 0
    ensures 0 % e == 0
  {
  }

  lemma CarveKeeps(b: Bucket)
    requires Inv(b) && b.blocks != [] && b.blocks[0].used + b.stride <= b.blocks[0].cap
    ensures var (r, s) := Carve(b); Inv(r) && s !in b.live && s !in b.slots && s in r.live
  {
    var (r, s) := Carve(b);
    var k, t := b.blocks[0], b.blocks[1..];
    var n := k.(used := k.used + b.stride);
    assert k in b.blocks;
    NextSlot(b.stride, k.used);
    assert r.blocks[0] == n && r.blocks[1..] == t;
    NotInRest(b, s);
    forall x ensures Carved(r.blocks, x, b.stride) <==> x == s || Carved(b.blocks, x, b.stride) {
      if x.block == k.id && x.off % b.stride == 0 && k.used < x.off { SlotStep(b.stride, k.used, x.off); }
    }
    forall j <- r.blocks ensures BlockOk(j, r.stride, r.next) { assert j == n || j in b.blocks; }
    forall j <- r.blocks, i <- r.spare ensures j.id != i.id { assert j == n || j in b.blocks; }
  }

  lemma NotInRest(b: Bucket, s: Slot)
    requires Inv(b) && b.blocks != [] && s.block == b.blocks[0].id
    ensures !Carved(b.blocks[1..], s, b.stride)
  {
    if Carved(b.blocks[1..], s, b.stride) {
      CarvedFrom(b.blocks[1..], s, b.stride);
      assert false;
    }
  }

  lemma AllocKeeps(b: Bucket, align: nat)
    requires Inv(b)
    ensures var (r, s) := BucketAlloc(b, align);
      && Inv(r) && (s.None? <==> align > CACHE_ALIGN) && (s.None? ==> r == b)
      && (s.Some? ==> s.value !in b.live && r.live == b.live + {s.value})
  {
    if align <= CACHE_ALIGN {
      if b.slots != [] {
        PopKeeps(b);
      } else {
        RoomKeeps(b);
        CarveKeeps(WithRoom(b));
      }
    }
  }

  lemma PopKeeps(b: Bucket)
    requires Inv(b) && b.slots != []
    ensures Inv(b.(slots := b.slots[1..], live := b.live + {b.slots[0]})) && b.slots[0] !in b.live
  {
    var s, q := b.slots[0], b.slots[1..];
    assert s in b.slots && s !in q;
    forall x ensures x in b.slots <==> x == s || x in q { }
  }

  // ---------------------------------------------------------------- sweeping keeps it

  /** Slot `s` is one of those pushed from `off` on. */
  predicate Pushed(s: Slot, id: nat, off: nat, used: nat, stride: nat, marked: set<Slot>)
    requires stride > 0
  {
    s.block == id && off <= s.off < used && s.off % stride == 0 && s !in marked
  }

  lemma {:induction false} PushFreeIs(id: nat, off: nat, used: nat, stride: nat, marked: set<Slot>, slots: seq<Slot>)
    requires stride > 0 && off % stride == 0 && Distinct(slots)
    requires forall s <- slots :: s.block == id ==> s.off < off
    ensures var r := PushFree(id, off, used, stride, marked, slots);
      && Distinct(r) && (forall s :: s in r <==> s in slots || Pushed(s, id, off, used, stride, marked))
    decreases used - off
  {
    if off < used {
      var x := Slot(id, off);
      var more := if x in marked then slots else [x] + slots;
      NextSlot(stride, off);
      assert forall s :: s in more <==> s in slots || (s == x && x !in marked);
      PushFreeIs(id, off + stride, used, stride, marked, more);
      forall s ensures Pushed(s, id, off, used, stride, marked) <==>
        (s == x && x !in marked) || Pushed(s, id, off + stride, used, stride, marked)
      {
        if s.off % stride == 0 && s.off > off { SlotStep(stride, off, s.off); }
      }
    }
  }

  lemma {:induction false} CarvedLess(ks: seq<Block>, id: nat, s: Slot, stride: nat)
    requires stride > 0
    ensures Carved(Less(ks, id), s, stride) <==> Carved(ks, s, stride) && s.block != id
  {
    if ks != [] {
      CarvedLess(ks[1..], id, s, stride);
      var t := Less(ks[1..], id);
      if ks[0].id != id { assert ([ks[0]] + t)[1..] == t; } else { assert [] + t == t; }
    }
  }

  lemma {:induction false} CarvedIn(ks: seq<Block>, k: Block, s: Slot, stride: nat)
    requires stride > 0 && DistinctIds(ks) && k in ks && s.block == k.id
    ensures Carved(ks, s, stride) <==> s.off < k.used && s.off % stride == 0
  {
    if ks[0] == k {
      if Carved(ks[1..], s, stride) { CarvedFrom(ks[1..], s, stride); }
    } else {
      assert k in ks[1..];
      CarvedIn(ks[1..], k, s, stride);
    }
  }

  predicate Waiting(todo: seq<Block>, id: nat) { exists k <- todo :: k.id == id }

  /** Half-way through a sweep: the free slots are the unmarked ones of the blocks already
      visited, and nothing marked was given away. */
  ghost predicate Midway(b: Bucket, todo: seq<Block>, marked: set<Slot>) {
    && b.stride > 0 && b.stride % CACHE_ALIGN == 0 && b.live == marked
    && (forall k <- b.blocks :: BlockOk(k, b.stride, b.next)) && DistinctIds(b.blocks)
    && (forall k <- b.spare :: BlockOk(k, b.stride, b.next)) && DistinctIds(b.spare)
    && (forall j <- b.blocks, k <- b.spare :: j.id != k.id)
    && DistinctIds(todo) && (forall k <- todo :: k in b.blocks)
    && (forall s | s in marked :: Carved(b.blocks, s, b.stride))
    && Distinct(b.slots)
    && (forall s :: s in b.slots <==> Carved(b.blocks, s, b.stride) && s !in marked && !Waiting(todo, s.block))
  }

  lemma WaitingRest(todo: seq<Block>, id: nat)
    requires todo != [] && DistinctIds(todo)
    ensures Waiting(todo, id) <==> id == todo[0].id || Waiting(todo[1..], id)
    ensures !Waiting(todo[1..], todo[0].id)
  {
    assert forall k :: k in todo <==> k == todo[0] || k in todo[1..];
  }

  lemma FreesSlots(b: Bucket, todo: seq<Block>, marked: set<Slot>)
    requires Midway(b, todo, marked) && todo != [] && AnyLive(todo[0], marked)
    ensures Midway(SweepBlock(b, todo[0], marked), todo[1..], marked)
  {
    hide BlockOk;
    var k, r := todo[0], SweepBlock(b, todo[0], marked);
    assert k in todo;
    forall s <- b.slots ensures s.block != k.id { WaitingRest(todo, s.block); }
    ZeroMod(b.stride);
    PushFreeIs(k.id, 0, k.used, b.stride, marked, b.slots);
    forall s ensures s in r.slots <==> Carved(r.blocks, s, r.stride) && s !in marked && !Waiting(todo[1..], s.block) {
      WaitingRest(todo, s.block);
      if s.block == k.id { CarvedIn(b.blocks, k, s, b.stride); }
    }
  }

  lemma RecyclesBlock(b: Bucket, todo: seq<Block>, marked: set<Slot>)
    requires Midway(b, todo, marked) && todo != [] && !AnyLive(todo[0], marked)
    ensures Midway(SweepBlock(b, todo[0], marked), todo[1..], marked)
  {
    var k, r := todo[0], SweepBlock(b, todo[0], marked);
    assert k in todo;
    LessIs(b.blocks, k.id);
    ZeroMod(b.stride);
    forall s ensures Carved(r.blocks, s, r.stride) <==> Carved(b.blocks, s, b.stride) && s.block != k.id {
      CarvedLess(b.blocks, k.id, s, b.stride);
    }
    forall s ensures s in r.slots <==> Carved(r.blocks, s, r.stride) && s !in marked && !Waiting(todo[1..], s.block) {
      WaitingRest(todo, s.block);
    }
    forall j <- todo[1..] ensures j in r.blocks { assert j in todo && j.id != k.id; }
    SpareMore(b, k, r.blocks);
  }

  lemma SpareMore(b: Bucket, k: Block, blocks: seq<Block>)
    requires b.stride > 0 && k in b.blocks && BlockOk(k, b.stride, b.next) && 0 % b.stride == 0
    requires (forall j <- b.spare :: BlockOk(j, b.stride, b.next)) && DistinctIds(b.spare)
    requires forall i <- b.blocks, j <- b.spare :: i.id != j.id
    requires forall j <- blocks :: j in b.blocks && j.id != k.id
    ensures var spare := [k.(used := 0)] + b.spare;
      && (forall j <- spare :: BlockOk(j, b.stride, b.next)) && DistinctIds(spare)
      && (forall i <- blocks, j <- spare :: i.id != j.id)
  {
    var spare := [k.(used := 0)] + b.spare;
    forall j <- spare ensures BlockOk(j, b.stride, b.next) && forall i <- blocks :: i.id != j.id {
      assert j == k.(used := 0) || j in b.spare;
    }
    forall i, j | 0 <= i < j < |spare| ensures spare[i].id != spare[j].id {
      if i == 0 { assert spare[j] in b.spare; }
    }
  }

  lemma {:induction false} SweepBlocksKeeps(b: Bucket, todo: seq<Block>, marked: set<Slot>)
    requires Midway(b, todo, marked)
    ensures Midway(SweepBlocks(b, todo, marked), [], marked)
    decreases |todo|
  {
    hide Midway, SweepBlock;
    if todo != [] {
      assert b.stride > 0 by { MidwayStride(b, todo, marked); }
      if AnyLive(todo[0], marked) { FreesSlots(b, todo, marked); } else { RecyclesBlock(b, todo, marked); }
      SweepBlocksKeeps(SweepBlock(b, todo[0], marked), todo[1..], marked);
    }
  }

  lemma MidwayStride(b: Bucket, todo: seq<Block>, marked: set<Slot>)
    requires Midway(b, todo, marked)
    ensures b.stride > 0
  {
  }

  lemma SweepStarts(b: Bucket, order: seq<Block>, marked: set<Slot>)
    requires Inv(b) && marked <= b.live && IsOrder(order, b.blocks)
    ensures Midway(b.(slots := [], live := marked), order, marked)
  {
    forall s | Carved(b.blocks, s, b.stride) ensures Waiting(order, s.block) {
      CarvedFrom(b.blocks, s, b.stride);
      var k :| k in b.blocks && k.id == s.block && s.off < k.used && s.off % b.stride == 0;
      assert k in order;
    }
  }

  /** Of the visited blocks exactly those with a marked slot stay, and none is lost. */
  lemma {:induction false} SweptBlocks(b: Bucket, todo: seq<Block>, marked: set<Slot>)
    requires b.stride > 0 && DistinctIds(b.blocks) && DistinctIds(todo) && forall k <- todo :: k in b.blocks
    ensures var r := SweepBlocks(b, todo, marked);
      && (forall k :: k in r.blocks <==> k in b.blocks && (k in todo ==> AnyLive(k, marked)))
      && |r.blocks| + |r.spare| == |b.blocks| + |b.spare|
    decreases |todo|
  {
    hide AnyLive, PushFree;
    if todo != [] {
      var k, r := todo[0], SweepBlock(b, todo[0], marked);
      assert forall j :: j in todo <==> j == k || j in todo[1..];
      LessIs(b.blocks, k.id);
      SweptBlocks(r, todo[1..], marked);
    }
  }

  /** Whatever the order of the blocks, a sweep leaves the marked slots live and every other carved
      slot of the blocks that stay free exactly once. The blocks that stay are those with a marked
      slot; of the others and the spare ones at most two are kept. */
  lemma SweepKeeps(b: Bucket, order: seq<Block>, marked: set<Slot>)
    requires Inv(b) && marked <= b.live && IsOrder(order, b.blocks)
    ensures var r := SweepBucket(b, order, marked);
      && Inv(r) && r.live == marked
      && (forall k :: k in r.blocks <==> k in b.blocks && (k.used > 0 ==> AnyLive(k, marked)))
      && |r.spare| == Fewer(2, |b.blocks| + |b.spare| - |r.blocks|)
  {
    hide Midway, SweepBlocks, BlockOk;
    assert b.stride > 0;
    SweepStarts(b, order, marked);
    SweepBlocksKeeps(b.(slots := [], live := marked), order, marked);
    SweepEnds(SweepBlocks(b.(slots := [], live := marked), order, marked), marked);
    SweptBlocks(b.(slots := [], live := marked), order, marked);
  }

  function Fewer(m: int, n: int): int { if n < m then n else m }

  lemma SweepEnds(r: Bucket, marked: set<Slot>)
    requires Midway(r, [], marked)
    ensures Inv(r.(spare := FirstTwo(r.spare))) && r.live == marked
  {
    assert forall s :: !Waiting([], s);
    assert forall k <- FirstTwo(r.spare) :: k in r.spare;
  }

  // ---------------------------------------------------------------- runs

  datatype Op = Take(align: nat) | Sweep(marked: set<Slot>, order: seq<Block>)

  /** Marks reach live slots only, and a sweep visits every carved block once. */
  ghost function Step(b: Bucket, op: Op): Bucket
    requires Inv(b)
  {
    match op
    case Take(align) => BucketAlloc(b, align).0
    case Sweep(marked, order) =>
      if marked <= b.live && IsOrder(order, b.blocks) then SweepBucket(b, order, marked) else b
  }

  lemma StepKeeps(b: Bucket, op: Op)
    requires Inv(b)
    ensures Inv(Step(b, op)) && Step(b, op).stride == b.stride
  {
    match op
    case Take(align) =>
      AllocKeeps(b, align);
      StrideStays(b, align);
    case Sweep(marked, order) =>
      if marked <= b.live && IsOrder(order, b.blocks) { SweepKeeps(b, order, marked); }
  }

  lemma StrideStays(b: Bucket, align: nat)
    ensures BucketAlloc(b, align).0.stride == b.stride
  {
  }

  ghost function Run(b: Bucket, ops: seq<Op>): (r: Bucket)
    requires Inv(b)
    ensures Inv(r)
    decreases |ops|
  {
    if ops == [] then b else (StepKeeps(b, ops[0]); Run(Step(b, ops[0]), ops[1..]))
  }

  lemma {:induction false} RunStride(b: Bucket, ops: seq<Op>)
    requires Inv(b)
    ensures Run(b, ops).stride == b.stride
    decreases |ops|
  {
    hide Inv, Step;
    if ops != [] {
      StepKeeps(b, ops[0]);
      RunStride(Step(b, ops[0]), ops[1..]);
    }
  }

  /** Every run of allocations and sweeps on the bucket of a size class: live slots are aligned,
      hold the class size, lie within the capacity of their block and do not overlap. */
  lemma EveryRun(classSize: nat, blockSize: nat, ops: seq<Op>)
    requires classSize > 0
    ensures Inv(EmptyBucket(classSize, blockSize))
    ensures var b := Run(EmptyBucket(classSize, blockSize), ops);
      && b.stride >= classSize
      && (forall s | s in b.live ::
           s.off % CACHE_ALIGN == 0 && exists k <- b.blocks :: k.id == s.block && s.off + classSize <= k.cap)
      && (forall s, t | s in b.live && t in b.live && s.block == t.block && s.off < t.off :: s.off + classSize <= t.off)
  {
    hide Run;
    EmptyKeeps(classSize, blockSize);
    var b := Run(EmptyBucket(classSize, blockSize), ops);
    RunStride(EmptyBucket(classSize, blockSize), ops);
    forall s | s in b.live
      ensures s.off % CACHE_ALIGN == 0 && exists k <- b.blocks :: k.id == s.block && s.off + classSize <= k.cap
    {
      LiveInside(b, s);
    }
    forall s, t | s in b.live && t in b.live && s.block == t.block && s.off < t.off
      ensures s.off + classSize <= t.off
    {
      OnGrid(b, s);
      OnGrid(b, t);
      SlotStep(b.stride, s.off, t.off);
    }
  }

  lemma OnGrid(b: Bucket, s: Slot)
    requires Inv(b) && s in b.live
    ensures s.off % b.stride == 0
  {
    CarvedFrom(b.blocks, s, b.stride);
  }

  lemma LiveInside(b: Bucket, s: Slot)
    requires Inv(b) && s in b.live
    ensures s.off % CACHE_ALIGN == 0 && exists k <- b.blocks :: k.id == s.block && s.off + b.stride <= k.cap
  {
    CarvedFrom(b.blocks, s, b.stride);
    var k :| k in b.blocks && k.id == s.block && s.off < k.used && s.off % b.stride == 0;
    assert BlockOk(k, b.stride, b.next);
    SlotStep(b.stride, s.off, k.used);
    ModDivides(s.off, b.stride, CACHE_ALIGN);
    assert s.off + b.stride <= k.cap;
  }

  // ---------------------------------------------------------------- in memory

  /** A bucket's lists as the fast path changes them. */
  class Slots {
    const stride: nat
    const blockSize: nat
    var blocks: seq<Block>
    var current: bool
    var spare: seq<Block>
    var slots: seq<Slot>
    var next: nat
    ghost var live: set<Slot>

    ghost function State(): Bucket reads this {
      Bucket(stride, blockSize, blocks, current, spare, slots, live, next)
    }

    constructor (classSize: nat, size: nat)
      requires classSize > 0
      ensures State() == EmptyBucket(classSize, size) && Inv(State())
    {
      stride, blockSize := StrideOf(classSize), size;
      blocks, current, spare, slots, next, live := [], false, [], [], 0, {};
      new;
      EmptyKeeps(classSize, size);
    }

    method TakeSlot(align: nat) returns (p: Maybe<Slot>)
      requires Inv(State())
      modifies this
      ensures Inv(State()) && (State(), p) == BucketAlloc(old(State()), align)
    {
      hide Inv;
      AllocKeeps(State(), align);
      if align > CACHE_ALIGN { return None; }
      if slots != [] {
        p := Some(slots[0]);
        live := live + {slots[0]};
        slots := slots[1..];
        return;
      }
      if !current || blocks == [] || blocks[0].used + stride > blocks[0].cap {
        if spare != [] {
          blocks := [spare[0].(used := 0)] + blocks;
          spare := spare[1..];
        } else {
          blocks := [Block(next, 0, if blockSize < stride then stride else blockSize)] + blocks;
          next := next + 1;
        }
        current := true;
      }
      var k := blocks[0];
      p := Some(Slot(k.id, k.used));
      live := live + {p.value};
      blocks := [k.(used := k.used + stride)] + blocks[1..];
    }

    /** The inner loop over the slots of a block that keeps some. */
    method FreeSlots(k: Block, marked: set<Slot>)
      requires stride > 0
      modifies `slots
      ensures slots == PushFree(k.id, 0, k.used, stride, marked, old(slots))
    {
      var off := 0;
      while off < k.used
        invariant PushFree(k.id, off, k.used, stride, marked, slots)
               == PushFree(k.id, 0, k.used, stride, marked, old(slots))
      {
        if Slot(k.id, off) !in marked { slots := [Slot(k.id, off)] + slots; }
        off := off + stride;
      }
    }

    /** The loop over the blocks, in the order of their addresses. */
    method SweepSlots(order: seq<Block>, marked: set<Slot>)
      requires Inv(State()) && marked <= live && IsOrder(order, blocks)
      modifies this
      ensures Inv(State()) && State() == SweepBucket(old(State()), order, marked)
    {
      hide Inv, IsOrder, PushFree;
      assert stride > 0 by { InvStride(State()); }
      SweepKeeps(State(), order, marked);
      slots, live := [], marked;
      ghost var start := State();
      var i := 0;
      while i < |order|
        invariant 0 <= i <= |order|
        invariant SweepBlocks(State(), order[i..], marked) == SweepBlocks(start, order, marked)
      {
        var k := order[i];
        assert order[i..][0] == k && order[i..][1..] == order[i + 1..];
        if exists s | s in marked :: s.block == k.id {
          FreeSlots(k, marked);
        } else {
          current := current && blocks != [] && blocks[0].id != k.id;
          blocks := Less(blocks, k.id);
          spare := [k.(used := 0)] + spare;
        }
        i := i + 1;
      }
      if |spare| > 2 { spare := spare[..2]; }
    }
  }

  lemma InvStride(b: Bucket)
    requires Inv(b)
    ensures b.stride > 0
  {
  }
}
