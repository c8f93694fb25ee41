/** The pool chain: blocks filled front to back, newest first, with recycled blocks taken before
    new ones. */
module PoolChain {
  import opened Common
  import opened Grid
  import opened PoolBlocks

  const WORD: nat := 8

  datatype Region = Region(block: nat, off: nat, len: nat)

  datatype Chain = Chain(blockSize: nat, blocks: seq<Block>, spare: seq<Block>, live: set<Region>, next: nat)

  /** `pool_chain_block_cap`: a whole number of standard blocks. */
  function BlockCap(blockSize: nat, need: nat): (cap: nat)
    ensures need <= cap || blockSize == cap
    ensures blockSize <= cap && need <= cap
  {
    if blockSize == 0 then need else if blockSize >= need then blockSize else AlignUp(need, blockSize)
  }

  function WithBlock(c: Chain, need: nat): Chain {
    c.(blocks := [Block(c.next, 0, BlockCap(c.blockSize, need))] + c.blocks, next := c.next + 1)
  }

  function FitsHead(c: Chain, size: nat, align: nat): bool
    requires c.blocks != []
  {
    AlignUp(c.blocks[0].used, align) + size <= c.blocks[0].cap
  }

  /** The chain with a first block to take the bytes from. */
  function Ready(c: Chain, size: nat, align: nat): (r: Chain)
    ensures r.blocks != []
  {
    var d := if c.blocks == [] then WithBlock(c, size + align) else c;
    if FitsHead(d, size, align) then d
    else if d.spare != [] then d.(blocks := [d.spare[0].(used := 0)] + d.blocks, spare := d.spare[1..])
    else WithBlock(d, size + align)
  }

  function Place(c: Chain, size: nat, align: nat): (Chain, Region)
    requires c.blocks != []
  {
    var k := c.blocks[0];
    var at := AlignUp(k.used, align);
    var r := Region(k.id, at, size);
    (c.(blocks := [k.(used := at + size)] + c.blocks[1..], live := c.live + {r}), r)
  }

  /** `pool_alloc_chain`. */
  function ChainAlloc(c: Chain, size: nat, align: nat): (Chain, Maybe<Region>) {
    if size == 0 then (c, None)
    else
      var a := Alignment(align);
      var (r, g) := Place(Ready(c, size, a), size, a); (r, Some(g))
  }

  // ---------------------------------------------------------------- within the block

  function Alignment(align: nat): nat { if align == 0 then WORD else align }

  /** No recycled block that is too small is taken: the allocator does not look at its capacity. */
  predicate Fits(c: Chain, size: nat, align: nat) {
    c.blocks != [] && !FitsHead(c, size, Alignment(align)) && c.spare != [] ==> size <= c.spare[0].cap
  }

  /** The bytes handed out lie within their block exactly then. */
  lemma StaysWithin(c: Chain, size: nat, align: nat)
    requires size > 0
    ensures var k := ChainAlloc(c, size, align).0.blocks[0]; k.used <= k.cap <==> Fits(c, size, align)
  {
    hide AlignUp, BlockCap;
    AlignZero(Alignment(align));
  }

  lemma AlignZero(align: nat)
    ensures AlignUp(0, align) == 0
  {
  }

  // ---------------------------------------------------------------- what every run keeps

  predicate Apart(x: Region, y: Region) { x.block != y.block || x.off + x.len <= y.off || y.off + y.len <= x.off }

  predicate Within(ks: seq<Block>, r: Region) {
    exists k <- ks :: k.id == r.block && r.off + r.len <= k.used && k.used <= k.cap
  }

  predicate Standard(k: Block, size: nat, next: nat) { k.used <= k.cap && size <= k.cap && k.id < next }

  /** Live regions lie within their blocks, apart from each other; blocks have at least the
      standard size. */
  ghost predicate Inv(c: Chain) {
    && (forall k <- c.blocks :: Standard(k, c.blockSize, c.next)) && DistinctIds(c.blocks)
    && (forall k <- c.spare :: Standard(k, c.blockSize, c.next)) && DistinctIds(c.spare)
    && (forall j <- c.blocks, k <- c.spare :: j.id != k.id)
    && (forall r | r in c.live :: r.len > 0 && Within(c.blocks, r))
    && (forall x, y | x in c.live && y in c.live && x != y :: Apart(x, y))
  }

  lemma FrontBlock(c: Chain, k: Block, spare: seq<Block>, next: nat)
    requires Inv(c) && c.next <= next && Standard(k, c.blockSize, next)
    requires forall j <- c.blocks :: j.id != k.id
    requires DistinctIds(spare) && forall j <- spare :: j in c.spare && j.id != k.id
    ensures Inv(c.(blocks := [k] + c.blocks, spare := spare, next := next))
  {
    var r := c.(blocks := [k] + c.blocks, spare := spare, next := next);
    forall j <- r.blocks ensures Standard(j, r.blockSize, r.next) { assert j == k || j in c.blocks; }
    forall i, j | 0 <= i < j < |r.blocks| ensures r.blocks[i].id != r.blocks[j].id {
      if i == 0 { assert r.blocks[j] in c.blocks; }
    }
    forall g | g in r.live ensures Within(r.blocks, g) {
      assert Within(c.blocks, g);
      var j :| j in c.blocks && j.id == g.block && g.off + g.len <= j.used && j.used <= j.cap;
      assert j in r.blocks;
    }
  }

  lemma NewBlockKeeps(c: Chain, need: nat)
    requires Inv(c)
    ensures Inv(WithBlock(c, need))
  {
    FrontBlock(c, Block(c.next, 0, BlockCap(c.blockSize, need)), c.spare, c.next + 1);
  }

  lemma ReadyKeeps(c: Chain, size: nat, align: nat)
    requires Inv(c) && 0 < size && align > 0 && Fits(c, size, align)
    ensures var r := Ready(c, size, align);
      Inv(r) && FitsHead(r, size, align) && r.live == c.live && r.blockSize == c.blockSize
  {
    hide Inv;
    if c.blocks == [] { NewBlockKeeps(c, size + align); }
    var d := if c.blocks == [] then WithBlock(c, size + align) else c;
    if !FitsHead(d, size, align) {
      if d.spare != [] { SpareKeeps(d); } else { NewBlockKeeps(d, size + align); }
    }
  }

  lemma SpareKeeps(d: Chain)
    requires Inv(d) && d.spare != []
    ensures Inv(d.(blocks := [d.spare[0].(used := 0)] + d.blocks, spare := d.spare[1..]))
  {
    assert d.spare[0] in d.spare;
    FrontBlock(d, d.spare[0].(used := 0), d.spare[1..], d.next);
  }

  lemma PlaceKeeps(c: Chain, size: nat, align: nat)
    requires Inv(c) && c.blocks != [] && FitsHead(c, size, align) && size > 0 && align > 0
    ensures var (r, g) := Place(c, size, align);
      Inv(r) && g !in c.live && g.off % align == 0 && (forall x | x in c.live :: Apart(x, g))
  {
    var (r, g) := Place(c, size, align);
    var k, t := c.blocks[0], c.blocks[1..];
    var n := k.(used := g.off + size);
    assert k in c.blocks && r.blocks == [n] + t;
    forall j <- r.blocks ensures Standard(j, r.blockSize, r.next) { assert j == n || j in c.blocks; }
    forall j <- r.blocks, i <- r.spare ensures j.id != i.id { assert j == n || j in c.blocks; }
    forall x | x in c.live ensures Within(r.blocks, x) && Apart(x, g) {
      assert Within(c.blocks, x);
      var j :| j in c.blocks && j.id == x.block && x.off + x.len <= j.used && j.used <= j.cap;
      if j.id == k.id { SameBlock(c.blocks, j, k); }
      assert (if j == k then n else j) in r.blocks by { if j != k { assert j in t; } }
    }
    assert n in r.blocks;
    assert Within(r.blocks, g);
  }

  /** A request keeps the chain right exactly when no block too small is taken for it. */
  lemma AllocExact(c: Chain, size: nat, align: nat)
    requires Inv(c) && 0 < size
    ensures Inv(ChainAlloc(c, size, align).0) <==> Fits(c, size, align)
  {
    hide Ready, AlignUp;
    StaysWithin(c, size, align);
    if Fits(c, size, align) { AllocKeeps(c, size, align); }
    else {
      var k := ChainAlloc(c, size, align).0.blocks[0];
      assert k in ChainAlloc(c, size, align).0.blocks && !Standard(k, c.blockSize, ChainAlloc(c, size, align).0.next);
    }
  }

  lemma AllocKeeps(c: Chain, size: nat, align: nat)
    requires Inv(c) && 0 < size && Fits(c, size, align)
    ensures var (r, g) := ChainAlloc(c, size, align);
      && Inv(r) && g.Some? && g.value !in c.live && r.live == c.live + {g.value} && r.blockSize == c.blockSize
      && g.value.len == size && g.value.off % Alignment(align) == 0
  {
    hide Inv, Ready;
    var a := Alignment(align);
    ReadyKeeps(c, size, a);
    PlaceKeeps(Ready(c, size, a), size, a);
  }

  // ---------------------------------------------------------------- recycling

  /** A block whose regions all died is taken out and kept for reuse. */
  function Recycle(c: Chain, k: Block): Chain {
    c.(blocks := Less(c.blocks, k.id),
       spare := [k.(used := 0)] + c.spare,
       live := set r | r in c.live && r.block != k.id)
  }

  lemma RecycleKeeps(c: Chain, k: Block)
    requires Inv(c) && k in c.blocks
    ensures Inv(Recycle(c, k))
  {
    var r := Recycle(c, k);
    LessIs(c.blocks, k.id);
    forall g | g in r.live ensures Within(r.blocks, g) {
      assert Within(c.blocks, g);
      var j :| j in c.blocks && j.id == g.block && g.off + g.len <= j.used && j.used <= j.cap;
      assert j in r.blocks;
    }
    forall i, j | 0 <= i < j < |r.spare| ensures r.spare[i].id != r.spare[j].id {
      if i == 0 { assert r.spare[j] in c.spare; }
    }
    forall j <- r.spare ensures Standard(j, r.blockSize, r.next) { assert j == k.(used := 0) || j in c.spare; }
    forall j <- r.blocks, i <- r.spare ensures j.id != i.id { assert i == k.(used := 0) || i in c.spare; }
  }

  datatype Op = Take(size: nat, align: nat) | Reuse(k: Block)

  ghost function Step(c: Chain, op: Op): Chain {
    match op
    case Take(size, align) => ChainAlloc(c, size, align).0
    case Reuse(k) => if k in c.blocks then Recycle(c, k) else c
  }

  ghost function Run(c: Chain, ops: seq<Op>): Chain
    decreases |ops|
  {
    if ops == [] then c else Run(Step(c, ops[0]), ops[1..])
  }

  /** No request of the run takes a recycled block that is too small for it. */
  ghost predicate AllFit(c: Chain, ops: seq<Op>)
    decreases |ops|
  {
    ops == [] ||
    ((ops[0].Take? && ops[0].size > 0 ==> Fits(c, ops[0].size, ops[0].align)) && AllFit(Step(c, ops[0]), ops[1..]))
  }

  /** The chain is right after every step of the run. */
  ghost predicate AllGood(c: Chain, ops: seq<Op>)
    decreases |ops|
  {
    Inv(c) && (ops == [] || AllGood(Step(c, ops[0]), ops[1..]))
  }

  lemma StepExact(c: Chain, op: Op)
    requires Inv(c)
    ensures Inv(Step(c, op)) <==> (op.Take? && op.size > 0 ==> Fits(c, op.size, op.align))
  {
    hide Inv, Fits;
    match op
    case Take(size, align) => if 0 < size { AllocExact(c, size, align); }
    case Reuse(k) => if k in c.blocks { RecycleKeeps(c, k); }
  }

  lemma {:induction false} RunExact(c: Chain, ops: seq<Op>)
    requires Inv(c)
    ensures AllGood(c, ops) <==> AllFit(c, ops)
    ensures AllFit(c, ops) ==> Inv(Run(c, ops))
    decreases |ops|
  {
    hide Inv, Step, Fits;
    if ops != [] {
      StepExact(c, ops[0]);
      if Inv(Step(c, ops[0])) { RunExact(Step(c, ops[0]), ops[1..]); }
    }
  }

  /** Requests up to the standard block size always fit: no block is smaller. */
  lemma {:induction false} StandardRequestsFit(c: Chain, ops: seq<Op>)
    requires Inv(c) && forall op <- ops :: op.Take? ==> op.size <= c.blockSize
    ensures AllFit(c, ops)
    decreases |ops|
  {
    hide Inv, Step;
    if ops != [] {
      assert ops[0] in ops;
      if ops[0].Take? { StandardFits(c, ops[0].size, ops[0].align); }
      StepExact(c, ops[0]);
      StepSize(c, ops[0]);
      StandardRequestsFit(Step(c, ops[0]), ops[1..]);
    }
  }

  lemma StandardFits(c: Chain, size: nat, align: nat)
    requires Inv(c) && size <= c.blockSize
    ensures Fits(c, size, align)
  {
    if c.spare != [] { assert c.spare[0] in c.spare; }
  }

  lemma StepSize(c: Chain, op: Op)
    ensures Step(c, op).blockSize == c.blockSize
  {
    hide AlignUp, BlockCap;
  }

  /** Every run of requests of any size, with blocks recycled in between: live regions lie apart and
      within their blocks after every step exactly when no request takes a recycled block that is
      too small; so they do when no request is larger than a standard block. */
  lemma EveryRun(blockSize: nat, ops: seq<Op>)
    ensures var start := Chain(blockSize, [], [], {}, 0);
      var c := Run(start, ops);
      && (AllGood(start, ops) <==> AllFit(start, ops))
      && ((forall op <- ops :: op.Take? ==> op.size <= blockSize) ==> AllFit(start, ops))
      && (AllFit(start, ops) ==>
          && (forall r | r in c.live :: Within(c.blocks, r))
          && (forall x, y | x in c.live && y in c.live && x != y :: Apart(x, y)))
  {
    hide Run, AllFit, AllGood;
    var start := Chain(blockSize, [], [], {}, 0);
    RunExact(start, ops);
    if forall op <- ops :: op.Take? ==> op.size <= blockSize { StandardRequestsFit(start, ops); }
  }

  // ---------------------------------------------------------------- in memory

  /** The chain's lists as the allocator changes them. */
  class Blocks {
    const blockSize: nat
    var blocks: seq<Block>
    var spare: seq<Block>
    var next: nat
    ghost var live: set<Region>

    ghost function State(): Chain reads this { Chain(blockSize, blocks, spare, live, next) }

    constructor (size: nat)
      ensures State() == Chain(size, [], [], {}, 0) && Inv(State())
    {
      blockSize, blocks, spare, next, live := size, [], [], 0, {};
    }

    method Take(size: nat, align: nat) returns (p: Maybe<Region>)
      modifies this
      ensures (State(), p) == ChainAlloc(old(State()), size, align)
      ensures old(Inv(State()) && Fits(State(), size, align)) ==> Inv(State())
    {
      hide Inv, Ready, Fits;
      if size == 0 { return None; }
      if Inv(State()) && Fits(State(), size, align) { AllocKeeps(State(), size, align); }
      var a := Alignment(align);
      MakeRoom(size, a);
      var start := AlignUp(blocks[0].used, a);
      var r := Region(blocks[0].id, start, size);
      blocks := [blocks[0].(used := start + size)] + blocks[1..];
      live := live + {r};
      p := Some(r);
    }

    method MakeRoom(size: nat, a: nat)
      modifies this
      ensures State() == Ready(old(State()), size, a)
    {
      hide AlignUp, BlockCap;
      if blocks == [] {
        blocks := [Block(next, 0, BlockCap(blockSize, size + a))] + blocks;
        next := next + 1;
      }
      if AlignUp(blocks[0].used, a) + size <= blocks[0].cap { return; }
      if spare != [] {
        blocks := [spare[0].(used := 0)] + blocks;
        spare := spare[1..];
      } else {
        blocks := [Block(next, 0, BlockCap(blockSize, size + a))] + blocks;
        next := next + 1;
      }
    }
  }
}
