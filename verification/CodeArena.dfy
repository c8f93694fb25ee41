/** The code arena: blocks that are filled front to back, a table of interned strings whose keys
    live inside those blocks, and marks to roll both back to. */
module CodeArena {
  import Utf8
  import opened Common

  type byte = Utf8.byte

  const BLOCK_SIZE: nat := 0x1_0000

  /** A block: its buffer and how much of it is in use. */
  datatype Block = Block(used: nat, data: seq<byte>)

  /** An address: a block, by its place in the list, and an offset into its buffer. */
  datatype Ptr = Ptr(block: nat, off: nat)

  /** The block list, whose last block is the current one, and the intern table. */
  datatype Arena = Arena(blocks: seq<Block>, interns: map<seq<byte>, Ptr>)

  /** The current block, if there is one, and its fill. */
  datatype Mark = Mark(block: Maybe<nat>, used: nat)

  // ---------------------------------------------------------------- allocating

  /** A fresh block; `raw` is whatever its memory held. */
  function NewBlock(min: nat, raw: nat -> byte): (b: Block)
    ensures b.used == 0 && |b.data| >= min && |b.data| >= BLOCK_SIZE
  {
    Block(0, seq(if min > BLOCK_SIZE then min else BLOCK_SIZE, i requires i >= 0 => raw(i)))
  }

  /** The blocks, with a current block that has `n` bytes free at `from`. */
  function Room(blocks: seq<Block>, from: nat, n: nat, raw: nat -> byte): (r: seq<Block>)
    ensures r != []
  {
    if blocks == [] || from + n > |blocks[|blocks| - 1].data| then blocks + [NewBlock(n, raw)] else blocks
  }

  function Last(blocks: seq<Block>): Block
    requires blocks != []
  {
    blocks[|blocks| - 1]
  }

  function SetLast(blocks: seq<Block>, b: Block): seq<Block>
    requires blocks != []
  {
    blocks[..|blocks| - 1] + [b]
  }

  function Store(b: Block, s: seq<byte>): Block
    requires b.used + |s| <= |b.data|
  {
    Block(b.used + |s|, b.data[..b.used] + s + b.data[b.used + |s|..])
  }

  /** `code_arena_alloc`: the address of an interned copy, terminated by a zero. */
  function Alloc(a: Arena, code: seq<byte>, raw: nat -> byte): (Arena, Maybe<Ptr>)
    requires a.blocks != [] ==> Last(a.blocks).used <= |Last(a.blocks).data|
  {
    if code == [] then (a, None)
    else if code in a.interns then (a, Some(a.interns[code]))
    else
      var blocks := Room(a.blocks, if a.blocks == [] then 0 else Last(a.blocks).used, |code| + 1, raw);
      var p := Ptr(|blocks| - 1, Last(blocks).used);
      (Arena(SetLast(blocks, Store(Last(blocks), code + [0])), a.interns[code := p]), Some(p))
  }

  /** `arena_bump`: `size` bytes, aligned. */
  function Bump(a: Arena, size: nat, raw: nat -> byte): (Arena, Ptr)
    requires a.blocks != [] ==> Last(a.blocks).used <= |Last(a.blocks).data|
  {
    var n := Align8(size);
    var used := if a.blocks == [] then 0 else Align8(Last(a.blocks).used);
    var anew := a.blocks == [] || used + n > |Last(a.blocks).data|;
    var blocks := Room(a.blocks, used, n, raw);
    var at := if anew then 0 else used;
    (a.(blocks := SetLast(blocks, Last(blocks).(used := at + n))), Ptr(|blocks| - 1, at))
  }

  // ---------------------------------------------------------------- rolling back

  function MarkOf(a: Arena): Mark {
    if a.blocks == [] then Mark(None, 0) else Mark(Some(|a.blocks| - 1), Last(a.blocks).used)
  }

  /** `code_interns_prune_for_block_range`. */
  function PruneRange(t: map<seq<byte>, Ptr>, block: nat, start: nat, end: nat): map<seq<byte>, Ptr> {
    map k | k in t && !(t[k].block == block && start <= t[k].off < end) :: t[k]
  }

  /** `code_interns_prune_for_blocks`. */
  function PruneBlocks(t: map<seq<byte>, Ptr>, blocks: seq<Block>, first: nat): map<seq<byte>, Ptr>
    decreases |blocks| - first
  {
    if first >= |blocks| then t
    else PruneBlocks(PruneRange(t, first, 0, |blocks[first].data|), blocks, first + 1)
  }

  /** `code_arena_rewind`, to a mark whose block is still there. */
  function Rewind(a: Arena, m: Mark): Arena
    requires m.block.Some? ==> m.block.value < |a.blocks|
  {
    match m.block
    case None => Arena([], PruneBlocks(a.interns, a.blocks, 0))
    case Some(i) =>
      var b := a.blocks[i];
      var clamped := if m.used <= |b.data| then m.used else |b.data|;
      var t := PruneBlocks(PruneRange(a.interns, i, clamped, |b.data|), a.blocks, i + 1);
      Arena(a.blocks[..i] + [if m.used <= |b.data| then b.(used := m.used) else b], t)
  }

  /** `arena_rewind_plain`, for the parse arena, which has no intern table. */
  function RewindPlain(a: Arena, m: Mark): Arena
    requires m.block.Some? ==> m.block.value < |a.blocks|
  {
    match m.block
    case None => a.(blocks := [])
    case Some(i) =>
      var b := a.blocks[i];
      a.(blocks := a.blocks[..i] + [b.(used := if m.used <= |b.data| then m.used else |b.data|)])
  }

  // ---------------------------------------------------------------- what always holds

  /** The entry points at a live copy of its key. */
  predicate EntryOk(a: Arena, k: seq<byte>, p: Ptr) {
    && k != [] && p.block < |a.blocks|
    && var b := a.blocks[p.block];
    && p.off + |k| < b.used <= |b.data|
    && b.data[p.off..p.off + |k|] == k && b.data[p.off + |k|] == 0
  }

  ghost predicate Valid(a: Arena) {
    && (forall i | 0 <= i < |a.blocks| :: a.blocks[i].used <= |a.blocks[i].data|)
    && (forall k | k in a.interns :: EntryOk(a, k, a.interns[k]))
  }

  /** The same fill, the same capacity and the same bytes in use. */
  predicate SameBlock(x: Block, y: Block) {
    && x.used == y.used <= |x.data| && |x.data| == |y.data|
    && x.data[..x.used] == y.data[..x.used]
  }

  ghost predicate Same(x: Arena, y: Arena) {
    && |x.blocks| == |y.blocks| && x.interns == y.interns
    && forall i | 0 <= i < |x.blocks| :: SameBlock(x.blocks[i], y.blocks[i])
  }

  /** The block `y` is `x` filled further. */
  predicate Fuller(x: Block, y: Block) {
    && x.used <= y.used && x.used <= |x.data| && |x.data| == |y.data|
    && x.data[..x.used] == y.data[..x.used]
  }

  /** An address at or past the fill of `s`. */
  predicate Beyond(s: Arena, p: Ptr) {
    p.block >= |s.blocks| || (p.block == |s.blocks| - 1 && p.off >= s.blocks[p.block].used)
  }

  /** `a` came from `s` by allocating: everything of `s` is still there, everything new lies beyond. */
  ghost predicate Extends(s: Arena, a: Arena) {
    && |s.blocks| <= |a.blocks|
    && (forall i | 0 <= i < |s.blocks| ::
         if i < |s.blocks| - 1 then SameBlock(s.blocks[i], a.blocks[i]) else Fuller(s.blocks[i], a.blocks[i]))
    && (forall k | k in s.interns :: k in a.interns && a.interns[k] == s.interns[k])
    && (forall k | k in a.interns && k !in s.interns :: Beyond(s, a.interns[k]))
  }

  lemma ExtendsRefl(a: Arena)
    requires Valid(a)
    ensures Extends(a, a)
  {
  }

  lemma ExtendsTrans(s: Arena, t: Arena, a: Arena)
    requires Extends(s, t) && Extends(t, a)
    ensures Extends(s, a)
  {
    forall i | 0 <= i < |s.blocks|
      ensures if i < |s.blocks| - 1 then SameBlock(s.blocks[i], a.blocks[i]) else Fuller(s.blocks[i], a.blocks[i])
    {
      var x, y, z := s.blocks[i], t.blocks[i], a.blocks[i];
      assert x.data[..x.used] == y.data[..y.used][..x.used];
      assert z.data[..x.used] == z.data[..y.used][..x.used];
    }
    forall k | k in a.interns && k !in s.interns ensures Beyond(s, a.interns[k]) {
      if k !in t.interns { BeyondMore(s, t, a.interns[k]); }
    }
  }

  lemma BeyondMore(s: Arena, t: Arena, p: Ptr)
    requires Extends(s, t) && Beyond(t, p)
    ensures Beyond(s, p)
  {
  }

  lemma SameExtends(s: Arena, a: Arena)
    requires Same(s, a) && Valid(s)
    ensures Extends(s, a) && Valid(a)
  {
    forall k | k in a.interns ensures EntryOk(a, k, a.interns[k]) {
      var p := a.interns[k];
      assert EntryOk(s, k, s.interns[k]);
      var x, y := s.blocks[p.block], a.blocks[p.block];
      assert SameBlock(x, y);
      LiveByte(x, y, p.off, |k|);
    }
  }

  lemma LiveByte(x: Block, y: Block, off: nat, n: nat)
    requires x.used <= |x.data| && x.used <= |y.data| && x.data[..x.used] == y.data[..x.used] && off + n < x.used
    ensures x.data[off..off + n] == y.data[off..off + n] && x.data[off + n] == y.data[off + n]
  {
    assert x.data[off..off + n] == x.data[..x.used][off..off + n];
    assert y.data[off..off + n] == y.data[..x.used][off..off + n];
    assert x.data[off + n] == x.data[..x.used][off + n];
    assert y.data[off + n] == y.data[..x.used][off + n];
  }

  /** An entry stays right while its block only fills up. */
  lemma EntryStays(s: Arena, a: Arena, k: seq<byte>, p: Ptr)
    requires EntryOk(s, k, p) && p.block < |a.blocks|
    requires Fuller(s.blocks[p.block], a.blocks[p.block]) && a.blocks[p.block].used <= |a.blocks[p.block].data|
    ensures EntryOk(a, k, p)
  {
    LiveByte(s.blocks[p.block], a.blocks[p.block], p.off, |k|);
  }

  // ---------------------------------------------------------------- allocating keeps everything

  lemma RoomExtends(a: Arena, from: nat, n: nat, raw: nat -> byte)
    requires Valid(a)
    ensures var r := a.(blocks := Room(a.blocks, from, n, raw)); Valid(r) && Extends(a, r)
  {
    var r := a.(blocks := Room(a.blocks, from, n, raw));
    forall k | k in r.interns ensures EntryOk(r, k, r.interns[k]) { assert EntryOk(a, k, a.interns[k]); }
  }

  lemma FillExtends(a: Arena, b: Block, t: map<seq<byte>, Ptr>)
    requires Valid(a) && a.blocks != [] && Fuller(Last(a.blocks), b) && b.used <= |b.data|
    requires forall k | k in a.interns :: k in t && t[k] == a.interns[k]
    requires var r := Arena(SetLast(a.blocks, b), t);
      forall k | k in t && k !in a.interns :: EntryOk(r, k, t[k]) && Beyond(a, t[k])
    ensures var r := Arena(SetLast(a.blocks, b), t); Valid(r) && Extends(a, r)
  {
    var r := Arena(SetLast(a.blocks, b), t);
    forall k | k in t ensures EntryOk(r, k, t[k]) {
      if k in a.interns {
        assert EntryOk(a, k, a.interns[k]);
        EntryStays(a, r, k, t[k]);
      }
    }
  }

  lemma AllocKeeps(a: Arena, code: seq<byte>, raw: nat -> byte)
    requires Valid(a)
    ensures var (r, p) := Alloc(a, code, raw);
      && Valid(r) && Extends(a, r)
      && (code == [] <==> p.None?) && (p.Some? ==> code in r.interns && r.interns[code] == p.value)
  {
    hide Extends, Room, Store, EntryOk;
    if code != [] && code !in a.interns {
      var from := if a.blocks == [] then 0 else Last(a.blocks).used;
      RoomExtends(a, from, |code| + 1, raw);
      RoomFits(a.blocks, from, |code| + 1, raw);
      var m := a.(blocks := Room(a.blocks, from, |code| + 1, raw));
      InternKeeps(m, code);
      ExtendsTrans(a, m, Alloc(a, code, raw).0);
    } else {
      ExtendsRefl(a);
    }
  }

  lemma RoomFits(blocks: seq<Block>, from: nat, n: nat, raw: nat -> byte)
    requires blocks != [] ==> Last(blocks).used == from
    ensures var x := Last(Room(blocks, from, n, raw)); x.used + n <= |x.data|
  {
  }

  lemma InternKeeps(m: Arena, code: seq<byte>)
    requires Valid(m) && m.blocks != [] && code != [] && code !in m.interns
    requires var x := Last(m.blocks); x.used + |code| + 1 <= |x.data|
    ensures var x := Last(m.blocks);
      var r := Arena(SetLast(m.blocks, Store(x, code + [0])), m.interns[code := Ptr(|m.blocks| - 1, x.used)]);
      Valid(r) && Extends(m, r)
  {
    hide Valid, Extends, Store, Fuller;
    var x := Last(m.blocks);
    StoreFills(x, code);
    FillExtends(m, Store(x, code + [0]), m.interns[code := Ptr(|m.blocks| - 1, x.used)]);
  }

  lemma StoreFills(x: Block, code: seq<byte>)
    requires x.used + |code| + 1 <= |x.data|
    ensures var b := Store(x, code + [0]);
      && Fuller(x, b) && b.used == x.used + |code| + 1 <= |b.data|
      && b.data[x.used..x.used + |code|] == code && b.data[x.used + |code|] == 0
  {
    var b := Store(x, code + [0]);
    assert b.data[..x.used] == x.data[..x.used];
    assert b.data == x.data[..x.used] + (code + ([0] + x.data[b.used..]));
  }

  lemma BumpKeeps(a: Arena, size: nat, raw: nat -> byte)
    requires Valid(a)
    ensures var (r, p) := Bump(a, size, raw);
      && Valid(r) && Extends(a, r) && Beyond(a, p) && p.off % 8 == 0
      && r.blocks != [] && p.block == |r.blocks| - 1 && p.off + size <= Last(r.blocks).used
  {
    hide Extends, EntryOk, Align8, Room, Valid, Beyond;
    var n := Align8(size);
    var used := if a.blocks == [] then 0 else Align8(Last(a.blocks).used);
    assert a.blocks != [] ==> Last(a.blocks).used <= |Last(a.blocks).data| by { ValidLast(a); }
    RoomExtends(a, used, n, raw);
    BumpPlace(a, size, raw);
    var m := a.(blocks := Room(a.blocks, used, n, raw));
    var (r, p) := Bump(a, size, raw);
    FillExtends(m, Last(r.blocks), m.interns);
    ExtendsTrans(a, m, r);
  }

  lemma ValidLast(a: Arena)
    requires Valid(a)
    ensures a.blocks != [] ==> Last(a.blocks).used <= |Last(a.blocks).data|
  {
  }

  /** Where a bump lands: past what is in use, within the block. */
  lemma BumpPlace(a: Arena, size: nat, raw: nat -> byte)
    requires a.blocks != [] ==> Last(a.blocks).used <= |Last(a.blocks).data|
    ensures var n := Align8(size);
      var used := if a.blocks == [] then 0 else Align8(Last(a.blocks).used);
      var blocks, p := Room(a.blocks, used, n, raw), Bump(a, size, raw).1;
      && p.block == |blocks| - 1 && Last(blocks).used <= p.off && p.off + n <= |Last(blocks).data|
      && p.off % 8 == 0 && Last(blocks).used <= |Last(blocks).data| && Beyond(a, p)
  {
    hide Align8;
  }

  // ---------------------------------------------------------------- rewinding restores

  lemma {:induction false} PrunedBlocks(t: map<seq<byte>, Ptr>, blocks: seq<Block>, first: nat)
    ensures var r := PruneBlocks(t, blocks, first);
      && (forall k | k in r :: k in t && r[k] == t[k])
      && (forall k | k in t :: k in r <==> !(first <= t[k].block < |blocks| && t[k].off < |blocks[t[k].block].data|))
    decreases |blocks| - first
  {
    if first < |blocks| {
      PrunedBlocks(PruneRange(t, first, 0, |blocks[first].data|), blocks, first + 1);
    }
  }

  /** `Rewind` undoes all allocation since the mark: blocks, fills, bytes in use and the intern
      table are as they were. */
  lemma RewindRestores(s: Arena, a: Arena)
    requires Valid(s) && Valid(a) && Extends(s, a)
    ensures Same(s, Rewind(a, MarkOf(s)))
  {
    hide EntryOk;
    var r := Rewind(a, MarkOf(s));
    RewindTable(s, a);
    forall i | 0 <= i < |s.blocks| ensures SameBlock(s.blocks[i], r.blocks[i]) { }
  }

  lemma RewindTable(s: Arena, a: Arena)
    requires Valid(s) && Valid(a) && Extends(s, a)
    ensures Rewind(a, MarkOf(s)).interns == s.interns
  {
    hide EntryOk, PruneBlocks, SameBlock;
    var m := MarkOf(s);
    match m.block {
      case None => PrunedBlocks(a.interns, a.blocks, 0);
      case Some(i) => PrunedBlocks(PruneRange(a.interns, i, m.used, |a.blocks[i].data|), a.blocks, i + 1);
    }
    var r := Rewind(a, m);
    forall k | k in a.interns ensures k in r.interns <==> k in s.interns {
      PrunedExactly(s, a, k);
      InBlock(a, k);
    }
    assert r.interns == s.interns;
  }

  lemma InBlock(a: Arena, k: seq<byte>)
    requires Valid(a) && k in a.interns
    ensures var p := a.interns[k]; p.block < |a.blocks| && p.off < |a.blocks[p.block].data|
  {
    assert EntryOk(a, k, a.interns[k]);
  }

  lemma PrunedExactly(s: Arena, a: Arena, k: seq<byte>)
    requires Valid(s) && Valid(a) && Extends(s, a)
    ensures k in s.interns <==> k in a.interns && !Beyond(s, a.interns[k])
  {
    if k in s.interns { assert EntryOk(s, k, s.interns[k]); }
  }

  lemma MarkThere(s: Arena, a: Arena)
    requires Extends(s, a)
    ensures MarkOf(s).block.Some? ==> MarkOf(s).block.value < |a.blocks|
  {
  }

  /** On the parse arena, which interns nothing, both rewinds agree on every mark that was taken. */
  lemma PlainAgrees(s: Arena, a: Arena)
    requires Valid(s) && Valid(a) && Extends(s, a) && a.interns == map[]
    ensures RewindPlain(a, MarkOf(s)) == Rewind(a, MarkOf(s))
  {
    var m := MarkOf(s);
    match m.block {
      case None => PrunedBlocks(a.interns, a.blocks, 0);
      case Some(i) => PrunedBlocks(PruneRange(a.interns, i, m.used, |a.blocks[i].data|), a.blocks, i + 1);
    }
    assert Rewind(a, m).interns == map[];
  }

  // ---------------------------------------------------------------- in place

  /** The arena as the program holds it. */
  class Code {
    var blocks: seq<Block>
    var interns: map<seq<byte>, Ptr>

    ghost predicate Ok() reads this { Valid(State()) }

    ghost function State(): Arena reads this { Arena(blocks, interns) }

    constructor ()
      ensures Ok() && State() == Arena([], map[])
    {
      blocks, interns := [], map[];
    }

    method AllocCode(code: seq<byte>, raw: nat -> byte) returns (p: Maybe<Ptr>)
      requires Ok()
      modifies this
      ensures Ok() && (State(), p) == Alloc(old(State()), code, raw)
    {
      hide Extends, EntryOk, Store;
      AllocKeeps(State(), code, raw);
      if code == [] { return None; }
      if code in interns { return Some(interns[code]); }
      var n := |code| + 1;
      if blocks == [] || blocks[|blocks| - 1].used + n > |blocks[|blocks| - 1].data| {
        blocks := blocks + [NewBlock(n, raw)];
      }
      var c := |blocks| - 1;
      var at := blocks[c].used;
      blocks := blocks[..c] + [Store(blocks[c], code + [0])];
      interns := interns[code := Ptr(c, at)];
      p := Some(Ptr(c, at));
    }

    method BumpBytes(size: nat, raw: nat -> byte) returns (p: Ptr)
      requires Ok()
      modifies this
      ensures Ok() && (State(), p) == Bump(old(State()), size, raw)
    {
      hide Extends, EntryOk, Align8, Beyond;
      BumpKeeps(State(), size, raw);
      var n := Align8(size);
      var used := if blocks == [] then 0 else Align8(blocks[|blocks| - 1].used);
      if blocks == [] || used + n > |blocks[|blocks| - 1].data| {
        blocks := blocks + [NewBlock(n, raw)];
        used := 0;
      }
      var c := |blocks| - 1;
      p := Ptr(c, used);
      blocks := blocks[..c] + [blocks[c].(used := used + n)];
    }

    /** The walk over the intern table, deleting the entries that point into a range. */
    method Prune(block: nat, start: nat, end: nat)
      modifies `interns
      ensures interns == PruneRange(old(interns), block, start, end)
    {
      var todo := interns.Keys;
      while todo != {}
        invariant todo <= old(interns).Keys && interns.Keys <= old(interns).Keys
        invariant forall k | k in interns :: interns[k] == old(interns)[k]
        invariant todo <= interns.Keys
        invariant forall k | k in old(interns) && k !in todo ::
          k in interns <==> !(old(interns)[k].block == block && start <= old(interns)[k].off < end)
        decreases |todo|
      {
        var k :| k in todo;
        var p := interns[k];
        if p.block == block && start <= p.off < end { interns := interns - {k}; }
        todo := todo - {k};
      }
    }

    method PruneFrom(first: nat)
      modifies `interns
      ensures interns == PruneBlocks(old(interns), blocks, first)
    {
      var b := first;
      while b < |blocks|
        invariant PruneBlocks(interns, blocks, b) == PruneBlocks(old(interns), blocks, first)
      {
        Prune(b, 0, |blocks[b].data|);
        b := b + 1;
      }
    }

    /** Frees the blocks after one. */
    method FreeAfter(i: nat)
      requires i < |blocks|
      modifies `blocks
      ensures blocks == old(blocks)[..i + 1]
    {
      while |blocks| > i + 1
        invariant i < |blocks| <= |old(blocks)| && blocks == old(blocks)[..|blocks|]
      {
        blocks := blocks[..|blocks| - 1];
      }
    }

    /** Rolls back to a mark: given a state the arena grew from, gives that state back. */
    method RewindTo(m: Mark, ghost s: Arena)
      requires Ok() && Valid(s) && Extends(s, State()) && m == MarkOf(s)
      modifies this
      ensures Ok() && State() == Rewind(old(State()), m) && Same(s, State())
    {
      hide Valid, Same, Extends, PruneBlocks, PruneRange;
      MarkThere(s, State());
      RewindRestores(s, State());
      SameExtends(s, Rewind(State(), m));
      if m.block.None? {
        PruneFrom(0);
        blocks := [];
        return;
      }
      var i := m.block.value;
      var cap := |blocks[i].data|;
      Prune(i, if m.used <= cap then m.used else cap, cap);
      PruneFrom(i + 1);
      if m.used <= cap { blocks := blocks[i := blocks[i].(used := m.used)]; }
      FreeAfter(i);
      assert blocks == old(blocks)[..i] + [blocks[i]];
    }
  }
}
