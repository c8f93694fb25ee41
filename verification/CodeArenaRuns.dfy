/** Runs of the code arena: allocations, marks and rewinds to any mark still on the stack. */
module CodeArenaRuns {
  import opened CodeArena

  /** Memory handed out: `len` bytes at `at`. */
  datatype Region = Region(at: Ptr, len: nat)

  /** A mark, with what the arena and the list of regions were when it was taken. */
  datatype Saved = Saved(mark: Mark, arena: Arena, regions: nat)

  datatype World = World(arena: Arena, regions: seq<Region>, saved: seq<Saved>)

  datatype Op =
    | Intern(code: seq<byte>, raw: nat -> byte)
    | Take(size: nat, raw: nat -> byte)
    | Save
    | Back(to: nat)

  const EMPTY := World(Arena([], map[]), [], [])

  /** One call. A rewind drops the marks taken after the one it goes to; one to a mark that is not
      on the stack is no call at all. */
  ghost function Step(w: World, op: Op): World
    requires Inv(w)
  {
    match op
    case Intern(code, raw) =>
      var (a, p) := Alloc(w.arena, code, raw);
      w.(arena := a, regions := if code == [] || code in w.arena.interns then w.regions
                                else w.regions + [Region(p.value, |code| + 1)])
    case Take(size, raw) =>
      var (a, p) := Bump(w.arena, size, raw);
      w.(arena := a, regions := w.regions + [Region(p, size)])
    case Save => w.(saved := w.saved + [Saved(MarkOf(w.arena), w.arena, |w.regions|)])
    case Back(k) =>
      if k >= |w.saved| then w
      else
        assert SavedOk(w, k);
        World(Rewind(w.arena, w.saved[k].mark), w.regions[..w.saved[k].regions], w.saved[..k + 1])
  }

  // ---------------------------------------------------------------- what every run keeps

  /** The region lies in the bytes in use. */
  predicate Inside(a: Arena, r: Region) {
    r.at.block < |a.blocks| && r.at.off + r.len <= a.blocks[r.at.block].used
  }

  /** `x` ends before `y` begins. */
  predicate Before(x: Region, y: Region) {
    x.at.block < y.at.block || (x.at.block == y.at.block && x.at.off + x.len <= y.at.off)
  }

  ghost predicate RegionsOk(a: Arena, rs: seq<Region>) {
    && (forall i | 0 <= i < |rs| :: Inside(a, rs[i]))
    && (forall i, j | 0 <= i < j < |rs| :: Before(rs[i], rs[j]))
  }

  /** A saved mark can still be rewound to. */
  ghost predicate SavedOk(w: World, k: nat)
    requires k < |w.saved|
  {
    var s := w.saved[k];
    && s.mark == MarkOf(s.arena) && Valid(s.arena) && Extends(s.arena, w.arena)
    && s.regions <= |w.regions| && RegionsOk(s.arena, w.regions[..s.regions])
  }

  ghost predicate Inv(w: World) {
    && Valid(w.arena) && RegionsOk(w.arena, w.regions)
    && (forall k | 0 <= k < |w.saved| :: SavedOk(w, k))
    && (forall j, k | 0 <= j < k < |w.saved| ::
         Extends(w.saved[j].arena, w.saved[k].arena) && w.saved[j].regions <= w.saved[k].regions)
  }

  lemma RegionsStay(s: Arena, a: Arena, rs: seq<Region>)
    requires Extends(s, a) && RegionsOk(s, rs)
    ensures RegionsOk(a, rs)
  {
    forall i | 0 <= i < |rs| ensures Inside(a, rs[i]) { assert Inside(s, rs[i]); }
  }

  lemma RegionAdded(s: Arena, a: Arena, rs: seq<Region>, r: Region)
    requires Extends(s, a) && RegionsOk(s, rs) && Inside(a, r) && Beyond(s, r.at)
    ensures RegionsOk(a, rs + [r])
  {
    hide Extends;
    RegionsStay(s, a, rs);
    forall i | 0 <= i < |rs| ensures Before(rs[i], r) { assert Inside(s, rs[i]); }
  }

  /** What an allocation of any kind keeps. */
  lemma Grown(w: World, a: Arena, rs: seq<Region>)
    requires Inv(w) && Valid(a) && Extends(w.arena, a) && RegionsOk(a, rs) && w.regions <= rs
    ensures Inv(w.(arena := a, regions := rs))
  {
    hide Extends, RegionsOk, Valid;
    var v := w.(arena := a, regions := rs);
    forall k | 0 <= k < |v.saved| ensures SavedOk(v, k) {
      assert SavedOk(w, k);
      ExtendsTrans(w.saved[k].arena, w.arena, a);
      assert rs[..w.saved[k].regions] == w.regions[..w.saved[k].regions];
    }
  }

  lemma InternStep(w: World, code: seq<byte>, raw: nat -> byte)
    requires Inv(w)
    ensures Inv(Step(w, Intern(code, raw)))
  {
    hide Extends, EntryOk;
    var (a, p) := Alloc(w.arena, code, raw);
    AllocKeeps(w.arena, code, raw);
    if code == [] || code in w.arena.interns {
      RegionsStay(w.arena, a, w.regions);
      Grown(w, a, w.regions);
    } else {
      NewIntern(w.arena, code, raw);
      RegionAdded(w.arena, a, w.regions, Region(p.value, |code| + 1));
      Grown(w, a, w.regions + [Region(p.value, |code| + 1)]);
    }
  }

  lemma NewIntern(s: Arena, code: seq<byte>, raw: nat -> byte)
    requires Valid(s) && code != [] && code !in s.interns
    ensures var (a, p) := Alloc(s, code, raw); Inside(a, Region(p.value, |code| + 1)) && Beyond(s, p.value)
  {
    hide Valid;
    AllocKeeps(s, code, raw);
    var (a, p) := Alloc(s, code, raw);
    assert EntryOk(a, code, p.value) by { EntryAt(a, code); }
  }

  lemma EntryAt(a: Arena, k: seq<byte>)
    requires Valid(a) && k in a.interns
    ensures EntryOk(a, k, a.interns[k])
  {
  }

  lemma TakeStep(w: World, size: nat, raw: nat -> byte)
    requires Inv(w)
    ensures Inv(Step(w, Take(size, raw)))
  {
    hide Extends, EntryOk, Bump;
    var (a, p) := Bump(w.arena, size, raw);
    BumpKeeps(w.arena, size, raw);
    RegionAdded(w.arena, a, w.regions, Region(p, size));
    Grown(w, a, w.regions + [Region(p, size)]);
  }

  lemma SaveStep(w: World)
    requires Inv(w)
    ensures Inv(Step(w, Save))
  {
    hide Extends, RegionsOk, Valid, MarkOf;
    var v := Step(w, Save);
    ExtendsRefl(w.arena);
    assert w.regions[..|w.regions|] == w.regions;
    forall k | 0 <= k < |v.saved| ensures SavedOk(v, k) {
      if k < |w.saved| { assert SavedOk(w, k); }
    }
    forall j, k | 0 <= j < k < |v.saved|
      ensures Extends(v.saved[j].arena, v.saved[k].arena) && v.saved[j].regions <= v.saved[k].regions
    {
      assert SavedOk(w, j);
    }
  }

  lemma BackStep(w: World, k: nat)
    requires Inv(w) && k < |w.saved|
    ensures Inv(Step(w, Back(k)))
    ensures Same(w.saved[k].arena, Step(w, Back(k)).arena)
  {
    hide Extends, RegionsOk, Valid, MarkOf, Same, Rewind;
    var s, v := w.saved[k], Step(w, Back(k));
    assert SavedOk(w, k);
    RewindRestores(s.arena, w.arena);
    SameExtends(s.arena, v.arena);
    RegionsStay(s.arena, v.arena, v.regions);
    forall j | 0 <= j < |v.saved| ensures SavedOk(v, j) {
      assert SavedOk(w, j);
      if j < k { ExtendsTrans(w.saved[j].arena, s.arena, v.arena); }
      assert v.regions[..w.saved[j].regions] == w.regions[..w.saved[j].regions];
    }
  }

  lemma StepKeeps(w: World, op: Op)
    requires Inv(w)
    ensures Inv(Step(w, op))
  {
    hide Inv;
    match op
    case Intern(code, raw) => InternStep(w, code, raw);
    case Take(size, raw) => TakeStep(w, size, raw);
    case Save => SaveStep(w);
    case Back(k) => if k < |w.saved| { BackStep(w, k); }
  }

  ghost function Run(w: World, ops: seq<Op>): (r: World)
    requires Inv(w)
    ensures Inv(r)
    decreases |ops|
  {
    if ops == [] then w else (StepKeeps(w, ops[0]); Run(Step(w, ops[0]), ops[1..]))
  }

  // ---------------------------------------------------------------- the theorems

  /** In every state of every run: each intern entry points at live bytes equal to its key, live
      allocations do not overlap and lie in used memory, and a rewind to any mark on the stack
      gives back the blocks, the fills, the bytes in use and the intern table of that moment. */
  lemma EveryRun(ops: seq<Op>)
    ensures Inv(EMPTY)
    ensures var w := Run(EMPTY, ops);
      && (forall key | key in w.arena.interns :: EntryOk(w.arena, key, w.arena.interns[key]))
      && (forall i | 0 <= i < |w.regions| :: Inside(w.arena, w.regions[i]))
      && (forall i, j | 0 <= i < j < |w.regions| :: Before(w.regions[i], w.regions[j]))
      && (forall k: nat | k < |w.saved| :: Same(w.saved[k].arena, Step(w, Back(k)).arena))
  {
    hide EntryOk, Same, Step;
    var w := Run(EMPTY, ops);
    forall k: nat | k < |w.saved| ensures Same(w.saved[k].arena, Step(w, Back(k)).arena) { BackStep(w, k); }
  }

  /** Marks nest: what happens between a mark and the rewind to it, further marks and rewinds
      included, leaves no trace. */
  lemma {:induction false} NoTrace(w: World, ops: seq<Op>)
    requires Inv(w) && Balanced(|w.saved|, ops)
    ensures Inv(Step(w, Save))
    ensures var v := Run(Step(w, Save), ops);
      |w.saved| < |v.saved| && Same(w.arena, Step(v, Back(|w.saved|)).arena)
  {
    hide Inv, Same, Balanced, Step, Run;
    StepKeeps(w, Save);
    Saves(w);
    var n, u := |w.saved|, Step(w, Save);
    Kept(u, ops, n);
    var v := Run(u, ops);
    BackStep(v, n);
  }

  lemma Saves(w: World)
    requires Inv(w)
    ensures var u := Step(w, Save); |u.saved| == |w.saved| + 1 && u.saved[|w.saved|].arena == w.arena
  {
  }

  /** No rewind in `ops` goes below the mark at depth `n`. */
  predicate Balanced(n: nat, ops: seq<Op>) { forall i | 0 <= i < |ops| :: ops[i].Back? ==> ops[i].to >= n }

  lemma {:induction false} Kept(w: World, ops: seq<Op>, n: nat)
    requires Inv(w) && n < |w.saved| && Balanced(n, ops)
    ensures var v := Run(w, ops); n < |v.saved| && v.saved[n] == w.saved[n]
    decreases |ops|
  {
    hide Inv;
    if ops != [] {
      StepKeeps(w, ops[0]);
      KeptStep(w, ops[0], n);
      Kept(Step(w, ops[0]), ops[1..], n);
    }
  }

  lemma KeptStep(w: World, op: Op, n: nat)
    requires Inv(w) && n < |w.saved| && (op.Back? ==> op.to >= n)
    ensures var v := Step(w, op); n < |v.saved| && v.saved[n] == w.saved[n]
  {
    hide Inv, Alloc, Bump, Rewind;
  }
}
