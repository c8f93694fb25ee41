/** The string hash: a 64 by 64 bit multiply in two forms, and a walk that reads the whole key. */
module Hash {
  import opened Utf8
  import opened BundleBytes

  const B: nat := 0x1_0000_0000
  const W: nat := 0x1_0000_0000_0000_0000

  // ---------------------------------------------------------------- the multiply

  datatype Pair = Pair(lo: nat, hi: nat)

  /** Both words of the 128-bit product. */
  function Wide(a: nat, b: nat): Pair { Pair(a * b % W, a * b / W) }

  /** A shift left by 32 in a 64-bit word. */
  function Shl32(x: nat): nat { x * B % W }

  /** The sum of the four partial products, in wrapping 64-bit arithmetic. */
  function Combine(rh: nat, rm0: nat, rm1: nat, rl: nat): Pair {
    var t := (rl + Shl32(rm0)) % W;
    var lo := (t + Shl32(rm1)) % W;
    var hi := (rh + rm0 / B + rm1 / B + (if t < rl then 1 else 0) + (if lo < t then 1 else 0)) % W;
    Pair(lo, hi)
  }

  /** The same from 32-bit limbs. */
  function Limbs(a: nat, b: nat): Pair {
    var ha, hb, la, lb := a / B, b / B, a % B, b % B;
    Combine(ha * hb % W, ha * lb % W, hb * la % W, la * lb % W)
  }

  lemma MulBound(x: nat, y: nat)
    requires x < B && y < B
    ensures x * y <= (B - 1) * (B - 1)
  {
    MulMono(x, B - 1, y);
    MulMono(y, B - 1, B - 1);
  }

  lemma MulMono(x: nat, y: nat, k: nat)
    requires x <= y
    ensures x * k <= y * k
  {
  }

  /** A product of halves, shifted: its high half goes to the high word. */
  lemma Shifted(x: nat)
    requires x < W
    ensures x * B == (x / B) * W + Shl32(x) && Shl32(x) <= W - B
  {
    var q, r := x / B, x % B;
    assert x == B * q + r;
    assert x * B == q * W + r * B;
    ModUnique(x * B, q, r * B);
  }

  /** The quotient and remainder are determined. */
  lemma ModUnique(n: nat, q: nat, r: nat)
    requires n == q * W + r && r < W
    ensures n % W == r && n / W == q
  {
  }

  /** Adding with the carry read off the wrapped sum. */
  lemma AddCarry(x: nat, y: nat)
    requires x < W && y < W
    ensures var t := (x + y) % W; x + y == t + (if t < x then W else 0)
  {
    if x + y < W { ModUnique(x + y, 0, x + y); } else { ModUnique(x + y, 1, x + y - W); }
  }

  lemma Expand(ha: nat, la: nat, hb: nat, lb: nat)
    ensures (ha * B + la) * (hb * B + lb) == (ha * hb) * W + (ha * lb) * B + (hb * la) * B + la * lb
  {
    assert (ha * B + la) * (hb * B + lb) == ha * B * (hb * B + lb) + la * (hb * B + lb);
    assert ha * B * (hb * B + lb) == ha * B * (hb * B) + ha * B * lb;
    assert ha * B * (hb * B) == (ha * hb) * W;
    assert ha * B * lb == (ha * lb) * B;
    assert la * (hb * B + lb) == la * (hb * B) + la * lb;
    assert la * (hb * B) == (hb * la) * B;
  }

  lemma CombineExact(rh: nat, rm0: nat, rm1: nat, rl: nat, n: nat)
    requires rm0 < W && rm1 < W && rl < W && n == rh * W + rm0 * B + rm1 * B + rl && n < W * W
    ensures Combine(rh, rm0, rm1, rl) == Pair(n % W, n / W)
  {
    Shifted(rm0);
    Shifted(rm1);
    var x, y := Shl32(rm0), Shl32(rm1);
    AddCarry(rl, x);
    var t := (rl + x) % W;
    AddCarry(t, y);
    var lo := (t + y) % W;
    var hi := rh + rm0 / B + rm1 / B + (if t < rl then 1 else 0) + (if lo < t then 1 else 0);
    Collect(rh, rm0 / B, rm1 / B, if t < rl then 1 else 0, if lo < t then 1 else 0);
    assert n == hi * W + lo;
    ModUnique(n, hi, lo);
    HighFits(hi, lo, n);
    ModUnique(hi, 0, hi);
  }

  lemma Collect(a: nat, b: nat, c: nat, d: nat, e: nat)
    ensures (a + b + c + d + e) * W == a * W + b * W + c * W + d * W + e * W
  {
  }

  lemma HighFits(hi: nat, lo: nat, n: nat)
    requires n == hi * W + lo && n < W * W
    ensures hi < W
  {
  }

  lemma Halves(a: nat)
    requires a < W
    ensures a / B < B && a % B < B && a == (a / B) * B + a % B
  {
  }

  lemma BelowSquare(a: nat, b: nat)
    requires a < W && b < W
    ensures a * b < W * W
  {
    MulMono(a, W - 1, b);
    MulMono(b, W - 1, W - 1);
  }

  lemma SmallMod(x: nat)
    requires x < W
    ensures x % W == x
  {
  }

  /** The limb form computes exactly both words of the product. */
  lemma LimbsExact(a: nat, b: nat)
    requires a < W && b < W
    ensures Limbs(a, b) == Wide(a, b)
  {
    hide Combine, Wide;
    Halves(a);
    Halves(b);
    var ha, hb, la, lb := a / B, b / B, a % B, b % B;
    var rh, rm0, rm1, rl := ha * hb, ha * lb, hb * la, la * lb;
    MulBound(ha, hb);
    MulBound(ha, lb);
    MulBound(hb, la);
    MulBound(la, lb);
    SmallMod(rh);
    SmallMod(rm0);
    SmallMod(rm1);
    SmallMod(rl);
    Expand(ha, la, hb, lb);
    BelowSquare(a, b);
    CombineExact(rh, rm0, rm1, rl, a * b);
    WideIs(a, b);
  }

  lemma WideIs(a: nat, b: nat)
    ensures Wide(a, b) == Pair(a * b % W, a * b / W)
  {
  }

  // ---------------------------------------------------------------- words

  type Word = n: nat | n < W

  function Pow2(w: nat): nat { if w == 0 then 1 else 2 * Pow2(w - 1) }

  /** Exclusive or of the lowest `w` bits. */
  function XorBits(a: nat, b: nat, w: nat): (r: nat)
    ensures r < Pow2(w)
  {
    if w == 0 then 0 else (if a % 2 == b % 2 then 0 else 1) + 2 * XorBits(a / 2, b / 2, w - 1)
  }

  lemma Pow2Eight(w: nat)
    ensures Pow2(w + 8) == 256 * Pow2(w)
  {
    assert Pow2(w + 8) == 4 * Pow2(w + 6) && Pow2(w + 6) == 4 * Pow2(w + 4);
    assert Pow2(w + 4) == 4 * Pow2(w + 2) && Pow2(w + 2) == 4 * Pow2(w);
  }

  lemma Pow2Word()
    ensures Pow2(64) == W
  {
    Pow2Eight(0);
    Pow2Eight(8);
    Pow2Eight(16);
    Pow2Eight(24);
    Pow2Eight(32);
    Pow2Eight(40);
    Pow2Eight(48);
    Pow2Eight(56);
  }

  function Xor(a: Word, b: Word): Word {
    Pow2Word(); XorBits(a, b, 64)
  }

  /** The multiply of the target at hand: with or without 128-bit integers. */
  function Mum(a: Word, b: Word, limbs: bool): (p: Pair)
    ensures p.lo < W && p.hi < W && p == Wide(a, b)
  {
    LimbsExact(a, b);
    BelowSquare(a, b);
    if limbs then Limbs(a, b) else Wide(a, b)
  }

  function Mix(a: Word, b: Word, limbs: bool): Word {
    var p := Mum(a, b, limbs); Xor(p.lo, p.hi)
  }

  const SECRET: seq<Word> := [
    0x2d358dccaa6c78a5, 0x8bb84b93962eacc9, 0x4b33a62ed433d4a3, 0x4d5a2da51de1aa47,
    0xa0761d6478bd642f, 0xe7037ed1a0b428db, 0x90ed1765281c388c, 0xaaaaaaaaaaaaaaaa]

  lemma WordBytes(s: seq<byte>)
    requires |s| == 8
    ensures UnLE(s) < W
  {
    UnLEBound(s);
    assert Pow256(8) == 256 * Pow256(7) && Pow256(7) == 256 * Pow256(6) && Pow256(6) == 256 * Pow256(5);
    assert Pow256(5) == 256 * Pow256(4) && Pow256(4) == 256 * Pow256(3) && Pow256(3) == 256 * Pow256(2);
    assert Pow256(2) == 256 * Pow256(1);
  }

  /** Eight bytes of the key as a little-endian word. */
  function At64(key: seq<byte>, off: int): Word
    requires 0 <= off && off + 8 <= |key|
  {
    WordBytes(key[off..off + 8]);
    UnLE(key[off..off + 8])
  }

  function At32(key: seq<byte>, off: int): Word
    requires 0 <= off && off + 4 <= |key|
  {
    HalfBytes(key[off..off + 4]);
    UnLE(key[off..off + 4])
  }

  lemma HalfBytes(s: seq<byte>)
    requires |s| == 4
    ensures UnLE(s) < W
  {
    UnLEBound(s);
    assert Pow256(4) == 256 * Pow256(3) && Pow256(3) == 256 * Pow256(2) && Pow256(2) == 256 * Pow256(1);
  }

  // ---------------------------------------------------------------- the hash

  datatype Lanes = Lanes(seed: Word, see1: Word, see2: Word)

  /** One round over 48 bytes. */
  function Round(key: seq<byte>, p: nat, l: Lanes, limbs: bool): Lanes
    requires p + 48 <= |key|
  {
    Lanes(
      Mix(Xor(At64(key, p), SECRET[0]), Xor(At64(key, p + 8), l.seed), limbs),
      Mix(Xor(At64(key, p + 16), SECRET[1]), Xor(At64(key, p + 24), l.see1), limbs),
      Mix(Xor(At64(key, p + 32), SECRET[2]), Xor(At64(key, p + 40), l.see2), limbs))
  }

  /** Rounds from `p` while more than 48 bytes remain. */
  function Rounds(key: seq<byte>, p: nat, l: Lanes, limbs: bool): (r: (Lanes, nat))
    requires p <= |key|
    ensures p <= r.1 <= |key| && (p < |key| ==> 0 < |key| - r.1 <= 48)
    decreases |key| - p
  {
    if |key| - p > 48 then Rounds(key, p + 48, Round(key, p, l, limbs), limbs) else (l, p)
  }

  function Fold(key: seq<byte>, p: nat, seed: Word, limbs: bool): Word
    requires p + 16 <= |key|
  {
    Mix(Xor(At64(key, p), SECRET[2]), Xor(At64(key, p + 8), seed), limbs)
  }

  /** Folds in the first 16 or 32 of the bytes that remain after `p`. */
  function FoldRest(key: seq<byte>, p: nat, seed: Word, limbs: bool): Word
    requires p <= |key|
  {
    var i := |key| - p;
    var s := if i > 16 then Fold(key, p, seed, limbs) else seed;
    if i > 32 then Fold(key, p + 16, s, limbs) else s
  }

  function Finish(a: Word, b: Word, seed: Word, len: Word, limbs: bool): Word {
    var p := Mum(Xor(a, SECRET[1]), Xor(b, seed), limbs);
    Mix(Xor(p.lo, SECRET[7]), Xor(Xor(p.hi, SECRET[1]), len), limbs)
  }

  /** The first byte, 45 bits up, with the last. */
  function Ends(first: nat, last: nat): Word
    requires first < 256 && last < 256
  {
    first * 0x2000_0000_0000 + last
  }

  function Short(key: seq<byte>, seed: Word): (Word, Word, Word)
    requires |key| <= 16
  {
    var n := |key|;
    if n >= 8 then (At64(key, 0), At64(key, n - 8), Xor(seed, n))
    else if n >= 4 then (At32(key, 0), At32(key, n - 4), Xor(seed, n))
    else if n > 0 then (Ends(key[0], key[n - 1]), key[n / 2], seed)
    else (0, 0, seed)
  }

  /** `hash_key`. */
  function HashKey(key: seq<byte>, limbs: bool): Word
    requires |key| < W
  {
    var n, start := |key|, Mix(SECRET[2], SECRET[1], limbs);
    if n <= 16 then
      var (a, b, seed) := Short(key, start);
      Finish(a, b, seed, n, limbs)
    else if n <= 48 then
      Finish(Xor(At64(key, n - 16), n), At64(key, n - 8), FoldRest(key, 0, start, limbs), n, limbs)
    else
      var (l, p) := Rounds(key, 0, Lanes(start, start, start), limbs);
      var i := n - p;
      var seed := FoldRest(key, p, Xor(l.seed, Xor(l.see1, l.see2)), limbs);
      Finish(Xor(At64(key, n - 16), i), At64(key, n - 8), seed, n, limbs)
  }

  /** The hash does not depend on which multiply the target has. */
  lemma SameOnAllTargets(key: seq<byte>)
    requires |key| < W
    ensures HashKey(key, true) == HashKey(key, false)
  {
    hide Mix, Xor, At64, At32;
    var start := Mix(SECRET[2], SECRET[1], true);
    MixSame(SECRET[2], SECRET[1]);
    RoundsSame(key, 0, Lanes(start, start, start));
    FoldsSame(key);
    FinishesSame();
  }

  lemma MixSame(a: Word, b: Word)
    ensures Mix(a, b, true) == Mix(a, b, false)
  {
  }

  lemma {:induction false} RoundsSame(key: seq<byte>, p: nat, l: Lanes)
    requires p <= |key|
    ensures Rounds(key, p, l, true) == Rounds(key, p, l, false)
    decreases |key| - p
  {
    hide Mix, Xor, At64;
    if |key| - p > 48 {
      MixSame(Xor(At64(key, p), SECRET[0]), Xor(At64(key, p + 8), l.seed));
      MixSame(Xor(At64(key, p + 16), SECRET[1]), Xor(At64(key, p + 24), l.see1));
      MixSame(Xor(At64(key, p + 32), SECRET[2]), Xor(At64(key, p + 40), l.see2));
      RoundsSame(key, p + 48, Round(key, p, l, true));
    }
  }

  lemma FoldsSame(key: seq<byte>)
    ensures forall p: nat, seed: Word | p <= |key| :: FoldRest(key, p, seed, true) == FoldRest(key, p, seed, false)
  {
    forall p: nat, seed: Word | p <= |key| ensures FoldRest(key, p, seed, true) == FoldRest(key, p, seed, false) {
      if |key| - p > 16 {
        MixSame(Xor(At64(key, p), SECRET[2]), Xor(At64(key, p + 8), seed));
        var s := Fold(key, p, seed, true);
        if |key| - p > 32 { MixSame(Xor(At64(key, p + 16), SECRET[2]), Xor(At64(key, p + 24), s)); }
      }
    }
  }

  lemma FinishesSame()
    ensures forall a: Word, b: Word, seed: Word, len: Word ::
      Finish(a, b, seed, len, true) == Finish(a, b, seed, len, false)
  {
  }

  // ---------------------------------------------------------------- what is read

  /** Every offset from `lo` up to `hi` was read. */
  ghost predicate Covers(seen: set<int>, lo: int, hi: int) { forall i: int | lo <= i < hi :: i in seen }

  /** Nothing outside the key was read. */
  ghost predicate Only(seen: set<int>, n: nat) { forall i | i in seen :: 0 <= i < n }

  ghost function Span(lo: int, n: nat): set<int>
    decreases n
  {
    if n == 0 then {} else {lo} + Span(lo + 1, n - 1)
  }

  lemma {:induction false} SpanIs(lo: int, n: nat)
    ensures forall i: int :: i in Span(lo, n) <==> lo <= i < lo + n
    decreases n
  {
    if n > 0 { SpanIs(lo + 1, n - 1); }
  }

  method Read64(key: seq<byte>, off: int, ghost seen: set<int>) returns (w: Word, ghost now: set<int>)
    requires 0 <= off && off + 8 <= |key| && Only(seen, |key|)
    ensures w == At64(key, off)
    ensures seen <= now && Covers(now, off, off + 8) && Only(now, |key|)
  {
    hide At64, Span;
    SpanIs(off, 8);
    w, now := At64(key, off), seen + Span(off, 8);
  }

  method Read32(key: seq<byte>, off: int, ghost seen: set<int>) returns (w: Word, ghost now: set<int>)
    requires 0 <= off && off + 4 <= |key| && Only(seen, |key|)
    ensures w == At32(key, off)
    ensures seen <= now && Covers(now, off, off + 4) && Only(now, |key|)
  {
    hide At32, Span;
    SpanIs(off, 4);
    w, now := At32(key, off), seen + Span(off, 4);
  }

  method MixTwo(key: seq<byte>, p: int, secret: Word, seed: Word, limbs: bool, ghost seen: set<int>)
    returns (m: Word, ghost now: set<int>)
    requires 0 <= p && p + 16 <= |key| && Only(seen, |key|)
    ensures m == Mix(Xor(At64(key, p), secret), Xor(At64(key, p + 8), seed), limbs)
    ensures seen <= now && Covers(now, p, p + 16) && Only(now, |key|)
  {
    hide Mix, Xor, At64;
    var x, y: Word;
    x, now := Read64(key, p, seen);
    y, now := Read64(key, p + 8, now);
    m := Mix(Xor(x, secret), Xor(y, seed), limbs);
  }

  /** Short keys: each of the up to 16 bytes is read. */
  method ReadShort(key: seq<byte>, start: Word) returns (a: Word, b: Word, seed: Word, ghost seen: set<int>)
    requires |key| <= 16
    ensures (a, b, seed) == Short(key, start) && Covers(seen, 0, |key|) && Only(seen, |key|)
  {
    hide Xor, At64, At32;
    var n := |key|;
    a, b, seed, seen := 0, 0, start, {};
    if n >= 4 {
      seed := Xor(seed, n);
      if n >= 8 {
        a, seen := Read64(key, 0, seen);
        b, seen := Read64(key, n - 8, seen);
      } else {
        a, seen := Read32(key, 0, seen);
        b, seen := Read32(key, n - 4, seen);
      }
    } else if n > 0 {
      a, b, seen := Ends(key[0], key[n - 1]), key[n / 2], {0, n - 1, n / 2};
    }
  }

  method ReadRest(key: seq<byte>, p: nat, from: Word, limbs: bool, ghost was: set<int>)
    returns (seed: Word, ghost seen: set<int>)
    requires p <= |key| && |key| - p <= 48 && Only(was, |key|)
    ensures seed == FoldRest(key, p, from, limbs) && was <= seen && Only(seen, |key|)
    ensures |key| - p > 16 ==> Covers(seen, p, p + if |key| - p > 32 then 32 else 16)
  {
    hide Mix, Xor, At64;
    seed, seen := from, was;
    if |key| - p > 16 {
      seed, seen := MixTwo(key, p, SECRET[2], seed, limbs, seen);
      if |key| - p > 32 { seed, seen := MixTwo(key, p + 16, SECRET[2], seed, limbs, seen); }
    }
  }

  /** The hash of the model, computed by reads that stay inside the key and reach every byte. */
  method ComputeHash(key: seq<byte>, limbs: bool) returns (h: Word, ghost seen: set<int>)
    requires |key| < W
    ensures h == HashKey(key, limbs) && Covers(seen, 0, |key|) && Only(seen, |key|)
  {
    hide Mix, Xor, At64, At32, FoldRest, Finish, Short;
    var n := |key|;
    var seed := Mix(SECRET[2], SECRET[1], limbs);
    var a, b: Word;
    if n <= 16 {
      a, b, seed, seen := ReadShort(key, seed);
    } else {
      var p := 0;
      seen := {};
      if n > 48 {
        seed, p, seen := ReadRounds(key, seed, limbs);
      }
      seed, seen := ReadRest(key, p, seed, limbs, seen);
      a, seen := Read64(key, n - 16, seen);
      b, seen := Read64(key, n - 8, seen);
      a := Xor(a, n - p);
    }
    h := Finish(a, b, seed, n, limbs);
  }

  method ReadRounds(key: seq<byte>, start: Word, limbs: bool) returns (seed: Word, p: nat, ghost seen: set<int>)
    requires 48 < |key|
    ensures var (l, q) := Rounds(key, 0, Lanes(start, start, start), limbs);
      p == q && seed == Xor(l.seed, Xor(l.see1, l.see2))
    ensures 48 <= p <= |key| && 0 < |key| - p <= 48 && Covers(seen, 0, p) && Only(seen, |key|)
  {
    hide Mix, Xor, At64;
    var see1, see2 := start, start;
    seed, p, seen := start, 0, {};
    while |key| - p > 48
      invariant p <= |key| && 0 < |key| - p && (p > 0 ==> p >= 48) && Covers(seen, 0, p) && Only(seen, |key|)
      invariant Rounds(key, p, Lanes(seed, see1, see2), limbs) == Rounds(key, 0, Lanes(start, start, start), limbs)
    {
      seed, seen := MixTwo(key, p, SECRET[0], seed, limbs, seen);
      see1, seen := MixTwo(key, p + 16, SECRET[1], see1, limbs, seen);
      see2, seen := MixTwo(key, p + 32, SECRET[2], see2, limbs, seen);
      p := p + 48;
    }
    seed := Xor(seed, Xor(see1, see2));
  }
}
