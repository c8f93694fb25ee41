/** The UTF-16 view of a UTF-8 string: code units, and where characters begin. The scanner goes
    by lead bytes alone, so it reads any bytes; a last character that is cut short is where its
    two modes part. */
module Utf16Scan {
  import opened Utf8

  /** How far `utf16_scan_decode` moves and how many code units it counts, by lead byte. */
  function SLen(c: byte): (n: nat)
    ensures 1 <= n <= 4
  {
    if 0xC0 <= c < 0xE0 then 2 else if 0xE0 <= c < 0xF0 then 3 else if 0xF0 <= c < 0xF8 then 4 else 1
  }

  function SUnits(c: byte): (n: nat)
    ensures 1 <= n <= 2 && n <= SLen(c)
  {
    if 0xF0 <= c < 0xF8 then 2 else 1
  }

  /** A complete character stands at `p`. */
  predicate Ready(s: seq<byte>, p: nat) { p < |s| && p + SLen(s[p]) <= |s| }

  /** From `p` on, no character is cut off at the end. */
  predicate WholeFrom(s: seq<byte>, p: nat)
    decreases |s| - p
  {
    p == |s| || (Ready(s, p) && WholeFrom(s, p + SLen(s[p])))
  }

  predicate Whole(s: seq<byte>) { WholeFrom(s, 0) }

  function CharCode(s: seq<byte>, p: nat): nat
    requires Ready(s, p)
  {
    match SLen(s[p])
    case 1 => s[p]
    case 2 => Code2(s[p], s[p + 1])
    case 3 => Code3(s[p], s[p + 1], s[p + 2])
    case _ => Code4(s[p], s[p + 1], s[p + 2], s[p + 3])
  }

  /** The surrogates of a code point, in 32-bit unsigned arithmetic. */
  function HighUnit(cp: nat): nat { 0xD800 + (cp + 0x1_0000_0000 - 0x10000) % 0x1_0000_0000 / 1024 }
  function LowUnit(cp: nat): nat { 0xDC00 + (cp + 0x1_0000_0000 - 0x10000) % 0x1_0000_0000 % 1024 }

  function CharUnits(s: seq<byte>, p: nat): (u: seq<nat>)
    requires Ready(s, p)
    ensures |u| == SUnits(s[p])
  {
    if SUnits(s[p]) == 2 then [HighUnit(CharCode(s, p)), LowUnit(CharCode(s, p))] else [CharCode(s, p)]
  }

  function UnitsFrom(s: seq<byte>, p: nat): seq<nat>
    decreases |s| - p
  {
    if Ready(s, p) then CharUnits(s, p) + UnitsFrom(s, p + SLen(s[p])) else []
  }

  /** The code units of a string. */
  function Units(s: seq<byte>): seq<nat> { UnitsFrom(s, 0) }

  /** Scanning from byte `p`, unit `u`, one comes to byte `q`, unit `v`. */
  predicate Reach(s: seq<byte>, p: nat, u: nat, q: nat, v: nat)
    decreases |s| - p
  {
    if p == q then u == v && p <= |s|
    else Ready(s, p) && p < q && Reach(s, p + SLen(s[p]), u + SUnits(s[p]), q, v)
  }

  /** A character begins at byte `p`, which is unit `u`. */
  predicate Boundary(s: seq<byte>, p: nat, u: nat) { Reach(s, 0, 0, p, u) }

  lemma CharCount(s: seq<byte>, p: nat)
    requires Ready(s, p)
    ensures |CharUnits(s, p)| == SUnits(s[p])
  {
  }

  lemma NoUnits(s: seq<byte>)
    requires s == []
    ensures Units(s) == []
  {
  }

  // ---------------------------------------------------------------- boundaries

  lemma {:induction false} ReachNext(s: seq<byte>, p: nat, u: nat, q: nat, v: nat)
    requires Reach(s, p, u, q, v) && Ready(s, q)
    ensures Reach(s, p, u, q + SLen(s[q]), v + SUnits(s[q]))
    decreases |s| - p
  {
    hide SLen, SUnits;
    if p != q { ReachNext(s, p + SLen(s[p]), u + SUnits(s[p]), q, v); }
  }

  lemma {:induction false} ReachUnits(s: seq<byte>, p: nat, u: nat, q: nat, v: nat)
    requires WholeFrom(s, p) && Reach(s, p, u, q, v)
    ensures WholeFrom(s, q) && q <= |s| && 0 <= v - u <= q - p && (p != q ==> u < v)
    ensures v - u <= |UnitsFrom(s, p)| && UnitsFrom(s, p)[v - u..] == UnitsFrom(s, q)
    decreases |s| - p
  {
    hide SLen, SUnits, CharUnits;
    if p != q {
      var n, k := SLen(s[p]), SUnits(s[p]);
      ReachUnits(s, p + n, u + k, q, v);
      assert UnitsFrom(s, p)[v - u..] == UnitsFrom(s, p + n)[v - u - k..];
    }
  }

  /** At a boundary the rest of the string is whole and its units are the rest of the units. */
  lemma AtBoundary(s: seq<byte>, p: nat, u: nat)
    requires Whole(s) && Boundary(s, p, u)
    ensures p <= |s| && WholeFrom(s, p) && u <= p
    ensures u <= |Units(s)| && Units(s)[u..] == UnitsFrom(s, p)
    ensures p < |s| ==> Ready(s, p)
    ensures p == |s| ==> u == |Units(s)|
  {
    ReachUnits(s, 0, 0, p, u);
  }

  lemma NextBoundary(s: seq<byte>, p: nat, u: nat)
    requires Whole(s) && Boundary(s, p, u) && p < |s|
    ensures Ready(s, p) && Boundary(s, p + SLen(s[p]), u + SUnits(s[p]))
    ensures u + SUnits(s[p]) <= |Units(s)|
    ensures Units(s)[u..] == CharUnits(s, p) + UnitsFrom(s, p + SLen(s[p]))
    ensures forall k | 0 <= k < SUnits(s[p]) :: Units(s)[u + k] == CharUnits(s, p)[k]
  {
    hide SLen, SUnits, CharUnits;
    AtBoundary(s, p, u);
    ReachNext(s, 0, 0, p, u);
    var t := Units(s)[u..];
    assert t == CharUnits(s, p) + UnitsFrom(s, p + SLen(s[p]));
    assert forall k | 0 <= k < SUnits(s[p]) :: t[k] == CharUnits(s, p)[k];
  }

  // ---------------------------------------------------------------- the two modes

  /** How far the scanner moves at `p`: when it also decodes, it takes the first byte of a character
      that is cut short alone. */
  function Move(s: seq<byte>, p: nat, decodes: bool): nat
    requires p < |s|
  {
    if decodes && !Ready(s, p) then 1 else SLen(s[p])
  }

  /** Both modes move alike through the whole string exactly when its last character is complete. */
  lemma ModesAgree(s: seq<byte>)
    ensures Whole(s) <==>
      forall p: nat, u: nat | Boundary(s, p, u) && p < |s| :: Move(s, p, true) == Move(s, p, false)
  {
    hide SLen, SUnits, Boundary;
    if Whole(s) {
      forall p: nat, u: nat | Boundary(s, p, u) && p < |s| ensures Ready(s, p) { AtBoundary(s, p, u); }
    } else {
      var p, u := CutAt(s, 0, 0);
    }
  }

  lemma {:induction false} CutAt(s: seq<byte>, p: nat, u: nat) returns (q: nat, v: nat)
    requires Boundary(s, p, u) && !WholeFrom(s, p)
    ensures Boundary(s, q, v) && q < |s| && Move(s, q, true) != Move(s, q, false)
    decreases |s| - p
  {
    ReachGrows(s, 0, 0, p, u);
    if Ready(s, p) {
      ReachNext(s, 0, 0, p, u);
      q, v := CutAt(s, p + SLen(s[p]), u + SUnits(s[p]));
    } else {
      q, v := p, u;
    }
  }

  /** The loop of `utf16_index_to_byte_offset_floor`, which adds the length without looking at the end. */
  function FloorScan(s: seq<byte>, p: nat, u: nat, idx: nat): nat
    decreases |s| - p
  {
    if p < |s| && u < idx && u + SUnits(s[p]) <= idx then FloorScan(s, p + SLen(s[p]), u + SUnits(s[p]), idx) else p
  }

  /** Its answers are offsets in the string exactly when the last character is complete. */
  lemma FloorStaysInside(s: seq<byte>)
    ensures Whole(s) <==> forall idx :: FloorScan(s, 0, 0, idx) <= |s|
  {
    if Whole(s) {
      forall idx ensures FloorScan(s, 0, 0, idx) <= |s| { FloorInside(s, 0, 0, idx); }
    } else {
      FloorOutside(s, 0, 0, 2 * |s|);
    }
  }

  lemma {:induction false} FloorInside(s: seq<byte>, p: nat, u: nat, idx: nat)
    requires WholeFrom(s, p)
    ensures FloorScan(s, p, u, idx) == SeekFloor(s, p, u, idx) <= |s|
    decreases |s| - p
  {
    hide SLen, SUnits;
    if Ready(s, p) { FloorInside(s, p + SLen(s[p]), u + SUnits(s[p]), idx); }
  }

  lemma {:induction false} FloorOutside(s: seq<byte>, p: nat, u: nat, idx: nat)
    requires !WholeFrom(s, p) && p <= |s| && u + 2 * (|s| - p) <= idx
    ensures FloorScan(s, p, u, idx) > |s|
    decreases |s| - p
  {
    if Ready(s, p) { FloorOutside(s, p + SLen(s[p]), u + SUnits(s[p]), idx); }
  }

  /** `utf16_strlen`: units by lead bytes, for any bytes. */
  function UnitCount(s: seq<byte>, p: nat := 0): nat
    decreases |s| - p
  {
    if p >= |s| then 0 else SUnits(s[p]) + UnitCount(s, p + SLen(s[p]))
  }

  /** The length is that of the code units exactly when the last character is complete. */
  lemma {:induction false} CountIsLength(s: seq<byte>, p: nat)
    requires p <= |s|
    ensures |UnitsFrom(s, p)| <= UnitCount(s, p) <= |s| - p + 1
    ensures UnitCount(s, p) == |UnitsFrom(s, p)| <==> WholeFrom(s, p)
    decreases |s| - p
  {
    hide SLen, CharUnits;
    if Ready(s, p) {
      CharCount(s, p);
      CountIsLength(s, p + SLen(s[p]));
    }
  }

  // ---------------------------------------------------------------- linear scans

  /** Where a scan for unit `idx` stops: the first character that begins at or after it. */
  function Seek(s: seq<byte>, p: nat, u: nat, idx: nat): nat
    decreases |s| - p
  {
    if u < idx && Ready(s, p) then Seek(s, p + SLen(s[p]), u + SUnits(s[p]), idx) else p
  }

  /** The last character that begins at or before unit `idx`. */
  function SeekFloor(s: seq<byte>, p: nat, u: nat, idx: nat): nat
    decreases |s| - p
  {
    if Ready(s, p) && u + SUnits(s[p]) <= idx then SeekFloor(s, p + SLen(s[p]), u + SUnits(s[p]), idx) else p
  }

  /** The units of the characters that begin before byte `off`. */
  function UnitsBefore(s: seq<byte>, p: nat, u: nat, off: nat): nat
    decreases |s| - p
  {
    if p < off && Ready(s, p) then UnitsBefore(s, p + SLen(s[p]), u + SUnits(s[p]), off) else u
  }

  lemma {:induction false} ReachGrows(s: seq<byte>, p: nat, u: nat, q: nat, v: nat)
    requires Reach(s, p, u, q, v)
    ensures p <= q <= |s| && u <= v && (p < q ==> u < v)
    decreases |s| - p
  {
    hide SLen, SUnits;
    if p != q { ReachGrows(s, p + SLen(s[p]), u + SUnits(s[p]), q, v); }
  }

  /** A scan may resume at any boundary it would pass. */
  lemma {:induction false} ResumeSeek(s: seq<byte>, p: nat, u: nat, q: nat, v: nat, idx: nat)
    requires Reach(s, p, u, q, v) && v <= idx
    ensures Seek(s, p, u, idx) == Seek(s, q, v, idx)
    decreases |s| - p
  {
    hide SLen, SUnits;
    if p != q {
      ReachGrows(s, p, u, q, v);
      ResumeSeek(s, p + SLen(s[p]), u + SUnits(s[p]), q, v, idx);
    }
  }

  lemma {:induction false} ResumeFloor(s: seq<byte>, p: nat, u: nat, q: nat, v: nat, idx: nat)
    requires Reach(s, p, u, q, v) && v <= idx
    ensures SeekFloor(s, p, u, idx) == SeekFloor(s, q, v, idx)
    decreases |s| - p
  {
    hide SLen, SUnits;
    if p != q {
      ReachGrows(s, p + SLen(s[p]), u + SUnits(s[p]), q, v);
      ResumeFloor(s, p + SLen(s[p]), u + SUnits(s[p]), q, v, idx);
    }
  }

  lemma {:induction false} ResumeBefore(s: seq<byte>, p: nat, u: nat, q: nat, v: nat, off: nat)
    requires Reach(s, p, u, q, v) && q <= off
    ensures UnitsBefore(s, p, u, off) == UnitsBefore(s, q, v, off)
    decreases |s| - p
  {
    hide SLen, SUnits;
    if p != q { ResumeBefore(s, p + SLen(s[p]), u + SUnits(s[p]), q, v, off); }
  }

  // ---------------------------------------------------------------- what the scans mean

  /** `Seek` stops on the unit asked for, one past it when that unit splits a surrogate pair, or
      at the end of a string that is too short. */
  lemma {:induction false} SeekMeans(s: seq<byte>, p: nat, u: nat, idx: nat) returns (v: nat)
    requires Whole(s) && Boundary(s, p, u) && u <= idx
    ensures Boundary(s, Seek(s, p, u, idx), v)
    ensures v == idx || v == idx + 1 || (Seek(s, p, u, idx) == |s| && v < idx)
    decreases |s| - p
  {
    hide SLen, UnitsFrom, Units, Boundary;
    AtBoundary(s, p, u);
    v := u;
    if u < idx && p < |s| {
      NextBoundary(s, p, u);
      v := u + SUnits(s[p]);
      if v <= idx { v := SeekMeans(s, p + SLen(s[p]), v, idx); }
    }
  }

  /** `SeekFloor` stops at or before the unit asked for, and the next character is beyond it. */
  lemma {:induction false} SeekFloorMeans(s: seq<byte>, p: nat, u: nat, idx: nat) returns (v: nat)
    requires Whole(s) && Boundary(s, p, u) && u <= idx
    ensures var q := SeekFloor(s, p, u, idx);
      Boundary(s, q, v) && v <= idx && (q < |s| ==> idx < v + SUnits(s[q]))
    decreases |s| - p
  {
    hide SLen, UnitsFrom, Units, Boundary;
    AtBoundary(s, p, u);
    v := u;
    if p < |s| && u + SUnits(s[p]) <= idx {
      NextBoundary(s, p, u);
      v := SeekFloorMeans(s, p + SLen(s[p]), u + SUnits(s[p]), idx);
    }
  }

  /** A unit belongs to one boundary only. */
  lemma {:induction false} ReachUnique(s: seq<byte>, p: nat, u: nat, q: nat, v: nat, q': nat, v': nat)
    requires Reach(s, p, u, q, v) && Reach(s, p, u, q', v')
    ensures q == q' <==> v == v'
    decreases |s| - p
  {
    hide SLen, SUnits;
    ReachGrows(s, p, u, q, v);
    ReachGrows(s, p, u, q', v');
    if p != q && p != q' { ReachUnique(s, p + SLen(s[p]), u + SUnits(s[p]), q, v, q', v'); }
  }

  // ---------------------------------------------------------------- ASCII

  predicate AllAscii(s: seq<byte>) { forall i | 0 <= i < |s| :: s[i] < 0x80 }

  lemma AsciiStep(s: seq<byte>, p: nat)
    requires AllAscii(s) && p < |s|
    ensures Ready(s, p) && SLen(s[p]) == SUnits(s[p]) == 1 && CharUnits(s, p) == [s[p]]
  {
  }

  /** ASCII bytes are their own code units. */
  lemma {:induction false} AsciiUnits(s: seq<byte>, p: nat, i: nat)
    requires AllAscii(s) && p <= i <= |s|
    ensures WholeFrom(s, p) && |UnitsFrom(s, p)| == |s| - p
    ensures i < |s| ==> UnitsFrom(s, p)[i - p] == s[i]
    decreases |s| - p
  {
    hide AllAscii, CharUnits, SLen, SUnits;
    if p < |s| {
      AsciiStep(s, p);
      AsciiUnits(s, p + 1, if p < i then i else i + 1);
    }
  }

  lemma {:induction false} AsciiSeek(s: seq<byte>, p: nat, idx: nat)
    requires AllAscii(s) && p <= |s| && p <= idx
    ensures Seek(s, p, p, idx) == SeekFloor(s, p, p, idx) == UnitsBefore(s, p, p, idx)
    ensures Seek(s, p, p, idx) == if idx <= |s| then idx else |s|
    decreases |s| - p
  {
    if p < |s| && p < idx { AsciiSeek(s, p + 1, idx); }
  }
}
