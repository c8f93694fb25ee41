/** The caches in front of the linear scan: one resume point for the string scanned last, and
    eight entries of checkpoints every 64 code units. Whatever the order of queries, strings and
    string sweeps, every answer is the one a scan from the front of the string gives. */
module Utf16Cache {
  import opened Utf8
  import opened Utf16Scan

  const CHUNK: nat := 64
  const WAYS: nat := 8
  const INDEX_MIN_BYTES: nat := 256
  const NO_UNIT: nat := 0xFFFF_FFFF

  datatype Point = Point(off: nat, units: nat)

  /** A remembered position in the string at address `str`; address 0 is no string. */
  datatype Resume = Resume(epoch: nat, str: nat, pos: nat, units: nat)

  /** Checkpoints of one string; none yet if `points` is empty. */
  datatype Entry = Entry(str: nat, len: nat, points: seq<Point>)

  datatype Index = Index(epoch: nat, victim: nat, mru: nat, entries: seq<Entry>)

  datatype Cursor = Cursor(p: nat, u: nat)

  /** Checkpoint `k` is a character boundary at unit 64k, or one before when 64k splits a pair. */
  ghost predicate PointOk(s: seq<byte>, pt: Point, k: nat) {
    && Boundary(s, pt.off, pt.units)
    && pt.units <= CHUNK * k <= pt.units + 1
  }

  ghost predicate PointsOk(s: seq<byte>, pts: seq<Point>) {
    pts != [] && pts[0] == Point(0, 0) && forall k | 0 <= k < |pts| :: PointOk(s, pts[k], k)
  }

  /** The from-scratch answer of `utf16_index_to_byte_offset`. */
  function Offset(s: seq<byte>, idx: nat): int {
    var p := Seek(s, 0, 0, idx);
    if p < |s| then p else if idx == |Units(s)| then |s| else -1
  }

  /** In ASCII text bytes and units are the same. */
  lemma AsciiOffset(s: seq<byte>, idx: nat)
    requires AllAscii(s)
    ensures Offset(s, idx) == (if idx <= |s| then idx else -1)
    ensures idx < |s| ==> SLen(s[idx]) == 1
  {
    AsciiSeek(s, 0, idx);
    AsciiUnits(s, 0, 0);
    if idx < |s| { AsciiStep(s, idx); }
  }

  datatype Cut = Cut(prefix: nat, byteStart: nat, byteEnd: nat, suffix: nat)

  class Strings {
    /** The live strings by address; only a sweep removes or reuses an address. */
    var mem: map<nat, seq<byte>>
    var sweeps: nat
    var scan: Resume
    var index: Index

    ghost predicate ScanOk()
      reads this
    {
      scan.epoch == sweeps && scan.str != 0 ==>
        scan.str in mem && Boundary(mem[scan.str], scan.pos, scan.units)
    }

    ghost predicate EntryOk(e: Entry)
      reads this
    {
      e.points != [] ==> e.str in mem && PointsOk(mem[e.str], e.points)
    }

    ghost predicate IndexOk()
      reads this
    {
      && |index.entries| == WAYS && index.mru < WAYS && index.victim < WAYS
      && (index.epoch == sweeps ==> forall i | 0 <= i < WAYS :: EntryOk(index.entries[i]))
    }

    ghost predicate MemOk()
      reads this
    {
      0 !in mem && forall p <- mem :: Whole(mem[p])
    }

    ghost predicate Valid()
      reads this
    {
      MemOk() && scan.epoch <= sweeps && index.epoch <= sweeps && ScanOk() && IndexOk()
    }

    constructor ()
      ensures Valid() && mem == map[] && sweeps == 0
    {
      mem, sweeps, scan := map[], 0, Resume(0, 0, 0, 0);
      index := Index(0, 0, 0, seq(WAYS, i => Entry(0, 0, [])));
    }

    /** A new string appears at an unused address. */
    method Alloc(p: nat, s: seq<byte>)
      requires Valid() && p != 0 && p !in mem && Whole(s)
      modifies this
      ensures Valid() && mem == old(mem)[p := s] && sweeps == old(sweeps)
    {
      mem := mem[p := s];
    }

    /** A sweep frees strings and lets their addresses be reused in any way. */
    method Sweep(next: map<nat, seq<byte>>)
      requires Valid() && 0 !in next && (forall p <- next :: Whole(next[p]))
      modifies this
      ensures Valid() && mem == next && sweeps == old(sweeps) + 1
    {
      mem, sweeps := next, sweeps + 1;
    }
  
    // -------------------------------------------------------------- the scan cache

    method SyncScan()
      requires Valid()
      modifies this`scan
      ensures Valid() && scan.epoch == sweeps
    {
      if scan.epoch != sweeps { scan := Resume(sweeps, 0, 0, 0); }
    }

    /** `utf16_scan_cursor_init` and `utf16_scan_cursor_resume_utf16` */
    method OpenAtUnit(str: nat, len: nat, target: nat) returns (c: Cursor)
      requires Valid() && str in mem && len == |mem[str]|
      modifies this`scan
      ensures Valid() && scan.epoch == sweeps
      ensures Boundary(mem[str], c.p, c.u) && c.u <= target
    {
      SyncScan();
      if scan.str == str && scan.pos <= len && target >= scan.units {
        return Cursor(scan.pos, scan.units);
      }
      return Cursor(0, 0);
    }

    method Store(str: nat, c: Cursor)
      requires Valid() && str in mem && scan.epoch == sweeps && Boundary(mem[str], c.p, c.u)
      modifies this`scan
      ensures Valid()
    {
      scan := Resume(scan.epoch, str, c.p, c.u);
    }

    // -------------------------------------------------------------- the checkpoint index

    /** `utf16_index_build`: the point array has room for every checkpoint. */
    method Build(s: seq<byte>) returns (points: seq<Point>)
      requires Whole(s)
      ensures PointsOk(s, points) && |points| <= |s| / CHUNK + 2
    {
      hide SLen, UnitsFrom;
      points := [Point(0, 0)];
      var p: nat, u: nat := 0, 0;
      while p < |s|
        invariant p <= |s| && Boundary(s, p, u) && PointsOk(s, points)
        invariant u <= |points| * CHUNK
        invariant |points| <= |s| / CHUNK + 2
        decreases |s| - p
      {
        AtBoundary(s, p, u);
        NextBoundary(s, p, u);
        if u + SUnits(s[p]) > |points| * CHUNK {
          assert PointOk(s, Point(p, u), |points|);
          assert |points| * CHUNK <= |s|;
          points := points + [Point(p, u)];
        }
        p, u := p + SLen(s[p]), u + SUnits(s[p]);
      }
    }

    method SyncIndex()
      requires Valid()
      modifies this`index
      ensures Valid() && index.epoch == sweeps
    {
      if index.epoch != sweeps {
        index := Index(sweeps, 0, 0, seq(WAYS, i => Entry(0, 0, [])));
      }
    }

    method FindEntry(str: nat, len: nat) returns (at: nat)
      requires Valid()
      ensures at <= WAYS
      ensures at < WAYS ==> index.entries[at].str == str && index.entries[at].len == len
    {
      var m := index.entries[index.mru];
      if m.str == str && m.len == len { return index.mru; }
      for i := 0 to WAYS {
        if i != index.mru && index.entries[i].str == str && index.entries[i].len == len { return i; }
      }
      return WAYS;
    }

    /** `utf16_index_get`: nothing on the first touch of a string, its checkpoints afterwards. */
    method Checkpoints(str: nat, len: nat) returns (points: seq<Point>)
      requires Valid() && str in mem && len == |mem[str]|
      modifies this`index
      ensures Valid() && (points != [] ==> PointsOk(mem[str], points))
    {
      if len < INDEX_MIN_BYTES || len > 0xFFFF_FFFF { return []; }
      SyncIndex();
      var at := FindEntry(str, len);
      if at == WAYS {
        var v := index.victim;
        index := index.(entries := index.entries[v := Entry(str, len, [])], mru := v,
                        victim := if v + 1 == WAYS then 0 else v + 1);
        return [];
      }
      index := index.(mru := at);
      points := index.entries[at].points;
      if points == [] {
        points := Build(mem[str]);
        index := index.(entries := index.entries[at := Entry(str, len, points)]);
      }
    }

    /** `utf16_index_seek`. The source walks down while the checkpoint lies beyond the target;
        by `PointOk` it never does, so the walk takes no step. */
    method SeekPoint(s: seq<byte>, points: seq<Point>, c: Cursor, target: nat) returns (d: Cursor)
      requires PointsOk(s, points) && Boundary(s, c.p, c.u) && c.u <= target
      ensures Boundary(s, d.p, d.u) && c.u <= d.u <= target
    {
      var k := target / CHUNK;
      if k >= |points| { k := |points| - 1; }
      assert PointOk(s, points[k], k) && points[k].units <= target;
      if points[k].units <= c.u { return c; }
      return Cursor(points[k].off, points[k].units);
    }

    /** `utf16_scan_cursor_resume_indexed` */
    method OpenIndexed(str: nat, len: nat, target: nat) returns (c: Cursor)
      requires Valid() && str in mem && len == |mem[str]|
      modifies this`scan, this`index
      ensures Valid() && scan.epoch == sweeps
      ensures Boundary(mem[str], c.p, c.u) && c.u <= target
    {
      c := OpenAtUnit(str, len, target);
      if target <= c.u || target - c.u <= CHUNK { return; }
      var points := Checkpoints(str, len);
      if points != [] { c := SeekPoint(mem[str], points, c, target); }
    }
  
    // -------------------------------------------------------------- queries

    /** `utf16_index_to_byte_offset` */
    method IndexToByteOffset(str: nat, idx: nat) returns (off: int, charBytes: nat)
      requires Valid() && str in mem
      modifies this`scan, this`index
      ensures Valid()
      ensures off == Offset(mem[str], idx)
      ensures off >= 0 ==> charBytes == if off < |mem[str]| then SLen(mem[str][off]) else 0
    {
      hide SLen, UnitsFrom;
      var s := mem[str];
      charBytes := 0;
      if AllAscii(s) {
        AsciiOffset(s, idx);
        if idx > |s| { return -1, 0; }
        return idx, if idx < |s| then 1 else 0;
      }
      var c := OpenIndexed(str, |s|, idx);
      ResumeSeek(s, 0, 0, c.p, c.u, idx);
      AtBoundary(s, c.p, c.u);
      while c.p < |s| && c.u < idx
        invariant c.p <= |s| && Boundary(s, c.p, c.u)
        invariant Seek(s, 0, 0, idx) == Seek(s, c.p, c.u, idx)
        modifies {}
        decreases |s| - c.p
      {
        NextBoundary(s, c.p, c.u);
        c := Cursor(c.p + SLen(s[c.p]), c.u + SUnits(s[c.p]));
      }
      AtBoundary(s, c.p, c.u);
      assert Seek(s, c.p, c.u, idx) == c.p;
      Store(str, c);
      if c.p == |s| { return if c.u == idx then |s| else -1, 0; }
      return c.p, SLen(s[c.p]);
    }

    /** `utf16_index_to_byte_offset_floor` */
    method IndexToByteOffsetFloor(str: nat, idx: nat) returns (off: nat)
      requires Valid() && str in mem
      modifies this`scan
      ensures Valid() && off == SeekFloor(mem[str], 0, 0, idx)
    {
      hide SLen, UnitsFrom;
      var s := mem[str];
      if AllAscii(s) {
        AsciiSeek(s, 0, idx);
        return if idx > |s| then |s| else idx;
      }
      var c := OpenAtUnit(str, |s|, idx);
      ResumeFloor(s, 0, 0, c.p, c.u, idx);
      AtBoundary(s, c.p, c.u);
      while c.p < |s| && c.u < idx
        invariant c.p <= |s| && Boundary(s, c.p, c.u)
        invariant SeekFloor(s, 0, 0, idx) == SeekFloor(s, c.p, c.u, idx)
        modifies {}
        decreases |s| - c.p
      {
        NextBoundary(s, c.p, c.u);
        if c.u + SUnits(s[c.p]) > idx { break; }
        c := Cursor(c.p + SLen(s[c.p]), c.u + SUnits(s[c.p]));
      }
      Store(str, c);
      return c.p;
    }

    /** `byte_offset_to_utf16`; an offset inside a character counts the whole character. */
    method ByteOffsetToUtf16(str: nat, off: nat) returns (units: nat)
      requires Valid() && str in mem && off <= |mem[str]|
      modifies this`scan
      ensures Valid() && units == UnitsBefore(mem[str], 0, 0, off)
    {
      hide SLen, UnitsFrom;
      var s := mem[str];
      if AllAscii(s) {
        AsciiSeek(s, 0, off);
        return off;
      }
      SyncScan();
      var c := Cursor(0, 0);
      if scan.str == str && scan.pos <= off { c := Cursor(scan.pos, scan.units); }
      ResumeBefore(s, 0, 0, c.p, c.u, off);
      while c.p < off
        invariant c.p <= off && Boundary(s, c.p, c.u)
        invariant UnitsBefore(s, 0, 0, off) == UnitsBefore(s, c.p, c.u, off)
        modifies {}
        decreases |s| - c.p
      {
        NextBoundary(s, c.p, c.u);
        if c.p + SLen(s[c.p]) > off { return c.u + SUnits(s[c.p]); }
        c := Cursor(c.p + SLen(s[c.p]), c.u + SUnits(s[c.p]));
      }
      Store(str, c);
      return c.u;
    }

    /** `utf16_code_unit_at` */
    method CodeUnitAt(str: nat, idx: nat) returns (unit: nat)
      requires Valid() && str in mem
      modifies this`scan, this`index
      ensures Valid()
      ensures unit == if idx < |Units(mem[str])| then Units(mem[str])[idx] else NO_UNIT
    {
      hide SLen, UnitsFrom, SUnits;
      var s := mem[str];
      if AllAscii(s) {
        AsciiUnits(s, 0, if idx < |s| then idx else 0);
        return if idx >= |s| then NO_UNIT else s[idx];
      }
      var c := OpenIndexed(str, |s|, idx);
      AtBoundary(s, c.p, c.u);
      unit := NO_UNIT;
      while c.p < |s|
        invariant c.p <= |s| && Boundary(s, c.p, c.u) && c.u <= idx && unit == NO_UNIT
        modifies {}
        decreases |s| - c.p
      {
        NextBoundary(s, c.p, c.u);
        if c.u == idx {
          unit := CharUnits(s, c.p)[0];
          break;
        }
        if SUnits(s[c.p]) == 2 && c.u + 1 == idx {
          unit := CharUnits(s, c.p)[1];
          break;
        }
        c := Cursor(c.p + SLen(s[c.p]), c.u + SUnits(s[c.p]));
      }
      AtBoundary(s, c.p, c.u);
      Store(str, c);
    }

    /** `utf16_codepoint_at`: the code point that begins at the unit, or the low surrogate. */
    method CodePointAt(str: nat, idx: nat) returns (cp: nat)
      requires Valid() && str in mem
      modifies this`scan, this`index
      ensures Valid()
      ensures idx >= |Units(mem[str])| ==> cp == NO_UNIT
      ensures forall p: nat | p < |mem[str]| && Boundary(mem[str], p, idx) ::
        Ready(mem[str], p) && cp == CharCode(mem[str], p)
      ensures idx < |Units(mem[str])| && (forall p: nat :: !Boundary(mem[str], p, idx)) ==> cp == Units(mem[str])[idx]
    {
      hide SLen, UnitsFrom, SUnits, Boundary, CharCode, Units, Whole, Ready;
      var s := mem[str];
      if AllAscii(s) { cp := AsciiCodePoint(s, idx); return; }
      var c := OpenIndexed(str, |s|, idx);
      cp, c := SeekCodePoint(s, c, idx);
      Store(str, c);
    }

    /** `utf16_range_to_byte_range`: the byte range of a code-unit slice, and the surrogates
        that the slice cuts off at either end. */
    method RangeToByteRange(str: nat, start: nat, end: nat) returns (r: Cut)
      requires Valid() && str in mem
      modifies this`scan, this`index
      ensures Valid()
      ensures start < end ==> Slices(mem[str], r, start, end)
      ensures start >= end ==> r == Cut(0, 0, 0, 0)
    {
      hide SLen, UnitsFrom, SUnits, Boundary, Slices;
      if start >= end { return Cut(0, 0, 0, 0); }
      var s := mem[str];
      if AllAscii(s) {
        r := Cut(0, if start <= |s| then start else |s|, if end <= |s| then end else |s|, 0);
        AsciiSlices(s, r, start, end);
        return;
      }
      var c := OpenIndexed(str, |s|, start);
      var prefix, d := CutFront(s, c, start);
      var suffix, e := CutBack(s, d, end);
      SlicesMet(s, start, end, prefix, d, e, suffix);
      Store(str, e);
      return Cut(prefix, d.p, e.p, suffix);
    }
  }

  function Min(a: nat, b: nat): nat { if a <= b then a else b }
  function Opt(x: nat): seq<nat> { if x == 0 then [] else [x] }

  /** The prefix surrogate, the units of the byte range and the suffix surrogate are together the
      code-unit slice; the source keeps the suffix in 16 bits. */
  ghost predicate Slices(s: seq<byte>, r: Cut, start: nat, end: nat) {
    && r.byteStart <= r.byteEnd <= |s|
    && var all := Units(s);
       var lo, hi := Min(start, |all|), Min(end, |all|);
    && lo <= hi
    && (r.suffix == 0 ==> all[lo..hi] == Opt(r.prefix) + Units(s[r.byteStart..r.byteEnd]))
    && (r.suffix != 0 ==> lo < hi && r.suffix == all[hi - 1] % 0x10000)
    && (r.suffix != 0 ==> all[lo..hi - 1] == Opt(r.prefix) + Units(s[r.byteStart..r.byteEnd]))
  }

  /** After the first loop: the slice starts at this boundary, or one unit before it. */
  ghost predicate FrontAt(s: seq<byte>, prefix: nat, d: Cursor, start: nat) {
    && Boundary(s, d.p, d.u)
    && (if prefix == 0 then d.u == Min(start, |Units(s)|)
        else d.u == start + 1 <= |Units(s)| && prefix == Units(s)[start])
  }

  method CutFront(s: seq<byte>, c0: Cursor, start: nat) returns (prefix: nat, c: Cursor)
    requires Whole(s) && Boundary(s, c0.p, c0.u) && c0.u <= start
    ensures FrontAt(s, prefix, c, start)
  {
    hide SLen, UnitsFrom, Boundary;
    prefix, c := 0, c0;
    AtBoundary(s, c.p, c.u);
    while c.p < |s| && c.u < start
      invariant Boundary(s, c.p, c.u) && c.u <= start && c.p <= |s|
      decreases |s| - c.p
    {
      NextBoundary(s, c.p, c.u);
      var n, k := SLen(s[c.p]), SUnits(s[c.p]);
      if k == 2 && c.u + 1 == start {
        prefix := LowUnit(CharCode(s, c.p));
        assert Units(s)[c.u + 1] == CharUnits(s, c.p)[1];
        c := Cursor(c.p + n, c.u + k);
        return;
      }
      c := Cursor(c.p + n, c.u + k);
    }
    AtBoundary(s, c.p, c.u);
  }

  ghost predicate BackAt(s: seq<byte>, d: Cursor, e: Cursor, suffix: nat, end: nat) {
    && Reach(s, d.p, d.u, e.p, e.u)
    && (if suffix == 0 then e.u == Min(end, |Units(s)|)
        else e.u + 1 == end <= |Units(s)| && suffix == Units(s)[e.u] % 0x10000)
  }

  method CutBack(s: seq<byte>, d: Cursor, end: nat) returns (suffix: nat, e: Cursor)
    requires Whole(s) && Boundary(s, d.p, d.u) && d.u <= Min(end, |Units(s)|)
    ensures Boundary(s, e.p, e.u) && BackAt(s, d, e, suffix, end)
  {
    hide SLen, UnitsFrom, Boundary, HighUnit;
    suffix, e := 0, d;
    AtBoundary(s, e.p, e.u);
    while e.p < |s| && e.u < end
      invariant Boundary(s, e.p, e.u) && Reach(s, d.p, d.u, e.p, e.u) && e.u <= end && e.p <= |s|
      decreases |s| - e.p
    {
      NextBoundary(s, e.p, e.u);
      var n, k := SLen(s[e.p]), SUnits(s[e.p]);
      if k == 2 && e.u + 1 == end {
        suffix := HighUnit(CharCode(s, e.p)) % 0x10000;
        assert Units(s)[e.u + 0] == CharUnits(s, e.p)[0];
        HighNonZero(s, e.p);
        return;
      }
      ReachNext(s, d.p, d.u, e.p, e.u);
      e := Cursor(e.p + n, e.u + k);
    }
    AtBoundary(s, e.p, e.u);
  }

  lemma HighNonZero(s: seq<byte>, p: nat)
    requires Ready(s, p) && SUnits(s[p]) == 2
    ensures HighUnit(CharCode(s, p)) % 0x10000 != 0
  {
  }

  /** The units of a byte range between two boundaries are that part of the units. */
  lemma {:induction false} SubUnits(s: seq<byte>, from: nat, p: nat, u: nat, q: nat, v: nat)
    requires from <= p && Reach(s, p, u, q, v)
    ensures p <= q <= |s| && 0 <= v - u <= |UnitsFrom(s, p)|
    ensures UnitsFrom(s[from..q], p - from) == UnitsFrom(s, p)[..v - u]
    decreases |s| - p
  {
    hide SLen, SUnits, CharUnits;
    ReachGrows(s, p, u, q, v);
    if p != q {
      var n, k := SLen(s[p]), SUnits(s[p]);
      ReachGrows(s, p + n, u + k, q, v);
      SubUnits(s, from, p + n, u + k, q, v);
      SubStep(s, from, p, q, v - u);
    }
  }

  lemma SubStep(s: seq<byte>, from: nat, p: nat, q: nat, count: nat)
    requires from <= p && q <= |s| && Ready(s, p) && p + SLen(s[p]) <= q
    requires SUnits(s[p]) <= count <= SUnits(s[p]) + |UnitsFrom(s, p + SLen(s[p]))|
    requires UnitsFrom(s[from..q], p + SLen(s[p]) - from) == UnitsFrom(s, p + SLen(s[p]))[..count - SUnits(s[p])]
    ensures count <= |UnitsFrom(s, p)| && UnitsFrom(s[from..q], p - from) == UnitsFrom(s, p)[..count]
  {
    hide SLen, SUnits, CharUnits, UnitsFrom;
    var t, n, k := s[from..q], SLen(s[p]), SUnits(s[p]);
    SliceSlice(s, from, q, p, p + n);
    SameChar(s, t, p, p - from);
    UnitsStep(s, p);
    UnitsStep(t, p - from);
    TakeConcat(CharUnits(s, p), UnitsFrom(s, p + n), count);
  }

  lemma TakeConcat(a: seq<nat>, b: seq<nat>, n: nat)
    requires |a| <= n <= |a| + |b|
    ensures (a + b)[..n] == a + b[..n - |a|]
  {
  }

  lemma SliceSlice(s: seq<byte>, from: nat, q: nat, a: nat, b: nat)
    requires from <= a <= b <= q <= |s|
    ensures s[from..q][a - from..b - from] == s[a..b]
  {
    var x, y := s[from..q][a - from..b - from], s[a..b];
    assert |x| == |y| && forall i | 0 <= i < |x| :: x[i] == y[i];
  }

  lemma UnitsStep(s: seq<byte>, p: nat)
    requires Ready(s, p)
    ensures UnitsFrom(s, p) == CharUnits(s, p) + UnitsFrom(s, p + SLen(s[p]))
  {
  }

  lemma SameChar(s: seq<byte>, t: seq<byte>, p: nat, i: nat)
    requires Ready(s, p) && i + SLen(s[p]) <= |t| && t[i..i + SLen(s[p])] == s[p..p + SLen(s[p])]
    ensures Ready(t, i) && t[i] == s[p] && CharUnits(t, i) == CharUnits(s, p)
  {
    hide HighUnit, LowUnit, Code2, Code3, Code4;
    var n := SLen(s[p]);
    var x := s[p..p + n];
    assert x[0] == s[p] == t[i];
    if n >= 2 { assert x[1] == s[p + 1] == t[i + 1]; }
    if n >= 3 { assert x[2] == s[p + 2] == t[i + 2]; }
    if n >= 4 { assert x[3] == s[p + 3] == t[i + 3]; }
  }

  lemma SlicesMet(s: seq<byte>, start: nat, end: nat, prefix: nat, d: Cursor, e: Cursor, suffix: nat)
    requires Whole(s) && start < end && FrontAt(s, prefix, d, start) && BackAt(s, d, e, suffix, end)
    ensures Slices(s, Cut(prefix, d.p, e.p, suffix), start, end)
  {
    hide UnitsFrom;
    AtBoundary(s, d.p, d.u);
    SubUnits(s, d.p, d.p, d.u, e.p, e.u);
    var all := Units(s);
    var mid := Units(s[d.p..e.p]);
    assert mid == all[d.u..][..e.u - d.u] == all[d.u..e.u];
    var lo := Min(start, |all|);
    assert all[lo..e.u] == Opt(prefix) + mid;
  }

  lemma AsciiSlices(s: seq<byte>, r: Cut, start: nat, end: nat)
    requires AllAscii(s) && start < end && r == Cut(0, Min(start, |s|), Min(end, |s|), 0)
    ensures Slices(s, r, start, end)
  {
    hide UnitsFrom, AllAscii;
    var t := s[r.byteStart..r.byteEnd];
    assert AllAscii(t) by { AsciiPart(s, r.byteStart, r.byteEnd); }
    AsciiUnits(s, 0, 0);
    AsciiUnits(t, 0, 0);
    forall i | 0 <= i < |t| ensures Units(t)[i] == Units(s)[r.byteStart + i] {
      AsciiUnits(t, 0, i);
      AsciiUnits(s, 0, r.byteStart + i);
    }
  }

  /** The loop of `utf16_codepoint_at` from a boundary on. */
  method SeekCodePoint(s: seq<byte>, start: Cursor, idx: nat) returns (cp: nat, c: Cursor)
    requires Whole(s) && Boundary(s, start.p, start.u) && start.u <= idx
    ensures Boundary(s, c.p, c.u)
    ensures idx >= |Units(s)| ==> cp == NO_UNIT
    ensures forall p: nat | p < |s| && Boundary(s, p, idx) :: Ready(s, p) && cp == CharCode(s, p)
    ensures idx < |Units(s)| && (forall p: nat :: !Boundary(s, p, idx)) ==> cp == Units(s)[idx]
  {
    hide SLen, UnitsFrom, SUnits, Boundary, CharUnits, CharCode;
    c := start;
    AtBoundary(s, c.p, c.u);
    while c.p < |s|
      invariant c.p <= |s| && Boundary(s, c.p, c.u) && c.u <= idx
      decreases |s| - c.p
    {
      NextBoundary(s, c.p, c.u);
      if c.u == idx {
        OnlyHere(s, c.p, idx);
        return CharCode(s, c.p), c;
      }
      if SUnits(s[c.p]) == 2 && c.u + 1 == idx {
        NotHere(s, c.p, c.u, idx);
        return CharUnits(s, c.p)[1], c;
      }
      c := Cursor(c.p + SLen(s[c.p]), c.u + SUnits(s[c.p]));
    }
    AtBoundary(s, c.p, c.u);
    forall p: nat | p < |s| ensures !Boundary(s, p, idx) {
      if Boundary(s, p, idx) { NextBoundary(s, p, idx); }
    }
    cp := NO_UNIT;
  }

  lemma AsciiPart(s: seq<byte>, i: nat, j: nat)
    requires AllAscii(s) && i <= j <= |s|
    ensures AllAscii(s[i..j])
  {
  }

  method AsciiCodePoint(s: seq<byte>, idx: nat) returns (cp: nat)
    requires AllAscii(s) && Whole(s)
    ensures idx >= |Units(s)| ==> cp == NO_UNIT
    ensures forall p: nat | p < |s| && Boundary(s, p, idx) :: Ready(s, p) && cp == CharCode(s, p)
    ensures idx < |Units(s)| && (forall p: nat :: !Boundary(s, p, idx)) ==> cp == Units(s)[idx]
  {
    hide UnitsFrom, Boundary;
    AsciiUnits(s, 0, if idx < |s| then idx else 0);
    forall p: nat | p < |s| && Boundary(s, p, idx)
      ensures Ready(s, p) && idx < |s| && s[idx] == CharCode(s, p)
    {
      NextBoundary(s, p, idx);
      AsciiStep(s, p);
      assert Units(s)[idx + 0] == CharUnits(s, p)[0];
    }
    return if idx >= |s| then NO_UNIT else s[idx];
  }

  lemma OnlyHere(s: seq<byte>, q: nat, idx: nat)
    requires Whole(s) && Boundary(s, q, idx)
    ensures forall p: nat | Boundary(s, p, idx) :: p == q
  {
    forall p: nat | Boundary(s, p, idx) ensures p == q { ReachUnique(s, 0, 0, p, idx, q, idx); }
  }

  /** No character begins at the second unit of a pair. */
  lemma NotHere(s: seq<byte>, q: nat, u: nat, idx: nat)
    requires Whole(s) && Boundary(s, q, u) && Ready(s, q) && SUnits(s[q]) == 2 && idx == u + 1
    ensures forall p: nat :: !Boundary(s, p, idx)
  {
    forall p: nat ensures !Boundary(s, p, idx) { InsidePair(s, 0, 0, q, u, p); }
  }

  lemma {:induction false} InsidePair(s: seq<byte>, p: nat, u: nat, q: nat, v: nat, r: nat)
    requires Reach(s, p, u, q, v) && Ready(s, q) && SUnits(s[q]) == 2
    ensures !Reach(s, p, u, r, v + 1)
    decreases |s| - p
  {
    hide SLen;
    ReachGrows(s, p, u, q, v);
    if p != q {
      InsidePair(s, p + SLen(s[p]), u + SUnits(s[p]), q, v, r);
    } else if p != r && Ready(s, p) && Reach(s, p + SLen(s[p]), u + 2, r, v + 1) {
      ReachGrows(s, p + SLen(s[p]), u + 2, r, v + 1);
      assert false;
    }
  }
}
