/** Opening a file that a bundle was appended to gives back the modules, their data, the entry
    and the edges, whatever was in the file before and whatever (short) tail follows. */
module BundleRoundTrip {
  import opened Utf8
  import opened BundleBytes
  import opened Common
  import opened Bundle

  /** The widths the record fields have: what a build must respect to be stored without loss. */
  ghost predicate Fits(b: Build) {
    && |b.modules| < P32 && |b.edges| < P32 && |StrTab(Strings(b))| <= P32
    && NulFree(b.abi) && (forall s <- Strings(b) :: NulFree(s))
  }

  lemma Pows()
    ensures Pow256(1) == 256 && Pow256(2) == 0x1_0000 && Pow256(4) == P32
    ensures Pow256(7) == P56 && Pow256(8) == 2 * P63
  {
    assert Pow256(2) == 256 * Pow256(1);
    assert Pow256(3) == 256 * Pow256(2);
    assert Pow256(5) == 256 * Pow256(4);
    assert Pow256(6) == 256 * Pow256(5);
  }

  // ---------------------------------------------------------------- the parts of the payload

  lemma {:induction false} DataGrows(b: Build, i: nat, j: nat)
    requires i <= j <= |b.modules|
    ensures DataOff(b, i) <= DataOff(b, j)
    ensures i < j ==> DataOff(b, i) + |b.modules[i].data| < DataOff(b, j)
  {
    if i < j { DataGrows(b, i, j - 1); }
  }

  /** Each module's data is at its offset, with a zero after it. */
  lemma {:induction false} DataAt(b: Build, i: nat, n: nat)
    requires i < n <= |b.modules|
    ensures var d, at, k := DataBytes(b, n), DataOff(b, i) - DataStart(b), |b.modules[i].data|;
      0 <= at && at + k < |d| && d[at..at + k] == b.modules[i].data && d[at + k] == 0
  {
    hide DataStart, Align8, Zeros;
    DataGrows(b, 0, i);
    DataGrows(b, i, n);
    var m := b.modules[n - 1];
    var a, z := DataBytes(b, n - 1), Zeros(DataOff(b, n) - DataOff(b, n - 1) - |m.data|);
    var at, k := DataOff(b, i) - DataStart(b), |b.modules[i].data|;
    if i == n - 1 {
      MiddleOf(a, m.data, z);
    } else {
      DataAt(b, i, n - 1);
      SliceLeft(a, m.data + z, at, at + k);
      assert a + (m.data + z) == a + m.data + z;
    }
  }

  lemma MiddleOf(a: seq<byte>, m: seq<byte>, z: seq<byte>)
    requires z != [] && z[0] == 0
    ensures var d := a + m + z; d[|a|..|a| + |m|] == m && d[|a| + |m|] == 0
  {
  }

  lemma Parts(h: seq<byte>, m: seq<byte>, e: seq<byte>, s: seq<byte>, z: seq<byte>, d: seq<byte>)
    ensures var p := h + m + e + s + z + d;
      && p[..|h|] == h
      && p[|h|..|h| + |m|] == m
      && p[|h| + |m|..|h| + |m| + |e|] == e
      && p[|h| + |m| + |e|..|h| + |m| + |e| + |s|] == s
      && p[|h| + |m| + |e| + |s| + |z|..] == d
  {
  }

  /** The payload, part by part. */
  lemma Layout(b: Build, order: seq<nat>)
    requires IsOrder(order, |b.edges|)
    ensures var p, m, e, s := Payload(b, order), |b.modules|, StrTabOff(b), StrTab(Strings(b));
      && |p| == DataOff(b, m) && HEADER_SIZE + m * 24 <= e <= e + |s| <= DataStart(b) <= |p|
      && p[..HEADER_SIZE] == Header(b)
      && p[HEADER_SIZE..HEADER_SIZE + m * 24] == Table(ModuleRows(b), MODULE_FIELDS)
      && p[HEADER_SIZE + m * 24..e] == Table(EdgeRows(b, order), EDGE_FIELDS)
      && p[e..e + |s|] == s
      && p[DataStart(b)..] == DataBytes(b, m)
  {
    hide Header, DataOff, DataBytes, ModuleRows, EdgeRows, StrTab, Strings, Table, Align8, Zeros;
    var m, n := |b.modules|, |b.edges|;
    assert Width(MODULE_FIELDS) == 24 && Width(EDGE_FIELDS) == 16 by { Widths(); }
    TimesIs(m, 24);
    TimesIs(n, 16);
    var h, t, u := Header(b), Table(ModuleRows(b), MODULE_FIELDS), Table(EdgeRows(b, order), EDGE_FIELDS);
    var s := StrTab(Strings(b));
    var z := Zeros(DataStart(b) - StrTabOff(b) - |s|);
    Parts(h, t, u, s, z, DataBytes(b, m));
  }

  lemma Widths()
    ensures Width(HEADER_FIELDS) == 40 && Width(MODULE_FIELDS) == 24
    ensures Width(EDGE_FIELDS) == 16 && Width(FOOTER_FIELDS) == 24
  {
    assert MODULE_FIELDS[1..][1..] == [1, 2, 8, 8];
    assert HEADER_FIELDS[1..][1..] == [4, 4, 8, 8, 8];
    assert EDGE_FIELDS[1..][1..] == [4, 4];
    assert FOOTER_FIELDS[1..][1..] == [8, 8];
    assert [4, 4, 8, 8, 8][1..][1..] == [8, 8, 8];
    assert [1, 2, 8, 8][1..][1..] == [8, 8];
    assert [8, 8, 8][1..] == [8, 8];
    assert [8, 8][1..] == [8];
    assert [4, 4][1..] == [4];
    assert [8][1..] == [] && [4][1..] == [];
  }

  // ---------------------------------------------------------------- reading them back

  /** The size of the file is a signed 64-bit number. */
  ghost predicate Small(b: Build, host: nat) { Align8(host) + DataOff(b, |b.modules|) < P63 }

  lemma HeaderReads(b: Build, order: seq<nat>)
    requires Fits(b) && Writable(b) && Small(b, 0) && IsOrder(order, |b.edges|)
    ensures var p := Payload(b, order); HEADER_SIZE <= |p| && HeaderOf(p) == HeaderValues(b)
    ensures CStr(Payload(b, order)[..ABI_MAX - 1], 0) == Abi(b)
  {
    hide Payload, DataOff, StrTab, Strings, IsOrder, Pack, Unpack, CStr, StrTabOff, DataStart, Pow256, Align8, FitsIn;
    Layout(b, order);
    var p, a := Payload(b, order), Abi(b);
    var z, k := Zeros(ABI_MAX - |a|), Pack(HeaderValues(b), HEADER_FIELDS);
    assert p[ABI_MAX..HEADER_SIZE] == k by {
      Widths();
      assert p[ABI_MAX..HEADER_SIZE] == p[..HEADER_SIZE][ABI_MAX..];
      assert (a + z + k)[ABI_MAX..] == k;
    }
    HeaderFits(b);
    PackRoundTrip(HeaderValues(b), HEADER_FIELDS);
    var q := p[..ABI_MAX - 1];
    assert q == p[..HEADER_SIZE][..ABI_MAX - 1] == (a + z)[..ABI_MAX - 1];
    if |a| < ABI_MAX - 1 {
      assert q[..|a|] == a && q[|a|] == 0;
      CStrReads(q, 0, a);
    } else {
      assert q == a;
      CStrWhole(a, 0);
    }
  }

  lemma {:induction false} CStrWhole(s: seq<byte>, off: nat)
    requires NulFree(s) && off <= |s|
    ensures CStr(s, off) == s[off..]
    decreases |s| - off
  {
    if off < |s| { CStrWhole(s, off + 1); }
  }

  lemma HeaderFits(b: Build)
    requires Fits(b) && Writable(b) && Small(b, 0)
    ensures FitsIn(HeaderValues(b), HEADER_FIELDS)
  {
    hide DataOff, StrTab, Strings, Pow256, StrTabOff, DataStart, Align8;
    Pows();
    DataGrows(b, 0, |b.modules|);
    DataFirst(b);
  }

  lemma DataFirst(b: Build)
    ensures DataOff(b, 0) == DataStart(b) && HEADER_SIZE <= StrTabOff(b)
    ensures StrTabOff(b) + |StrTab(Strings(b))| <= DataStart(b)
  {
  }

  lemma ModuleFits(b: Build, i: nat)
    requires Fits(b) && Writable(b) && Small(b, 0) && i < |b.modules|
    ensures FitsIn(ModuleRow(b, i), MODULE_FIELDS)
  {
    hide DataOff, StrTab, Strings, Pow256, StrTabOff, DataStart, Align8, StringOff;
    Pows();
    DataGrows(b, i, |b.modules|);
    StringReads(b, i);
  }

  lemma EdgeFits(b: Build, i: nat)
    requires Fits(b) && Writable(b) && i < |b.edges|
    ensures FitsIn(EdgeRow(b, i), EDGE_FIELDS)
  {
    hide DataOff, StrTab, Strings, Pow256, StrTabOff, DataStart, Align8, StringOff;
    Pows();
    StringReads(b, |b.modules| + i);
    var e := b.edges[i];
    assert e in b.edges;
  }

  lemma StringReads(b: Build, i: nat)
    requires Fits(b) && i < |Strings(b)|
    ensures var t := StrTab(Strings(b));
      StringOff(b, i) < |t| && CStr(t, StringOff(b, i)) == Strings(b)[i] && t[|t| - 1] == 0
  {
    hide StrTab, Strings, CStr;
    StrTabReads(Strings(b), i);
  }

  lemma ModuleReads(b: Build, order: seq<nat>, i: nat)
    requires Fits(b) && Writable(b) && Small(b, 0) && IsOrder(order, |b.edges|) && i < |b.modules|
    requires HeaderOk(HeaderValues(b), |Payload(b, order)|)
    ensures ModuleAt(Payload(b, order), HeaderValues(b), i) == ModuleRow(b, i)
  {
    hide Payload, DataOff, StrTab, Strings, IsOrder, StrTabOff, DataStart, Align8, FitsIn, Table, ModuleRow, Row;
    Layout(b, order);
    Widths();
    ModuleFits(b, i);
    TableRow(ModuleRows(b), MODULE_FIELDS, i);
  }

  lemma EdgeReads(b: Build, order: seq<nat>, k: nat)
    requires Fits(b) && Writable(b) && Small(b, 0) && IsOrder(order, |b.edges|) && k < |order|
    requires HeaderOk(HeaderValues(b), |Payload(b, order)|)
    ensures EdgeAt(Payload(b, order), HeaderValues(b), k) == EdgeRow(b, order[k])
  {
    hide Payload, DataOff, StrTab, Strings, DataStart, Align8, FitsIn, Table, EdgeRow, Row;
    Layout(b, order);
    Widths();
    EdgeFits(b, order[k]);
    TableRow(EdgeRows(b, order), EDGE_FIELDS, k);
  }

  lemma HeaderPasses(b: Build, order: seq<nat>)
    requires Fits(b) && Writable(b) && IsOrder(order, |b.edges|)
    ensures HeaderOk(HeaderValues(b), |Payload(b, order)|)
  {
    hide Payload, DataOff, StrTab, Strings, DataStart, Align8, IsOrder, StringOff;
    Layout(b, order);
    StringReads(b, 0);
  }

  lemma ModuleKey(b: Build, i: nat)
    requires Fits(b) && i < |b.modules|
    ensures StringOff(b, i) < |StrTab(Strings(b))| && CStr(StrTab(Strings(b)), StringOff(b, i)) == b.modules[i].key
  {
    hide StrTab, CStr, StringOff;
    StringReads(b, i);
  }

  lemma ModuleData(b: Build, order: seq<nat>, i: nat)
    requires IsOrder(order, |b.edges|) && i < |b.modules|
    ensures var p, at, k := Payload(b, order), DataOff(b, i), |b.modules[i].data|;
      DataStart(b) <= at && at + k < |p| && p[at..at + k] == b.modules[i].data && p[at + k] == 0
  {
    hide Payload, DataOff, StrTab, DataStart, Align8, DataBytes, StrTabOff, Header, Table, Strings;
    hide ModuleRows, EdgeRows;
    Layout(b, order);
    DataAt(b, i, |b.modules|);
    var p, at, k := Payload(b, order), DataOff(b, i), |b.modules[i].data|;
    SliceOfTail(p, DataStart(b), at, at + k);
  }

  lemma ModulePasses(b: Build, order: seq<nat>, i: nat)
    requires Fits(b) && IsOrder(order, |b.edges|) && i < |b.modules|
    ensures ModuleRowOk(Payload(b, order), HeaderValues(b), ModuleRow(b, i))
    ensures var p, r := Payload(b, order), ModuleRow(b, i);
      p[r[4]..r[4] + r[5]] == b.modules[i].data && CStr(StrTab(Strings(b)), r[0]) == b.modules[i].key
  {
    hide Payload, DataOff, StrTab, DataStart, Align8, StringOff, CStr, StrTabOff, Strings, Fits;
    ModuleKey(b, i);
    ModuleData(b, order, i);
  }

  lemma SliceOfTail(p: seq<byte>, s: nat, i: nat, j: nat)
    requires s <= i <= j < |p|
    ensures p[i..j] == p[s..][i - s..j - s] && p[j] == p[s..][j - s]
  {
  }

  lemma EdgePasses(b: Build, i: nat)
    requires Fits(b) && Writable(b) && i < |b.edges|
    ensures EdgeRowOk(HeaderValues(b), EdgeRow(b, i))
    ensures CStr(StrTab(Strings(b)), EdgeRow(b, i)[1]) == b.edges[i].spec
  {
    hide StrTab, DataStart, StringOff, CStr, StrTabOff;
    StringReads(b, |b.modules| + i);
    assert b.edges[i] in b.edges;
  }

  /** The edge a record stands for. */
  function EdgeOf(u: Bundle, k: nat): Edge
    requires k < |u.edges|
  {
    var e := u.edges[k];
    Edge(e.parent, CStr(u.strtab, e.specOff), e.child, e.flags % 2 == 1)
  }

  /** `u` holds what `b` was built from, the edges in the order `order`. */
  ghost predicate Same(u: Bundle, b: Build, order: seq<nat>) {
    && u.abi == Abi(b) && u.entry == b.entry && u.modules == b.modules
    && |u.edges| == |order| && IsOrder(order, |b.edges|)
    && forall k | 0 <= k < |order| :: EdgeOf(u, k) == b.edges[order[k]]
  }

  lemma ParsePasses(b: Build, order: seq<nat>)
    requires Fits(b) && Writable(b) && Small(b, 0) && IsOrder(order, |b.edges|)
    ensures var p, v := Payload(b, order), HeaderValues(b);
      && HEADER_SIZE <= |p| && HeaderOf(p) == v && HeaderOk(v, |p|)
      && p[v[4]..v[4] + v[5]] == StrTab(Strings(b)) && p[v[4] + v[5] - 1] == 0
      && (forall i | 0 <= i < v[0] :: ModuleAt(p, v, i) == ModuleRow(b, i))
      && (forall i | 0 <= i < v[1] :: EdgeAt(p, v, i) == EdgeRow(b, order[i]))
  {
    hide Payload, DataOff, StrTab, DataStart, Align8, StringOff, CStr, StrTabOff, Strings, Fits;
    hide ModuleRow, EdgeRow, ModuleAt, EdgeAt, DataBytes, Header, Table;
    var p, v := Payload(b, order), HeaderValues(b);
    HeaderReads(b, order);
    HeaderPasses(b, order);
    Layout(b, order);
    StringReads(b, 0);
    var t := StrTab(Strings(b));
    assert t[|t| - 1] == p[v[4]..v[4] + v[5]][|t| - 1];
    forall i | 0 <= i < v[0] ensures ModuleAt(p, v, i) == ModuleRow(b, i) { ModuleReads(b, order, i); }
    forall i | 0 <= i < v[1] ensures EdgeAt(p, v, i) == EdgeRow(b, order[i]) { EdgeReads(b, order, i); }
  }

  /** Parsing a payload gives the build back. */
  lemma ParseReads(b: Build, order: seq<nat>, want: Expect)
    requires Fits(b) && Writable(b) && Small(b, 0) && IsOrder(order, |b.edges|)
    requires HEADER_SIZE <= |Payload(b, order)|
    ensures var r := Parse(Payload(b, order), want);
      if want.Exactly? && want.abi != Abi(b) then r == AbiMismatch(Abi(b)) else r.Open? && Same(r.bundle, b, order)
  {
    hide Payload, DataOff, StrTab, DataStart, Align8, StringOff, CStr, StrTabOff, Strings, Fits, Small, Abi;
    hide ModuleAt, EdgeAt, HeaderOf;
    var p, v := Payload(b, order), HeaderValues(b);
    HeaderReads(b, order);
    ParsePasses(b, order);
    forall i | 0 <= i < v[0] ensures ModuleRowOk(p, v, ModuleAt(p, v, i)) { ModulePasses(b, order, i); }
    forall i | 0 <= i < v[1] ensures EdgeRowOk(v, EdgeAt(p, v, i)) { EdgePasses(b, order[i]); }
    var r := Parse(p, want);
    if !(want.Exactly? && want.abi != Abi(b)) {
      assert r.Open?;
      assert r.bundle.modules == b.modules by {
        forall i | 0 <= i < v[0] ensures r.bundle.modules[i] == b.modules[i] { ModulePasses(b, order, i); }
      }
      forall k | 0 <= k < |order| ensures EdgeOf(r.bundle, k) == b.edges[order[k]] { EdgePasses(b, order[k]); }
    }
  }

  // ---------------------------------------------------------------- finding the footer

  /** The search finds a footer exactly when it is the last valid one in its window. */
  lemma {:induction false} LastFooterIs(file: seq<byte>, hi: int, low: int, o: nat)
    ensures LastFooter(file, hi, low) == At(o) <==>
      low <= o <= hi && FooterValid(file, o) && forall q: nat | o < q <= hi :: !FooterValid(file, q)
    decreases hi - low
  {
    hide FooterValid;
    if low <= hi && 0 <= hi && !FooterValid(file, hi) { LastFooterIs(file, hi - 1, low, o); }
  }

  /** The footer at the end of `pre`, read back. */
  lemma FooterReads(pre: seq<byte>, tail: seq<byte>, offset: nat, size: nat)
    requires HEADER_SIZE <= size && offset % 8 == 0 && offset + size == |pre| < P63
    ensures var file := pre + Footer(offset, size) + tail;
      FooterValid(file, |pre|) && FooterValues(file, |pre|) == [VERSION, 0, offset, size]
  {
    hide Pack, Unpack, Pow256;
    var file, k := pre + Footer(offset, size) + tail, Pack([VERSION, 0, offset, size], FOOTER_FIELDS);
    Widths();
    assert file[|pre|..|pre| + 8] == MAGIC;
    assert file[|pre| + 8..|pre| + 32] == k;
    Pows();
    PackRoundTrip([VERSION, 0, offset, size], FOOTER_FIELDS);
  }

  /** The bytes of a footer: the magic, a 1, seven zeros, then two numbers whose last byte is zero. */
  lemma FooterBytes(offset: nat, size: nat)
    requires offset < P56 && size < P56
    ensures var f := Footer(offset, size); f[..8] == MAGIC && f[8] == 1 && f[23] == 0 && f[31] == 0
    ensures var f := Footer(offset, size); forall i | 9 <= i < 16 :: f[i] == 0
  {
    hide Pow256, Pack, LE;
    Pack4(offset, size);
    var f := Footer(offset, size);
    Pows();
    TopByte(offset, 7);
    TopByte(size, 7);
    SmallBytes();
    var a, b := LE(offset, 8), LE(size, 8);
    assert f == MAGIC + ([1, 0, 0, 0] + ([0, 0, 0, 0] + (a + b)));
    assert f[23] == a[7] && f[31] == b[7];
  }

  lemma Pack1(n: nat, w: nat)
    ensures Pack([n], [w]) == LE(n, w)
  {
    assert Pack([n], [w]) == LE(n, w) + Pack([n][1..], [w][1..]);
  }

  lemma PackMore(n: nat, w: nat, v: seq<nat>, x: seq<nat>)
    requires |v| == |x|
    ensures Pack([n] + v, [w] + x) == LE(n, w) + Pack(v, x)
  {
    assert ([n] + v)[1..] == v && ([w] + x)[1..] == x;
  }

  lemma Pack4(offset: nat, size: nat)
    ensures Pack([VERSION, 0, offset, size], FOOTER_FIELDS)
         == LE(VERSION, 4) + (LE(0, 4) + (LE(offset, 8) + LE(size, 8)))
  {
    hide Pack, LE;
    Pack1(size, 8);
    PackMore(offset, 8, [size], [8]);
    PackMore(0, 4, [offset, size], [8, 8]);
    PackMore(VERSION, 4, [0, offset, size], [4, 8, 8]);
    assert [offset] + [size] == [offset, size] && [8] + [8] == [8, 8];
    assert [0] + [offset, size] == [0, offset, size] && [4] + [8, 8] == [4, 8, 8];
    assert [VERSION] + [0, offset, size] == [VERSION, 0, offset, size] && [4] + [4, 8, 8] == FOOTER_FIELDS;
  }

  lemma SmallBytes()
    ensures LE(VERSION, 4) == [1, 0, 0, 0] && LE(0, 4) == [0, 0, 0, 0]
  {
    assert LE(0, 1) == [0] + LE(0, 0) == [0];
    assert LE(0, 2) == [0] + LE(0, 1);
    assert LE(0, 3) == [0] + LE(0, 2);
    assert LE(1, 4) == [1] + LE(0, 3);
  }

  lemma {:induction false} TopByte(n: nat, w: nat)
    requires n < Pow256(w)
    ensures LE(n, w + 1)[w] == 0
  {
    if w > 0 { TopByte(n / 256, w - 1); }
  }

  /** In files below 2^56 bytes no second footer begins inside the real one; in larger ones the
      bytes of the two numbers could spell the magic. */
  lemma NoOverlap(pre: seq<byte>, tail: seq<byte>, offset: nat, size: nat, d: nat)
    requires offset < P56 && size < P56 && 0 < d < FOOTER_SIZE
    ensures !FooterValid(pre + Footer(offset, size) + tail, |pre| + d)
  {
    hide Footer, FooterValues;
    FooterBytes(offset, size);
    var f := Footer(offset, size);
    var file := pre + f + tail;
    if |pre| + d + FOOTER_SIZE <= |file| {
      var m := file[|pre| + d..|pre| + d + 8];
      var j := if d < 16 then 0 else if d < 24 then 23 - d else 31 - d;
      assert f[d + j] != MAGIC[j] by {
        if d < 8 { assert f[d] == f[..8][d]; }
      }
      assert m[j] == file[|pre| + d + j] == f[d + j];
    }
  }

  /** The reader finds the footer that was written exactly when the tail after it fits in the
      scanned window and no other valid footer begins later. */
  lemma FooterFound(pre: seq<byte>, tail: seq<byte>, offset: nat, size: nat)
    requires HEADER_SIZE <= size && offset % 8 == 0 && offset + size == |pre| < P63
    ensures var file := pre + Footer(offset, size) + tail;
      FindFooter(file) == At(|pre|) <==>
      FOOTER_SIZE + |tail| <= SCAN_MAX && forall q: nat | |pre| < q :: !FooterValid(file, q)
  {
    hide Footer, FooterValid, FooterValues, LastFooter;
    var file := pre + Footer(offset, size) + tail;
    FooterReads(pre, tail, offset, size);
    LastFooterIs(file, |file| - FOOTER_SIZE, ScanLow(|file|), |pre|);
    forall q: nat | |file| - FOOTER_SIZE < q ensures !FooterValid(file, q) { PastEnd(file, q); }
  }

  lemma PastEnd(file: seq<byte>, q: nat)
    requires |file| < q + FOOTER_SIZE
    ensures !FooterValid(file, q)
  {
  }

  // ---------------------------------------------------------------- the round trip

  /** The tail after a bundle does not hide it: no footer begins after the one that ends `file`. */
  ghost predicate Harmless(file: seq<byte>, tail: seq<byte>) {
    FOOTER_SIZE + |tail| <= SCAN_MAX && forall q: nat | |file| < q + FOOTER_SIZE :: !FooterValid(file + tail, q)
  }

  /** Without a tail nothing is hidden, and below 2^56 bytes only a footer that begins in the tail
      can hide the bundle. */
  lemma HarmlessTail(host: seq<byte>, b: Build, order: seq<nat>, tail: seq<byte>)
    requires IsOrder(order, |b.edges|)
    ensures var file := Appended(host, b, order);
      && Harmless(file, [])
      && (|file| < P56 ==>
           (Harmless(file, tail) <==>
            FOOTER_SIZE + |tail| <= SCAN_MAX && forall q: nat | |file| <= q :: !FooterValid(file + tail, q)))
  {
    hide Payload, Footer, FooterValid, Align8;
    var file, p := Appended(host, b, order), Payload(b, order);
    var pre := host + Zeros(Align8(|host|) - |host|) + p;
    forall q: nat | |file| < q + FOOTER_SIZE ensures !FooterValid(file + [], q) { PastEnd(file + [], q); }
    if |file| < P56 {
      assert file + tail == pre + Footer(Align8(|host|), |p|) + tail;
      forall q: nat | |pre| < q < |file| ensures !FooterValid(file + tail, q) {
        NoOverlap(pre, tail, Align8(|host|), |p|, q - |pre|);
      }
    }
  }

  /** Writing and opening: the same ABI string (cut to what the header holds), entry, modules
      with their data, and edges. */
  lemma OpenOfWrite(host: seq<byte>, b: Build, order: seq<nat>, tail: seq<byte>, want: Expect)
    requires Writable(b) && Fits(b) && Small(b, |host|) && IsOrder(order, |b.edges|)
    requires Harmless(Appended(host, b, order), tail)
    ensures WriteTo(host, b, order) == Written(Appended(host, b, order))
    ensures var r := OpenFile(Appended(host, b, order) + tail, want);
      if want.Exactly? && want.abi != Abi(b) then r == AbiMismatch(Abi(b)) else r.Open? && Same(r.bundle, b, order)
  {
    hide Payload, DataOff, Footer, FooterValid, FooterValues, FindFooter, Parse, Fits, Same, Abi, Writable;
    var p := Payload(b, order);
    var pad := host + Zeros(Align8(|host|) - |host|);
    var pre := pad + p;
    var file := Appended(host, b, order) + tail;
    assert |p| == DataOff(b, |b.modules|) by { Layout(b, order); }
    HeaderReads(b, order);
    FooterFound(pre, tail, |pad|, |p|);
    FooterReads(pre, tail, |pad|, |p|);
    assert file == pre + Footer(|pad|, |p|) + tail;
    Inside(pad, p, Footer(|pad|, |p|), tail);
    ParseReads(b, order, want);
  }

  lemma Inside(a: seq<byte>, p: seq<byte>, f: seq<byte>, t: seq<byte>)
    ensures (a + p + f + t)[|a|..|a| + |p|] == p
  {
  }

  /** With the writer's own ABI string the bundle opens exactly when the header had room for it. */
  lemma OwnAbiOpens(host: seq<byte>, b: Build, order: seq<nat>, tail: seq<byte>)
    requires Writable(b) && Fits(b) && Small(b, |host|) && IsOrder(order, |b.edges|)
    requires Harmless(Appended(host, b, order), tail)
    ensures OpenFile(Appended(host, b, order) + tail, Exactly(b.abi)).Open? <==> |b.abi| < ABI_MAX
  {
    hide Appended, OpenFile, Fits, Same, Writable;
    OpenOfWrite(host, b, order, tail, Exactly(b.abi));
  }

  // ---------------------------------------------------------------- every file

  predicate StandsAt(p: seq<byte>, at: nat, d: seq<byte>) {
    at + |d| < |p| && p[at..at + |d|] == d && p[at + |d|] == 0
  }

  /** Bytes `d` stand somewhere in `p` with a zero after them. */
  ghost predicate Stands(p: seq<byte>, d: seq<byte>) { exists at: nat :: StandsAt(p, at, d) }

  /** Every index and every string reference is in range. */
  ghost predicate InRange(u: Bundle) {
    && u.modules != [] && u.entry < |u.modules| && u.strtab != [] && u.strtab[|u.strtab| - 1] == 0
    && (forall k | 0 <= k < |u.edges| ::
         u.edges[k].parent < |u.modules| && u.edges[k].child < |u.modules| && u.edges[k].specOff < |u.strtab|)
  }

  /** What is opened is usable: everything is in range, every key is a C string of the table, and
      the data of every module lies in the file, with a zero after it. */
  ghost predicate Usable(u: Bundle, file: seq<byte>) {
    && InRange(u)
    && (forall m <- u.modules :: NulFree(m.key) && Stands(u.strtab, m.key) && Stands(file, m.data))
  }

  /** Whatever the file holds, a bundle that opens is usable, and one without a valid footer in
      the scanned window does not open. */
  lemma OpenedIsUsable(file: seq<byte>, want: Expect)
    ensures var r := OpenFile(file, want);
      && (r.Open? ==> Usable(r.bundle, file) && (want.Exactly? ==> r.bundle.abi == want.abi))
      && (r.NoTrailer? <==> forall q: nat | ScanLow(|file|) <= q :: !FooterValid(file, q))
  {
    hide FooterValid, FooterValues, Parse, Stands;
    if |file| >= FOOTER_SIZE {
      match FindFooter(file)
      case Missing => NoneFound(file, |file| - FOOTER_SIZE, ScanLow(|file|));
      case At(off) =>
        FooterBounds(file, off);
        var v := FooterValues(file, off);
        var p := file[v[2]..v[2] + v[3]];
        ParsedIsUsable(p, want);
        forall d | Stands(p, d) ensures Stands(file, d) { StandsIn(file, v[2], v[2] + v[3], d); }
    }
    forall q: nat | |file| - FOOTER_SIZE < q ensures !FooterValid(file, q) { PastEnd(file, q); }
  }

  lemma StandsIn(file: seq<byte>, i: nat, j: nat, d: seq<byte>)
    requires i <= j <= |file| && Stands(file[i..j], d)
    ensures Stands(file, d)
  {
    var p := file[i..j];
    var at: nat :| StandsAt(p, at, d);
    SliceOfSlice(file, i, j, at, at + |d|);
    assert StandsAt(file, i + at, d);
  }

  lemma SliceOfSlice(s: seq<byte>, i: nat, j: nat, a: nat, b: nat)
    requires i <= j <= |s| && a <= b <= j - i
    ensures s[i..j][a..b] == s[i + a..i + b]
  {
    var t, u := s[i..j], s[i + a..i + b];
    forall k | 0 <= k < b - a ensures t[a..b][k] == u[k] { assert t[a + k] == s[i + (a + k)]; }
  }

  lemma {:induction false} CStrStands(s: seq<byte>, off: nat)
    requires off < |s| && s[|s| - 1] == 0
    ensures NulFree(CStr(s, off)) && StandsAt(s, off, CStr(s, off))
    decreases |s| - off
  {
    if s[off] != 0 {
      CStrStands(s, off + 1);
      var k := CStr(s, off + 1);
      assert s[off..off + 1 + |k|] == [s[off]] + s[off + 1..off + 1 + |k|];
    }
  }

  lemma FooterBounds(file: seq<byte>, off: nat)
    requires FooterValid(file, off)
    ensures var v := FooterValues(file, off); v[2] + v[3] <= |file| && v[3] >= HEADER_SIZE
  {
  }

  lemma {:induction false} NoneFound(file: seq<byte>, hi: int, low: int)
    requires LastFooter(file, hi, low) == Missing
    ensures forall q: nat | low <= q <= hi :: !FooterValid(file, q)
    decreases hi - low
  {
    hide FooterValid;
    if low <= hi && 0 <= hi { NoneFound(file, hi - 1, low); }
  }

  lemma ParsedIsUsable(p: seq<byte>, want: Expect)
    requires |p| >= HEADER_SIZE
    ensures var r := Parse(p, want);
      && !r.NoTrailer? && (r.Open? ==> Usable(r.bundle, p) && (want.Exactly? ==> r.bundle.abi == want.abi))
  {
    hide CStr, ModuleAt, EdgeAt, Stands, NulFree;
    var r := Parse(p, want);
    if r.Open? {
      var u, v := r.bundle, HeaderOf(p);
      forall i | 0 <= i < |u.modules|
        ensures NulFree(u.modules[i].key) && Stands(u.strtab, u.modules[i].key) && Stands(p, u.modules[i].data)
      {
        RowStands(p, v, ModuleAt(p, v, i), u.strtab);
      }
    }
  }

  lemma RowStands(p: seq<byte>, v: seq<nat>, r: seq<nat>, t: seq<byte>)
    requires |v| == 7 && |r| == 6 && ModuleRowOk(p, v, r) && |t| == v[5] && t[|t| - 1] == 0
    ensures NulFree(CStr(t, r[0])) && Stands(t, CStr(t, r[0])) && Stands(p, p[r[4]..r[4] + r[5]])
  {
    hide CStr, NulFree;
    CStrStands(t, r[0]);
    assert StandsAt(p, r[4], p[r[4]..r[4] + r[5]]);
  }
}
