/** Little-endian records, tables of records and NUL-terminated string tables, with the reads
    that get back what was written. */
module BundleBytes {
  import opened Utf8

  function Pow256(w: nat): nat { if w == 0 then 1 else 256 * Pow256(w - 1) }

  /** `n` in `w` bytes, least significant first. */
  function LE(n: nat, w: nat): (s: seq<byte>)
    ensures |s| == w
  {
    if w == 0 then [] else [n % 256] + LE(n / 256, w - 1)
  }

  function UnLE(s: seq<byte>): nat { if s == [] then 0 else s[0] + 256 * UnLE(s[1..]) }

  lemma {:induction false} LERoundTrip(n: nat, w: nat)
    requires n < Pow256(w)
    ensures UnLE(LE(n, w)) == n
  {
    if w > 0 {
      LERoundTrip(n / 256, w - 1);
      assert LE(n, w)[1..] == LE(n / 256, w - 1);
    }
  }

  lemma {:induction false} UnLEBound(s: seq<byte>)
    ensures UnLE(s) < Pow256(|s|)
  {
    if s != [] { UnLEBound(s[1..]); }
  }

  // ---------------------------------------------------------------- records

  function Width(widths: seq<nat>): nat { if widths == [] then 0 else widths[0] + Width(widths[1..]) }

  /** One record: each value in its width. */
  function Pack(values: seq<nat>, widths: seq<nat>): (s: seq<byte>)
    requires |values| == |widths|
    ensures |s| == Width(widths)
  {
    if values == [] then [] else LE(values[0], widths[0]) + Pack(values[1..], widths[1..])
  }

  function Unpack(s: seq<byte>, widths: seq<nat>): (v: seq<nat>)
    requires |s| == Width(widths)
    ensures |v| == |widths|
  {
    if widths == [] then [] else [UnLE(s[..widths[0]])] + Unpack(s[widths[0]..], widths[1..])
  }

  ghost predicate FitsIn(values: seq<nat>, widths: seq<nat>) {
    |values| == |widths| && forall i | 0 <= i < |values| :: values[i] < Pow256(widths[i])
  }

  lemma {:induction false} PackRoundTrip(values: seq<nat>, widths: seq<nat>)
    requires FitsIn(values, widths)
    ensures Unpack(Pack(values, widths), widths) == values
  {
    if values != [] {
      var s, w := Pack(values, widths), widths[0];
      LERoundTrip(values[0], w);
      PackRoundTrip(values[1..], widths[1..]);
      assert s[..w] == LE(values[0], w) && s[w..] == Pack(values[1..], widths[1..]);
    }
  }

  ghost predicate Shaped(rows: seq<seq<nat>>, widths: seq<nat>) {
    forall i | 0 <= i < |rows| :: |rows[i]| == |widths|
  }

  /** Where row `i` of a table begins. */
  function Times(i: nat, w: nat): nat { if i == 0 then 0 else Times(i - 1, w) + w }

  lemma {:induction false} TimesIs(i: nat, w: nat)
    ensures Times(i, w) == i * w
  {
    if i > 0 {
      TimesIs(i - 1, w);
      assert i * w == (i - 1) * w + w;
    }
  }

  /** A table of records, one after another. */
  ghost function Table(rows: seq<seq<nat>>, widths: seq<nat>): (s: seq<byte>)
    requires Shaped(rows, widths)
    ensures |s| == Times(|rows|, Width(widths))
  {
    if rows == [] then [] else Table(rows[..|rows| - 1], widths) + Pack(rows[|rows| - 1], widths)
  }

  lemma SliceRight(a: seq<byte>, b: seq<byte>)
    ensures (a + b)[|a|..|a| + |b|] == b
  {
  }

  lemma SliceLeft(a: seq<byte>, b: seq<byte>, i: nat, j: nat)
    requires i <= j <= |a|
    ensures (a + b)[i..j] == a[i..j]
  {
  }

  function Row(s: seq<byte>, i: nat, widths: seq<nat>): (r: seq<nat>)
    requires Times(i, Width(widths)) + Width(widths) <= |s|
    ensures |r| == |widths|
  {
    var p, w := Times(i, Width(widths)), Width(widths);
    Unpack(s[p..p + w], widths)
  }

  lemma {:induction false} TableSlice(rows: seq<seq<nat>>, widths: seq<nat>, i: nat)
    requires Shaped(rows, widths) && i < |rows|
    ensures var p, w := Times(i, Width(widths)), Width(widths);
      p + w <= Times(|rows|, w) && Table(rows, widths)[p..p + w] == Pack(rows[i], widths)
  {
    hide Pack, Width;
    var n, w := |rows| - 1, Width(widths);
    var a, b := Table(rows[..n], widths), Pack(rows[n], widths);
    if i == n {
      SliceRight(a, b);
    } else {
      TableSlice(rows[..n], widths, i);
      SliceLeft(a, b, Times(i, w), Times(i, w) + w);
    }
  }

  /** Every row of a table is read back. */
  lemma TableRow(rows: seq<seq<nat>>, widths: seq<nat>, i: nat)
    requires Shaped(rows, widths) && i < |rows| && FitsIn(rows[i], widths)
    ensures Times(i, Width(widths)) + Width(widths) <= Times(|rows|, Width(widths))
    ensures Row(Table(rows, widths), i, widths) == rows[i]
  {
    hide Pack, Unpack, Width, FitsIn, Table;
    TableSlice(rows, widths, i);
    PackRoundTrip(rows[i], widths);
  }

  // ---------------------------------------------------------------- strings

  /** The C string at an offset. */
  function CStr(s: seq<byte>, off: nat): seq<byte>
    decreases |s| - off
  {
    if off >= |s| || s[off] == 0 then [] else [s[off]] + CStr(s, off + 1)
  }

  predicate NulFree(s: seq<byte>) { forall i | 0 <= i < |s| :: s[i] != 0 }

  lemma {:induction false} CStrReads(s: seq<byte>, off: nat, k: seq<byte>)
    requires NulFree(k) && off + |k| < |s| && s[off..off + |k|] == k && s[off + |k|] == 0
    ensures CStr(s, off) == k
    decreases |k|
  {
    if k != [] {
      assert s[off..off + |k|][0] == s[off];
      assert s[off + 1..off + |k|] == s[off..off + |k|][1..];
      CStrReads(s, off + 1, k[1..]);
    }
  }

  /** `strtab_add`, string after string: each with its terminator. */
  function StrTab(strings: seq<seq<byte>>): seq<byte> {
    if strings == [] then [] else StrTab(strings[..|strings| - 1]) + strings[|strings| - 1] + [0]
  }

  lemma {:induction false} StrTabReads(strings: seq<seq<byte>>, i: nat)
    requires i < |strings| && (forall s <- strings :: NulFree(s))
    ensures |StrTab(strings[..i])| < |StrTab(strings)|
    ensures CStr(StrTab(strings), |StrTab(strings[..i])|) == strings[i]
    ensures StrTab(strings)[|StrTab(strings)| - 1] == 0
  {
    StrTabAt(strings, i);
    CStrReads(StrTab(strings), |StrTab(strings[..i])|, strings[i]);
  }

  lemma {:induction false} StrTabAt(strings: seq<seq<byte>>, i: nat)
    requires i < |strings|
    ensures var t, off := StrTab(strings), |StrTab(strings[..i])|;
      && off + |strings[i]| < |t| && t[off..off + |strings[i]|] == strings[i] && t[off + |strings[i]|] == 0
      && t[|t| - 1] == 0
  {
    var n := |strings| - 1;
    var a, b := StrTab(strings[..n]), strings[n];
    if i < n {
      StrTabAt(strings[..n], i);
      assert strings[..n][..i] == strings[..i];
      var off, k := |StrTab(strings[..i])|, |strings[i]|;
      assert (a + b + [0])[off..off + k] == a[off..off + k];
    }
  }
}
