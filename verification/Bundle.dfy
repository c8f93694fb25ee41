/** The executable bundle: modules, import edges and a string table appended to a host
    executable, found again through a footer near the end of the file. */
module Bundle {
  import opened Utf8
  import opened BundleBytes
  import opened Common

  datatype Module = Module(key: seq<byte>, format: byte, kind: byte, data: seq<byte>)
  datatype Edge = Edge(parent: nat, spec: seq<byte>, child: nat, req: bool)
  datatype Build = Build(abi: seq<byte>, entry: nat, modules: seq<Module>, edges: seq<Edge>)

  const ABI_MAX: nat := 48
  const HEADER_SIZE: nat := 88
  const FOOTER_SIZE: nat := 32
  const SCAN_MAX: nat := 0x40_0000
  const VERSION: nat := 1
  const P32: nat := 0x1_0000_0000
  const P56: nat := 0x100_0000_0000_0000
  const P63: nat := 0x8000_0000_0000_0000

  /** "ANTBNDL" and a 1. */
  const MAGIC: seq<byte> := [0x41, 0x4E, 0x54, 0x42, 0x4E, 0x44, 0x4C, 0x01]

  const HEADER_FIELDS: seq<nat> := [4, 4, 4, 4, 8, 8, 8]
  const MODULE_FIELDS: seq<nat> := [4, 1, 1, 2, 8, 8]
  const EDGE_FIELDS: seq<nat> := [4, 4, 4, 4]
  const FOOTER_FIELDS: seq<nat> := [4, 4, 8, 8]

  function Zeros(n: nat): (z: seq<byte>)
    ensures |z| == n && forall i | 0 <= i < n :: z[i] == 0
  {
    seq(n, i => 0)
  }

  // ---------------------------------------------------------------- the writer

  /** The keys of all modules, then the specifiers of all edges. */
  function Strings(b: Build): (s: seq<seq<byte>>)
    ensures |s| == |b.modules| + |b.edges|
  {
    seq(|b.modules|, i requires 0 <= i < |b.modules| => b.modules[i].key)
    + seq(|b.edges|, i requires 0 <= i < |b.edges| => b.edges[i].spec)
  }

  function StringOff(b: Build, i: nat): nat
    requires i <= |Strings(b)|
  {
    |StrTab(Strings(b)[..i])|
  }

  function StrTabOff(b: Build): nat { HEADER_SIZE + |b.modules| * 24 + |b.edges| * 16 }

  function DataStart(b: Build): nat { Align8(StrTabOff(b) + |StrTab(Strings(b))|) }

  /** Where the data of module `i` begins; for `i` past the last, the payload size. */
  function DataOff(b: Build, i: nat): nat
    requires i <= |b.modules|
  {
    if i == 0 then DataStart(b) else Align8(DataOff(b, i - 1) + |b.modules[i - 1].data| + 1)
  }

  /** The data of the first `i` modules, each followed by at least one zero. */
  function DataBytes(b: Build, i: nat): (d: seq<byte>)
    requires i <= |b.modules|
    ensures |d| == DataOff(b, i) - DataStart(b)
  {
    if i == 0 then []
    else
      var m := b.modules[i - 1];
      DataBytes(b, i - 1) + m.data + Zeros(DataOff(b, i) - DataOff(b, i - 1) - |m.data|)
  }

  function ModuleRow(b: Build, i: nat): seq<nat>
    requires i < |b.modules|
  {
    var m := b.modules[i];
    [StringOff(b, i), m.format, m.kind, 0, DataOff(b, i), |m.data|]
  }

  function EdgeRow(b: Build, i: nat): seq<nat>
    requires i < |b.edges|
  {
    var e := b.edges[i];
    [e.parent, StringOff(b, |b.modules| + i), e.child, if e.req then 1 else 0]
  }

  function ModuleRows(b: Build): (r: seq<seq<nat>>)
    ensures |r| == |b.modules| && Shaped(r, MODULE_FIELDS)
  {
    seq(|b.modules|, i requires 0 <= i < |b.modules| => ModuleRow(b, i))
  }

  /** The edge records in the order the sort leaves them. */
  function EdgeRows(b: Build, order: seq<nat>): (r: seq<seq<nat>>)
    requires forall k | 0 <= k < |order| :: order[k] < |b.edges|
    ensures |r| == |order| && Shaped(r, EDGE_FIELDS)
  {
    seq(|order|, k requires 0 <= k < |order| && order[k] < |b.edges| => EdgeRow(b, order[k]))
  }

  /** The ABI string the header has room for: `snprintf` cuts a longer one. */
  function Abi(b: Build): seq<byte> { if |b.abi| < ABI_MAX then b.abi else b.abi[..ABI_MAX - 1] }

  function Header(b: Build): (h: seq<byte>)
    ensures |h| == HEADER_SIZE
  {
    Abi(b) + Zeros(ABI_MAX - |Abi(b)|) + Pack(HeaderValues(b), HEADER_FIELDS)
  }

  function HeaderValues(b: Build): seq<nat> {
    [|b.modules|, |b.edges|, b.entry, 0, StrTabOff(b), |StrTab(Strings(b))|, DataStart(b)]
  }

  /** A permutation of the edges, as the library sort produces one. */
  ghost predicate IsOrder(order: seq<nat>, n: nat) {
    |order| == n && (forall k | 0 <= k < n :: order[k] < n) && forall i | 0 <= i < n :: i in order
  }

  ghost function Payload(b: Build, order: seq<nat>): seq<byte>
    requires IsOrder(order, |b.edges|)
  {
    Header(b) + Table(ModuleRows(b), MODULE_FIELDS) + Table(EdgeRows(b, order), EDGE_FIELDS)
    + StrTab(Strings(b)) + Zeros(DataStart(b) - StrTabOff(b) - |StrTab(Strings(b))|)
    + DataBytes(b, |b.modules|)
  }

  function Footer(offset: nat, size: nat): (f: seq<byte>)
    ensures |f| == FOOTER_SIZE
  {
    MAGIC + Pack([VERSION, 0, offset, size], FOOTER_FIELDS)
  }

  /** The writer refuses builds without modules and indices out of range. */
  predicate Writable(b: Build) {
    && b.modules != [] && b.entry < |b.modules|
    && forall e <- b.edges :: e.parent < |b.modules| && e.child < |b.modules|
  }

  ghost function Appended(host: seq<byte>, b: Build, order: seq<nat>): seq<byte>
    requires IsOrder(order, |b.edges|)
  {
    host + Zeros(Align8(|host|) - |host|) + Payload(b, order) + Footer(Align8(|host|), |Payload(b, order)|)
  }

  datatype Write = Refused | Written(file: seq<byte>)

  /** `ant_bundle_write` on a file that already holds `host`. */
  ghost function WriteTo(host: seq<byte>, b: Build, order: seq<nat>): Write
    requires IsOrder(order, |b.edges|)
  {
    if Writable(b) then Written(Appended(host, b, order)) else Refused
  }

  // ---------------------------------------------------------------- the reader

  /** `footer_valid` for the 32 bytes at `off`. */
  predicate FooterValid(file: seq<byte>, off: nat) {
    && off + FOOTER_SIZE <= |file|
    && file[off..off + 8] == MAGIC
    && var v := FooterValues(file, off);
    && v[0] == VERSION && v[3] >= HEADER_SIZE && v[2] % 8 == 0
    && v[2] <= off && v[3] <= off && v[2] + v[3] <= off
  }

  function FooterValues(file: seq<byte>, off: nat): (v: seq<nat>)
    requires off + FOOTER_SIZE <= |file|
    ensures |v| == 4
  {
    Unpack(file[off + 8..off + 32], FOOTER_FIELDS)
  }

  datatype Find = Missing | At(off: nat)

  /** The last valid footer that begins in `[low, off]`. */
  function LastFooter(file: seq<byte>, off: int, low: int): (r: Find)
    ensures r.At? ==> low <= r.off <= off && FooterValid(file, r.off)
    decreases off - low
  {
    if off < low || off < 0 then Missing
    else if FooterValid(file, off) then At(off)
    else LastFooter(file, off - 1, low)
  }

  function ScanLow(size: nat): int { if size < SCAN_MAX then 0 else size - SCAN_MAX }

  function FindFooter(file: seq<byte>): Find {
    LastFooter(file, |file| - FOOTER_SIZE, ScanLow(|file|))
  }

  datatype EdgeRec = EdgeRec(parent: nat, specOff: nat, child: nat, flags: nat)

  datatype Bundle = Bundle(abi: seq<byte>, entry: nat, modules: seq<Module>, edges: seq<EdgeRec>, strtab: seq<byte>)

  datatype Opened = NoTrailer | Corrupt | AbiMismatch(found: seq<byte>) | Open(bundle: Bundle)

  /** The bounds the reader checks before it trusts the tables. */
  predicate HeaderOk(v: seq<nat>, size: nat)
    requires |v| == 7
  {
    && v[0] != 0 && v[2] < v[0]
    && v[4] == HEADER_SIZE + v[0] * 24 + v[1] * 16
    && v[5] != 0 && v[5] <= size && v[4] + v[5] <= size
    && v[4] + v[5] <= v[6] <= size
  }

  predicate ModuleRowOk(p: seq<byte>, v: seq<nat>, r: seq<nat>)
    requires |v| == 7 && |r| == 6
  {
    r[0] < v[5] && v[6] <= r[4] <= |p| && r[5] < |p| - r[4] && p[r[4] + r[5]] == 0
  }

  predicate EdgeRowOk(v: seq<nat>, r: seq<nat>)
    requires |v| == 7 && |r| == 4
  {
    r[0] < v[0] && r[2] < v[0] && r[1] < v[5]
  }

  function HeaderOf(p: seq<byte>): (v: seq<nat>)
    requires |p| >= HEADER_SIZE
    ensures |v| == 7
  {
    Unpack(p[ABI_MAX..HEADER_SIZE], HEADER_FIELDS)
  }

  function ModuleAt(p: seq<byte>, v: seq<nat>, i: nat): (r: seq<nat>)
    requires |v| == 7 && HeaderOk(v, |p|) && i < v[0]
    ensures |r| == 6
  {
    TimesIs(i, 24);
    Row(p[HEADER_SIZE..HEADER_SIZE + v[0] * 24], i, MODULE_FIELDS)
  }

  function EdgeAt(p: seq<byte>, v: seq<nat>, i: nat): (r: seq<nat>)
    requires |v| == 7 && HeaderOk(v, |p|) && i < v[1]
    ensures |r| == 4
  {
    TimesIs(i, 16);
    Row(p[HEADER_SIZE + v[0] * 24..v[4]], i, EDGE_FIELDS)
  }

  /** The ABI string the caller wants, if it wants one. */
  datatype Expect = Anything | Exactly(abi: seq<byte>)

  /** The part of `ant_bundle_open` after the payload has been read. */
  function Parse(p: seq<byte>, want: Expect): Opened
    requires |p| >= HEADER_SIZE
  {
    var found := CStr(p[..ABI_MAX - 1], 0);
    if want.Exactly? && want.abi != found then AbiMismatch(found)
    else
      var v := HeaderOf(p);
      if !HeaderOk(v, |p|) then Corrupt
      else
        var strtab := p[v[4]..v[4] + v[5]];
        if strtab[v[5] - 1] != 0 then Corrupt
        else if exists i | 0 <= i < v[0] :: !ModuleRowOk(p, v, ModuleAt(p, v, i)) then Corrupt
        else if exists i | 0 <= i < v[1] :: !EdgeRowOk(v, EdgeAt(p, v, i)) then Corrupt
        else
          Open(Bundle(
            found, v[2],
            seq(v[0], i requires 0 <= i < v[0] && ModuleRowOk(p, v, ModuleAt(p, v, i)) =>
              var r := ModuleAt(p, v, i);
              Module(CStr(strtab, r[0]), r[1] % 256, r[2] % 256, p[r[4]..r[4] + r[5]])),
            seq(v[1], i requires 0 <= i < v[1] =>
              var r := EdgeAt(p, v, i); EdgeRec(r[0], r[1], r[2], r[3])),
            strtab))
  }

  /** `ant_bundle_open` on the bytes of a file. */
  function OpenFile(file: seq<byte>, want: Expect): Opened {
    if |file| < FOOTER_SIZE then NoTrailer
    else match FindFooter(file)
      case Missing => NoTrailer
      case At(off) =>
        var v := FooterValues(file, off);
        Parse(file[v[2]..v[2] + v[3]], want)
  }
}
