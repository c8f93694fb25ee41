/** The loops of the writer: they fill the records, the string table and the data offsets that
    the payload is made of. */
module BundleWriter {
  import opened Utf8
  import opened BundleBytes
  import opened Common
  import opened Bundle

  function UnsortedRows(b: Build): (r: seq<seq<nat>>)
    ensures |r| == |b.edges|
  {
    seq(|b.edges|, i requires 0 <= i < |b.edges| => EdgeRow(b, i))
  }

  lemma StrTabGrows(b: Build, i: nat)
    requires i < |Strings(b)|
    ensures StrTab(Strings(b)[..i + 1]) == StrTab(Strings(b)[..i]) + Strings(b)[i] + [0]
  {
    var s := Strings(b)[..i + 1];
    assert s[..i] == Strings(b)[..i];
  }

  /** Keys into the string table; each record gets the offset its key landed at. */
  method AddKeys(b: Build) returns (offs: seq<nat>, strtab: seq<byte>)
    ensures |offs| == |b.modules| && strtab == StrTab(Strings(b)[..|b.modules|])
    ensures forall i | 0 <= i < |offs| :: offs[i] == StringOff(b, i)
  {
    hide StrTab;
    offs, strtab := [], [];
    assert StrTab(Strings(b)[..0]) == [] by { StrTabEmpty(Strings(b)); }
    for i := 0 to |b.modules|
      invariant |offs| == i && strtab == StrTab(Strings(b)[..i])
      invariant forall k | 0 <= k < i :: offs[k] == StringOff(b, k)
    {
      StrTabGrows(b, i);
      offs := offs + [|strtab|];
      strtab := strtab + b.modules[i].key + [0];
    }
  }

  lemma StrTabEmpty(s: seq<seq<byte>>)
    ensures StrTab(s[..0]) == []
  {
  }

  /** Specifiers into the string table, refusing the first edge with an index out of range. */
  method AddEdges(b: Build, start: seq<byte>) returns (ok: bool, rows: seq<seq<nat>>, strtab: seq<byte>)
    requires start == StrTab(Strings(b)[..|b.modules|])
    ensures ok <==> forall e <- b.edges :: e.parent < |b.modules| && e.child < |b.modules|
    ensures ok ==> rows == UnsortedRows(b) && strtab == StrTab(Strings(b))
  {
    hide StrTab;
    rows, strtab := [], start;
    var i, n := 0, |b.modules|;
    while i < |b.edges|
      invariant 0 <= i <= |b.edges| && rows == UnsortedRows(b)[..i]
      invariant strtab == StrTab(Strings(b)[..n + i])
      invariant forall k | 0 <= k < i :: b.edges[k].parent < n && b.edges[k].child < n
    {
      var e := b.edges[i];
      if e.parent >= n || e.child >= n { return false, rows, strtab; }
      StrTabGrows(b, n + i);
      rows := rows + [[e.parent, |strtab|, e.child, if e.req then 1 else 0]];
      strtab := strtab + e.spec + [0];
      i := i + 1;
    }
    assert Strings(b)[..n + i] == Strings(b);
    ok := true;
  }

  /** The cursor over the data area. */
  method PlaceData(b: Build, offs: seq<nat>, strtab: seq<byte>) returns (rows: seq<seq<nat>>, size: nat)
    requires |offs| == |b.modules| && strtab == StrTab(Strings(b))
    requires forall i | 0 <= i < |offs| :: offs[i] == StringOff(b, i)
    ensures rows == ModuleRows(b) && size == DataOff(b, |b.modules|)
  {
    hide StrTab, Strings, StringOff, Align8;
    rows, size := [], Align8(HEADER_SIZE + |b.modules| * 24 + |b.edges| * 16 + |strtab|);
    for i := 0 to |b.modules|
      invariant rows == ModuleRows(b)[..i] && size == DataOff(b, i)
    {
      var m := b.modules[i];
      rows := rows + [[offs[i], m.format, m.kind, 0, size, |m.data|]];
      size := Align8(size + |m.data| + 1);
    }
  }

  /** Everything the writer computes before it appends a byte; it refuses exactly the builds
      that are not writable. */
  method Prepare(b: Build)
    returns (ok: bool, mods: seq<seq<nat>>, edges: seq<seq<nat>>, strtab: seq<byte>, size: nat)
    ensures ok <==> Writable(b)
    ensures ok ==> mods == ModuleRows(b) && edges == UnsortedRows(b)
    ensures ok ==> strtab == StrTab(Strings(b)) && size == DataOff(b, |b.modules|)
  {
    hide StrTab, DataOff;
    ok, mods, edges, strtab, size := false, [], [], [], 0;
    if b.modules == [] || b.entry >= |b.modules| { return; }
    var offs, keys := AddKeys(b);
    ok, edges, strtab := AddEdges(b, keys);
    if ok { mods, size := PlaceData(b, offs, strtab); }
  }
}
