/** Looking an import up in an opened bundle: the binary search over the sorted edges agrees with
    a walk over the edges the bundle was built from. */
module BundleResolve {
  import opened Utf8
  import opened Common
  import opened Bundle
  import opened BundleRoundTrip

  // ---------------------------------------------------------------- the order of the edges

  /** `strcmp` from position `i`: bytes as unsigned numbers, a proper prefix first. */
  function Compare(a: seq<byte>, b: seq<byte>, i: nat := 0): (c: int)
    requires i <= |a| && i <= |b|
    decreases |a| - i
  {
    if i == |a| then (if i == |b| then 0 else -1)
    else if i == |b| then 1
    else if a[i] != b[i] then (if a[i] < b[i] then -1 else 1)
    else Compare(a, b, i + 1)
  }

  lemma {:induction false} CompareEqual(a: seq<byte>, b: seq<byte>, i: nat)
    requires i <= |a| && i <= |b|
    ensures Compare(a, b, i) == 0 <==> a[i..] == b[i..]
    decreases |a| - i
  {
    if i < |a| && i < |b| {
      CompareEqual(a, b, i + 1);
      assert a[i..] == [a[i]] + a[i + 1..] && b[i..] == [b[i]] + b[i + 1..];
    }
  }

  lemma {:induction false} CompareChain(a: seq<byte>, b: seq<byte>, c: seq<byte>, i: nat)
    requires i <= |a| && i <= |b| && i <= |c|
    requires Compare(a, b, i) <= 0
    ensures Compare(b, c, i) < 0 ==> Compare(a, c, i) < 0
    ensures Compare(a, c, i) > 0 ==> Compare(b, c, i) > 0
    decreases |a| - i
  {
    if i < |a| && i < |b| && i < |c| && a[i] == b[i] == c[i] { CompareChain(a, b, c, i + 1); }
  }

  /** How an edge compares with the pair being looked up. */
  function Against(e: Edge, parent: nat, spec: seq<byte>): int {
    if e.parent == parent then Compare(e.spec, spec) else if e.parent < parent then -1 else 1
  }

  /** `edge_rec_cmp` is not positive. */
  predicate EdgeLe(a: Edge, b: Edge) {
    if a.parent != b.parent then a.parent < b.parent
    else if Compare(a.spec, b.spec) != 0 then Compare(a.spec, b.spec) < 0
    else a.req ==> b.req
  }

  ghost predicate Sorted(u: Bundle) {
    forall i, j | 0 <= i < j < |u.edges| :: EdgeLe(EdgeOf(u, i), EdgeOf(u, j))
  }

  predicate Matches(e: Edge, parent: nat, spec: seq<byte>) { e.parent == parent && e.spec == spec }

  lemma AgainstMatches(e: Edge, parent: nat, spec: seq<byte>)
    ensures Against(e, parent, spec) == 0 <==> Matches(e, parent, spec)
  {
    CompareEqual(e.spec, spec, 0);
  }

  lemma AgainstChain(a: Edge, b: Edge, parent: nat, spec: seq<byte>)
    requires EdgeLe(a, b)
    ensures Against(b, parent, spec) < 0 ==> Against(a, parent, spec) < 0
    ensures Against(a, parent, spec) > 0 ==> Against(b, parent, spec) > 0
  {
    if a.parent == b.parent { CompareChain(a.spec, b.spec, spec, 0); }
  }

  // ---------------------------------------------------------------- what a lookup should answer

  function IndexOfKey(modules: seq<Module>, key: seq<byte>, i: nat := 0): (r: nat)
    requires i <= |modules|
    ensures i <= r <= |modules| && (r < |modules| ==> modules[r].key == key)
    ensures forall k | i <= k < r :: modules[k].key != key
    decreases |modules| - i
  {
    if i == |modules| || modules[i].key == key then i else IndexOfKey(modules, key, i + 1)
  }

  /** Record `k` answers the lookup: it matches, and it was made for the same kind of import
      unless no matching record was. */
  ghost predicate Best(u: Bundle, k: nat, parent: nat, spec: seq<byte>, req: bool) {
    && k < |u.edges| && Matches(EdgeOf(u, k), parent, spec)
    && (EdgeOf(u, k).req == req ||
        forall j | 0 <= j < |u.edges| && Matches(EdgeOf(u, j), parent, spec) :: EdgeOf(u, j).req != req)
  }

  predicate Leads(u: Bundle, k: nat, key: seq<byte>)
    requires k < |u.edges|
  {
    u.edges[k].child < |u.modules| && key == u.modules[u.edges[k].child].key
  }

  ghost predicate Answers(u: Bundle, parent: nat, spec: seq<byte>, req: bool, r: Maybe<seq<byte>>) {
    match r
    case None => parent == |u.modules| || forall j | 0 <= j < |u.edges| :: !Matches(EdgeOf(u, j), parent, spec)
    case Some(key) =>
      && parent < |u.modules|
      && exists k | 0 <= k < |u.edges| :: Best(u, k, parent, spec, req) && Leads(u, k, key)
  }

  // ---------------------------------------------------------------- the code

  method FindKey(u: Bundle, key: seq<byte>) returns (i: int)
    ensures if IndexOfKey(u.modules, key) < |u.modules| then i == IndexOfKey(u.modules, key) else i == -1
  {
    i := 0;
    while i < |u.modules|
      invariant 0 <= i <= |u.modules| && IndexOfKey(u.modules, key) == IndexOfKey(u.modules, key, i)
    {
      if u.modules[i].key == key { return; }
      i := i + 1;
    }
    i := -1;
  }

  /** The position of the first record not before the pair. */
  method LowerBound(u: Bundle, parent: nat, spec: seq<byte>) returns (lo: nat)
    ensures lo <= |u.edges|
    ensures Sorted(u) ==> (forall j | 0 <= j < lo :: Against(EdgeOf(u, j), parent, spec) < 0)
    ensures Sorted(u) ==> (forall j | lo <= j < |u.edges| :: Against(EdgeOf(u, j), parent, spec) >= 0)
  {
    lo := 0;
    var hi := |u.edges|;
    while lo < hi
      invariant lo <= hi <= |u.edges|
      invariant Sorted(u) ==> (forall j | 0 <= j < lo :: Against(EdgeOf(u, j), parent, spec) < 0)
      invariant Sorted(u) ==> (forall j | hi <= j < |u.edges| :: Against(EdgeOf(u, j), parent, spec) >= 0)
    {
      var mid := lo + (hi - lo) / 2;
      var c := Against(EdgeOf(u, mid), parent, spec);
      if Sorted(u) { Halves(u, mid, parent, spec); }
      if c < 0 { lo := mid + 1; } else { hi := mid; }
    }
  }

  lemma Halves(u: Bundle, mid: nat, parent: nat, spec: seq<byte>)
    requires Sorted(u) && mid < |u.edges|
    ensures Against(EdgeOf(u, mid), parent, spec) < 0 ==>
      forall j | 0 <= j <= mid :: Against(EdgeOf(u, j), parent, spec) < 0
    ensures Against(EdgeOf(u, mid), parent, spec) >= 0 ==>
      forall j | mid <= j < |u.edges| :: Against(EdgeOf(u, j), parent, spec) >= 0
    ensures Against(EdgeOf(u, mid), parent, spec) > 0 ==>
      forall j | mid <= j < |u.edges| :: Against(EdgeOf(u, j), parent, spec) > 0
  {
    hide Against, EdgeLe, EdgeOf;
    forall j | 0 <= j < mid
      ensures Against(EdgeOf(u, mid), parent, spec) < 0 ==> Against(EdgeOf(u, j), parent, spec) < 0
    {
      AgainstChain(EdgeOf(u, j), EdgeOf(u, mid), parent, spec);
    }
    forall j | mid < j < |u.edges|
      ensures Against(EdgeOf(u, mid), parent, spec) >= 0 ==> Against(EdgeOf(u, j), parent, spec) >= 0
      ensures Against(EdgeOf(u, mid), parent, spec) > 0 ==> Against(EdgeOf(u, j), parent, spec) > 0
    {
      AgainstChain(EdgeOf(u, mid), EdgeOf(u, j), parent, spec);
    }
  }

  /** `ant_bundle_resolve`. */
  method Resolve(u: Bundle, parentKey: Maybe<seq<byte>>, spec: Maybe<seq<byte>>, req: bool)
    returns (r: Maybe<seq<byte>>)
    requires InRange(u)
    ensures parentKey.None? || spec.None? ==> r.None?
    ensures parentKey.Some? && spec.Some? && Sorted(u) ==>
      Answers(u, IndexOfKey(u.modules, parentKey.value), spec.value, req, r)
  {
    hide Against, EdgeLe, EdgeOf, Sorted;
    if parentKey.None? || spec.None? { return None; }
    var p := FindKey(u, parentKey.value);
    if p < 0 { return None; }
    var lo := LowerBound(u, p, spec.value);
    r := ScanRun(u, p, spec.value, req, lo);
  }

  /** The walk over the run of matching records. */
  method ScanRun(u: Bundle, parent: nat, spec: seq<byte>, req: bool, lo: nat) returns (r: Maybe<seq<byte>>)
    requires InRange(u) && parent < |u.modules| && lo <= |u.edges|
    ensures Sorted(u)
      && (forall j | 0 <= j < lo :: Against(EdgeOf(u, j), parent, spec) < 0)
      && (forall j | lo <= j < |u.edges| :: Against(EdgeOf(u, j), parent, spec) >= 0)
      ==> Answers(u, parent, spec, req, r)
  {
    hide Against, EdgeLe, EdgeOf, Sorted;
    ghost var good := Sorted(u)
      && (forall j | 0 <= j < lo :: Against(EdgeOf(u, j), parent, spec) < 0)
      && (forall j | lo <= j < |u.edges| :: Against(EdgeOf(u, j), parent, spec) >= 0);
    var i, fallback := lo, None;
    while i < |u.edges|
      invariant lo <= i <= |u.edges|
      invariant forall j | lo <= j < i :: Matches(EdgeOf(u, j), parent, spec) && EdgeOf(u, j).req != req
      invariant fallback == if lo < i then Some(i - 1) else None
    {
      var e := EdgeOf(u, i);
      if !Matches(e, parent, spec) { break; }
      if e.req == req {
        r := Some(u.modules[u.edges[i].child].key);
        assert Best(u, i, parent, spec, req) && Leads(u, i, r.value);
        return;
      }
      fallback := Some(i);
      i := i + 1;
    }
    if good { RunIsAll(u, parent, spec, lo, i); }
    if fallback.None? { return None; }
    var k := fallback.value;
    r := Some(u.modules[u.edges[k].child].key);
    if good { assert Best(u, k, parent, spec, req) && Leads(u, k, r.value); }
  }

  /** Outside the run nothing matches. */
  lemma RunIsAll(u: Bundle, parent: nat, spec: seq<byte>, lo: nat, hi: nat)
    requires Sorted(u) && lo <= hi <= |u.edges|
    requires forall j | 0 <= j < lo :: Against(EdgeOf(u, j), parent, spec) < 0
    requires forall j | lo <= j < |u.edges| :: Against(EdgeOf(u, j), parent, spec) >= 0
    requires hi < |u.edges| ==> !Matches(EdgeOf(u, hi), parent, spec)
    ensures forall j | 0 <= j < |u.edges| && !(lo <= j < hi) :: !Matches(EdgeOf(u, j), parent, spec)
  {
    hide Against, EdgeLe, EdgeOf, Sorted, Matches;
    if hi < |u.edges| {
      AgainstMatches(EdgeOf(u, hi), parent, spec);
      Halves(u, hi, parent, spec);
    }
    forall j | 0 <= j < |u.edges| && !(lo <= j < hi) ensures !Matches(EdgeOf(u, j), parent, spec) {
      AgainstMatches(EdgeOf(u, j), parent, spec);
    }
  }

  // ---------------------------------------------------------------- from the build to the answer

  /** The first edge, in the order of the build, for the pair and the kind of import. */
  function FirstEdge(edges: seq<Edge>, parent: nat, spec: seq<byte>, req: bool, i: nat := 0): (r: nat)
    requires i <= |edges|
    ensures i <= r <= |edges| && (r < |edges| ==> Matches(edges[r], parent, spec) && edges[r].req == req)
    ensures forall k | i <= k < r :: !(Matches(edges[k], parent, spec) && edges[k].req == req)
    decreases |edges| - i
  {
    if i == |edges| || (Matches(edges[i], parent, spec) && edges[i].req == req) then i
    else FirstEdge(edges, parent, spec, req, i + 1)
  }

  /** The import map of a build: the edge of the same kind, else the edge of the other kind. */
  function Meant(b: Build, parentKey: seq<byte>, spec: seq<byte>, req: bool): Maybe<seq<byte>>
    requires Writable(b)
  {
    var p := IndexOfKey(b.modules, parentKey);
    if p == |b.modules| then None
    else
      var i, j := FirstEdge(b.edges, p, spec, req), FirstEdge(b.edges, p, spec, !req);
      if i < |b.edges| then Some(b.modules[b.edges[i].child].key)
      else if j < |b.edges| then Some(b.modules[b.edges[j].child].key)
      else None
  }

  /** No two edges for the same pair and the same kind of import. */
  ghost predicate DistinctEdges(edges: seq<Edge>) {
    forall i, j | 0 <= i < j < |edges| ::
      !(edges[i].parent == edges[j].parent && edges[i].spec == edges[j].spec && edges[i].req == edges[j].req)
  }

  lemma Placed(order: seq<nat>, n: nat, i: nat) returns (k: nat)
    requires IsOrder(order, n) && i < n
    ensures k < |order| && order[k] == i
  {
    assert i in order;
    k :| k < |order| && order[k] == i;
  }

  /** A bundle opened from a build answers as the build means it. */
  lemma AnswersAreMeant(u: Bundle, b: Build, order: seq<nat>, parentKey: seq<byte>, spec: seq<byte>, req: bool,
                        r: Maybe<seq<byte>>)
    requires Writable(b) && DistinctEdges(b.edges) && Same(u, b, order)
    requires Answers(u, IndexOfKey(u.modules, parentKey), spec, req, r)
    ensures r == Meant(b, parentKey, spec, req)
  {
    hide IsOrder;
    var p := IndexOfKey(b.modules, parentKey);
    if p < |b.modules| {
      var i, j := FirstEdge(b.edges, p, spec, req), FirstEdge(b.edges, p, spec, !req);
      if i < |b.edges| {
        BestIs(u, b, order, p, spec, req, i, r);
      } else if j < |b.edges| {
        BestIs(u, b, order, p, spec, req, j, r);
      } else {
        NothingMatches(u, b, order, p, spec, req);
      }
    }
  }

  lemma NothingMatches(u: Bundle, b: Build, order: seq<nat>, p: nat, spec: seq<byte>, req: bool)
    requires Same(u, b, order)
    requires FirstEdge(b.edges, p, spec, req) == |b.edges| == FirstEdge(b.edges, p, spec, !req)
    ensures forall k | 0 <= k < |u.edges| :: !Matches(EdgeOf(u, k), p, spec)
  {
    hide EdgeOf, FirstEdge;
    forall k | 0 <= k < |u.edges| ensures !Matches(EdgeOf(u, k), p, spec) {
      var e := b.edges[order[k]];
      assert EdgeOf(u, k) == e;
    }
  }

  lemma BestIs(u: Bundle, b: Build, order: seq<nat>, p: nat, spec: seq<byte>, req: bool, i: nat, r: Maybe<seq<byte>>)
    requires Writable(b) && DistinctEdges(b.edges) && Same(u, b, order) && p < |u.modules|
    requires i < |b.edges| && Matches(b.edges[i], p, spec)
    requires b.edges[i].req == req || FirstEdge(b.edges, p, spec, req) == |b.edges|
    requires Answers(u, p, spec, req, r)
    ensures r == Some(b.modules[b.edges[i].child].key)
  {
    hide FirstEdge, IndexOfKey, Writable, Abi;
    var n := Placed(order, |b.edges|, i);
    assert EdgeOf(u, n) == b.edges[i];
    var k :| 0 <= k < |u.edges| && Best(u, k, p, spec, req) && Leads(u, k, r.value);
    var e := b.edges[order[k]];
    assert EdgeOf(u, k) == e;
    assert e.req == b.edges[i].req;
    assert order[k] == i;
  }

  /** The sort the writer runs. */
  ghost predicate SortedBy(edges: seq<Edge>, order: seq<nat>)
    requires IsOrder(order, |edges|)
  {
    forall i, j | 0 <= i < j < |order| :: EdgeLe(edges[order[i]], edges[order[j]])
  }

  lemma SameSorted(u: Bundle, b: Build, order: seq<nat>)
    requires Same(u, b, order) && SortedBy(b.edges, order)
    ensures Sorted(u)
  {
    hide EdgeLe, EdgeOf, Abi;
  }

  /** From a build to an import: written, opened and looked up, an import leads where the build
      says, for every pair and both kinds of import. */
  lemma ImportsSurvive(host: seq<byte>, b: Build, order: seq<nat>, tail: seq<byte>,
                       parentKey: seq<byte>, spec: seq<byte>, req: bool, r: Maybe<seq<byte>>)
    requires Writable(b) && Fits(b) && Small(b, |host|) && DistinctEdges(b.edges)
    requires IsOrder(order, |b.edges|) && SortedBy(b.edges, order)
    requires Harmless(Appended(host, b, order), tail)
    ensures var o := OpenFile(Appended(host, b, order) + tail, Anything);
      && o.Open? && Usable(o.bundle, Appended(host, b, order) + tail) && Sorted(o.bundle)
      && (Answers(o.bundle, IndexOfKey(o.bundle.modules, parentKey), spec, req, r) ==>
          r == Meant(b, parentKey, spec, req))
  {
    hide Writable, Fits, Small, Appended, OpenFile, Harmless, DistinctEdges, Same, Answers, SortedBy;
    hide Meant, Usable, Sorted;
    OpenOfWrite(host, b, order, tail, Anything);
    var file := Appended(host, b, order) + tail;
    var u := OpenFile(file, Anything).bundle;
    OpenedIsUsable(file, Anything);
    SameSorted(u, b, order);
    if Answers(u, IndexOfKey(u.modules, parentKey), spec, req, r) {
      AnswersAreMeant(u, b, order, parentKey, spec, req, r);
    }
  }

  // ---------------------------------------------------------------- the scan for the footer

  /** `find_footer`: backwards, one byte at a time. */
  method ScanFooter(file: seq<byte>) returns (r: Find)
    requires |file| >= FOOTER_SIZE
    ensures r == FindFooter(file)
  {
    hide FooterValid;
    var low := ScanLow(|file|);
    var off := |file| - FOOTER_SIZE;
    while off >= low
      invariant low - 1 <= off && LastFooter(file, off, low) == FindFooter(file)
      decreases off
    {
      if FooterValid(file, off) { return At(off); }
      off := off - 1;
    }
    r := Missing;
  }
}
