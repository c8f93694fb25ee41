/** The files to watch: the entry and everything it imports, directly or not. */
module WatchGraph {
  import opened Common

  /** For each readable source file, the local files it imports, in the order they are found. */
  type Disk = map<string, seq<string>>

  function Imports(disk: Disk, path: string): seq<string> { if path in disk then disk[path] else [] }

  /** Every import of a member is a member. */
  predicate Closed(disk: Disk, s: set<string>) {
    forall p | p in s :: forall q <- Imports(disk, p) :: q in s
  }

  /** Every path that can occur. */
  function Known(disk: Disk, entry: string): set<string> {
    {entry} + set p, i | p in disk && 0 <= i < |disk[p]| :: disk[p][i]
  }

  /** The members are in every closed set with the entry. */
  ghost predicate Needed(disk: Disk, entry: string, q: seq<string>) {
    forall s: set<string> | entry in s && Closed(disk, s) :: forall p <- q :: p in s
  }

  /** Appends unless it is there. */
  method Push(paths: seq<string>, path: string) returns (r: seq<string>)
    ensures r == if path in paths then paths else paths + [path]
  {
    var i := 0;
    while i < |paths|
      invariant 0 <= i <= |paths| && path !in paths[..i]
    {
      if paths[i] == path { return paths; }
      i := i + 1;
    }
    r := paths + [path];
  }

  function SetOf(q: seq<string>): set<string> { set p | p in q }

  lemma {:induction false} DistinctSize(q: seq<string>)
    requires Distinct(q)
    ensures |SetOf(q)| == |q|
  {
    if q != [] {
      var n := |q| - 1;
      DistinctSize(q[..n]);
      assert q == q[..n] + [q[n]];
      assert SetOf(q) == SetOf(q[..n]) + {q[n]};
      assert q[n] !in q[..n];
    }
  }

  /** Distinct known paths cannot outnumber the known paths. */
  lemma Bounded(disk: Disk, entry: string, q: seq<string>)
    requires Distinct(q) && SetOf(q) <= Known(disk, entry)
    ensures |q| <= |Known(disk, entry)|
  {
    DistinctSize(q);
    SubsetSize(SetOf(q), Known(disk, entry));
  }

  lemma NeededMore(disk: Disk, entry: string, q: seq<string>, from: string, path: string)
    requires Needed(disk, entry, q) && from in q && path in Imports(disk, from)
    ensures Needed(disk, entry, q + [path])
  {
    forall s: set<string> | entry in s && Closed(disk, s) ensures forall p <- q + [path] :: p in s {
      assert from in s;
      forall p | p in q + [path] ensures p in s { }
    }
  }

  lemma ImportKnown(disk: Disk, entry: string, from: string, path: string)
    requires path in Imports(disk, from)
    ensures path in Known(disk, entry)
  {
  }

  /** What the list always is: without repeats, of known paths, all of them needed. */
  ghost predicate Good(disk: Disk, entry: string, q: seq<string>) {
    Distinct(q) && SetOf(q) <= Known(disk, entry) && Needed(disk, entry, q)
  }

  method PushImport(disk: Disk, ghost entry: string, paths: seq<string>, ghost from: string, path: string)
    returns (r: seq<string>)
    requires Good(disk, entry, paths) && from in SetOf(paths) && path in Imports(disk, from)
    ensures paths <= r && Good(disk, entry, r) && SetOf(r) == SetOf(paths) + {path}
  {
    hide Known, Imports, Needed;
    NeededMore(disk, entry, paths, from, path);
    ImportKnown(disk, entry, from, path);
    r := Push(paths, path);
  }

  /** Adds the imports of one file. */
  method Scan(disk: Disk, ghost entry: string, paths: seq<string>, from: string) returns (r: seq<string>)
    requires Good(disk, entry, paths) && from in SetOf(paths)
    ensures paths <= r && Good(disk, entry, r) && SetOf(r) == SetOf(paths) + SetOf(Imports(disk, from))
  {
    hide Good, Imports;
    r := paths;
    var found, i := Imports(disk, from), 0;
    while i < |found|
      invariant 0 <= i <= |found| && paths <= r && Good(disk, entry, r) && from in SetOf(r)
      invariant SetOf(r) == SetOf(paths) + SetOf(found[..i])
    {
      r := PushImport(disk, entry, r, from, found[i]);
      assert SetOf(found[..i + 1]) == SetOf(found[..i]) + {found[i]};
      i := i + 1;
    }
    assert found[..i] == found;
  }

  /** The worklist: it ends on cyclic graphs too, without duplicates, and finds exactly the least
      set that holds the entry and is closed under imports. */
  method BuildGraph(disk: Disk, entry: string) returns (paths: seq<string>)
    ensures Distinct(paths) && paths != [] && paths[0] == entry
    ensures Closed(disk, SetOf(paths)) && Needed(disk, entry, paths)
  {
    hide Needed, Imports, Known;
    paths := Push([], entry);
    assert paths == [entry];
    NeededStart(disk, entry);
    var i := 0;
    while i < |paths|
      invariant 0 <= i <= |paths| && paths != [] && paths[0] == entry && Good(disk, entry, paths)
      invariant forall k | 0 <= k < i :: Scanned(disk, paths, paths[k])
      decreases |Known(disk, entry)| - i
    {
      Bounded(disk, entry, paths);
      ghost var was := paths;
      paths := Scan(disk, entry, paths, paths[i]);
      Bounded(disk, entry, paths);
      assert Scanned(disk, paths, was[i]) by { ScannedAll(disk, was, paths, was[i]); }
      forall k | 0 <= k <= i ensures Scanned(disk, paths, paths[k]) {
        assert paths[k] == was[k];
        if k < i { ScannedMore(disk, was, paths, was[k]); }
      }
      i := i + 1;
    }
    forall p | p in SetOf(paths) ensures forall q <- Imports(disk, p) :: q in SetOf(paths) {
      var k :| 0 <= k < |paths| && paths[k] == p;
      assert Scanned(disk, paths, paths[k]);
    }
  }

  /** The imports of `p` are on the list. */
  predicate Scanned(disk: Disk, paths: seq<string>, p: string) {
    forall q <- Imports(disk, p) :: q in paths
  }

  lemma ScannedAll(disk: Disk, a: seq<string>, b: seq<string>, p: string)
    requires SetOf(b) == SetOf(a) + SetOf(Imports(disk, p))
    ensures Scanned(disk, b, p)
  {
    forall q <- Imports(disk, p) ensures q in b { assert q in SetOf(b); }
  }

  lemma ScannedMore(disk: Disk, a: seq<string>, b: seq<string>, p: string)
    requires Scanned(disk, a, p) && a <= b
    ensures Scanned(disk, b, p)
  {
    forall q | q in a ensures q in b {
      var i :| 0 <= i < |a| && a[i] == q;
      assert b[i] == q;
    }
  }

  lemma NeededStart(disk: Disk, entry: string)
    ensures Needed(disk, entry, [entry]) && SetOf([entry]) <= Known(disk, entry)
  {
  }

  /** There is only one such set: two answers for the same disk hold the same files. */
  lemma AnswerUnique(disk: Disk, entry: string, a: seq<string>, b: seq<string>)
    requires entry in a && Closed(disk, SetOf(a)) && Needed(disk, entry, a)
    requires entry in b && Closed(disk, SetOf(b)) && Needed(disk, entry, b)
    ensures SetOf(a) == SetOf(b)
  {
    assert entry in SetOf(a) && entry in SetOf(b);
  }
}
