/** Storage paths: which relative paths are accepted, their normal form, and how contexts below a
    root resolve them. */
module StoragePath {
  import opened Common

  const SCHEME: string := "content://"
  const VIRTUAL: string := "ant-saf://"

  predicate IsSep(c: char) { c == '/' || c == '\\' }

  // ---------------------------------------------------------------- components

  /** Where the run of non-separators that `i` is in ends. */
  function RunEnd(p: string, i: nat): (j: nat)
    requires i <= |p|
    ensures i <= j <= |p| && (i < |p| && !IsSep(p[i]) ==> i < j)
    decreases |p| - i
  {
    if i == |p| || IsSep(p[i]) then i else RunEnd(p, i + 1)
  }

  /** The components from `i` on: the maximal runs without a separator. */
  function Comps(p: string, i: nat := 0): seq<string>
    requires i <= |p|
    decreases |p| - i
  {
    if i == |p| then []
    else if IsSep(p[i]) then Comps(p, i + 1)
    else [p[i..RunEnd(p, i)]] + Comps(p, RunEnd(p, i))
  }

  function Join(cs: seq<string>): string {
    if cs == [] then "" else if |cs| == 1 then cs[0] else cs[0] + "/" + Join(cs[1..])
  }

  predicate NoSep(c: string) { forall k | 0 <= k < |c| :: !IsSep(c[k]) }

  lemma {:induction false} RunNoSep(p: string, i: nat)
    requires i <= |p|
    ensures NoSep(p[i..RunEnd(p, i)])
    decreases |p| - i
  {
    if i < |p| && !IsSep(p[i]) {
      RunNoSep(p, i + 1);
      var e := RunEnd(p, i);
      assert p[i..e] == [p[i]] + p[i + 1..e];
    }
  }

  lemma {:induction false} CompsSplit(p: string, i: nat)
    requires i <= |p|
    ensures forall c <- Comps(p, i) :: c != "" && NoSep(c)
    decreases |p| - i
  {
    hide RunEnd, NoSep;
    if i < |p| {
      if IsSep(p[i]) {
        CompsSplit(p, i + 1);
      } else {
        RunNoSep(p, i);
        CompsSplit(p, RunEnd(p, i));
      }
    }
  }

  predicate NoControl(c: string) { forall k | 0 <= k < |c| :: c[k] >= ' ' }

  predicate CompOk(c: string) { c != ".." && NoControl(c) }

  predicate AllOk(cs: seq<string>) { forall c <- cs :: CompOk(c) }

  /** Without the components that say "here". */
  function Kept(cs: seq<string>): seq<string> {
    if cs == [] then [] else (if cs[0] == "." then [] else [cs[0]]) + Kept(cs[1..])
  }

  // ---------------------------------------------------------------- acceptance and normal form

  /** `ant_storage_path_is_safe_relative`. */
  predicate SafeRelative(p: string) {
    p == "" || (!(SCHEME <= p) && !IsSep(p[0]) && AllOk(Comps(p)))
  }

  function Normalize(p: string): Maybe<string> {
    if SafeRelative(p) then Some(Join(Kept(Comps(p)))) else None
  }

  predicate Clean(c: string) {
    c != "" && c != "." && CompOk(c) && NoSep(c)
  }

  ghost predicate AllClean(cs: seq<string>) { forall c <- cs :: Clean(c) }

  /** Normal paths are clean components joined by single slashes. */
  ghost predicate Normal(s: string) { AllClean(Comps(s)) && s == Join(Comps(s)) }

  lemma {:induction false} CompsOfSuffix(a: string, b: string, j: nat)
    requires j <= |b|
    ensures Comps(a + b, |a| + j) == Comps(b, j)
    decreases |b| - j
  {
    hide RunEnd;
    var s := a + b;
    if j < |b| {
      if IsSep(b[j]) {
        CompsOfSuffix(a, b, j + 1);
      } else {
        RunOfSuffix(a, b, j);
        var e := RunEnd(b, j);
        CompsOfSuffix(a, b, e);
        assert s[|a| + j..|a| + e] == b[j..e];
      }
    }
  }

  lemma {:induction false} RunOfSuffix(a: string, b: string, j: nat)
    requires j <= |b|
    ensures RunEnd(a + b, |a| + j) == |a| + RunEnd(b, j)
    decreases |b| - j
  {
    if j < |b| && !IsSep(b[j]) { RunOfSuffix(a, b, j + 1); }
  }

  lemma {:induction false} RunOfPrefix(a: string, b: string, i: nat)
    requires i <= |a| && (b != "" ==> IsSep(b[0]))
    ensures RunEnd(a + b, i) == RunEnd(a, i)
    decreases |a| - i
  {
    if i < |a| && !IsSep(a[i]) { RunOfPrefix(a, b, i + 1); }
  }

  /** A path that goes on with a separator: the components of both parts. */
  lemma {:induction false} CompsJoin(a: string, b: string, i: nat)
    requires i <= |a| && (b != "" ==> IsSep(b[0]))
    ensures Comps(a + b, i) == Comps(a, i) + Comps(b, 0)
    decreases |a| - i
  {
    hide RunEnd;
    var s := a + b;
    if i == |a| {
      CompsOfSuffix(a, b, 0);
    } else if IsSep(a[i]) {
      CompsJoin(a, b, i + 1);
    } else {
      RunOfPrefix(a, b, i);
      var e := RunEnd(a, i);
      CompsJoin(a, b, e);
      assert s[i..e] == a[i..e];
    }
  }

  lemma CompsSlash(a: string, b: string)
    ensures Comps(a + "/" + b) == Comps(a) + Comps(b)
  {
    assert a + "/" + b == a + ("/" + b);
    CompsJoin(a, "/" + b, 0);
    CompsOfSuffix("/", b, 0);
  }

  lemma {:induction false} NoSepRun(c: string, i: nat)
    requires i <= |c| && NoSep(c)
    ensures RunEnd(c, i) == |c|
    decreases |c| - i
  {
    if i < |c| { NoSepRun(c, i + 1); }
  }

  lemma CompsOfOne(c: string)
    requires c != "" && NoSep(c)
    ensures Comps(c) == [c]
  {
    NoSepRun(c, 0);
    assert Comps(c, |c|) == [] && c[0..|c|] == c;
  }

  /** Joining undoes splitting, for components that are components. */
  lemma {:induction false} CompsOfJoin(cs: seq<string>)
    requires forall c <- cs :: c != "" && NoSep(c)
    ensures Comps(Join(cs)) == cs
  {
    if cs != [] {
      assert cs[0] in cs;
      CompsOfOne(cs[0]);
      if |cs| > 1 {
        forall c <- cs[1..] ensures c != "" && NoSep(c) { assert c in cs; }
        CompsOfJoin(cs[1..]);
        CompsSlash(cs[0], Join(cs[1..]));
      }
    }
  }

  lemma JoinNormal(cs: seq<string>)
    requires AllClean(cs)
    ensures Normal(Join(cs)) && Comps(Join(cs)) == cs
  {
    forall c <- cs ensures c != "" && NoSep(c) { assert Clean(c); }
    CompsOfJoin(cs);
  }

  /** What is accepted is brought into normal form. */
  lemma NormalizeNormal(p: string)
    ensures Normalize(p).Some? ==> Normal(Normalize(p).value) && Comps(Normalize(p).value) == Kept(Comps(p))
  {
    if SafeRelative(p) {
      if p == "" { assert Comps(p) == []; }
      var cs := Kept(Comps(p));
      KeptIn(Comps(p));
      CompsSplit(p, 0);
      forall c <- cs ensures Clean(c) { assert c in Comps(p); }
      JoinNormal(cs);
    }
  }

  lemma {:induction false} KeptIn(cs: seq<string>)
    ensures forall c <- Kept(cs) :: c in cs && c != "."
  {
    if cs != [] { KeptIn(cs[1..]); }
  }

  lemma {:induction false} KeptClean(cs: seq<string>)
    requires AllClean(cs)
    ensures Kept(cs) == cs
  {
    if cs != [] {
      assert Clean(cs[0]);
      KeptClean(cs[1..]);
    }
  }

  lemma {:induction false} KeptConcat(a: seq<string>, b: seq<string>)
    ensures Kept(a + b) == Kept(a) + Kept(b)
  {
    hide Kept;
    if a == [] {
      KeptNone();
      assert a + b == b;
    } else {
      var x, t := a[0], a[1..];
      KeptConcat(t, b);
      KeptFirst(x, t);
      KeptFirst(x, t + b);
      assert [x] + t == a;
      assert [x] + (t + b) == a + b;
    }
  }

  lemma KeptNone()
    ensures Kept([]) == []
  {
  }

  lemma KeptFirst(c: string, cs: seq<string>)
    ensures Kept([c] + cs) == (if c == "." then [] else [c]) + Kept(cs)
  {
    assert ([c] + cs)[1..] == cs;
  }

  /** A normal path does not begin with a separator and has no two in a row. */
  lemma {:induction false} JoinShape(cs: seq<string>)
    requires AllClean(cs)
    ensures var s := Join(cs); (s != "" ==> !IsSep(s[0]) && !IsSep(s[|s| - 1])) && (s == "" <==> cs == [])
    ensures var s := Join(cs); forall k | 0 <= k < |s| - 1 :: !(IsSep(s[k]) && IsSep(s[k + 1]))
  {
    if cs != [] {
      assert Clean(cs[0]);
      if |cs| > 1 {
        JoinShape(cs[1..]);
        var c, r, s := cs[0], Join(cs[1..]), Join(cs);
        forall k | 0 <= k < |s| - 1 ensures !(IsSep(s[k]) && IsSep(s[k + 1])) {
          if k > |c| { assert s[k] == r[k - |c| - 1] && s[k + 1] == r[k - |c|]; }
        }
      }
    }
  }

  /** A path with no two separators in a row does not start with a scheme. */
  lemma NoScheme(s: string, scheme: string)
    requires |scheme| == 10 && scheme[8] == '/' == scheme[9]
    requires forall k | 0 <= k < |s| - 1 :: !(IsSep(s[k]) && IsSep(s[k + 1]))
    ensures !(scheme <= s)
  {
    var k := 8;
    if |s| >= 10 { assert !(IsSep(s[k]) && IsSep(s[k + 1])); }
  }

  /** Normal paths are accepted and left as they are, so normalising is idempotent. */
  lemma NormalIsFixed(s: string)
    requires Normal(s)
    ensures Normalize(s) == Some(s)
  {
    var cs := Comps(s);
    JoinShape(cs);
    NoScheme(s, SCHEME);
    forall c <- cs ensures CompOk(c) { assert Clean(c); }
    KeptClean(cs);
  }

  lemma NormalizeIdempotent(p: string)
    ensures Normalize(p).Some? ==> Normalize(Normalize(p).value) == Normalize(p)
  {
    NormalizeNormal(p);
    if Normalize(p).Some? { NormalIsFixed(Normalize(p).value); }
  }

  // ---------------------------------------------------------------- the loops

  /** Past the separators at `i`. */
  method SkipSeps(p: string, i: nat) returns (j: nat)
    requires i <= |p|
    ensures i <= j <= |p| && (j < |p| ==> !IsSep(p[j])) && Comps(p, j) == Comps(p, i)
  {
    j := i;
    while j < |p| && IsSep(p[j])
      invariant i <= j <= |p| && Comps(p, j) == Comps(p, i)
    {
      j := j + 1;
    }
  }

  /** The rest of a component, up to a control character. */
  method TakeClean(p: string, start: nat) returns (ok: bool, i: nat)
    requires start <= |p|
    ensures start <= i <= |p| && (ok ==> i == RunEnd(p, start))
    ensures ok <==> NoControl(p[start..RunEnd(p, start)])
  {
    i := start;
    while i < |p| && !IsSep(p[i])
      invariant start <= i <= |p| && NoControl(p[start..i]) && RunEnd(p, start) == RunEnd(p, i)
    {
      if p[i] < ' ' {
        assert p[start..RunEnd(p, start)][i - start] == p[i];
        return false, i;
      }
      assert p[start..i + 1] == p[start..i] + [p[i]];
      i := i + 1;
    }
    ok := true;
  }

  method CheckSafe(p: string) returns (ok: bool)
    ensures ok == SafeRelative(p)
  {
    hide Comps, RunEnd, AllOk, NoControl;
    if p == "" { return true; }
    if SCHEME <= p || IsSep(p[0]) { return false; }
    var i := 0;
    while i < |p|
      invariant 0 <= i <= |p| && (AllOk(Comps(p)) <==> AllOk(Comps(p, i)))
      decreases |p| - i
    {
      var start := SkipSeps(p, i);
      if start == |p| {
        i := start;
      } else {
        FirstComp(p, start);
        ghost var e := RunEnd(p, start);
        AllOkFirst(p[start..e], Comps(p, e));
        var clean, end := TakeClean(p, start);
        if !clean || p[start..end] == ".." { return false; }
        i := end;
      }
    }
    AtEnd(p);
    assert AllOk([]) by { AllOkNone(); }
    ok := true;
  }

  lemma AllOkNone()
    ensures AllOk([])
  {
  }

  lemma AtEnd(p: string)
    ensures Comps(p, |p|) == []
  {
  }

  lemma AllOkFirst(c: string, cs: seq<string>)
    ensures AllOk([c] + cs) <==> CompOk(c) && AllOk(cs)
  {
    assert c in [c] + cs;
    if AllOk([c] + cs) {
      forall d <- cs ensures CompOk(d) { assert d in [c] + cs; }
    }
  }

  lemma FirstComp(p: string, i: nat)
    requires i <= |p| && (i < |p| ==> !IsSep(p[i]))
    ensures i < |p| ==> Comps(p, i) == [p[i..RunEnd(p, i)]] + Comps(p, RunEnd(p, i)) && i < RunEnd(p, i)
  {
  }

  method TakeRun(p: string, start: nat) returns (i: nat)
    requires start <= |p|
    ensures i == RunEnd(p, start)
  {
    i := start;
    while i < |p| && !IsSep(p[i])
      invariant start <= i <= |p| && RunEnd(p, start) == RunEnd(p, i)
    {
      i := i + 1;
    }
  }

  method NormalizePath(p: string) returns (r: Maybe<string>)
    ensures r == Normalize(p)
  {
    hide Comps, RunEnd, SafeRelative, Kept, Join;
    var ok := CheckSafe(p);
    if !ok { return None; }
    var i, out := 0, "";
    ghost var done: seq<string> := [];
    JoinNone();
    while i < |p|
      invariant 0 <= i <= |p| && Kept(Comps(p)) == done + Kept(Comps(p, i)) && out == Join(done)
      invariant out == "" <==> done == []
      decreases |p| - i
    {
      var start := SkipSeps(p, i);
      if start == |p| {
        i := start;
      } else {
        FirstComp(p, start);
        i := TakeRun(p, start);
        var c := p[start..i];
        KeptFirst(c, Comps(p, i));
        if c != "." {
          JoinMore(done, c);
          if out != "" { out := out + "/"; }
          out := out + c;
          done := done + [c];
        }
      }
    }
    AtEnd(p);
    KeptNone();
    assert done + [] == done;
    r := Some(out);
  }

  lemma JoinNone()
    ensures Join([]) == ""
  {
  }

  lemma {:induction false} JoinMore(cs: seq<string>, c: string)
    ensures Join(cs + [c]) == if cs == [] then c else Join(cs) + "/" + c
  {
    if |cs| > 0 {
      assert (cs + [c])[1..] == cs[1..] + [c];
      JoinMore(cs[1..], c);
      if |cs| > 1 { assert cs[0] + "/" + (Join(cs[1..]) + "/" + c) == cs[0] + "/" + Join(cs[1..]) + "/" + c; }
    }
  }
}
