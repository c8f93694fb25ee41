/** Storage contexts: a location, and a base below it that every path is resolved against. */
module StorageContext {
  import opened Common
  import opened StoragePath

  datatype Kind = FilePath | SafTree

  /** `prefix` is the token in front of the context's own virtual paths. */
  datatype Context = Context(kind: Kind, root: string, prefix: string, base: string)

  /** What creation guarantees: a root, a virtual prefix of its own form, a normal base. */
  ghost predicate Made(x: Context) {
    x.root != "" && Normal(x.base) && (x.kind == SafTree ==> VIRTUAL <= x.prefix && |x.prefix| > |VIRTUAL|)
  }

  function WithBase(base: string, rel: string): string {
    if base == "" then rel else if rel == "" then base else base + "/" + rel
  }

  /** `storage_is_inside_base`. */
  predicate InsideBase(base: string, rel: string) {
    base == "" || rel == base || (base <= rel && |rel| > |base| && rel[|base|] == '/')
  }

  /** `ant_storage_context_create_child`; `prefix` is the child's own token. */
  function Child(x: Context, rel: string, prefix: string): Maybe<Context> {
    match Normalize(rel)
    case None => None
    case Some(r) => Some(x.(prefix := prefix, base := WithBase(x.base, r)))
  }

  function SkipSlashes(p: string, i: nat): (j: nat)
    requires i <= |p|
    ensures i <= j <= |p| && (j < |p| ==> p[j] != '/')
    decreases |p| - i
  {
    if i < |p| && p[i] == '/' then SkipSlashes(p, i + 1) else i
  }

  function OnlyInside(base: string, r: Maybe<string>): Maybe<string> {
    if r.Some? && InsideBase(base, r.value) then r else None
  }

  function Scoped(base: string, r: Maybe<string>): Maybe<string> {
    if r.Some? then Some(WithBase(base, r.value)) else None
  }

  /** `ant_storage_relative_path`: the path from the root that a path names, if it is accepted. */
  function Resolve(x: Context, p: string): Maybe<string> {
    if SCHEME <= p then None
    else if x.kind == SafTree then
      if x.prefix <= p then OnlyInside(x.base, Normalize(p[|x.prefix|..]))
      else if VIRTUAL <= p then None
      else Scoped(x.base, Normalize(p))
    else if VIRTUAL <= p then None
    else if p != "" && p[0] == '/' then
      if !(x.root <= p) || (|p| > |x.root| && p[|x.root|] != '/') then None
      else OnlyInside(x.base, Normalize(p[SkipSlashes(p, |x.root|)..]))
    else Scoped(x.base, Normalize(p))
  }

  function JoinRoot(root: string, rel: string): string {
    (if root != "" && root[|root| - 1] != '/' then root + "/" else root) + rel
  }

  /** `ant_storage_file_path`. */
  function FileOf(x: Context, p: string): Maybe<string> {
    if x.kind != FilePath then None
    else match Resolve(x, p)
      case None => None
      case Some(r) => Some(JoinRoot(x.root, r))
  }

  // ---------------------------------------------------------------- resolving stays inside

  /** Component by component, `r` is `base` and something below it. */
  ghost predicate Below(base: string, r: string) { Comps(base) <= Comps(r) }

  lemma WithBaseNormal(base: string, rel: string)
    requires Normal(base) && Normal(rel)
    ensures var r := WithBase(base, rel); Normal(r) && Comps(r) == Comps(base) + Comps(rel)
  {
    var a, b := Comps(base), Comps(rel);
    JoinShape(a);
    JoinShape(b);
    if base != "" && rel != "" {
      CompsSlash(base, rel);
      JoinConcat(a, b);
      forall c <- a + b ensures Clean(c) { assert c in a || c in b; }
    }
  }

  lemma {:induction false} JoinConcat(a: seq<string>, b: seq<string>)
    requires a != [] && b != []
    ensures Join(a + b) == Join(a) + "/" + Join(b)
  {
    assert (a + b)[0] == a[0] && (a + b)[1..] == a[1..] + b;
    if |a| > 1 {
      JoinConcat(a[1..], b);
      assert Join(a) + "/" + Join(b) == a[0] + "/" + (Join(a[1..]) + "/" + Join(b));
    } else {
      assert a[1..] + b == b;
    }
  }

  /** The test on characters means containment of components. */
  lemma InsideIsBelow(base: string, r: string)
    requires Normal(base) && Normal(r)
    ensures InsideBase(base, r) <==> Below(base, r)
  {
    if InsideBase(base, r) { InsideBelow(base, r); }
    if Below(base, r) { BelowInside(base, r); }
  }

  lemma InsideBelow(base: string, r: string)
    requires Normal(base) && Normal(r) && InsideBase(base, r)
    ensures Below(base, r)
  {
    hide Normal;
    if base == "" {
      assert Comps(base) == [];
    } else if r != base {
      assert r == base + r[|base|..];
      CompsJoin(base, r[|base|..], 0);
    }
  }

  lemma BelowInside(base: string, r: string)
    requires Normal(base) && Normal(r) && Below(base, r)
    ensures InsideBase(base, r)
  {
    hide Comps, Join, Clean;
    var a, b := Comps(base), Comps(r);
    JoinShape(a);
    if |a| < |b| && base != "" {
      var rest := b[|a|..];
      assert b == a + rest;
      JoinConcat(a, rest);
      assert r == base + "/" + Join(rest);
    } else if base != "" {
      assert a == b;
    }
  }

  /** Whatever path is accepted, in whatever spelling, it resolves to a normal path at or below
      the base of the context. */
  lemma ResolvedInside(x: Context, p: string)
    requires Made(x)
    ensures Resolve(x, p).Some? ==> Normal(Resolve(x, p).value) && Below(x.base, Resolve(x, p).value)
  {
    hide Normal, Normalize, InsideBase, Below, WithBase, SkipSlashes;
    NormalizeNormal(p);
    if x.kind == SafTree && x.prefix <= p {
      StaysInside(x.base, p[|x.prefix|..]);
    } else if x.kind == FilePath && x.root <= p {
      StaysInside(x.base, p[SkipSlashes(p, |x.root|)..]);
    }
    StaysScoped(x.base, p);
  }

  lemma StaysInside(base: string, p: string)
    requires Normal(base)
    ensures var r := OnlyInside(base, Normalize(p)); r.Some? ==> Normal(r.value) && Below(base, r.value)
  {
    hide Normal, Normalize, InsideBase, Below;
    NormalizeNormal(p);
    if Normalize(p).Some? { InsideIsBelow(base, Normalize(p).value); }
  }

  lemma StaysScoped(base: string, p: string)
    requires Normal(base)
    ensures var r := Scoped(base, Normalize(p)); r.Some? ==> Normal(r.value) && Below(base, r.value)
  {
    hide Normal, Normalize, WithBase;
    NormalizeNormal(p);
    if Normalize(p).Some? { WithBaseNormal(base, Normalize(p).value); }
  }

  /** Children are contexts too, with a base below their parent's. */
  lemma ChildMade(x: Context, rel: string, prefix: string)
    requires Made(x) && VIRTUAL <= prefix && |prefix| > |VIRTUAL|
    ensures var c := Child(x, rel, prefix); c.Some? ==> Made(c.value) && Below(x.base, c.value.base)
  {
    NormalizeNormal(rel);
    if Normalize(rel).Some? { WithBaseNormal(x.base, Normalize(rel).value); }
  }

  // ---------------------------------------------------------------- child contexts

  /** A path given in terms of the context, not of its root. */
  predicate IsRelative(x: Context, p: string) {
    if x.kind == SafTree then !(VIRTUAL <= p) else p == "" || p[0] != '/'
  }

  lemma SafeBelow(r: string, p: string)
    requires Normal(r) && r != "" && SafeRelative(p)
    ensures Normalize(r + "/" + p) == Some(WithBase(r, Normalize(p).value))
    ensures var s := r + "/" + p; !IsSep(s[0]) && !(SCHEME <= s) && !(VIRTUAL <= s)
  {
    var s, a, b := r + "/" + p, Comps(r), Comps(p);
    CompsSlash(r, p);
    JoinShape(a);
    NoDouble(r, p);
    forall c <- a + b ensures CompOk(c) {
      if c in a { assert Clean(c); } else { assert p != ""; }
    }
    KeptConcat(a, b);
    KeptClean(a);
    NormalizeNormal(p);
    JoinShape(Kept(b)) by { NormalOf(p); }
    if Kept(b) != [] { JoinConcat(a, Kept(b)); } else { assert a + Kept(b) == a; }
  }

  lemma NormalOf(p: string)
    requires SafeRelative(p)
    ensures AllClean(Kept(Comps(p)))
  {
    NormalizeNormal(p);
  }

  /** A normal path, a slash and an accepted path do not make up a scheme. */
  lemma NoDouble(r: string, p: string)
    requires Normal(r) && r != "" && (p != "" ==> !IsSep(p[0]))
    ensures var s := r + "/" + p; !IsSep(s[0]) && !(SCHEME <= s) && !(VIRTUAL <= s)
  {
    JoinShape(Comps(r));
    var s := r + "/" + p;
    if |r| < 8 {
      NoSchemeTail(r, p);
    } else if |r| == 8 {
      assert |s| > 9 ==> s[9] == p[0];
    } else if |r| == 9 {
      assert s[8] == r[|r| - 1];
    } else {
      var k := 8;
      assert !(IsSep(r[k]) && IsSep(r[k + 1]));
      assert s[k] == r[k] && s[k + 1] == r[k + 1];
    }
  }

  lemma NoSchemeTail(r: string, p: string)
    requires |r| < 8
    ensures var s := r + "/" + p; |s| >= 10 && r != "" ==> s[|r|] == '/'
    ensures var s := r + "/" + p; !(SCHEME <= s) && !(VIRTUAL <= s)
  {
    var s := r + "/" + p;
    assert |s| > |r| && s[|r|] == '/';
    assert forall k | 0 <= k < 8 :: SCHEME[k] != '/' && VIRTUAL[k] != '/';
  }

  /** Resolving in a child is resolving below the child's path in the parent. */
  lemma ChildResolves(x: Context, rel: string, prefix: string, p: string)
    requires Made(x) && Normal(rel) && rel != "" && VIRTUAL <= prefix && |prefix| > |VIRTUAL|
    requires IsRelative(x, p)
    ensures Child(x, rel, prefix).Some?
    ensures var r := Resolve(Child(x, rel, prefix).value, p); r.Some? ==> r == Resolve(x, rel + "/" + p)
  {
    hide Normal, SafeRelative, SkipSlashes, WithBase;
    NormalIsFixed(rel);
    var c := Child(x, rel, prefix).value;
    if Resolve(c, p).Some? {
      PrefixIsVirtual(x, p);
      assert SafeRelative(p);
      SafeBelow(rel, p);
      PrefixIsVirtual(x, rel + "/" + p);
      var n := Normalize(p).value;
      NormalizeNormal(p);
      JoinRoots(x.base, rel, n);
    }
  }

  lemma PrefixIsVirtual(x: Context, p: string)
    requires Made(x) && !(VIRTUAL <= p)
    ensures x.kind == SafTree ==> !(x.prefix <= p)
  {
  }

  lemma JoinRoots(a: string, b: string, c: string)
    requires b != ""
    ensures WithBase(WithBase(a, b), c) == WithBase(a, WithBase(b, c))
  {
    if a != "" && c != "" { assert a + "/" + b + "/" + c == a + "/" + (b + "/" + c); }
  }

  // ---------------------------------------------------------------- absolute paths

  /** The file path of an accepted path resolves to the same place again exactly when the absolute
      root has no slash at its end, or the path is the root itself. */
  lemma FileOfResolves(x: Context, p: string)
    requires Made(x) && x.kind == FilePath && x.root[0] == '/' && Resolve(x, p).Some?
    ensures FileOf(x, p).Some?
    ensures Resolve(x, FileOf(x, p).value) == Resolve(x, p) <==>
      x.root[|x.root| - 1] != '/' || Resolve(x, p).value == ""
  {
    hide Normal, Normalize, InsideBase, Below;
    ResolvedInside(x, p);
    var r, q := Resolve(x, p).value, FileOf(x, p).value;
    InsideIsBelow(x.base, r);
    NormalIsFixed(r);
    NormalStart(r);
    assert q[0] == '/';
    if x.root[|x.root| - 1] != '/' {
      assert q == x.root + "/" + r && q[|x.root|] == '/';
      assert q[|x.root| + 1..] == r;
      assert SkipSlashes(q, |x.root|) == SkipSlashes(q, |x.root| + 1) == |x.root| + 1;
    } else if r == "" {
      assert q == x.root && q[|x.root|..] == r;
    } else {
      assert q[|x.root|] == r[0];
    }
  }

  lemma NormalStart(r: string)
    requires Normal(r)
    ensures r != "" ==> !IsSep(r[0])
  {
    JoinShape(Comps(r));
  }

  /** A root with a slash at its end accepts no file path below it in its plain spelling. */
  lemma SlashedRootRefuses(x: Context, rel: string)
    requires x.kind == FilePath && x.root != "" && x.root[0] == '/' == x.root[|x.root| - 1]
    requires rel != "" && rel[0] != '/'
    ensures Resolve(x, x.root + rel) == None
  {
    var q := x.root + rel;
    assert q[0] == '/' && q[|x.root|] == rel[0];
  }
}
