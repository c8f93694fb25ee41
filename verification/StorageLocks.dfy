/** The in-process file locks: a list of held keys under one mutex, threads that wait on a
    condition, and tokens from a 64-bit counter. Each step below is one critical section. */
module StorageLocks {
  import opened Common
  import opened StorageContext

  const WRAP: nat := 0x1_0000_0000_0000_0000

  datatype Entry = Entry(key: string, token: nat)

  /** Where a thread is in the locking code. */
  datatype Thread = Outside | Wants(key: string) | Asleep(key: string)

  /** `granted` counts the locks ever given out; the code keeps only `next`. */
  datatype Locks = Locks(held: seq<Entry>, next: nat, granted: nat, threads: map<nat, Thread>)

  const START := Locks([], 1, 0, map[])

  function StateOf(s: Locks, t: nat): Thread { if t in s.threads then s.threads[t] else Outside }

  predicate Busy(held: seq<Entry>, key: string) { exists i | 0 <= i < |held| :: held[i].key == key }

  function Succ(n: nat): nat { (n + 1) % WRAP }

  /** The next token: zero is skipped when the counter wraps. */
  function TokenOf(next: nat): nat { if next == 0 then Succ(next) else next }

  /** The list without the first entry that has the token. */
  function Remove(held: seq<Entry>, token: nat): seq<Entry> {
    if held == [] then []
    else if held[0].token == token then held[1..]
    else [held[0]] + Remove(held[1..], token)
  }

  predicate HasToken(held: seq<Entry>, token: nat) { exists i | 0 <= i < |held| :: held[i].token == token }

  datatype Op =
    | Ask(t: nat, x: Context, path: string)
    | Try(t: nat)
    | Wake(t: nat)
    | Unlock(token: nat)

  function Grant(s: Locks, key: string): Locks {
    var token := TokenOf(s.next);
    s.(held := [Entry(key, token)] + s.held, next := Succ(token), granted := s.granted + 1)
  }

  /** Broadcasting wakes every sleeper. */
  function WakeAll(threads: map<nat, Thread>): map<nat, Thread> {
    map t | t in threads :: if threads[t].Asleep? then Wants(threads[t].key) else threads[t]
  }

  /** A step of any thread. A sleeper may also wake for no reason; a step that is not the next
      one of its thread does nothing. */
  function Step(s: Locks, op: Op): Locks {
    match op
    case Ask(t, x, path) =>
      if x.kind == FilePath && StateOf(s, t).Outside? && FileOf(x, path).Some?
      then s.(threads := s.threads[t := Wants(FileOf(x, path).value)]) else s
    case Try(t) =>
      if !StateOf(s, t).Wants? then s
      else
        var key := StateOf(s, t).key;
        if Busy(s.held, key) then s.(threads := s.threads[t := Asleep(key)])
        else Grant(s, key).(threads := s.threads[t := Outside])
    case Wake(t) =>
      if StateOf(s, t).Asleep? then s.(threads := s.threads[t := Wants(StateOf(s, t).key)]) else s
    case Unlock(token) =>
      if HasToken(s.held, token) then s.(held := Remove(s.held, token), threads := WakeAll(s.threads)) else s
  }

  function Run(s: Locks, ops: seq<Op>): Locks
    decreases |ops|
  {
    if ops == [] then s else Run(Step(s, ops[0]), ops[1..])
  }

  // ---------------------------------------------------------------- what every run keeps

  /** No two holders of a key, and nobody sleeps on a key that is free. */
  ghost predicate Inv(s: Locks) {
    && (forall i, j | 0 <= i < j < |s.held| :: s.held[i].key != s.held[j].key)
    && (forall t | t in s.threads && s.threads[t].Asleep? :: Busy(s.held, s.threads[t].key))
  }

  predicate DistinctTokens(held: seq<Entry>) { forall i, j | 0 <= i < j < |held| :: held[i].token != held[j].token }

  /** Before the counter wraps: tokens are distinct, nonzero and already given out. */
  ghost predicate Fresh(s: Locks) {
    && s.granted < WRAP && s.next == Succ(s.granted)
    && (forall i | 0 <= i < |s.held| :: 0 < s.held[i].token <= s.granted)
    && DistinctTokens(s.held)
  }

  lemma {:induction false} RemovedFrom(held: seq<Entry>, token: nat) returns (k: nat)
    requires HasToken(held, token)
    ensures k < |held| && held[k].token == token && Remove(held, token) == held[..k] + held[k + 1..]
  {
    if held[0].token == token {
      k := 0;
    } else {
      var i :| 0 <= i < |held| && held[i].token == token;
      assert held[1..][i - 1].token == token;
      var j := RemovedFrom(held[1..], token);
      k := j + 1;
      assert held[..k] == [held[0]] + held[1..][..j];
    }
  }

  lemma StepKeeps(s: Locks, op: Op)
    requires Inv(s)
    ensures Inv(Step(s, op))
  {
    hide FileOf;
    var r := Step(s, op);
    match op {
      case Ask(t, x, path) =>
      case Try(t) =>
        if StateOf(s, t).Wants? && !Busy(s.held, StateOf(s, t).key) { GrantKeeps(s, t); }
      case Wake(t) =>
      case Unlock(token) =>
        if HasToken(s.held, token) {
          var k := RemovedFrom(s.held, token);
          assert forall u | u in r.threads :: !r.threads[u].Asleep?;
        }
    }
  }

  lemma GrantKeeps(s: Locks, t: nat)
    requires Inv(s) && StateOf(s, t).Wants? && !Busy(s.held, StateOf(s, t).key)
    ensures Inv(Grant(s, StateOf(s, t).key).(threads := s.threads[t := Outside]))
  {
    var r := Grant(s, StateOf(s, t).key).(threads := s.threads[t := Outside]);
    forall u | u in r.threads && r.threads[u].Asleep? ensures Busy(r.held, r.threads[u].key) {
      var key := s.threads[u].key;
      assert Busy(s.held, key);
      var i :| 0 <= i < |s.held| && s.held[i].key == key;
      assert r.held[i + 1].key == key;
    }
  }

  lemma StepFresh(s: Locks, op: Op)
    requires Fresh(s) && Step(s, op).granted < WRAP
    ensures Fresh(Step(s, op))
  {
    hide FileOf, Busy, WakeAll, Fresh;
    match op {
      case Ask(_, _, _) => FreshFrame(s, Step(s, op));
      case Try(t) =>
        if StateOf(s, t).Wants? && !Busy(s.held, StateOf(s, t).key) {
          GrantFresh(s, StateOf(s, t).key);
          FreshFrame(Grant(s, StateOf(s, t).key), Step(s, op));
        } else {
          FreshFrame(s, Step(s, op));
        }
      case Wake(_) => FreshFrame(s, Step(s, op));
      case Unlock(token) =>
        if HasToken(s.held, token) {
          RemoveFresh(s, token);
          FreshFrame(s.(held := Remove(s.held, token)), Step(s, op));
        }
    }
  }

  lemma FreshFrame(s: Locks, r: Locks)
    requires Fresh(s) && r.held == s.held && r.next == s.next && r.granted == s.granted
    ensures Fresh(r)
  {
  }

  lemma GrantFresh(s: Locks, key: string)
    requires Fresh(s) && s.granted + 1 < WRAP
    ensures Fresh(Grant(s, key))
  {
  }

  lemma RemoveFresh(s: Locks, token: nat)
    requires Fresh(s) && HasToken(s.held, token)
    ensures Fresh(s.(held := Remove(s.held, token)))
  {
    hide Remove;
    var k := RemovedFrom(s.held, token);
  }

  /** In every run from the start, threads interleaved in any way: at most one holder per key, and
      a thread sleeps only while its key is held. */
  lemma {:induction false} RunKeeps(s: Locks, ops: seq<Op>)
    requires Inv(s)
    ensures Inv(Run(s, ops))
    decreases |ops|
  {
    hide Inv, Step;
    if ops != [] {
      StepKeeps(s, ops[0]);
      RunKeeps(Step(s, ops[0]), ops[1..]);
    }
  }

  lemma {:induction false} GrantedGrows(s: Locks, ops: seq<Op>)
    ensures s.granted <= Run(s, ops).granted
    decreases |ops|
  {
    hide FileOf, Busy, Remove;
    if ops != [] { GrantedGrows(Step(s, ops[0]), ops[1..]); }
  }

  /** As long as the counter has not given out all its values, tokens are distinct and nonzero,
      however many steps were taken. */
  lemma {:induction false} RunFresh(s: Locks, ops: seq<Op>)
    requires Fresh(s) && Run(s, ops).granted < WRAP
    ensures Fresh(Run(s, ops))
    decreases |ops|
  {
    hide Fresh, Step;
    if ops != [] {
      GrantedGrows(Step(s, ops[0]), ops[1..]);
      StepFresh(s, ops[0]);
      RunFresh(Step(s, ops[0]), ops[1..]);
    }
  }

  lemma EveryRun(ops: seq<Op>)
    ensures var s := Run(START, ops);
      && (forall i, j | 0 <= i < j < |s.held| :: s.held[i].key != s.held[j].key)
      && (forall t | t in s.threads && s.threads[t].Asleep? :: Busy(s.held, s.threads[t].key))
      && (s.granted < WRAP ==> Fresh(s))
  {
    hide Run;
    RunKeeps(START, ops);
    if Run(START, ops).granted < WRAP { RunFresh(START, ops); }
  }

  /** The lock after that one gets token 1 again, so tokens stay distinct exactly when the very
      first lock is no longer held. */
  lemma FirstTokenAgain(s: Locks, t: nat)
    requires Fresh(s) && s.granted == WRAP - 1 && StateOf(s, t).Wants? && !Busy(s.held, StateOf(s, t).key)
    ensures DistinctTokens(Step(s, Try(t)).held) <==> !HasToken(s.held, 1)
  {
    hide Busy;
    var r := Step(s, Try(t)).held;
    assert r == [Entry(StateOf(s, t).key, 1)] + s.held;
    if i: nat :| i < |s.held| && s.held[i].token == 1 { assert r[0].token == r[i + 1].token; }
  }

  // ---------------------------------------------------------------- what unlocking removes

  /** A held entry stays until its own token is unlocked, and a key is given out only when free. */
  lemma HeldUntilUnlocked(s: Locks, op: Op, e: Entry)
    requires Inv(s) && Fresh(s)
    ensures e in s.held ==> (e !in Step(s, op).held <==> op == Unlock(e.token))
    ensures e !in s.held && e in Step(s, op).held ==>
      op.Try? && StateOf(s, op.t) == Wants(e.key) && !Busy(s.held, e.key)
  {
    hide FileOf;
    if op.Unlock? && HasToken(s.held, op.token) {
      var k := RemovedFrom(s.held, op.token);
      var r := Step(s, op).held;
      if e in s.held {
        var i :| 0 <= i < |s.held| && s.held[i] == e;
        if i < k { assert r[i] == e; } else if i > k { assert r[i - 1] == e; }
        if i == k { KeyGone(s.held, k, e); }
      }
    } else if e in s.held {
      var i :| 0 <= i < |s.held| && s.held[i] == e;
      if op.Try? && |Step(s, op).held| > |s.held| { assert Step(s, op).held[i + 1] == e; }
      assert HasToken(s.held, e.token);
    }
  }

  lemma KeyGone(held: seq<Entry>, k: nat, e: Entry)
    requires k < |held| && held[k] == e
    requires forall i, j | 0 <= i < j < |held| :: held[i].key != held[j].key
    ensures e !in held[..k] + held[k + 1..]
  {
  }

  // ---------------------------------------------------------------- keys are places

  /** For contexts with one root the keys agree exactly when the paths resolve to the same place,
      in whatever spelling and below whatever base. */
  lemma KeyIsPlace(x: Context, y: Context, p: string, q: string)
    requires x.kind == FilePath == y.kind && x.root == y.root
    ensures FileOf(x, p) == FileOf(y, q) <==> Resolve(x, p) == Resolve(y, q)
  {
    hide Resolve;
    match (Resolve(x, p), Resolve(y, q)) {
      case (Some(a), Some(b)) =>
        var root := JoinRoot(x.root, "");
        assert JoinRoot(x.root, a) == root + a && JoinRoot(x.root, b) == root + b;
        if a != b { SameTail(root, a, b); }
      case (Some(_), None) =>
      case (None, Some(_)) =>
      case (None, None) =>
    }
  }

  lemma SameTail(r: string, a: string, b: string)
    requires a != b
    ensures r + a != r + b
  {
    assert (r + a)[|r|..] == a && (r + b)[|r|..] == b;
  }

  /** Path `p` opened in context `x` is locked under this key. */
  predicate Opens(x: Context, p: string, key: string) { x.kind == FilePath && FileOf(x, p) == Some(key) }

  /** Some step asked for the key. */
  predicate Asked(ops: seq<Op>, key: string) {
    exists k | 0 <= k < |ops| :: ops[k].Ask? && Opens(ops[k].x, ops[k].path, key)
  }

  /** Every key held or waited for was asked for. */
  ghost predicate AllAsked(s: Locks, ops: seq<Op>) {
    && (forall i | 0 <= i < |s.held| :: Asked(ops, s.held[i].key))
    && (forall t | t in s.threads && !s.threads[t].Outside? :: Asked(ops, s.threads[t].key))
  }

  lemma AskedMore(ops: seq<Op>, more: seq<Op>, key: string)
    requires Asked(ops, key)
    ensures Asked(ops + more, key)
  {
    hide Opens;
    var k :| 0 <= k < |ops| && ops[k].Ask? && Opens(ops[k].x, ops[k].path, key);
    assert (ops + more)[k] == ops[k];
  }

  lemma StepAsked(s: Locks, done: seq<Op>, op: Op)
    requires AllAsked(s, done)
    ensures AllAsked(Step(s, op), done + [op])
  {
    hide FileOf, Asked;
    var r := Step(s, op);
    forall key | Asked(done, key) ensures Asked(done + [op], key) { AskedMore(done, [op], key); }
    if op.Ask? && r != s { AskedLast(done, op, FileOf(op.x, op.path).value); }
    if op.Unlock? && HasToken(s.held, op.token) { var k := RemovedFrom(s.held, op.token); }
  }

  lemma AskedLast(done: seq<Op>, op: Op, key: string)
    requires op.Ask? && Opens(op.x, op.path, key)
    ensures Asked(done + [op], key)
  {
    hide FileOf;
    assert (done + [op])[|done|] == op;
  }

  lemma {:induction false} RunAsked(s: Locks, done: seq<Op>, ops: seq<Op>)
    requires AllAsked(s, done)
    ensures AllAsked(Run(s, ops), done + ops)
    decreases |ops|
  {
    hide AllAsked, Step;
    if ops == [] {
      assert done + ops == done;
    } else {
      StepAsked(s, done, ops[0]);
      RunAsked(Step(s, ops[0]), done + [ops[0]], ops[1..]);
      assert done + [ops[0]] + ops[1..] == done + ops;
    }
  }

  /** In every run, every held lock was asked for, and no place is held twice: two held locks
      never stand for paths that resolve to the same place below one root. */
  lemma OneHolderPerPlace(ops: seq<Op>)
    ensures var held := Run(START, ops).held;
      && (forall i | 0 <= i < |held| :: Asked(ops, held[i].key))
      && (forall i, j, x, y, p, q |
            0 <= i < j < |held| && Opens(x, p, held[i].key) && Opens(y, q, held[j].key) && x.root == y.root ::
            Resolve(x, p) != Resolve(y, q))
  {
    hide Run, FileOf, Resolve, Asked;
    var held := Run(START, ops).held;
    assert AllAsked(START, []);
    RunAsked(START, [], ops);
    assert [] + ops == ops;
    EveryRun(ops);
    forall i, j, x, y, p, q |
      0 <= i < j < |held| && Opens(x, p, held[i].key) && Opens(y, q, held[j].key) && x.root == y.root
      ensures Resolve(x, p) != Resolve(y, q)
    {
      KeyIsPlace(x, y, p, q);
    }
  }

  // ---------------------------------------------------------------- the list in memory

  /** The list and the counter, as the critical sections change them. */
  class Table {
    var held: seq<Entry>
    var next: nat

    constructor ()
      ensures held == [] && next == 1
    {
      held, next := [], 1;
    }

    /** One pass of the waiting loop: busy, or the lock and its token. */
    method TryLock(key: string) returns (token: Maybe<nat>)
      modifies this
      ensures token.None? <==> Busy(old(held), key)
      ensures token.None? ==> held == old(held) && next == old(next)
      ensures token.Some? ==> token.value != 0 && token.value == TokenOf(old(next))
      ensures token.Some? ==> held == [Entry(key, token.value)] + old(held) && next == Succ(token.value)
    {
      var i := 0;
      while i < |held|
        invariant 0 <= i <= |held| && forall k | 0 <= k < i :: held[k].key != key
        modifies {}
      {
        if held[i].key == key { return None; }
        i := i + 1;
      }
      var n := next;
      next := Succ(next);
      if n == 0 {
        n := next;
        next := Succ(next);
      }
      held := [Entry(key, n)] + held;
      token := Some(n);
    }

    /** Walks the list to the entry with the token and takes it out. */
    method Release(token: nat) returns (woke: bool)
      modifies `held
      ensures held == Remove(old(held), token) && woke == HasToken(old(held), token)
    {
      var i := 0;
      while i < |held|
        invariant 0 <= i <= |held| && held == old(held)
        invariant Remove(held, token) == held[..i] + Remove(held[i..], token)
        invariant forall k | 0 <= k < i :: held[k].token != token
        modifies {}
      {
        assert held[i..][1..] == held[i + 1..];
        if held[i].token == token { break; }
        assert held[..i] + [held[i]] == held[..i + 1];
        i := i + 1;
      }
      if i < |held| {
        held := held[..i] + held[i + 1..];
        woke := true;
      } else {
        woke := false;
      }
    }
  }
}
