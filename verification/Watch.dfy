/** The watch supervisor: one child process, restarted when a watched file changes. Its event
    handlers run one at a time; what the system calls answer is given with each event. */
module Watch {
  import opened Common

  /** Exit status of a failure. */
  const FAILURE: int := 1

  /** `alive` are the child processes that really run, `spawns` how many were ever started; the
      code keeps only the rest. */
  datatype State = State(
    stop: bool,
    restart: bool,
    child: Maybe<nat>,
    debounceReady: bool,
    debounce: bool,
    killReady: bool,
    kill: bool,
    watching: bool,
    code: int,
    alive: set<nat>,
    spawns: nat)

  /** Whether refreshing the watchers, spawning, signalling the child and starting either timer succeed. */
  datatype Env = Env(refreshed: bool, spawned: bool, signalled: bool, debounceStarts: bool, killStarts: bool)

  // ---------------------------------------------------------------- the handlers

  function StopKill(s: State): State { if s.killReady && s.kill then s.(kill := false) else s }

  function StartKill(s: State, e: Env): State {
    if !s.killReady || s.kill || !e.killStarts then s else s.(kill := true)
  }

  function CloseAll(s: State): State {
    s.(watching := false, debounce := s.debounce && !s.debounceReady)
  }

  /** `watch_request_shutdown`. */
  function Shutdown(s: State, code: int, e: Env): State {
    if s.stop then s
    else
      var t := CloseAll(s.(stop := true, restart := false, code := code));
      if t.child.Some? then StartKill(t, e) else t
  }

  /** `watch_spawn_child`; the process gets a number of its own. */
  function Spawn(s: State, e: Env): State {
    if !e.spawned then s
    else s.(child := Some(s.spawns), restart := false, alive := s.alive + {s.spawns}, spawns := s.spawns + 1)
  }

  /** `watch_try_spawn_child`. */
  function TrySpawn(s: State, e: Env): State {
    if s.stop then s
    else if !e.refreshed then Shutdown(s, FAILURE, e)
    else if !e.spawned then Shutdown(s.(watching := true), FAILURE, e)
    else Spawn(s.(watching := true), e)
  }

  /** `watch_request_restart_now`. */
  function RestartNow(s: State, e: Env): State {
    var t := s.(debounce := s.debounce && !s.debounceReady);
    if t.stop then t
    else
      var u := t.(restart := true);
      if u.child.None? then TrySpawn(u, e)
      else if u.kill then u
      else if !e.signalled then Shutdown(u, FAILURE, e)
      else StartKill(u, e)
  }

  function OnFile(s: State, changed: bool, e: Env): State {
    if !s.watching || !changed || s.restart then s
    else if !s.debounceReady || !e.debounceStarts then RestartNow(s, e)
    else s.(debounce := true)
  }

  function OnDebounce(s: State, e: Env): State { RestartNow(s.(debounce := false), e) }

  function OnKill(s: State): State { s.(kill := false) }

  function OnExit(s: State, status: int, signal: nat, e: Env): State {
    var gone := if s.child.Some? then {s.child.value} else {};
    var t := StopKill(s.(child := None, alive := s.alive - gone));
    if t.stop then t
    else if t.restart then TrySpawn(t, e)
    else t.(code := if signal > 0 then 128 + signal else status)
  }

  function OnSignal(s: State, signal: nat, e: Env): State { Shutdown(s, 128 + signal, e) }

  /** `ant_watch_run` up to the event loop: which timers could be made, whether the rest of the
      set-up succeeded, and the first child, whose failing to start is ignored. */
  function Begin(debounceReady: bool, killReady: bool, ready: bool, e: Env): State {
    var s := State(false, false, None, debounceReady, false, killReady, false, false, 0, {}, 0);
    if !debounceReady || !killReady || !e.refreshed || !ready then Shutdown(s, FAILURE, e)
    else Spawn(s.(watching := true), e)
  }

  // ---------------------------------------------------------------- runs

  datatype Event =
    | File(changed: bool)
    | DebounceFires
    | KillFires
    | ChildExits(status: int, signal: nat)
    | Signalled(signal: nat)

  /** The loop delivers only what is armed: a running timer, a live child, a signal handler that
      was not closed. File events are checked by the handler. */
  predicate Armed(s: State, v: Event) {
    match v
    case File(_) => true
    case DebounceFires => s.debounce
    case KillFires => s.kill
    case ChildExits(_, _) => s.child.Some?
    case Signalled(_) => !s.stop
  }

  function Step(s: State, v: Event, e: Env): State {
    if !Armed(s, v) then s
    else match v
      case File(changed) => OnFile(s, changed, e)
      case DebounceFires => OnDebounce(s, e)
      case KillFires => OnKill(s)
      case ChildExits(status, signal) => OnExit(s, status, signal, e)
      case Signalled(signal) => OnSignal(s, signal, e)
  }

  function Run(s: State, vs: seq<(Event, Env)>): State
    decreases |vs|
  {
    if vs == [] then s else Run(Step(s, vs[0].0, vs[0].1), vs[1..])
  }

  // ---------------------------------------------------------------- what every run keeps

  /** What holds also within a handler. At most one child runs, and it is the one the supervisor
      knows; the kill timer runs only against it; after a shutdown request nothing is watched and
      nothing pends. */
  ghost predicate Sane(s: State) {
    && s.alive == (if s.child.Some? then {s.child.value} else {}) && (s.child.Some? ==> s.child.value < s.spawns)
    && (s.kill ==> s.killReady && s.child.Some?)
    && (s.debounce ==> s.debounceReady)
    && (s.stop ==> !s.watching && !s.debounce && !s.restart)
  }

  /** Between events, moreover: the child is killed only to be replaced or stopped, and a pending
      restart waits for a live child while no further change is being debounced. */
  ghost predicate Inv(s: State) {
    && Sane(s)
    && (s.kill ==> s.restart || s.stop)
    && (s.restart ==> s.child.Some? && !s.stop && !s.debounce)
  }

  lemma ShutdownKeeps(s: State, code: int, e: Env)
    requires Sane(s) && !s.stop
    ensures Inv(Shutdown(s, code, e))
  {
  }

  lemma SpawnKeeps(s: State, e: Env)
    requires Sane(s) && !s.stop && s.child.None? && e.spawned
    ensures Inv(Spawn(s, e))
  {
  }

  lemma TrySpawnKeeps(s: State, e: Env)
    requires Sane(s) && !s.stop && s.child.None?
    ensures Inv(TrySpawn(s, e))
  {
    hide Inv, Shutdown, Spawn;
    if !e.refreshed {
      ShutdownKeeps(s, FAILURE, e);
    } else if !e.spawned {
      ShutdownKeeps(s.(watching := true), FAILURE, e);
    } else {
      SpawnKeeps(s.(watching := true), e);
    }
  }

  lemma RestartKeeps(s: State, e: Env)
    requires Inv(s) && !s.restart
    ensures Inv(RestartNow(s, e))
  {
    hide Shutdown, TrySpawn;
    var u := s.(debounce := false, restart := true);
    if !s.stop {
      if s.child.None? {
        TrySpawnKeeps(u, e);
      } else if !s.kill && !e.signalled {
        ShutdownKeeps(u, FAILURE, e);
      }
    }
  }

  lemma ExitKeeps(s: State, status: int, signal: nat, e: Env)
    requires Inv(s) && s.child.Some?
    ensures Inv(OnExit(s, status, signal, e))
  {
    hide TrySpawn;
    var t := StopKill(s.(child := None, alive := s.alive - {s.child.value}));
    assert Sane(t);
    if !t.stop && t.restart { TrySpawnKeeps(t, e); }
  }

  lemma StepKeeps(s: State, v: Event, e: Env)
    requires Inv(s)
    ensures Inv(Step(s, v, e))
  {
    hide RestartNow, Shutdown, OnExit;
    match v
    case File(_) => if !s.restart { RestartKeeps(s, e); }
    case DebounceFires => if s.debounce { RestartKeeps(s.(debounce := false), e); }
    case KillFires =>
    case ChildExits(status, signal) => if s.child.Some? { ExitKeeps(s, status, signal, e); }
    case Signalled(signal) => if !s.stop { ShutdownKeeps(s, 128 + signal, e); }
  }

  lemma BeginKeeps(d: bool, k: bool, ready: bool, e: Env)
    ensures Inv(Begin(d, k, ready, e))
  {
  }

  /** After a shutdown request: no child is started, no restart pends and the exit code stands. */
  lemma StopIsFinal(s: State, v: Event, e: Env)
    requires Inv(s) && s.stop
    ensures var r := Step(s, v, e); r.stop && r.code == s.code && r.spawns == s.spawns && r.alive <= s.alive
  {
  }

  /** The first shutdown request sets the exit code: a signal's, or that of a failure. */
  lemma StopSetsCode(s: State, v: Event, e: Env)
    requires Inv(s) && !s.stop && Step(s, v, e).stop
    ensures Step(s, v, e).code == if v.Signalled? then 128 + v.signal else FAILURE
    ensures Step(s, v, e).spawns == s.spawns
  {
    hide TrySpawn, Shutdown;
    var t := s.(debounce := s.debounce && !s.debounceReady, restart := true);
    TryStops(t, e);
    TryStops(t.(debounce := false), e);
    ShutdownStarts(t, FAILURE, e);
    ShutdownStarts(t.(debounce := false), FAILURE, e);
    if v.Signalled? { ShutdownStarts(s, 128 + v.signal, e); }
    if s.child.Some? { TryStops(StopKill(s.(child := None, alive := s.alive - {s.child.value})), e); }
  }

  lemma TryStops(s: State, e: Env)
    requires !s.stop
    ensures TrySpawn(s, e).stop ==> TrySpawn(s, e).code == FAILURE && TrySpawn(s, e).spawns == s.spawns
  {
    hide Shutdown;
    ShutdownStarts(s, FAILURE, e);
    ShutdownStarts(s.(watching := true), FAILURE, e);
  }

  /** A pending restart lasts until one child is started or a shutdown is requested. */
  lemma RestartLasts(s: State, v: Event, e: Env)
    requires Inv(s) && s.restart
    ensures var r := Step(s, v, e);
      || (r.restart && r.child == s.child && r.spawns == s.spawns)
      || (!r.restart && !r.stop && r.spawns == s.spawns + 1 && r.child == Some(s.spawns) && v.ChildExits?)
      || (r.stop && r.spawns == s.spawns)
  {
  }

  /** A child is started only after the one before is gone, one at a time. */
  lemma SpawnsAlone(s: State, v: Event, e: Env)
    requires Inv(s)
    ensures var r := Step(s, v, e);
      r.spawns == s.spawns || (r.spawns == s.spawns + 1 && r.alive == {s.spawns} && !s.stop)
  {
    hide TrySpawn;
    var t := s.(debounce := false, restart := true);
    if s.child.None? {
      TrySpawns(t, e);
      TrySpawns(t.(debounce := s.debounce && !s.debounceReady), e);
    } else {
      TrySpawns(StopKill(s.(child := None, alive := s.alive - {s.child.value})), e);
    }
  }

  lemma TrySpawns(s: State, e: Env)
    requires s.alive == {}
    ensures var r := TrySpawn(s, e);
      r.spawns == s.spawns || (r.spawns == s.spawns + 1 && r.alive == {s.spawns} && !s.stop)
  {
    hide Shutdown;
    ShutdownStarts(s, FAILURE, e);
    ShutdownStarts(s.(watching := true), FAILURE, e);
    assert {} + {s.spawns} == {s.spawns};
  }

  /** A shutdown request starts no child. */
  lemma ShutdownStarts(s: State, code: int, e: Env)
    ensures Shutdown(s, code, e).spawns == s.spawns && Shutdown(s, code, e).alive == s.alive
    ensures !s.stop ==> Shutdown(s, code, e).code == code
  {
  }

  lemma {:induction false} RunKeeps(s: State, vs: seq<(Event, Env)>)
    requires Inv(s)
    ensures Inv(Run(s, vs)) && s.spawns <= Run(s, vs).spawns
    ensures s.stop ==> Run(s, vs).stop && Run(s, vs).code == s.code && Run(s, vs).spawns == s.spawns
    ensures s.restart ==>
      var r := Run(s, vs); (r.restart && r.spawns == s.spawns && r.child == s.child) || r.spawns > s.spawns || r.stop
    decreases |vs|
  {
    hide Inv, Step;
    if vs != [] {
      var (v, e) := vs[0];
      var t := Step(s, v, e);
      StepKeeps(s, v, e);
      SpawnsAlone(s, v, e);
      if s.stop { StopIsFinal(s, v, e); }
      if s.restart { RestartLasts(s, v, e); }
      RunKeeps(t, vs[1..]);
    }
  }

  /** Every run of the supervisor, from any set-up and with any answers from the system. */
  lemma EveryRun(d: bool, k: bool, ready: bool, e: Env, vs: seq<(Event, Env)>, more: seq<(Event, Env)>)
    ensures var s := Run(Begin(d, k, ready, e), vs);
      && Inv(s) && |s.alive| <= 1
      && (s.kill ==> s.child.Some? && (s.restart || s.stop))
      && (s.stop ==> Run(s, more).code == s.code && Run(s, more).spawns == s.spawns)
      && (s.restart ==> var r := Run(s, more); r.restart || r.spawns > s.spawns || r.stop)
  {
    hide Run, Step, Begin;
    BeginKeeps(d, k, ready, e);
    RunKeeps(Begin(d, k, ready, e), vs);
    RunKeeps(Run(Begin(d, k, ready, e), vs), more);
  }

  // ---------------------------------------------------------------- the record in memory

  /** The supervisor's record, updated by its handlers. `alive` and `spawns` are what the system knows. */
  class Supervisor {
    var stopRequested: bool
    var restartPending: bool
    var child: Maybe<nat>
    var debounceReady: bool
    var debounceRunning: bool
    var killReady: bool
    var killRunning: bool
    var watching: bool
    var exitCode: int
    var spawns: nat
    ghost var alive: set<nat>

    ghost function S(): State reads this {
      State(stopRequested, restartPending, child, debounceReady, debounceRunning, killReady, killRunning, watching,
            exitCode, alive, spawns)
    }

    method RequestShutdown(code: int, e: Env)
      modifies this
      ensures S() == Shutdown(old(S()), code, e)
    {
      if stopRequested { return; }
      stopRequested := true;
      restartPending := false;
      exitCode := code;
      watching := false;
      if debounceReady && debounceRunning { debounceRunning := false; }
      if child.Some? { StartKillTimer(e); }
    }

    method StartKillTimer(e: Env)
      modifies this
      ensures S() == StartKill(old(S()), e)
    {
      if !killReady || killRunning { return; }
      if e.killStarts { killRunning := true; }
    }

    method SpawnChild(e: Env) returns (ok: bool)
      modifies this
      ensures ok == e.spawned && S() == Spawn(old(S()), e)
    {
      if !e.spawned { return false; }
      child := Some(spawns);
      alive := alive + {spawns};
      spawns := spawns + 1;
      restartPending := false;
      ok := true;
    }

    method TrySpawnChild(e: Env)
      modifies this
      ensures S() == TrySpawn(old(S()), e)
    {
      if stopRequested { return; }
      if !e.refreshed {
        RequestShutdown(FAILURE, e);
        return;
      }
      watching := true;
      var ok := SpawnChild(e);
      if !ok { RequestShutdown(FAILURE, e); }
    }

    method RequestRestart(e: Env)
      modifies this
      ensures S() == RestartNow(old(S()), e)
    {
      if debounceReady { debounceRunning := false; }
      if stopRequested { return; }
      restartPending := true;
      if child.Some? {
        if !killRunning {
          if !e.signalled {
            RequestShutdown(FAILURE, e);
            return;
          }
          StartKillTimer(e);
        }
      } else {
        TrySpawnChild(e);
      }
    }

    method FileEvent(changed: bool, e: Env)
      modifies this
      ensures S() == OnFile(old(S()), changed, e)
    {
      hide RestartNow;
      if !watching || !changed || restartPending { return; }
      if !debounceReady {
        RequestRestart(e);
        return;
      }
      if !e.debounceStarts {
        RequestRestart(e);
        return;
      }
      debounceRunning := true;
    }

    method ChildExit(status: int, signal: nat, e: Env)
      requires child.Some?
      modifies this
      ensures S() == OnExit(old(S()), status, signal, e)
    {
      hide TrySpawn;
      alive := alive - {child.value};
      child := None;
      if killReady && killRunning { killRunning := false; }
      if stopRequested { return; }
      if restartPending {
        TrySpawnChild(e);
      } else if signal > 0 {
        exitCode := 128 + signal;
      } else {
        exitCode := status;
      }
    }

    method DebounceTimer(e: Env)
      modifies this
      ensures S() == OnDebounce(old(S()), e)
    {
      hide RestartNow;
      debounceRunning := false;
      RequestRestart(e);
    }

    /** Any event: the handlers are the steps of the model, and keep what every run keeps. */
    method Handle(v: Event, e: Env)
      requires Inv(S()) && Armed(S(), v)
      modifies this
      ensures S() == Step(old(S()), v, e) && Inv(S())
    {
      hide Inv, OnFile, OnExit, OnDebounce, Shutdown;
      StepKeeps(S(), v, e);
      match v {
        case File(changed) => FileEvent(changed, e);
        case DebounceFires => DebounceTimer(e);
        case KillFires => killRunning := false;
        case ChildExits(status, signal) => ChildExit(status, signal, e);
        case Signalled(signal) => RequestShutdown(128 + signal, e);
      }
    }
  }
}
