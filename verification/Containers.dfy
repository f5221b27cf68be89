/**
 * utils/_context/containers.py: the circular-dependency check, and the starter threads that start a
 * fleet of containers, dependencies first. Container `c` is a node of a graph; `g[c]` is its `depends_on`.
 */
module Containers {
  import opened Graphs
  import opened Options
  import opened Sorting

  /******* check_circular_dependencies *******/

  /** Continuing the path `seen` from `c` along dependencies can meet a container twice. */
  ghost predicate RepeatsAfter(g: Graph, c: nat, seen: seq<nat>) {
    exists p: seq<nat> :: Walk(g, p) && p[0] == c && !Distinct(seen + p)
  }

  lemma RepeatsThroughDependency(g: Graph, c: nat, seen: seq<nat>)
    requires WellFormed(g) && c < |g| && Distinct(seen + [c])
    ensures RepeatsAfter(g, c, seen) <==> exists j :: 0 <= j < |g[c]| && RepeatsAfter(g, g[c][j], seen + [c])
  {
    if RepeatsAfter(g, c, seen) {
      var p: seq<nat> :| Walk(g, p) && p[0] == c && !Distinct(seen + p);
      var q := p[1..];
      assert seen + p == (seen + [c]) + q;
      assert seen + [c] + [] == seen + [c];
      assert p[1] in g[p[0]];
      assert Walk(g, q);
    }
    if j :| 0 <= j < |g[c]| && RepeatsAfter(g, g[c][j], seen + [c]) {
      var q: seq<nat> :| Walk(g, q) && q[0] == g[c][j] && !Distinct(seen + [c] + q);
      assert seen + ([c] + q) == (seen + [c]) + q;
      assert Walk(g, [c] + q);
    }
  }

  /** Raises exactly when following dependencies from `c`, having come along `seen`, meets a container twice. */
  method CheckCircularDependencies(g: Graph, c: nat, seen: seq<nat>) returns (raised: bool)
    requires WellFormed(g) && c < |g|
    requires Distinct(seen) && forall i :: 0 <= i < |seen| ==> seen[i] < |g|
    ensures raised <==> RepeatsAfter(g, c, seen)
    decreases |g| - |seen|
  {
    if c in seen {
      var i :| 0 <= i < |seen| && seen[i] == c;
      assert (seen + [c])[i] == (seen + [c])[|seen|];
      assert Walk(g, [c]);
      return true;
    }
    var path := seen + [c];
    DistinctWalkBound(g, path);
    RepeatsThroughDependency(g, c, seen);
    for i := 0 to |g[c]|
      invariant forall j :: 0 <= j < i ==> !RepeatsAfter(g, g[c][j], path)
    {
      var deeper := CheckCircularDependencies(g, g[c][i], path);
      if deeper {
        return true;
      }
    }
    return false;
  }

  /** The call `async_start` makes: an exception if and only if a cycle is reachable. */
  method CheckFromStart(g: Graph, c: nat) returns (raised: bool)
    requires WellFormed(g) && c < |g|
    ensures raised <==> CycleReachable(g, c)
  {
    raised := CheckCircularDependencies(g, c, []);
    assert forall p: seq<nat> {:trigger Walk(g, p)} :: [] + p == p;
  }

  /******* start *******/

  /** What Docker, the health check and the warm-up answer; `WarmupFails` covers a failing final reload. */
  datatype StartOutcome =
    | ReusesOld | RestartOfOldFails | OldStillExists | RunFails
    | HealthcheckRaises | HealthcheckFails | WarmupFails | Starts

  datatype Life = Life(container: bool, healthy: Option<bool>)

  /** Up to the moment where `healthy` holds the verdict of the health check, and whether the warm-up follows. */
  function BeginStart(l: Life, o: StartOutcome): (Life, bool) {
    if l.container then (l, false)
    else match o
      case ReusesOld => (Life(true, l.healthy), false)
      case RestartOfOldFails => (Life(true, Some(false)), false)
      case OldStillExists => (Life(false, Some(false)), false)
      case RunFails => (Life(false, Some(false)), false)
      case HealthcheckRaises => (Life(true, Some(false)), false)
      case HealthcheckFails => (Life(true, Some(false)), false)
      case WarmupFails => (Life(true, Some(true)), true)
      case Starts => (Life(true, Some(true)), true)
  }

  function FinishStart(l: Life, o: StartOutcome): Life {
    if o.Starts? then l else l.(healthy := Some(false))
  }

  function AfterStart(l: Life, o: StartOutcome): Life {
    var (mid, warming) := BeginStart(l, o);
    if warming then FinishStart(mid, o) else mid
  }

  /** Where the starter thread of a container is; `Idle`: `_starting_thread` is None. */
  datatype Pc =
    | Idle
    | Spawning(next: nat)  // about to ask for the lock of dependency `next`
    | InLock(next: nat)    // holds that lock
    | Joining(next: nat)
    | Checking(next: nat)
    | Starting             // inside `start`
    | Warming              // inside `start`, `healthy` set, warm-up running
    | Done
  {
    predicate Active() {
      !Idle? && !Done?
    }
  }

  /** What `async_start_recursive` makes of the thread of a container. */
  function Spawned(p: Pc): Pc {
    if p.Idle? then Spawning(0) else p
  }

  /**
   * A warm-up follows exactly a health check that succeeds, and while it lasts the container is marked healthy, as it
   * stays if the warm-up succeeds; whoever looks at it before its thread has terminated sees a verdict that may change.
   */
  lemma WarmUpFollowsHealth(l: Life, o: StartOutcome)
    ensures BeginStart(l, o).1 <==> !l.container && (o == Starts || o == WarmupFails)
    ensures BeginStart(l, o).1 ==> BeginStart(l, o).0 == Life(true, Some(true))
    ensures BeginStart(l, o).1 ==> AfterStart(l, o) == Life(true, Some(o == Starts))
    ensures !BeginStart(l, o).1 ==> AfterStart(l, o) == BeginStart(l, o).0
  {
  }

  class TestedContainer {
    var container: bool
    var healthy: Option<bool>
    var startingThread: Pc

    constructor ()
      ensures View() == Life(false, None) && startingThread == Idle
    {
      container, healthy, startingThread := false, None, Idle;
    }

    ghost function View(): Life
      reads this
    {
      Life(container, healthy)
    }

    /** `start`, with the exception handler of `_start_with_dependencies` around it. */
    method Start(o: StartOutcome)
      modifies this`container, this`healthy
      ensures View() == AfterStart(old(View()), o)
      ensures old(container) ==> View() == old(View())
      ensures !old(container) && o.ReusesOld? ==> container && healthy == old(healthy)
      ensures !old(container) && !o.ReusesOld? ==> healthy == Some(o.Starts?)
      ensures container == (old(container) || !(o.OldStillExists? || o.RunFails?))
    {
      if container {
        return;
      }
      match o
      case ReusesOld =>
        container := true;
      case RestartOfOldFails =>
        container := true;
        healthy := Some(false);
      case OldStillExists =>
        healthy := Some(false);
      case RunFails =>
        healthy := Some(false);
      case HealthcheckRaises =>
        container := true;
        healthy := Some(false);
      case HealthcheckFails =>
        container := true;
        healthy := Some(false);
      case WarmupFails =>
        container := true;
        healthy := Some(true);
        healthy := Some(false);
      case Starts =>
        container := true;
        healthy := Some(true);
    }

    /** Under the starting lock: a thread is created, at its first program point, only when there is none. */
    method AsyncStartRecursive() returns (spawned: bool)
      modifies this`startingThread
      ensures startingThread == Spawned(old(startingThread)) && startingThread != Idle
      ensures spawned <==> old(startingThread) == Idle
      ensures old(startingThread) != Idle ==> startingThread == old(startingThread)
    {
      spawned := startingThread.Idle?;
      if spawned {
        startingThread := Spawning(0);
      }
    }

    /** Forgets the thread; `healthy` only ever changes to false here. */
    method Stop(stillRunning: bool)
      modifies this`startingThread, this`healthy
      ensures startingThread == Idle
      ensures healthy == if container && !stillRunning then Some(false) else old(healthy)
    {
      startingThread := Idle;
      if container && !stillRunning {
        healthy := Some(false);
      }
    }
  }

  /******* The starter threads *******/

  /** The main thread: `async_start` on each root, then `join` on each. */
  datatype MainPc = Calling(next: nat) | Locked(next: nat) | MainJoining(next: nat) | Returned | Raised

  datatype Lock = Free | HeldBy(c: nat) | HeldByMain

  datatype State = State(pc: seq<Pc>, lock: seq<Lock>, life: seq<Life>, main: MainPc)

  datatype Event = Main | Starter(c: nat, o: StartOutcome)

  ghost predicate Sized(g: Graph, s: State) {
    |s.pc| == |s.lock| == |s.life| == |g|
  }

  ghost predicate Fleet(g: Graph, roots: seq<nat>) {
    WellFormed(g) && forall k :: 0 <= k < |roots| ==> roots[k] < |g|
  }

  /** A counter of a program point is a position in the list it walks along. */
  ghost predicate InRange(p: Pc, n: nat) {
    match p
    case Spawning(i) => i <= n
    case InLock(i) => i < n
    case Joining(i) => i <= n
    case Checking(i) => i <= n
    case _ => true
  }

  ghost predicate MainInRange(m: MainPc, n: nat) {
    match m
    case Calling(k) => k <= n
    case Locked(k) => k < n
    case MainJoining(k) => k <= n
    case _ => true
  }

  ghost predicate Typed(g: Graph, roots: seq<nat>, s: State) {
    && Fleet(g, roots)
    && Sized(g, s)
    && MainInRange(s.main, |roots|)
    && forall c :: 0 <= c < |g| ==> InRange(s.pc[c], |g[c]|)
  }

  ghost predicate Enabled(g: Graph, roots: seq<nat>, s: State, e: Event)
    requires Typed(g, roots, s)
  {
    match e
    case Main => (
      match s.main
      case Calling(k) => k < |roots| && !CycleReachable(g, roots[k]) ==> s.lock[roots[k]] == Free
      case Locked(_) => true
      case MainJoining(k) => k < |roots| ==> s.pc[roots[k]] == Done
      case _ => false)
    case Starter(c, _) =>
      c < |g| &&
      match s.pc[c]
      case Idle => false
      case Spawning(i) => i < |g[c]| ==> s.lock[g[c][i]] == Free
      case Joining(i) => i < |g[c]| ==> s.pc[g[c][i]] == Done
      case Done => false
      case _ => true
  }

  /** The critical section of `async_start_recursive` on container `d`, and the release of its lock. */
  function Spawn(s: State, d: nat): State
    requires d < |s.pc| && d < |s.lock|
  {
    s.(pc := s.pc[d := Spawned(s.pc[d])], lock := s.lock[d := Free])
  }

  ghost function Apply(g: Graph, roots: seq<nat>, s: State, e: Event): State
    requires Typed(g, roots, s) && Enabled(g, roots, s, e)
  {
    match e
    case Main => (
      match s.main
      case Calling(k) =>
        if k == |roots| then s.(main := MainJoining(0))
        else if CycleReachable(g, roots[k]) then s.(main := Raised)
        else s.(main := Locked(k), lock := s.lock[roots[k] := HeldByMain])
      case Locked(k) => Spawn(s, roots[k]).(main := Calling(k + 1))
      case MainJoining(k) => s.(main := if k == |roots| then Returned else MainJoining(k + 1))
      case _ => s)
    case Starter(c, o) =>
      var deps := g[c];
      match s.pc[c]
      case Spawning(i) =>
        if i == |deps| then s.(pc := s.pc[c := Joining(0)])
        else s.(pc := s.pc[c := InLock(i)], lock := s.lock[deps[i] := HeldBy(c)])
      case InLock(i) =>
        var spawned := Spawn(s, deps[i]);
        spawned.(pc := spawned.pc[c := Spawning(i + 1)])
      case Joining(i) => s.(pc := s.pc[c := if i == |deps| then Checking(0) else Joining(i + 1)])
      case Checking(i) =>
        if i == |deps| then s.(pc := s.pc[c := Starting])
        else s.(pc := s.pc[c := if s.life[deps[i]].healthy == Some(true) then Checking(i + 1) else Done])
      case Starting =>
        var (l, warming) := BeginStart(s.life[c], o);
        s.(life := s.life[c := l], pc := s.pc[c := if warming then Warming else Done])
      case Warming => s.(life := s.life[c := FinishStart(s.life[c], o)], pc := s.pc[c := Done])
      case _ => s
  }

  /**
   * A round of starts begins: no thread runs. Containers may have been started before, on their own or in
   * an earlier round: `healthy` and `_container` are arbitrary, and a thread that finished may be retained.
   */
  ghost predicate Init(g: Graph, roots: seq<nat>, s: State) {
    && Fleet(g, roots)
    && Sized(g, s)
    && s.main == Calling(0)
    && forall c :: 0 <= c < |g| ==> !s.pc[c].Active() && s.lock[c] == Free
  }

  ghost predicate Follows(g: Graph, roots: seq<nat>, s: State, e: Event, s': State) {
    Typed(g, roots, s) && Enabled(g, roots, s, e) && s' == Apply(g, roots, s, e)
  }

  ghost predicate IsRun(g: Graph, roots: seq<nat>, trace: seq<State>, events: seq<Event>) {
    && |trace| == |events| + 1
    && Init(g, roots, trace[0])
    && forall i {:trigger events[i]} :: 0 <= i < |events| ==> Follows(g, roots, trace[i], events[i], trace[i + 1])
  }

  /******* The invariant *******/

  function SpawnedUpTo(p: Pc, n: nat): nat {
    match p
    case Spawning(i) => i
    case InLock(i) => i
    case Idle => 0
    case Done => 0
    case _ => n
  }

  function JoinedUpTo(p: Pc, n: nat): nat {
    match p
    case Joining(i) => i
    case Checking(_) => n
    case Starting => n
    case Warming => n
    case _ => 0
  }

  function CheckedUpTo(p: Pc, n: nat): nat {
    match p
    case Checking(i) => i
    case Starting => n
    case Warming => n
    case _ => 0
  }

  ghost predicate Threads(g: Graph, s: State)
    requires WellFormed(g) && Sized(g, s)
  {
    && (forall c :: 0 <= c < |g| && s.pc[c].Active() ==> !CycleReachable(g, c) && c !in g[c])
    && (forall c :: 0 <= c < |g| ==> InRange(s.pc[c], |g[c]|))
    && (forall c, j :: 0 <= c < |g| && 0 <= j < |g[c]| && j < SpawnedUpTo(s.pc[c], |g[c]|) ==> s.pc[g[c][j]] != Idle)
    && (forall c, j :: 0 <= c < |g| && 0 <= j < |g[c]| && j < JoinedUpTo(s.pc[c], |g[c]|) ==> s.pc[g[c][j]] == Done)
    && (forall c, j :: 0 <= c < |g| && 0 <= j < |g[c]| && j < CheckedUpTo(s.pc[c], |g[c]|) ==>
          s.life[g[c][j]].healthy == Some(true))
  }

  ghost predicate Locks(g: Graph, roots: seq<nat>, s: State)
    requires Typed(g, roots, s)
  {
    && (forall c :: 0 <= c < |g| && s.pc[c].InLock? ==> s.lock[g[c][s.pc[c].next]] == HeldBy(c))
    && (s.main.Locked? ==> s.lock[roots[s.main.next]] == HeldByMain)
    && (forall d :: 0 <= d < |g| ==> match s.lock[d]
          case Free => true
          case HeldBy(c) => c < |g| && s.pc[c].InLock? && g[c][s.pc[c].next] == d
          case HeldByMain => s.main.Locked? && roots[s.main.next] == d)
  }

  ghost predicate MainThread(g: Graph, roots: seq<nat>, s: State)
    requires Typed(g, roots, s)
  {
    && (s.main.Locked? ==> !CycleReachable(g, roots[s.main.next]))
    && (s.main.Raised? ==> exists k :: 0 <= k < |roots| && CycleReachable(g, roots[k]))
    && (forall k :: 0 <= k < |roots| ==> match s.main
          case Calling(n) => k < n ==> s.pc[roots[k]] != Idle && !CycleReachable(g, roots[k])
          case Locked(n) => k < n ==> s.pc[roots[k]] != Idle && !CycleReachable(g, roots[k])
          case MainJoining(n) =>
            s.pc[roots[k]] != Idle && !CycleReachable(g, roots[k]) && (k < n ==> s.pc[roots[k]] == Done)
          case Returned => s.pc[roots[k]] == Done && !CycleReachable(g, roots[k])
          case Raised => true)
  }

  ghost predicate Inv(g: Graph, roots: seq<nat>, s: State) {
    && Typed(g, roots, s)
    && Threads(g, s)
    && Locks(g, roots, s)
    && MainThread(g, roots, s)
  }

  lemma InitInv(g: Graph, roots: seq<nat>, s: State)
    requires Init(g, roots, s)
    ensures Inv(g, roots, s)
  {}

  lemma SelfLoop(g: Graph, c: nat)
    requires WellFormed(g) && c < |g| && c in g[c]
    ensures CycleReachable(g, c)
  {
    var p := [c, c];
    assert p[0] == p[1];
    assert Walk(g, p);
  }

  lemma MainStepInv(g: Graph, roots: seq<nat>, s: State)
    requires Inv(g, roots, s) && Enabled(g, roots, s, Main)
    ensures Inv(g, roots, Apply(g, roots, s, Main))
  {
    match s.main
    case Calling(k) =>
      if k < |roots| && !CycleReachable(g, roots[k]) {
        MainAcquires(g, roots, s);
      }
    case Locked(k) => MainSpawns(g, roots, s);
    case _ =>
  }

  lemma MainAcquires(g: Graph, roots: seq<nat>, s: State)
    requires Inv(g, roots, s) && s.main.Calling? && s.main.next < |roots|
    requires s.lock[roots[s.main.next]] == Free && !CycleReachable(g, roots[s.main.next])
    ensures Inv(g, roots, s.(main := Locked(s.main.next), lock := s.lock[roots[s.main.next] := HeldByMain]))
  {
  }

  lemma MainSpawns(g: Graph, roots: seq<nat>, s: State)
    requires Inv(g, roots, s) && s.main.Locked?
    ensures Inv(g, roots, Spawn(s, roots[s.main.next]).(main := Calling(s.main.next + 1)))
  {
    var d := roots[s.main.next];
    var s' := Spawn(s, d).(main := Calling(s.main.next + 1));
    if d in g[d] {
      SelfLoop(g, d);
    }
    assert Threads(g, s');
    assert Locks(g, roots, s');
    assert MainThread(g, roots, s');
  }

  /** A step that moves one thread outside of any critical section, and nothing else. */
  lemma LocalMove(g: Graph, roots: seq<nat>, s: State, c: nat, p: Pc)
    requires Inv(g, roots, s) && c < |g| && s.pc[c].Active() && !s.pc[c].InLock?
    requires !p.InLock? && p != Idle && InRange(p, |g[c]|)
    requires SpawnedUpTo(p, |g[c]|) <= SpawnedUpTo(s.pc[c], |g[c]|)
    requires forall j :: 0 <= j < |g[c]| && j < JoinedUpTo(p, |g[c]|) ==> s.pc[g[c][j]] == Done
    requires forall j :: 0 <= j < |g[c]| && j < CheckedUpTo(p, |g[c]|) ==> s.life[g[c][j]].healthy == Some(true)
    ensures Inv(g, roots, s.(pc := s.pc[c := p]))
  {
    var s' := s.(pc := s.pc[c := p]);
    forall x, j | 0 <= x < |g| && 0 <= j < |g[x]| && j < JoinedUpTo(s'.pc[x], |g[x]|)
      ensures s'.pc[g[x][j]] == Done
    {
      assert s.pc[g[x][j]] == Done;
    }
    assert Threads(g, s');
    assert Locks(g, roots, s');
    assert MainThread(g, roots, s');
  }

  lemma AcquireMove(g: Graph, roots: seq<nat>, s: State, c: nat, o: StartOutcome)
    requires Inv(g, roots, s) && c < |g| && s.pc[c].Spawning? && s.pc[c].next < |g[c]|
    requires Enabled(g, roots, s, Starter(c, o))
    ensures Inv(g, roots, Apply(g, roots, s, Starter(c, o)))
  {
    var s' := Apply(g, roots, s, Starter(c, o));
    assert Threads(g, s');
    assert Locks(g, roots, s');
    assert MainThread(g, roots, s');
  }

  /** A new starter thread for `d`, if it has none: everything the invariant says of threads survives. */
  lemma SpawnKeepsThreads(g: Graph, s: State, d: nat)
    requires WellFormed(g) && Sized(g, s) && d < |g| && Threads(g, s) && !CycleReachable(g, d)
    ensures Threads(g, Spawn(s, d))
  {
    if d in g[d] {
      SelfLoop(g, d);
    }
    var s' := Spawn(s, d);
    forall x, j | 0 <= x < |g| && 0 <= j < |g[x]| && j < JoinedUpTo(s'.pc[x], |g[x]|)
      ensures s'.pc[g[x][j]] == Done
    {
      assert s.pc[g[x][j]] == Done;
    }
  }

  lemma ReleaseThreads(g: Graph, s: State, c: nat)
    requires WellFormed(g) && Sized(g, s) && c < |g| && Threads(g, s) && s.pc[c].InLock?
    requires s.pc[g[c][s.pc[c].next]] != Idle
    ensures Threads(g, s.(pc := s.pc[c := Spawning(s.pc[c].next + 1)]))
  {
    var s' := s.(pc := s.pc[c := Spawning(s.pc[c].next + 1)]);
    forall x, j | 0 <= x < |g| && 0 <= j < |g[x]| && j < JoinedUpTo(s'.pc[x], |g[x]|)
      ensures s'.pc[g[x][j]] == Done
    {
      assert s.pc[g[x][j]] == Done;
    }
  }

  lemma ReleaseMove(g: Graph, roots: seq<nat>, s: State, c: nat, o: StartOutcome)
    requires Inv(g, roots, s) && c < |g| && s.pc[c].InLock?
    ensures Inv(g, roots, Apply(g, roots, s, Starter(c, o)))
  {
    var s' := Apply(g, roots, s, Starter(c, o));
    var d := g[c][s.pc[c].next];
    if CycleReachable(g, d) {
      CycleBelow(g, c, d);
    }
    assert d in g[c];
    SpawnKeepsThreads(g, s, d);
    ReleaseThreads(g, Spawn(s, d), c);
    assert Locks(g, roots, s');
    assert MainThread(g, roots, s');
  }

  lemma StartMove(g: Graph, roots: seq<nat>, s: State, c: nat, l: Life, p: Pc)
    requires Inv(g, roots, s) && c < |g| && (s.pc[c].Starting? || s.pc[c].Warming?)
    requires p.Done? || p.Warming?
    ensures Inv(g, roots, s.(life := s.life[c := l], pc := s.pc[c := p]))
  {
    LocalMove(g, roots, s, c, p);
    var mid := s.(pc := s.pc[c := p]);
    var s' := s.(life := s.life[c := l], pc := s.pc[c := p]);
    forall x, j | 0 <= x < |g| && 0 <= j < |g[x]| && j < CheckedUpTo(s'.pc[x], |g[x]|)
      ensures s'.life[g[x][j]].healthy == Some(true)
    {
      assert j < JoinedUpTo(s.pc[x], |g[x]|);
      assert s.pc[g[x][j]] == Done;
    }
    assert Threads(g, s');
  }

  lemma StepInv(g: Graph, roots: seq<nat>, s: State, e: Event)
    requires Inv(g, roots, s) && Enabled(g, roots, s, e)
    ensures Inv(g, roots, Apply(g, roots, s, e))
  {
    match e
    case Main => MainStepInv(g, roots, s);
    case Starter(c, o) =>
      var s' := Apply(g, roots, s, e);
      match s.pc[c]
      case Spawning(i) =>
        if i < |g[c]| {
          AcquireMove(g, roots, s, c, o);
        } else {
          LocalMove(g, roots, s, c, Joining(0));
        }
      case InLock(_) => ReleaseMove(g, roots, s, c, o);
      case Joining(_) => LocalMove(g, roots, s, c, s'.pc[c]);
      case Checking(_) => LocalMove(g, roots, s, c, s'.pc[c]);
      case Starting => StartMove(g, roots, s, c, s'.life[c], s'.pc[c]);
      case Warming => StartMove(g, roots, s, c, s'.life[c], s'.pc[c]);
  }

  lemma {:induction false} RunInv(g: Graph, roots: seq<nat>, trace: seq<State>, events: seq<Event>, i: nat)
    requires IsRun(g, roots, trace, events) && i < |trace|
    ensures Inv(g, roots, trace[i])
  {
    if i == 0 {
      InitInv(g, roots, trace[0]);
    } else {
      RunInv(g, roots, trace, events, i - 1);
      StepInv(g, roots, trace[i - 1], events[i - 1]);
    }
  }

  /******* Safety *******/

  /** The starter thread of `d` has terminated, and left `d` healthy. */
  predicate Settled(s: State, d: nat)
    requires d < |s.pc| && d < |s.life|
  {
    s.pc[d] == Done && s.life[d].healthy == Some(true)
  }

  /** What is settled has settled dependencies. */
  ghost predicate SettledClosed(g: Graph, s: State) {
    && WellFormed(g)
    && Sized(g, s)
    && forall c, j :: 0 <= c < |g| && 0 <= j < |g[c]| && Settled(s, c) ==> Settled(s, g[c][j])
  }

  /** `d` is settled, or is sure to be before `c` can be: it was started on its own, and its thread will find it so. */
  predicate Linked(s: State, c: nat, d: nat)
    requires |s.pc| == |s.life| && c < |s.pc| && d < |s.pc|
  {
    Settled(s, d) || (s.pc[c] != Done && s.pc[d] != Warming && s.life[d] == Life(true, Some(true)))
  }

  /** Marked healthy, and not barred by a cycle from having a thread. */
  ghost predicate MarkedHealthy(g: Graph, s: State, c: nat)
    requires |s.pc| == |s.life| && c < |s.pc|
  {
    s.life[c].healthy == Some(true) && (s.pc[c] == Done || !CycleReachable(g, c))
  }

  /**
   * Every container marked healthy, unless it can never be started, is linked to its dependencies. Between
   * rounds this says: they are settled, or neither has a thread and the dependency was started, healthy, on its own.
   */
  ghost predicate HealthChained(g: Graph, s: State) {
    && WellFormed(g)
    && Sized(g, s)
    && forall c, j :: 0 <= c < |g| && 0 <= j < |g[c]| && MarkedHealthy(g, s, c) ==> Linked(s, c, g[c][j])
  }

  predicate EntersStart(s: State, s': State, c: nat) {
    c < |s.pc| && c < |s'.pc| && s.pc[c] != Starting && s'.pc[c] == Starting
  }

  predicate IsSpawned(s: State, s': State, c: nat) {
    c < |s.pc| && c < |s'.pc| && s.pc[c] == Idle && s'.pc[c] != Idle
  }

  /** Within a round a thread is never forgotten, and a terminated one leaves its container alone. */
  ghost predicate Keeps(s: State, s': State, d: nat) {
    && d < |s.pc| == |s'.pc| == |s.life| == |s'.life|
    && (s.pc[d] != Idle ==> s'.pc[d] != Idle)
    && (s.pc[d] == Done ==> s'.pc[d] == Done && s'.life[d] == s.life[d])
  }

  lemma StepKeeps(g: Graph, roots: seq<nat>, s: State, e: Event, d: nat)
    requires Inv(g, roots, s) && Enabled(g, roots, s, e) && d < |g|
    ensures Keeps(s, Apply(g, roots, s, e), d)
  {}

  lemma RunStepKeeps(g: Graph, roots: seq<nat>, trace: seq<State>, events: seq<Event>, i: nat, d: nat)
    requires IsRun(g, roots, trace, events) && i < |events| && d < |g|
    ensures Keeps(trace[i], trace[i + 1], d)
  {
    RunInv(g, roots, trace, events, i);
    StepKeeps(g, roots, trace[i], events[i], d);
  }

  lemma {:induction false} RunKeeps(
    g: Graph, roots: seq<nat>, trace: seq<State>, events: seq<Event>, i: nat, k: nat, d: nat)
    requires IsRun(g, roots, trace, events) && i <= k < |trace| && d < |g|
    ensures Keeps(trace[i], trace[k], d)
    decreases k
  {
    if i < k {
      RunKeeps(g, roots, trace, events, i, k - 1, d);
      RunStepKeeps(g, roots, trace, events, k - 1, d);
    } else {
      RunInv(g, roots, trace, events, i);
    }
  }

  lemma StepLinked(g: Graph, roots: seq<nat>, s: State, e: Event, c: nat, j: nat)
    requires Inv(g, roots, s) && Enabled(g, roots, s, e) && HealthChained(g, s)
    requires var s' := Apply(g, roots, s, e);
      |s'.pc| == |s'.life| == |g| && c < |g| && j < |g[c]| && MarkedHealthy(g, s', c)
    ensures Linked(Apply(g, roots, s, e), c, g[c][j])
  {
    var s', d := Apply(g, roots, s, e), g[c][j];
    assert d in g[c];
    StepKeeps(g, roots, s, e, d);
    if s.life[c].healthy != Some(true) {
      assert e == Starter(c, e.o) && s.pc[c] == Starting;
      assert s.pc[d] == Done && s.life[d].healthy == Some(true);
    } else if !Settled(s, d) {
      assert Linked(s, c, d);
    }
  }

  lemma {:induction false} RunHealthChained(g: Graph, roots: seq<nat>, trace: seq<State>, events: seq<Event>, i: nat)
    requires IsRun(g, roots, trace, events) && i < |trace| && HealthChained(g, trace[0])
    ensures HealthChained(g, trace[i])
  {
    if i > 0 {
      var s, s' := trace[i - 1], trace[i];
      RunHealthChained(g, roots, trace, events, i - 1);
      RunInv(g, roots, trace, events, i - 1);
      RunInv(g, roots, trace, events, i);
      forall c, j | 0 <= c < |g| && 0 <= j < |g[c]| && MarkedHealthy(g, s', c)
        ensures Linked(s', c, g[c][j])
      {
        StepLinked(g, roots, s, events[i - 1], c, j);
      }
    }
  }

  lemma {:induction false} SettledAlong(g: Graph, s: State, p: seq<nat>, i: nat)
    requires SettledClosed(g, s) && Walk(g, p) && 1 <= i < |p|
    requires Settled(s, p[1])
    ensures Settled(s, p[i])
  {
    if i > 1 {
      SettledAlong(g, s, p, i - 1);
      var j :| 0 <= j < |g[p[i - 1]]| && g[p[i - 1]][j] == p[i];
    }
  }

  lemma EnteringStep(g: Graph, roots: seq<nat>, s: State, e: Event, c: nat, d: nat)
    requires Inv(g, roots, s) && Enabled(g, roots, s, e) && EntersStart(s, Apply(g, roots, s, e), c)
    requires c < |g| && d in g[c]
    ensures Settled(s, d)
  {
    assert s.pc[c] == Checking(|g[c]|);
    var j :| 0 <= j < |g[c]| && g[c][j] == d;
  }

  /**
   * In every interleaving, a container enters `start` only when the starter thread of each of its
   * dependencies has terminated and left it healthy.
   */
  lemma StartsAfterDependencies(
    g: Graph, roots: seq<nat>, trace: seq<State>, events: seq<Event>, i: nat, c: nat, d: nat)
    requires IsRun(g, roots, trace, events) && i < |events| && EntersStart(trace[i], trace[i + 1], c)
    requires c < |g| && d in g[c]
    ensures d < |trace[i].pc| && d < |trace[i].life| && Settled(trace[i], d)
  {
    RunInv(g, roots, trace, events, i);
    EnteringStep(g, roots, trace[i], events[i], c, d);
  }

  /** From a fleet whose health is chained, every state a run reaches has its settled containers closed. */
  lemma SettledStaysClosed(g: Graph, roots: seq<nat>, trace: seq<State>, events: seq<Event>, i: nat)
    requires IsRun(g, roots, trace, events) && i < |trace| && HealthChained(g, trace[0])
    ensures SettledClosed(g, trace[i])
  {
    RunHealthChained(g, roots, trace, events, i);
  }

  /** The same for transitive dependencies, when health is chained as the round begins. */
  lemma StartsAfterTransitiveDependencies(
    g: Graph, roots: seq<nat>, trace: seq<State>, events: seq<Event>, i: nat, c: nat, d: nat)
    requires IsRun(g, roots, trace, events) && i < |events| && EntersStart(trace[i], trace[i + 1], c)
    requires c < |g| && DependsOn(g, c, d)
    requires HealthChained(g, trace[0])
    ensures d < |trace[i].pc| && d < |trace[i].life| && Settled(trace[i], d)
  {
    var p :| Walk(g, p) && |p| > 1 && p[0] == c && p[|p| - 1] == d;
    StartsAfterDependencies(g, roots, trace, events, i, c, p[1]);
    SettledStaysClosed(g, roots, trace, events, i);
    SettledAlong(g, trace[i], p, |p| - 1);
  }

  /** Between two stops, at most one starter thread is created for a container. */
  lemma SpawnedAtMostOnce(
    g: Graph, roots: seq<nat>, trace: seq<State>, events: seq<Event>, i: nat, k: nat, c: nat)
    requires IsRun(g, roots, trace, events) && i < |events| && k < |events|
    requires IsSpawned(trace[i], trace[i + 1], c) && IsSpawned(trace[k], trace[k + 1], c)
    ensures i == k
  {
    RunInv(g, roots, trace, events, i);
    RunInv(g, roots, trace, events, k);
    if i < k {
      RunKeeps(g, roots, trace, events, i + 1, k, c);
    } else if k < i {
      RunKeeps(g, roots, trace, events, k + 1, i, c);
    }
  }

  /** The health a dependent reads is final: its writer has terminated, and it never changes again. */
  lemma HealthReadIsFinal(
    g: Graph, roots: seq<nat>, trace: seq<State>, events: seq<Event>, i: nat, c: nat, k: nat)
    requires IsRun(g, roots, trace, events) && i < |events| && i <= k < |trace|
    requires events[i].Starter? && events[i].c == c && c < |g| && Sized(g, trace[i]) && Sized(g, trace[k])
    requires trace[i].pc[c].Checking? && trace[i].pc[c].next < |g[c]|
    ensures var d := g[c][trace[i].pc[c].next];
      d < |g| && trace[i].pc[d] == Done && trace[k].pc[d] == Done && trace[k].life[d] == trace[i].life[d]
  {
    RunInv(g, roots, trace, events, i);
    RunKeeps(g, roots, trace, events, i, k, g[c][trace[i].pc[c].next]);
  }

  /******* Liveness *******/

  /**
   * No deadlock, whatever the graph: a thread that has not finished can step, or waits, along
   * dependencies, for one that can. `async_start` refused the roots from which a cycle is reachable.
   */
  lemma {:induction false} FindEnabled(g: Graph, roots: seq<nat>, s: State, p: seq<nat>) returns (e: Event)
    requires Inv(g, roots, s) && Walk(g, p) && !CycleReachable(g, p[0])
    requires s.pc[p[|p| - 1]].Active()
    ensures Enabled(g, roots, s, e)
    decreases |g| - |p|
  {
    WalkBound(g, p);
    var c := p[|p| - 1];
    e := Starter(c, Starts);
    if s.pc[c].Spawning? && s.pc[c].next < |g[c]| {
      match s.lock[g[c][s.pc[c].next]]
      case Free =>
      case HeldBy(x) => e := Starter(x, Starts);
      case HeldByMain => e := Main;
    } else if s.pc[c].Joining? && s.pc[c].next < |g[c]| {
      var d := g[c][s.pc[c].next];
      if s.pc[d] != Done {
        assert Walk(g, p + [d]);
        WalkBound(g, p + [d]);
        e := FindEnabled(g, roots, s, p + [d]);
      }
    }
  }

  lemma NoDeadlock(g: Graph, roots: seq<nat>, s: State, c: nat)
    requires Inv(g, roots, s) && c < |g| && s.pc[c].Active()
    ensures exists e :: Enabled(g, roots, s, e)
  {
    assert Walk(g, [c]);
    var e := FindEnabled(g, roots, s, [c]);
  }

  /** Steps a starter thread still has ahead, `n` being the number of dependencies. */
  function Work(p: Pc, n: nat): int {
    match p
    case Idle => 4 * n + 6
    case Spawning(i) => 4 * n + 5 - 2 * i
    case InLock(i) => 4 * n + 4 - 2 * i
    case Joining(i) => 2 * n + 4 - i
    case Checking(i) => n + 3 - i
    case Starting => 2
    case Warming => 1
    case Done => 0
  }

  function MainWork(m: MainPc, n: nat): int {
    match m
    case Calling(k) => 3 * n + 2 - 2 * k
    case Locked(k) => 3 * n + 1 - 2 * k
    case MainJoining(k) => n + 1 - k
    case Returned => 0
    case Raised => 0
  }

  function TotalWork(g: Graph, pc: seq<Pc>): int
    requires |pc| == |g|
  {
    if g == [] then 0 else TotalWork(g[..|g| - 1], pc[..|g| - 1]) + Work(pc[|g| - 1], |g[|g| - 1]|)
  }

  function Measure(g: Graph, roots: seq<nat>, s: State): int
    requires |s.pc| == |g|
  {
    TotalWork(g, s.pc) + MainWork(s.main, |roots|)
  }

  lemma {:induction false} TotalWorkUpdate(g: Graph, pc: seq<Pc>, c: nat, p: Pc)
    requires |pc| == |g| && c < |g|
    ensures TotalWork(g, pc[c := p]) == TotalWork(g, pc) - Work(pc[c], |g[c]|) + Work(p, |g[c]|)
  {
    var n := |g| - 1;
    if c < n {
      TotalWorkUpdate(g[..n], pc[..n], c, p);
      assert pc[c := p][..n] == pc[..n][c := p];
    } else {
      assert pc[c := p][..n] == pc[..n];
    }
  }

  lemma {:induction false} TotalWorkNonNegative(g: Graph, pc: seq<Pc>)
    requires |pc| == |g| && forall c :: 0 <= c < |g| ==> InRange(pc[c], |g[c]|)
    ensures TotalWork(g, pc) >= 0
  {
    if g != [] {
      TotalWorkNonNegative(g[..|g| - 1], pc[..|g| - 1]);
    }
  }

  lemma StepConsumesWork(g: Graph, roots: seq<nat>, s: State, e: Event)
    requires Inv(g, roots, s) && Enabled(g, roots, s, e)
    ensures |Apply(g, roots, s, e).pc| == |g|
    ensures Measure(g, roots, Apply(g, roots, s, e)) < Measure(g, roots, s)
  {
    var s' := Apply(g, roots, s, e);
    match e
    case Main =>
      if s.main.Locked? {
        TotalWorkUpdate(g, s.pc, roots[s.main.next], Spawned(s.pc[roots[s.main.next]]));
      }
    case Starter(c, o) =>
      if s.pc[c].InLock? {
        var d := g[c][s.pc[c].next];
        var mid := Spawn(s, d);
        assert d in g[c];
        TotalWorkUpdate(g, s.pc, d, Spawned(s.pc[d]));
        TotalWorkUpdate(g, mid.pc, c, s'.pc[c]);
      } else {
        TotalWorkUpdate(g, s.pc, c, s'.pc[c]);
      }
  }

  /** Every run is finite: no longer than the work present when the round began. */
  lemma {:induction false} RunIsBounded(g: Graph, roots: seq<nat>, trace: seq<State>, events: seq<Event>)
    requires IsRun(g, roots, trace, events)
    ensures |trace[0].pc| == |g| && |events| <= Measure(g, roots, trace[0])
  {
    var n := |events|;
    RunConsumesWork(g, roots, trace, events, n);
    RunInv(g, roots, trace, events, n);
    TotalWorkNonNegative(g, trace[n].pc);
  }

  lemma {:induction false} RunConsumesWork(g: Graph, roots: seq<nat>, trace: seq<State>, events: seq<Event>, i: nat)
    requires IsRun(g, roots, trace, events) && i < |trace|
    ensures |trace[0].pc| == |trace[i].pc| == |g|
    ensures Measure(g, roots, trace[i]) <= Measure(g, roots, trace[0]) - i
  {
    if i > 0 {
      RunConsumesWork(g, roots, trace, events, i - 1);
      RunInv(g, roots, trace, events, i - 1);
      StepConsumesWork(g, roots, trace[i - 1], events[i - 1]);
    }
  }

  /**
   * A run that cannot be continued has finished: no starter thread is left, no lock is held, and the
   * main thread either has joined every root or was refused a root from which a cycle is reachable.
   */
  lemma StuckMeansFinished(g: Graph, roots: seq<nat>, trace: seq<State>, events: seq<Event>)
    requires IsRun(g, roots, trace, events)
    requires var s := trace[|events|]; Typed(g, roots, s) && forall e :: !Enabled(g, roots, s, e)
    ensures var s := trace[|events|];
      && (forall c :: 0 <= c < |g| ==> !s.pc[c].Active() && s.lock[c] == Free)
      && (s.main == Returned || s.main == Raised)
      && (s.main == Raised <==> exists k :: 0 <= k < |roots| && CycleReachable(g, roots[k]))
      && (s.main == Returned ==> forall k :: 0 <= k < |roots| ==> s.pc[roots[k]] == Done)
  {
    var s := trace[|events|];
    RunInv(g, roots, trace, events, |events|);
    forall c | 0 <= c < |g| ensures !s.pc[c].Active() {
      if s.pc[c].Active() {
        NoDeadlock(g, roots, s, c);
      }
    }
    assert !Enabled(g, roots, s, Main);
  }

  /**
   * The next round may begin there, after stopping any containers. Chained health stays chained if whoever
   * depends on a stopped container is stopped too, and no stopped one is marked healthy without having been started.
   */
  lemma NextRound(g: Graph, roots: seq<nat>, roots': seq<nat>, trace: seq<State>, events: seq<Event>, stopped: set<nat>)
    requires IsRun(g, roots, trace, events) && Fleet(g, roots')
    requires var s := trace[|events|]; Typed(g, roots, s) && forall e :: !Enabled(g, roots, s, e)
    ensures var s := trace[|events|];
      var s' := State(
        seq(|g|, c requires 0 <= c < |g| && |s.pc| == |g| => if c in stopped then Idle else s.pc[c]),
        s.lock, s.life, Calling(0));
      && Init(g, roots', s')
      && (&& HealthChained(g, trace[0])
          && (forall c, j :: 0 <= c < |g| && 0 <= j < |g[c]| && g[c][j] in stopped ==> c in stopped)
          && (forall c :: 0 <= c < |g| && c in stopped && s.life[c].healthy == Some(true) ==> s.life[c].container) ==>
            HealthChained(g, s'))
  {
    StuckMeansFinished(g, roots, trace, events);
    if HealthChained(g, trace[0]) {
      RunHealthChained(g, roots, trace, events, |events|);
    }
  }
}
