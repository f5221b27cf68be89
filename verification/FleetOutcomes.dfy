/**
 * utils/_context/containers.py, over whole rounds: what a finished round of starts leaves behind when the outcome
 * of each start is fixed in advance, and from which fleets the transitive promise can be relied upon.
 */
module FleetOutcomes {
  import opened Containers
  import opened Graphs
  import opened Options
  import opened Sorting

  /** How the start of each container would go. */
  type Plan = seq<StartOutcome>

  ghost predicate FollowsPlan(events: seq<Event>, plan: Plan) {
    forall i :: 0 <= i < |events| && events[i].Starter? ==>
      events[i].c < |plan| && events[i].o == plan[events[i].c]
  }

  /** No event is enabled in the last state. */
  ghost predicate Finished(g: Graph, roots: seq<nat>, trace: seq<State>) {
    trace != [] && var s := trace[|trace| - 1]; Typed(g, roots, s) && forall e :: !Enabled(g, roots, s, e)
  }

  /******* Runs that follow a plan to their end *******/

  lemma RunExtends(g: Graph, roots: seq<nat>, trace: seq<State>, events: seq<Event>, e: Event)
    requires IsRun(g, roots, trace, events)
    requires Typed(g, roots, trace[|events|]) && Enabled(g, roots, trace[|events|], e)
    ensures IsRun(g, roots, trace + [Apply(g, roots, trace[|events|], e)], events + [e])
  {
    var n, trace', events' := |events|, trace + [Apply(g, roots, trace[|events|], e)], events + [e];
    assert trace'[0] == trace[0];
    forall i {:trigger events'[i]} | 0 <= i < |events'|
      ensures Follows(g, roots, trace'[i], events'[i], trace'[i + 1])
    {
      if i < n {
        assert events'[i] == events[i] && trace'[i] == trace[i] && trace'[i + 1] == trace[i + 1];
      } else {
        assert trace'[n] == trace[n] && trace'[n + 1] == Apply(g, roots, trace[n], e);
      }
    }
  }

  function Planned(e: Event, plan: Plan): Event {
    if e.Starter? && e.c < |plan| then Starter(e.c, plan[e.c]) else e
  }

  /** Every run that follows a plan can be carried on to its end. */
  lemma {:induction false} CarryOn(g: Graph, roots: seq<nat>, plan: Plan, trace: seq<State>, events: seq<Event>)
    returns (trace': seq<State>, events': seq<Event>)
    requires IsRun(g, roots, trace, events) && FollowsPlan(events, plan) && |plan| == |g|
    ensures IsRun(g, roots, trace', events') && FollowsPlan(events', plan)
    ensures trace'[0] == trace[0] && Finished(g, roots, trace')
    decreases Remaining(g, roots, trace, events)
  {
    var s := trace[|events|];
    RunInv(g, roots, trace, events, |events|);
    if any :| Enabled(g, roots, s, any) {
      var e := Planned(any, plan);
      assert Enabled(g, roots, s, e);
      RunExtends(g, roots, trace, events, e);
      StepConsumesWork(g, roots, s, e);
      trace', events' := CarryOn(g, roots, plan, trace + [Apply(g, roots, s, e)], events + [e]);
    } else {
      trace', events' := trace, events;
    }
  }

  ghost function Remaining(g: Graph, roots: seq<nat>, trace: seq<State>, events: seq<Event>): nat
    requires IsRun(g, roots, trace, events)
  {
    RunInv(g, roots, trace, events, |events|);
    TotalWorkNonNegative(g, trace[|events|].pc);
    Measure(g, roots, trace[|events|])
  }

  /******* What a planned round does to each container *******/

  ghost predicate AllSettled(g: Graph, s: State, x: nat)
    requires Sized(g, s) && WellFormed(g) && x < |g|
  {
    forall j :: 0 <= j < |g[x]| ==> Settled(s, g[x][j])
  }

  /** What a start makes of a container that was never started. */
  function FirstLife(o: StartOutcome): Life {
    match o
    case ReusesOld => Life(true, None)
    case RestartOfOldFails => Life(true, Some(false))
    case OldStillExists => Life(false, Some(false))
    case RunFails => Life(false, Some(false))
    case HealthcheckRaises => Life(true, Some(false))
    case HealthcheckFails => Life(true, Some(false))
    case WarmupFails => Life(true, Some(false))
    case Starts => Life(true, Some(true))
  }

  /** A container is as the round found it until its thread starts it; it is started if all dependencies are settled. */
  ghost predicate Progress(g: Graph, plan: Plan, before: State, s: State, x: nat)
    requires Sized(g, before) && Sized(g, s) && WellFormed(g) && |plan| == |g| && x < |g|
  {
    match s.pc[x]
    case Done =>
      if before.pc[x] == Done then s.life[x] == before.life[x]
      else
        && (forall j :: 0 <= j < |g[x]| ==> s.pc[g[x][j]] == Done)
        && s.life[x] == if AllSettled(g, s, x) then AfterStart(before.life[x], plan[x]) else before.life[x]
    case Warming => before.pc[x] == Idle && BeginStart(before.life[x], plan[x]) == (s.life[x], true)
    case _ => before.pc[x] == Idle && s.life[x] == before.life[x]
  }

  /** The thread of `x` terminates: it has found a dependency that is not settled, or comes out of `start`. */
  lemma LastStep(g: Graph, roots: seq<nat>, plan: Plan, before: State, s: State, x: nat)
    requires Inv(g, roots, s) && Sized(g, before) && |plan| == |g| && x < |g|
    requires Enabled(g, roots, s, Starter(x, plan[x])) && Progress(g, plan, before, s, x)
    requires Apply(g, roots, s, Starter(x, plan[x])).pc[x] == Done
    ensures Progress(g, plan, before, Apply(g, roots, s, Starter(x, plan[x])), x)
  {
    var s' := Apply(g, roots, s, Starter(x, plan[x]));
    forall j | 0 <= j < |g[x]|
      ensures s'.pc[g[x][j]] == Done && s'.life[g[x][j]] == s.life[g[x][j]]
    {
      assert g[x][j] in g[x];
    }
    if s.pc[x].Checking? {
      assert !Settled(s', g[x][s.pc[x].next]);
    } else {
      assert AllSettled(g, s', x);
    }
  }

  /** Once terminated, nothing that the verdict rests on changes. */
  lemma StaysDone(g: Graph, roots: seq<nat>, plan: Plan, before: State, s: State, e: Event, x: nat)
    requires Inv(g, roots, s) && Enabled(g, roots, s, e) && Sized(g, before) && |plan| == |g| && x < |g|
    requires Progress(g, plan, before, s, x) && s.pc[x] == Done
    ensures Sized(g, Apply(g, roots, s, e)) && Progress(g, plan, before, Apply(g, roots, s, e), x)
  {
    var s' := Apply(g, roots, s, e);
    StepKeeps(g, roots, s, e, x);
    if before.pc[x] != Done {
      forall j | 0 <= j < |g[x]|
        ensures s'.pc[g[x][j]] == Done && s'.life[g[x][j]] == s.life[g[x][j]]
      {
        StepKeeps(g, roots, s, e, g[x][j]);
      }
      assert AllSettled(g, s', x) <==> AllSettled(g, s, x);
    }
  }

  lemma ProgressStep(g: Graph, roots: seq<nat>, plan: Plan, before: State, s: State, e: Event, x: nat)
    requires Inv(g, roots, s) && Enabled(g, roots, s, e) && Sized(g, before) && |plan| == |g| && x < |g|
    requires e.Starter? ==> e.o == plan[e.c]
    requires Progress(g, plan, before, s, x)
    ensures Sized(g, Apply(g, roots, s, e)) && Progress(g, plan, before, Apply(g, roots, s, e), x)
  {
    if s.pc[x] == Done {
      StaysDone(g, roots, plan, before, s, e, x);
    } else if e == Starter(x, plan[x]) && Apply(g, roots, s, e).pc[x] == Done {
      LastStep(g, roots, plan, before, s, x);
    }
  }

  lemma {:induction false} ProgressOfRun(
    g: Graph, roots: seq<nat>, plan: Plan, trace: seq<State>, events: seq<Event>, i: nat, x: nat)
    requires IsRun(g, roots, trace, events) && FollowsPlan(events, plan) && i < |trace| && |plan| == |g| && x < |g|
    ensures Sized(g, trace[i]) && Progress(g, plan, trace[0], trace[i], x)
  {
    if i > 0 {
      ProgressOfRun(g, roots, plan, trace, events, i - 1, x);
      RunInv(g, roots, trace, events, i - 1);
      ProgressStep(g, roots, plan, trace[0], trace[i - 1], events[i - 1], x);
    }
  }

  /******* The health a round leaves, in a fleet started for the first time *******/

  ghost predicate Untouched(g: Graph, s: State) {
    Sized(g, s) && forall c :: 0 <= c < |g| ==> s.pc[c] == Idle && s.life[c] == Life(false, None)
  }

  ghost predicate Below(g: Graph, x: nat, y: nat) {
    y == x || DependsOn(g, x, y)
  }

  /** `x` and everything it depends on start, as far as the plan goes. */
  ghost predicate AllStart(g: Graph, plan: Plan, x: nat)
    requires |plan| == |g|
  {
    forall y: nat :: y < |g| && Below(g, x, y) ==> plan[y].Starts?
  }

  lemma BelowDependency(g: Graph, x: nat, d: nat, y: nat)
    requires WellFormed(g) && x < |g| && d in g[x] && Below(g, d, y)
    ensures Below(g, x, y)
  {
    if y == d {
      var p: seq<nat> := [x, d];
      assert Walk(g, p);
    } else {
      var p: seq<nat> :| Walk(g, p) && |p| > 1 && p[0] == d && p[|p| - 1] == y;
      var q := [x] + p;
      assert Walk(g, q);
    }
  }

  lemma BelowSplits(g: Graph, x: nat, y: nat) returns (d: nat)
    requires WellFormed(g) && x < |g| && DependsOn(g, x, y)
    ensures d in g[x] && d < |g| && Below(g, d, y)
  {
    var p: seq<nat> :| Walk(g, p) && |p| > 1 && p[0] == x && p[|p| - 1] == y;
    d := p[1];
    assert p[1] in g[p[0]];
    if |p| > 2 {
      assert Walk(g, p[1..]);
    }
  }

  lemma AllStartUnfolds(g: Graph, plan: Plan, x: nat)
    requires WellFormed(g) && |plan| == |g| && x < |g|
    ensures AllStart(g, plan, x) <==>
            plan[x].Starts? && forall j :: 0 <= j < |g[x]| ==> AllStart(g, plan, g[x][j])
  {
    if AllStart(g, plan, x) {
      forall j, y: nat | 0 <= j < |g[x]| && y < |g| && Below(g, g[x][j], y) ensures plan[y].Starts? {
        BelowDependency(g, x, g[x][j], y);
      }
      assert Below(g, x, x);
    }
    if plan[x].Starts? && forall j :: 0 <= j < |g[x]| ==> AllStart(g, plan, g[x][j]) {
      forall y: nat | y < |g| && Below(g, x, y) ensures plan[y].Starts? {
        if y != x {
          var d := BelowSplits(g, x, y);
          var j :| 0 <= j < |g[x]| && g[x][j] == d;
          assert AllStart(g, plan, g[x][j]);
        }
      }
    }
  }

  /** `p` is a way down to a container whose thread has terminated; it is as healthy as the plan says. */
  lemma {:induction false} HealthOfDone(
    g: Graph, roots: seq<nat>, plan: Plan, trace: seq<State>, events: seq<Event>, p: seq<nat>)
    requires IsRun(g, roots, trace, events) && FollowsPlan(events, plan) && |plan| == |g|
    requires Untouched(g, trace[0]) && Sized(g, trace[|events|])
    requires Walk(g, p) && !CycleReachable(g, p[0]) && trace[|events|].pc[p[|p| - 1]] == Done
    ensures Settled(trace[|events|], p[|p| - 1]) <==> AllStart(g, plan, p[|p| - 1])
    decreases |g| - |p|
  {
    var s, x := trace[|events|], p[|p| - 1];
    WalkBound(g, p);
    ProgressOfRun(g, roots, plan, trace, events, |events|, x);
    forall j | 0 <= j < |g[x]| ensures Settled(s, g[x][j]) <==> AllStart(g, plan, g[x][j]) {
      var q := p + [g[x][j]];
      assert Walk(g, q);
      WalkBound(g, q);
      HealthOfDone(g, roots, plan, trace, events, q);
    }
    AllStartUnfolds(g, plan, x);
  }

  /** Along dependencies, from a thread that has terminated, every thread has. */
  lemma {:induction false} DoneAlong(
    g: Graph, roots: seq<nat>, plan: Plan, trace: seq<State>, events: seq<Event>, p: seq<nat>, i: nat)
    requires IsRun(g, roots, trace, events) && FollowsPlan(events, plan) && |plan| == |g|
    requires Untouched(g, trace[0]) && Sized(g, trace[|events|])
    requires Walk(g, p) && i < |p| && trace[|events|].pc[p[0]] == Done
    ensures trace[|events|].pc[p[i]] == Done
  {
    if i > 0 {
      DoneAlong(g, roots, plan, trace, events, p, i - 1);
      ProgressOfRun(g, roots, plan, trace, events, |events|, p[i - 1]);
      var from := p[i - 1];
      assert p[i] in g[from];
      var j: nat :| j < |g[from]| && g[from][j] == p[i];
    }
  }

  /**
   * A finished round of a fleet started for the first time, no root of which reaches a cycle, has terminated the
   * thread of every container below a root, and leaves it healthy if and only if it and all its transitive
   * dependencies start: whatever the interleaving.
   */
  lemma HealthIsPlanned(g: Graph, roots: seq<nat>, plan: Plan, trace: seq<State>, events: seq<Event>, k: nat, x: nat)
    requires IsRun(g, roots, trace, events) && FollowsPlan(events, plan) && |plan| == |g|
    requires Untouched(g, trace[0]) && Finished(g, roots, trace)
    requires forall i :: 0 <= i < |roots| ==> !CycleReachable(g, roots[i])
    requires k < |roots| && x < |g| && Below(g, roots[k], x)
    ensures var s := trace[|events|];
      && Sized(g, s) && s.pc[x] == Done
      && (s.life[x].healthy == Some(true) <==> AllStart(g, plan, x))
  {
    StuckMeansFinished(g, roots, trace, events);
    var p: seq<nat>;
    if x == roots[k] {
      p := [x];
    } else {
      p :| Walk(g, p) && |p| > 1 && p[0] == roots[k] && p[|p| - 1] == x;
    }
    assert Walk(g, p);
    DoneAlong(g, roots, plan, trace, events, p, |p| - 1);
    HealthOfDone(g, roots, plan, trace, events, p);
  }

  /** The whole verdict: never started, if a dependency is not healthy, and as its own outcome has it, if all are. */
  lemma LifeIsPlanned(g: Graph, roots: seq<nat>, plan: Plan, trace: seq<State>, events: seq<Event>, k: nat, x: nat)
    requires IsRun(g, roots, trace, events) && FollowsPlan(events, plan) && |plan| == |g|
    requires Untouched(g, trace[0]) && Finished(g, roots, trace)
    requires forall i :: 0 <= i < |roots| ==> !CycleReachable(g, roots[i])
    requires k < |roots| && x < |g| && Below(g, roots[k], x)
    ensures Sized(g, trace[|events|])
    ensures trace[|events|].life[x] ==
            if forall j :: 0 <= j < |g[x]| ==> AllStart(g, plan, g[x][j]) then FirstLife(plan[x]) else Life(false, None)
  {
    HealthIsPlanned(g, roots, plan, trace, events, k, x);
    ProgressOfRun(g, roots, plan, trace, events, |events|, x);
    forall j | 0 <= j < |g[x]| ensures Settled(trace[|events|], g[x][j]) <==> AllStart(g, plan, g[x][j]) {
      assert g[x][j] in g[x];
      BelowTransitive(g, roots[k], x, g[x][j]);
      HealthIsPlanned(g, roots, plan, trace, events, k, g[x][j]);
    }
  }

  lemma BelowTransitive(g: Graph, r: nat, x: nat, d: nat)
    requires WellFormed(g) && r < |g| && x < |g| && Below(g, r, x) && d in g[x]
    ensures Below(g, r, d)
  {
    var p: seq<nat> := [r];
    if x != r {
      p :| Walk(g, p) && |p| > 1 && p[0] == r && p[|p| - 1] == x;
    }
    var q := p + [d];
    assert Walk(g, q);
  }

  /******* From which fleets the transitive promise can be relied upon *******/

  /** Whatever is started, in whatever order and with whatever outcomes: what is settled has settled dependencies. */
  ghost predicate AlwaysClosed(g: Graph, s: State) {
    forall roots: seq<nat>, trace: seq<State>, events: seq<Event>, i: nat ::
      IsRun(g, roots, trace, events) && trace[0] == s && i < |trace| ==> SettledClosed(g, trace[i])
  }

  function AllFail(n: nat): Plan {
    seq(n, _ => RunFails)
  }

  /** A round started at `c` in which every container that is started fails. */
  lemma FailingRound(g: Graph, s: State, c: nat) returns (end: State)
    requires Init(g, [], s) && AlwaysClosed(g, s) && c < |g| && !CycleReachable(g, c)
    ensures Sized(g, end) && end.pc[c] == Done && SettledClosed(g, end)
    ensures forall x :: 0 <= x < |g| ==> Progress(g, AllFail(|g|), s, end, x) && Keeps(s, end, x)
  {
    var trace, events := CarryOn(g, [c], AllFail(|g|), [s], []);
    StuckMeansFinished(g, [c], trace, events);
    end := trace[|events|];
    assert [c][0] == c;
    forall x | 0 <= x < |g| ensures Sized(g, end) && Progress(g, AllFail(|g|), s, end, x) && Keeps(s, end, x) {
      ProgressOfRun(g, [c], AllFail(|g|), trace, events, |events|, x);
      RunKeeps(g, [c], trace, events, 0, |events|, x);
    }
  }

  lemma LinksAreNeeded(g: Graph, s: State, c: nat, j: nat)
    requires Init(g, [], s) && AlwaysClosed(g, s) && c < |g| && MarkedHealthy(g, s, c) && j < |g[c]|
    ensures Linked(s, c, g[c][j])
  {
    var d := g[c][j];
    if s.pc[c] == Done {
      assert IsRun(g, [], [s], []);
      assert SettledClosed(g, [s][0]);
      assert Settled(s, c);
    } else {
      var end := FailingRound(g, s, c);
      assert Progress(g, AllFail(|g|), s, end, c) && Progress(g, AllFail(|g|), s, end, d) && Keeps(s, end, d);
      if !AllSettled(g, end, c) {
        assert Settled(end, c);
        assert false;
      }
      assert Settled(end, d);
      if s.pc[d] != Done {
        assert AllSettled(g, end, d);
      }
    }
  }

  /** Between rounds, a link is something to be read off the two containers. */
  lemma LinkedBetweenRounds(g: Graph, s: State, c: nat, d: nat)
    requires Init(g, [], s) && c < |g| && d < |g|
    ensures Linked(s, c, d) <==>
            || Settled(s, d)
            || (s.pc[c] == Idle && s.pc[d] == Idle && s.life[d] == Life(true, Some(true)))
  {
  }

  /**
   * What is settled has settled dependencies in every state of every run of every round from a fleet, if and only
   * if its health is chained.
   */
  lemma AlwaysClosedIffChained(g: Graph, s: State)
    requires Init(g, [], s)
    ensures AlwaysClosed(g, s) <==> HealthChained(g, s)
  {
    if HealthChained(g, s) {
      forall roots: seq<nat>, trace: seq<State>, events: seq<Event>, i: nat
        | IsRun(g, roots, trace, events) && trace[0] == s && i < |trace|
        ensures SettledClosed(g, trace[i])
      {
        SettledStaysClosed(g, roots, trace, events, i);
      }
    }
    if AlwaysClosed(g, s) {
      forall c, j | 0 <= c < |g| && 0 <= j < |g[c]| && MarkedHealthy(g, s, c) ensures Linked(s, c, g[c][j]) {
        LinksAreNeeded(g, s, c, j);
      }
    }
  }

  /******* A container that starts too early *******/

  /** At event `i` of a run, `c` enters `start` although `d`, on which it depends, is not settled. */
  ghost predicate StartsTooEarly(
    g: Graph, roots: seq<nat>, trace: seq<State>, events: seq<Event>, i: nat, c: nat, d: nat)
  {
    && IsRun(g, roots, trace, events)
    && i < |events|
    && EntersStart(trace[i], trace[i + 1], c)
    && DependsOn(g, c, d)
    && d < |trace[i].pc| && d < |trace[i].life|
    && !Settled(trace[i], d)
  }

  /** A container that was started before the round is left alone by it. */
  lemma {:induction false} StartedStays(
    g: Graph, roots: seq<nat>, trace: seq<State>, events: seq<Event>, i: nat, x: nat)
    requires IsRun(g, roots, trace, events) && i < |trace| && x < |g| && Sized(g, trace[0])
    requires trace[0].life[x].container
    ensures Sized(g, trace[i]) && trace[i].life[x] == trace[0].life[x] && trace[i].pc[x] != Warming
  {
    if i > 0 {
      StartedStays(g, roots, trace, events, i - 1, x);
      assert trace[i] == Apply(g, roots, trace[i - 1], events[i - 1]);
    }
  }

  /** What changes a container, or is inside its `start`, has entered it. */
  lemma {:induction false} ChangedHasEntered(
    g: Graph, roots: seq<nat>, trace: seq<State>, events: seq<Event>, i: nat, x: nat) returns (entered: nat)
    requires IsRun(g, roots, trace, events) && i < |trace| && x < |g| && Sized(g, trace[0]) && Sized(g, trace[i])
    requires trace[i].life[x] != trace[0].life[x] || trace[i].pc[x].Starting? || trace[i].pc[x].Warming?
    ensures entered < i && EntersStart(trace[entered], trace[entered + 1], x)
  {
    var s := trace[i - 1];
    assert trace[i] == Apply(g, roots, s, events[i - 1]);
    if s.life[x] != trace[0].life[x] || s.pc[x].Starting? || s.pc[x].Warming? {
      entered := ChangedHasEntered(g, roots, trace, events, i - 1, x);
    } else {
      entered := i - 1;
    }
  }

  function AllGoWell(n: nat): Plan {
    seq(n, _ => Starts)
  }

  /**
   * A fleet without a chain, between rounds: every dependency of `x` was started, healthy, on its own, but one of
   * them depends on `d`, which was started and is not healthy. Then a round from `x` starts it.
   */
  lemma DependentStartsTooEarly(g: Graph, s: State, x: nat, c: nat, d: nat)
    returns (trace: seq<State>, events: seq<Event>, i: nat)
    requires Init(g, [x], s) && x < |g| && !CycleReachable(g, x) && s.pc[x] == Idle && !s.life[x].container
    requires forall e :: e in g[x] ==> s.life[e] == Life(true, Some(true))
    requires c in g[x] && d in g[c] && s.life[d].container && s.life[d].healthy != Some(true)
    ensures trace != [] && trace[0] == s && StartsTooEarly(g, [x], trace, events, i, x, d)
  {
    var plan := AllGoWell(|g|);
    trace, events := CarryOn(g, [x], plan, [s], []);
    StuckMeansFinished(g, [x], trace, events);
    var end := trace[|events|];
    assert [x][0] == x;
    ProgressOfRun(g, [x], plan, trace, events, |events|, x);
    forall j | 0 <= j < |g[x]| ensures Settled(end, g[x][j]) {
      assert g[x][j] in g[x];
      StartedStays(g, [x], trace, events, |events|, g[x][j]);
    }
    assert AllSettled(g, end, x);
    i := ChangedHasEntered(g, [x], trace, events, |events|, x);
    StartedStays(g, [x], trace, events, i, d);
    var p: seq<nat> := [x, c, d];
    assert Walk(g, p);
  }

  const CHAIN: Graph := [[], [0], [1]]

  /**
   * The first two containers of a chain were started directly, before any round, as for IPv6: the agent is healthy,
   * the backend it depends on is not. No thread has run.
   */
  const STARTED_DIRECTLY :=
    State([Idle, Idle, Idle], [Free, Free, Free],
          [Life(true, Some(false)), Life(true, Some(true)), Life(false, None)], Calling(0))

  lemma {:induction false} ChainWalk(p: seq<nat>, i: nat)
    requires Walk(CHAIN, p) && i < |p|
    ensures p[i] + i == p[0]
  {
    if i > 0 {
      ChainWalk(p, i - 1);
      assert p[i] in CHAIN[p[i - 1]];
    }
  }

  lemma NoCycleInChain(c: nat)
    ensures !CycleReachable(CHAIN, c)
  {
    forall p: seq<nat> | Walk(CHAIN, p) && p[0] == c ensures Distinct(p) {
      forall i | 0 <= i < |p| ensures p[i] + i == c {
        ChainWalk(p, i);
      }
    }
  }

  /** From there, the third container starts although the backend is not healthy; its health is not chained. */
  lemma StaleHealthBreaksTheChain()
    ensures Init(CHAIN, [2], STARTED_DIRECTLY) && !HealthChained(CHAIN, STARTED_DIRECTLY)
    ensures exists trace, events, i ::
              trace != [] && trace[0] == STARTED_DIRECTLY && StartsTooEarly(CHAIN, [2], trace, events, i, 2, 0)
  {
    var s := STARTED_DIRECTLY;
    NoCycleInChain(1);
    NoCycleInChain(2);
    assert MarkedHealthy(CHAIN, s, 1) && !Linked(s, 1, CHAIN[1][0]);
    var trace, events, i := DependentStartsTooEarly(CHAIN, s, 2, 1, 0);
  }

  /** With a healthy backend, the same fleet is safe. */
  lemma DirectStartsAreSafe()
    ensures var s := STARTED_DIRECTLY.(life := STARTED_DIRECTLY.life[0 := Life(true, Some(true))]);
      Init(CHAIN, [2], s) && AlwaysClosed(CHAIN, s)
  {
    var s := STARTED_DIRECTLY.(life := STARTED_DIRECTLY.life[0 := Life(true, Some(true))]);
    assert HealthChained(CHAIN, s);
    AlwaysClosedIffChained(CHAIN, s);
  }
}
