/**
 * utils/interfaces/_core.py: threads that ingest, and one thread that waits for an item. A critical section
 * under `_lock` is one step; so is each read, call or set outside of it. One waiter, pure predicates.
 */
module WaitProtocol {
  import opened Interfaces
  import opened Options
  import opened Sorting

  /** A feeding thread: at rest, or past its critical section with the item it appended. */
  datatype Feeder =
    | Resting
    | Appended(item: Data)                    // about to read `_wait_for_function`
    | Evaluating(item: Data, read: Predicate) // about to call what it read
    | Setting(item: Data)                     // about to set the event

  /** The waiting thread; `f` is what it waits for. */
  datatype Waiter = Away | Blocked(f: Predicate) | Woken(f: Predicate) | TimedOut(f: Predicate)

  datatype State = State(
    store: Store, installed: Option<Predicate>, event: bool, feeders: map<nat, Feeder>, waiter: Waiter)

  datatype Event =
    | IngestFile(t: nat, path: string, file: File)
    | OnMessage(t: nat, data: Data)
    | ReadFunction(t: nat)
    | Evaluate(t: nat)
    | SetEvent(t: nat)
    | WaitFor(f: Predicate)
    | Wake
    | TimeOut
    | Return

  ghost predicate Enabled(s: State, e: Event) {
    match e
    case IngestFile(t, _, _) => t in s.feeders && s.feeders[t].Resting?
    case OnMessage(t, _) => t in s.feeders && s.feeders[t].Resting?
    case ReadFunction(t) => t in s.feeders && s.feeders[t].Appended?
    case Evaluate(t) => t in s.feeders && s.feeders[t].Evaluating?
    case SetEvent(t) => t in s.feeders && s.feeders[t].Setting?
    case WaitFor(_) => s.waiter.Away?
    case Wake => s.waiter.Blocked? && s.event
    case TimeOut => s.waiter.Blocked?
    case Return => s.waiter.Woken? || s.waiter.TimedOut?
  }

  ghost function Apply(s: State, e: Event): State
    requires Enabled(s, e)
  {
    match e
    case IngestFile(t, path, file) =>
      var (store, appended) := Ingest(s.store, path, file);
      s.(store := store, feeders := s.feeders[t := if appended.Some? then Appended(appended.value) else Resting])
    case OnMessage(t, d) =>
      s.(store := Receive(s.store, d), feeders := s.feeders[t := Appended(d)])
    case ReadFunction(t) =>
      s.(feeders := s.feeders[t :=
        if s.installed.Some? then Evaluating(s.feeders[t].item, s.installed.value) else Resting])
    case Evaluate(t) =>
      s.(feeders := s.feeders[t :=
        if s.feeders[t].read(s.feeders[t].item) then Setting(s.feeders[t].item) else Resting])
    case SetEvent(t) => s.(event := true, feeders := s.feeders[t := Resting])
    case WaitFor(f) =>
      if SomeMatch(s.store.dataList, f) then s  // returns True from the scan
      else s.(event := false, installed := Some(f), waiter := Blocked(f))
    case Wake => s.(waiter := Woken(s.waiter.f))
    case TimeOut => s.(waiter := TimedOut(s.waiter.f))
    case Return => s.(installed := None, waiter := Away)
  }

  ghost predicate Init(s: State) {
    && s.store == Store([], {})
    && s.installed == None && !s.event && s.waiter == Away
    && forall t :: t in s.feeders ==> s.feeders[t] == Resting
  }

  ghost predicate IsPath(start: State, trace: seq<State>, events: seq<Event>) {
    && |trace| == |events| + 1
    && trace[0] == start
    && forall i :: 0 <= i < |events| ==> Enabled(trace[i], events[i]) && trace[i + 1] == Apply(trace[i], events[i])
  }

  ghost predicate IsRun(trace: seq<State>, events: seq<Event>) {
    trace != [] && Init(trace[0]) && IsPath(trace[0], trace, events)
  }

  /******* No lost wakeup *******/

  /** The thread `t` will set the event for an item that satisfies `f`, unless it runs after a change of predicate. */
  ghost predicate WillSet(s: State, t: nat, f: Predicate) {
    t in s.feeders &&
    match s.feeders[t]
    case Resting => false
    case Appended(d) => f(d)
    case Evaluating(d, g) => g == f && f(d)
    case Setting(d) => f(d)
  }

  ghost predicate ItemsAreStored(s: State) {
    forall t :: t in s.feeders && !s.feeders[t].Resting? ==> s.feeders[t].item in s.store.dataList
  }

  ghost predicate NotLost(s: State) {
    s.waiter.Blocked? && SomeMatch(s.store.dataList, s.waiter.f) ==> s.event || exists t :: WillSet(s, t, s.waiter.f)
  }

  ghost predicate Inv(s: State) {
    && (s.installed == if s.waiter.Away? then None else Some(s.waiter.f))
    && ItemsAreStored(s)
    && NotLost(s)
  }

  lemma ReceiveKeeps(s: Store, d: Data)
    ensures forall x :: x in Receive(s, d).dataList <==> x in s.dataList || x == d
  {
    StableSortCorrect(s.dataList + [d], LogFilename);
    assert forall x :: x in Receive(s, d).dataList <==> x in multiset(s.dataList + [d]);
  }

  lemma MatchIn(list: seq<Data>, f: Predicate)
    ensures SomeMatch(list, f) <==> exists d :: d in list && f(d)
  {}

  /** A new item: the thread that appended it is the one that will set the event. */
  lemma AppendStep(s: State, t: nat, d: Data, s': State)
    requires Inv(s) && t in s.feeders
    requires forall x :: x in s'.store.dataList <==> x in s.store.dataList || x == d
    requires s' == s.(store := s'.store, feeders := s.feeders[t := Appended(d)]) && s.feeders[t].Resting?
    ensures Inv(s')
  {
    if s'.waiter.Blocked? && SomeMatch(s'.store.dataList, s'.waiter.f) && !s'.event {
      var f := s.waiter.f;
      if f(d) {
        assert WillSet(s', t, f);
      } else {
        var i :| 0 <= i < |s'.store.dataList| && f(s'.store.dataList[i]);
        assert s'.store.dataList[i] in s.store.dataList;
        MatchIn(s.store.dataList, f);
        var u :| WillSet(s, u, f);
        assert WillSet(s', u, f);
      }
    }
  }

  /** A feeding thread moves on: whoever was going to set the event still is, or has. */
  lemma FeederStep(s: State, e: Event)
    requires Inv(s) && Enabled(s, e) && (e.ReadFunction? || e.Evaluate? || e.SetEvent?)
    ensures Inv(Apply(s, e))
  {
    var s' := Apply(s, e);
    if s'.waiter.Blocked? && SomeMatch(s'.store.dataList, s'.waiter.f) && !s'.event {
      var u :| WillSet(s, u, s.waiter.f);
      assert WillSet(s', u, s'.waiter.f);
    }
  }

  lemma StepInv(s: State, e: Event)
    requires Inv(s) && Enabled(s, e)
    ensures Inv(Apply(s, e))
  {
    var s' := Apply(s, e);
    match e
    case IngestFile(t, path, file) =>
      if Ingest(s.store, path, file).1.Some? {
        ReceiveKeeps(s.store, file.data);
        AppendStep(s, t, file.data, s');
      } else {
        assert s'.feeders == s.feeders;
        assert s' == s;
      }
    case OnMessage(t, d) =>
      ReceiveKeeps(s.store, d);
      AppendStep(s, t, d, s');
    case ReadFunction(_) => FeederStep(s, e);
    case Evaluate(_) => FeederStep(s, e);
    case SetEvent(_) => FeederStep(s, e);
    case WaitFor(_) =>
    case Wake =>
    case TimeOut =>
    case Return =>
  }

  lemma {:induction false} RunInv(trace: seq<State>, events: seq<Event>, i: nat)
    requires IsRun(trace, events) && i < |trace|
    ensures Inv(trace[i])
  {
    if i > 0 {
      RunInv(trace, events, i - 1);
      StepInv(trace[i - 1], events[i - 1]);
    }
  }

  /**
   * No lost wakeup: while the waiter is blocked on `f` and the list has an item satisfying `f`, the event
   * is set, or a thread is bound to set it.
   */
  lemma NoLostWakeup(trace: seq<State>, events: seq<Event>, i: nat)
    requires IsRun(trace, events) && i < |trace|
    requires trace[i].waiter.Blocked? && SomeMatch(trace[i].store.dataList, trace[i].waiter.f)
    ensures trace[i].event || exists t :: WillSet(trace[i], t, trace[i].waiter.f)
  {
    RunInv(trace, events, i);
  }

  /** Steps such a thread has ahead of setting the event. */
  function Ahead(p: Feeder): nat {
    match p
    case Resting => 0
    case Appended(_) => 3
    case Evaluating(_, _) => 2
    case Setting(_) => 1
  }

  function NextOf(p: Feeder, t: nat): Event
    requires !p.Resting?
  {
    match p
    case Appended(_) => ReadFunction(t)
    case Evaluating(_, _) => Evaluate(t)
    case Setting(_) => SetEvent(t)
  }

  /** A thread bound to set the event is never blocked, and gets there in three steps of its own. */
  lemma BoundThreadDelivers(s: State, t: nat)
    requires Inv(s) && s.waiter.Blocked? && WillSet(s, t, s.waiter.f)
    ensures Enabled(s, NextOf(s.feeders[t], t))
    ensures Delivering(s, Apply(s, NextOf(s.feeders[t], t)), t)
  {}

  ghost predicate Delivering(s: State, s': State, t: nat)
    requires s.waiter.Blocked? && WillSet(s, t, s.waiter.f)
  {
    && s'.waiter == s.waiter
    && (s'.event || (WillSet(s', t, s.waiter.f) && Ahead(s'.feeders[t]) < Ahead(s.feeders[t])))
  }

  /** Nothing another thread does, short of the waiter leaving, takes that away. */
  lemma OthersDoNotInterfere(s: State, t: nat, e: Event)
    requires Inv(s) && s.waiter.Blocked? && WillSet(s, t, s.waiter.f)
    requires Enabled(s, e) && !e.Wake? && !e.TimeOut? && e != NextOf(s.feeders[t], t)
    ensures var s' := Apply(s, e);
      && s'.waiter == s.waiter
      && t in s'.feeders && s'.feeders[t] == s.feeders[t] && WillSet(s', t, s.waiter.f)
      && (s.event ==> s'.event)
  {}

  /******* Is a blocking True the truth? *******/

  /** A thread read an older predicate, which its item satisfies, and has not set the event yet. */
  ghost predicate Stale(s: State, t: nat) {
    t in s.feeders &&
    match s.feeders[t]
    case Evaluating(d, g) => g(d)
    case Setting(_) => true
    case _ => false
  }

  /** Whatever happens between the installation and the wake-up, an item satisfying `f` was ingested by then. */
  ghost predicate TrueIsTrue(installed: State, f: Predicate) {
    forall trace: seq<State>, events: seq<Event> ::
      IsPath(installed, trace, events) && WithinOneWait(events) && trace[|events|].waiter.Woken? ==>
        SomeMatch(trace[|events|].store.dataList, f)
  }

  ghost predicate WithinOneWait(events: seq<Event>) {
    forall i :: 0 <= i < |events| ==> !events[i].Return?
  }

  ghost predicate Truthful(s: State, f: Predicate) {
    && !s.waiter.Away? && s.waiter.f == f
    && s.installed == Some(f)
    && ItemsAreStored(s)
    && (s.event || s.waiter.Woken? ==> SomeMatch(s.store.dataList, f))
    && forall t :: Stale(s, t) ==> f(s.feeders[t].item)
  }

  lemma StillMatches(list: seq<Data>, list': seq<Data>, f: Predicate)
    requires SomeMatch(list, f) && forall x :: x in list ==> x in list'
    ensures SomeMatch(list', f)
  {
    MatchIn(list, f);
    MatchIn(list', f);
  }

  lemma TruthfulStep(s: State, f: Predicate, e: Event)
    requires Truthful(s, f) && Enabled(s, e) && !e.Return?
    ensures Truthful(Apply(s, e), f)
  {
    var s' := Apply(s, e);
    match e
    case IngestFile(t, path, file) =>
      if file.Complete? {
        ReceiveKeeps(s.store, file.data);
      }
      if s.event || s.waiter.Woken? {
        StillMatches(s.store.dataList, s'.store.dataList, f);
      }
    case OnMessage(t, d) =>
      ReceiveKeeps(s.store, d);
      if s.event || s.waiter.Woken? {
        StillMatches(s.store.dataList, s'.store.dataList, f);
      }
    case SetEvent(t) =>
      assert Stale(s, t);
      MatchIn(s.store.dataList, f);
    case Evaluate(t) =>
      assert Stale(s', t) ==> Stale(s, t);
    case _ =>
  }

  lemma {:induction false} TruthfulPath(start: State, f: Predicate, trace: seq<State>, events: seq<Event>, i: nat)
    requires Truthful(start, f) && IsPath(start, trace, events) && WithinOneWait(events) && i < |trace|
    ensures Truthful(trace[i], f)
  {
    if i > 0 {
      TruthfulPath(start, f, trace, events, i - 1);
      TruthfulStep(trace[i - 1], f, events[i - 1]);
    }
  }

  lemma StaleThreadLies(s: State, f: Predicate, t: nat)
    requires Inv(s) && s.waiter.Away? && !SomeMatch(s.store.dataList, f) && Stale(s, t)
    ensures !TrueIsTrue(Apply(s, WaitFor(f)), f)
  {
    var s0 := Apply(s, WaitFor(f));
    if s.feeders[t].Setting? {
      var s1 := Apply(s0, SetEvent(t));
      var trace, events := [s0, s1, Apply(s1, Wake)], [SetEvent(t), Wake];
      assert IsPath(s0, trace, events) && WithinOneWait(events) && trace[|events|].waiter.Woken?;
    } else {
      var s1 := Apply(s0, Evaluate(t));
      var s2 := Apply(s1, SetEvent(t));
      var trace, events := [s0, s1, s2, Apply(s2, Wake)], [Evaluate(t), SetEvent(t), Wake];
      assert IsPath(s0, trace, events) && WithinOneWait(events) && trace[|events|].waiter.Woken?;
    }
  }

  /**
   * `True` from the blocking path can be relied upon if and only if, when the predicate was installed, no
   * thread was still acting on an older predicate that its item satisfies.
   */
  lemma BlockingTrueIsReliableIff(s: State, f: Predicate)
    requires Inv(s) && s.waiter.Away? && !SomeMatch(s.store.dataList, f)
    ensures TrueIsTrue(Apply(s, WaitFor(f)), f) <==> forall t :: !Stale(s, t)
  {
    var s0 := Apply(s, WaitFor(f));
    if forall t :: !Stale(s, t) {
      assert Truthful(s0, f) by {
        assert forall t :: Stale(s0, t) ==> Stale(s, t);
      }
      forall trace: seq<State>, events: seq<Event>
        | IsPath(s0, trace, events) && WithinOneWait(events) && trace[|events|].waiter.Woken?
        ensures SomeMatch(trace[|events|].store.dataList, f)
      {
        TruthfulPath(s0, f, trace, events, |events|);
      }
    } else {
      var t :| Stale(s, t);
      StaleThreadLies(s, f, t);
    }
  }

  /** Two paths, the second beginning where an event leads from the end of the first. */
  lemma JoinPaths(
    start: State, trace: seq<State>, events: seq<Event>, e: Event, trace': seq<State>, events': seq<Event>)
    requires IsPath(start, trace, events) && Enabled(trace[|events|], e)
    requires IsPath(Apply(trace[|events|], e), trace', events')
    ensures IsPath(start, trace + trace', events + [e] + events')
  {
    var n, joined, all := |events|, trace + trace', events + [e] + events';
    forall i | 0 <= i < |all| ensures Enabled(joined[i], all[i]) && joined[i + 1] == Apply(joined[i], all[i]) {
      if i < n {
        assert all[i] == events[i] && joined[i] == trace[i] && joined[i + 1] == trace[i + 1];
      } else if i == n {
        assert all[i] == e && joined[i] == trace[n] && joined[i + 1] == trace'[0];
      } else {
        assert all[i] == events'[i - n - 1] && joined[i] == trace'[i - n - 1] && joined[i + 1] == trace'[i - n];
      }
    }
  }

  /**
   * A wait for `g` times out while the feeder that appended `d` is about to call it: the waiter is away, nothing
   * matches `f`, and the feeder is stale.
   */
  lemma StaleIsReachable(f: Predicate, g: Predicate, d: Data) returns (trace: seq<State>, events: seq<Event>)
    requires g(d) && !f(d)
    ensures IsRun(trace, events)
    ensures var s := trace[|events|]; s.waiter.Away? && !SomeMatch(s.store.dataList, f) && Stale(s, 0)
  {
    var empty, store := Store([], {}), Receive(Store([], {}), d);
    var s0 := State(empty, None, false, map[0 := Resting], Away);
    var s1 := s0.(installed := Some(g), waiter := Blocked(g));
    var s2 := s1.(store := store, feeders := s1.feeders[0 := Appended(d)]);
    var s3 := s2.(feeders := s2.feeders[0 := Evaluating(d, g)]);
    var s4 := s3.(waiter := TimedOut(g));
    var s5 := s4.(installed := None, waiter := Away);
    trace, events := [s0], [];
    trace, events := Continue(trace, events, WaitFor(g), s1);
    trace, events := Continue(trace, events, OnMessage(0, d), s2);
    trace, events := Continue(trace, events, ReadFunction(0), s3);
    trace, events := Continue(trace, events, TimeOut, s4);
    trace, events := Continue(trace, events, Return, s5);
    ReceiveKeeps(empty, d);
    MatchIn(store.dataList, f);
  }

  lemma Continue(trace: seq<State>, events: seq<Event>, e: Event, s: State)
    returns (trace': seq<State>, events': seq<Event>)
    requires IsRun(trace, events) && Enabled(trace[|events|], e) && s == Apply(trace[|events|], e)
    ensures IsRun(trace', events') && trace'[|events'|] == s
  {
    assert IsPath(s, [s], []);
    JoinPaths(trace[0], trace, events, e, [s], []);
    trace', events' := trace + [s], events + [e] + [];
  }

  /** So a run exists in which the waiter for `f` is woken up, and no item satisfies `f`. */
  lemma TrueCanLie(f: Predicate, g: Predicate, d: Data)
    requires g(d) && !f(d)
    ensures exists trace: seq<State>, events: seq<Event> ::
              IsRun(trace, events) && trace[|events|].waiter == Woken(f) &&
              !SomeMatch(trace[|events|].store.dataList, f)
  {
    var trace, events := StaleIsReachable(f, g, d);
    var s := trace[|events|];
    RunInv(trace, events, |events|);
    StaleThreadLies(s, f, 0);
    var trace': seq<State>, events': seq<Event> :|
      IsPath(Apply(s, WaitFor(f)), trace', events') && WithinOneWait(events') &&
      trace'[|events'|].waiter.Woken? && !SomeMatch(trace'[|events'|].store.dataList, f);
    WaitsFor(Apply(s, WaitFor(f)), f, trace', events', |events'|);
    JoinPaths(trace[0], trace, events, WaitFor(f), trace', events');
    assert (trace + trace')[|events + [WaitFor(f)] + events'|] == trace'[|events'|];
    assert IsRun(trace + trace', events + [WaitFor(f)] + events');
  }

  lemma {:induction false} WaitsFor(start: State, f: Predicate, trace: seq<State>, events: seq<Event>, i: nat)
    requires IsPath(start, trace, events) && WithinOneWait(events) && i < |trace|
    requires !start.waiter.Away? && start.waiter.f == f
    ensures !trace[i].waiter.Away? && trace[i].waiter.f == f
  {
    if i > 0 {
      WaitsFor(start, f, trace, events, i - 1);
      assert trace[i] == Apply(trace[i - 1], events[i - 1]);
    }
  }
}
