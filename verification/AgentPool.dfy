/**
 * utils/docker_fixtures/_test_agent_pool.py: a cache of test agents by environment. Each agent is a context
 * that is entered once, and has to be closed once, whatever raises on the way.
 */
module AgentPool {
  import opened Lexicographic
  import opened Options
  import opened Sorting

  /******* agent_env_key *******/

  /** The items of a dict, in the order in which it iterates. */
  type Items = seq<(string, string)>

  type Key = Items

  function NameOf(item: (string, string)): string {
    item.0
  }

  ghost predicate IsDict(items: Items) {
    forall i, j :: 0 <= i < j < |items| ==> items[i].0 != items[j].0
  }

  function AgentEnvKey(items: Items): Key {
    StableSort(items, NameOf)
  }

  ghost function AsMap(items: Items): map<string, string>
    requires IsDict(items)
  {
    map i | 0 <= i < |items| :: items[i].0 := items[i].1
  }

  lemma ItemsOf(items: Items, x: (string, string))
    requires IsDict(items)
    ensures x in items <==> x.0 in AsMap(items) && AsMap(items)[x.0] == x.1
  {
    if x.0 in AsMap(items) && AsMap(items)[x.0] == x.1 {
      var j :| 0 <= j < |items| && items[j].0 == x.0 && items[j].1 == x.1;
      assert items[j] == x;
    }
  }

  lemma SameMapSameKey(a: Items, b: Items)
    requires IsDict(a) && IsDict(b) && AsMap(a) == AsMap(b)
    ensures AgentEnvKey(a) == AgentEnvKey(b)
  {
    forall x ensures x in a <==> x in b {
      ItemsOf(a, x);
      ItemsOf(b, x);
    }
    DistinctListings(a, b);
    StableSortCorrect(a, NameOf);
    StableSortCorrect(b, NameOf);
    forall x, y | x in multiset(a) && y in multiset(a) && NameOf(x) == NameOf(y) ensures x == y {
      assert x in a && y in a;
    }
    SortedUnique(AgentEnvKey(a), AgentEnvKey(b), NameOf);
  }

  lemma SameItemsSameMap(a: Items, b: Items)
    requires IsDict(a) && IsDict(b) && forall x :: x in a ==> x in b
    ensures forall k :: k in AsMap(a) ==> k in AsMap(b) && AsMap(b)[k] == AsMap(a)[k]
  {
    forall k | k in AsMap(a) ensures k in AsMap(b) && AsMap(b)[k] == AsMap(a)[k] {
      var x := (k, AsMap(a)[k]);
      ItemsOf(a, x);
      ItemsOf(b, x);
    }
  }

  lemma SameKeySameMap(a: Items, b: Items)
    requires IsDict(a) && IsDict(b) && AgentEnvKey(a) == AgentEnvKey(b)
    ensures AsMap(a) == AsMap(b)
  {
    StableSortCorrect(a, NameOf);
    StableSortCorrect(b, NameOf);
    forall x ensures x in a <==> x in b {
      assert x in a <==> x in multiset(b);
    }
    SameItemsSameMap(a, b);
    SameItemsSameMap(b, a);
  }

  /** The key lists the items by name. */
  lemma KeyIsSortedItems(a: Items)
    ensures multiset(AgentEnvKey(a)) == multiset(a)
    ensures forall i, j :: 0 <= i < j < |AgentEnvKey(a)| ==> Le(AgentEnvKey(a)[i].0, AgentEnvKey(a)[j].0)
  {
    StableSortCorrect(a, NameOf);
    assert forall i, j :: 0 <= i < j < |AgentEnvKey(a)| ==> Le(NameOf(AgentEnvKey(a)[i]), NameOf(AgentEnvKey(a)[j]));
  }

  /** Two environments have the same key if and only if they are equal as dicts. */
  lemma AgentEnvKeyIdentifies(a: Items, b: Items)
    requires IsDict(a) && IsDict(b)
    ensures AgentEnvKey(a) == AgentEnvKey(b) <==> AsMap(a) == AsMap(b)
  {
    if AsMap(a) == AsMap(b) {
      SameMapSameKey(a, b);
    } else if AgentEnvKey(a) == AgentEnvKey(b) {
      SameKeySameMap(a, b);
    }
  }

  /******* The pool and what it does to agents *******/

  /** How a call ends: normally, with an Exception, or with a BaseException that is not one. */
  datatype Outcome = Fine | Raises | RaisesBase

  /** What happens to agent `a`; agents are numbered in the order in which their contexts are entered. */
  datatype Act = Enter(a: nat) | Close(a: nat) | Reset(a: nat, ok: bool) | Rebind(a: nat)

  datatype Pool = Pool(entries: map<Key, nat>, next: nat, log: seq<Act>)

  /** The outcomes of everything `acquire` may call, in the order in which it would. */
  datatype Choices = Choices(rebind: Outcome, reset: Outcome, close: Outcome, create: Outcome, firstReset: Outcome)

  function CloseEntry(p: Pool, key: Key): Pool {
    if key !in p.entries then p
    else p.(entries := p.entries - {key}, log := p.log + [Close(p.entries[key])])
  }

  function OpenEntry(p: Pool, key: Key, c: Choices): (Pool, Result<nat>) {
    if !c.create.Fine? then (p, Err)
    else
      var entered := p.(next := p.next + 1, log := p.log + [Enter(p.next), Reset(p.next, c.firstReset.Fine?)]);
      if c.firstReset.Fine? then (entered.(entries := entered.entries[key := p.next]), Ok(p.next))
      else (entered.(log := entered.log + [Close(p.next)]), Err)
  }

  function Rebound(p: Pool, a: nat): Pool {
    p.(log := p.log + [Rebind(a)])
  }

  function WasReset(p: Pool, a: nat, ok: bool): Pool {
    p.(log := p.log + [Reset(a, ok)])
  }

  function Acquire(p: Pool, key: Key, c: Choices): (Pool, Result<nat>) {
    if key !in p.entries then OpenEntry(p, key, c)
    else
      var a := p.entries[key];
      var rebound := Rebound(p, a);
      if !c.rebind.Fine? then (rebound, Err)
      else
        var reset := WasReset(rebound, a, c.reset.Fine?);
        match c.reset
        case Fine => (reset, Ok(a))
        case RaisesBase => (reset, Err)
        case Raises =>
          var closed := CloseEntry(reset, key);
          if c.close.RaisesBase? then (closed, Err) else OpenEntry(closed, key, c)
  }

  /** The loop of `__exit__`: only a BaseException gets out of it early. */
  function Exit(p: Pool, keys: seq<Key>, outcomes: seq<Outcome>): Pool
    requires |keys| == |outcomes|
    decreases keys
  {
    if keys == [] then p
    else if outcomes[0].RaisesBase? then CloseEntry(p, keys[0])
    else Exit(CloseEntry(p, keys[0]), keys[1..], outcomes[1..])
  }

  class WorkerAgentPool {
    var entries: map<Key, nat>
    ghost var next: nat
    ghost var log: seq<Act>

    constructor ()
      ensures View() == Pool(map[], 0, [])
    {
      entries, next, log := map[], 0, [];
    }

    ghost function View(): Pool
      reads this
    {
      Pool(entries, next, log)
    }

    /** Opens a context; the number identifies the agent it yields. */
    method EnterContext(agent: nat, create: Outcome) returns (r: Result<nat>)
      requires agent == next
      modifies this`next, this`log
      ensures if create.Fine? then
          r == Ok(agent) && View() == old(View()).(next := agent + 1, log := old(log) + [Enter(agent)])
        else
          r == Err && View() == old(View())
    {
      if !create.Fine? {
        return Err;
      }
      next, log := next + 1, log + [Enter(agent)];
      return Ok(agent);
    }

    method ResetAgent(api: nat, o: Outcome)
      modifies this`log
      ensures View() == old(View()).(log := old(log) + [Reset(api, o.Fine?)])
    {
      log := log + [Reset(api, o.Fine?)];
    }

    method CloseEntryOf(key: Key, o: Outcome) returns (escapes: bool)
      modifies this
      ensures View() == CloseEntry(old(View()), key)
      ensures escapes <==> key in old(entries) && o.RaisesBase?
    {
      escapes := false;
      if key in entries {
        var api := entries[key];
        entries := entries - {key};
        log := log + [Close(api)];
        escapes := o.RaisesBase?;
      }
    }

    method OpenEntryFor(key: Key, agent: nat, c: Choices) returns (r: Result<nat>)
      requires agent == next
      modifies this
      ensures View() == OpenEntry(old(View()), key, c).0 && r == OpenEntry(old(View()), key, c).1
    {
      r := EnterContext(agent, c.create);
      if r.Err? {
        return;
      }
      ResetAgent(agent, c.firstReset);
      assert log == old(log) + [Enter(agent), Reset(agent, c.firstReset.Fine?)];
      if !c.firstReset.Fine? {
        log := log + [Close(agent)];
        return Err;
      }
      entries := entries[key := agent];
    }

    method AcquireFor(env: Items, agent: nat, c: Choices) returns (r: Result<nat>)
      requires agent == next
      modifies this
      ensures View() == Acquire(old(View()), AgentEnvKey(env), c).0
      ensures r == Acquire(old(View()), AgentEnvKey(env), c).1
    {
      var key := AgentEnvKey(env);
      if key in entries {
        var api := entries[key];
        log := log + [Rebind(api)];
        if !c.rebind.Fine? {
          return Err;
        }
        ResetAgent(api, c.reset);
        match c.reset
        case Fine =>
          return Ok(api);
        case RaisesBase =>
          return Err;
        case Raises =>
          var escapes := CloseEntryOf(key, c.close);
          if escapes {
            return Err;
          }
      }
      r := OpenEntryFor(key, agent, c);
    }

    method ExitPool(keys: seq<Key>, outcomes: seq<Outcome>)
      requires |keys| == |outcomes| && Distinct(keys) && forall k :: k in keys <==> k in entries
      modifies this
      ensures View() == Exit(old(View()), keys, outcomes)
    {
      for i := 0 to |keys|
        invariant Exit(View(), keys[i..], outcomes[i..]) == Exit(old(View()), keys, outcomes)
        invariant forall j :: i <= j < |keys| ==> keys[j] in entries
      {
        var escapes := CloseEntryOf(keys[i], outcomes[i]);
        if escapes {
          return;
        }
      }
    }
  }

  /******* Every run *******/

  ghost predicate Cached(p: Pool, a: nat) {
    exists k :: k in p.entries && p.entries[k] == a
  }

  /** Entered once each; closed once each, except for the cached ones, which are open; one agent per environment. */
  ghost predicate Balanced(p: Pool) {
    && (forall k :: k in p.entries ==> p.entries[k] < p.next)
    && (forall k, l :: k in p.entries && l in p.entries && p.entries[k] == p.entries[l] ==> k == l)
    && (forall a: nat :: multiset(p.log)[Enter(a)] == if a < p.next then 1 else 0)
    && (forall a: nat :: multiset(p.log)[Close(a)] == if a < p.next && !Cached(p, a) then 1 else 0)
  }

  lemma CloseEntryBalanced(p: Pool, key: Key)
    requires Balanced(p)
    ensures Balanced(CloseEntry(p, key))
  {
    if key in p.entries {
      var r := CloseEntry(p, key);
      forall a: nat ensures Cached(r, a) <==> Cached(p, a) && a != p.entries[key] {
        if Cached(p, a) && a != p.entries[key] {
          var k :| k in p.entries && p.entries[k] == a;
          assert k in r.entries;
        }
      }
    }
  }

  lemma QuietBalanced(p: Pool, act: Act)
    requires Balanced(p) && (act.Reset? || act.Rebind?)
    ensures Balanced(p.(log := p.log + [act]))
  {
    var r := p.(log := p.log + [act]);
    assert forall a: nat :: Cached(r, a) <==> Cached(p, a);
  }

  /** A new agent, cached for an environment that had none. */
  lemma CachedBalanced(p: Pool, key: Key)
    requires Balanced(p) && key !in p.entries
    ensures Balanced(p.(entries := p.entries[key := p.next], next := p.next + 1,
                        log := p.log + [Enter(p.next), Reset(p.next, true)]))
  {
    var r := p.(entries := p.entries[key := p.next], next := p.next + 1,
      log := p.log + [Enter(p.next), Reset(p.next, true)]);
    assert !Cached(p, p.next);
    forall a: nat ensures Cached(r, a) <==> Cached(p, a) || a == p.next {
      if a == p.next {
        assert key in r.entries && r.entries[key] == a;
      } else if Cached(p, a) {
        var k :| k in p.entries && p.entries[k] == a;
        assert k in r.entries && r.entries[k] == a;
      }
    }
  }

  lemma OpenEntryBalanced(p: Pool, key: Key, c: Choices)
    requires Balanced(p) && key !in p.entries
    ensures Balanced(OpenEntry(p, key, c).0)
  {
    var r := OpenEntry(p, key, c).0;
    if c.create.Fine? {
      if c.firstReset.Fine? {
        CachedBalanced(p, key);
      } else {
        assert !Cached(p, p.next);
        assert forall a: nat :: Cached(r, a) <==> Cached(p, a);
      }
    }
  }

  lemma AcquireBalanced(p: Pool, key: Key, c: Choices)
    requires Balanced(p)
    ensures Balanced(Acquire(p, key, c).0)
  {
    if key !in p.entries {
      OpenEntryBalanced(p, key, c);
    } else {
      var a := p.entries[key];
      var rebound := Rebound(p, a);
      QuietBalanced(p, Rebind(a));
      if c.rebind.Fine? {
        var reset := WasReset(rebound, a, c.reset.Fine?);
        QuietBalanced(rebound, Reset(a, c.reset.Fine?));
        if c.reset.Raises? {
          var closed := CloseEntry(reset, key);
          CloseEntryBalanced(reset, key);
          if !c.close.RaisesBase? {
            OpenEntryBalanced(closed, key, c);
            assert Acquire(p, key, c) == OpenEntry(closed, key, c);
          } else {
            assert Acquire(p, key, c).0 == closed;
          }
        } else {
          assert Acquire(p, key, c).0 == reset;
        }
      } else {
        assert Acquire(p, key, c).0 == rebound;
      }
    }
  }

  function Run(p: Pool, calls: seq<(Items, Choices)>): Pool
    decreases calls
  {
    if calls == [] then p else Run(Acquire(p, AgentEnvKey(calls[0].0), calls[0].1).0, calls[1..])
  }

  lemma {:induction false} RunBalanced(p: Pool, calls: seq<(Items, Choices)>)
    requires Balanced(p)
    ensures Balanced(Run(p, calls))
    decreases calls
  {
    if calls != [] {
      var key := AgentEnvKey(calls[0].0);
      AcquireBalanced(p, key, calls[0].1);
      RunBalanced(Acquire(p, key, calls[0].1).0, calls[1..]);
    }
  }

  /** An agent that is handed out is the cached one of its environment, and its reset in that very call succeeded. */
  lemma AcquiredIsFresh(p: Pool, key: Key, c: Choices)
    ensures var (r, api) := Acquire(p, key, c);
      && (forall k :: k != key ==>
            (k in r.entries <==> k in p.entries) && (k in p.entries ==> r.entries[k] == p.entries[k]))
      && p.log <= r.log
      && (api.Ok? ==>
            && key in r.entries && r.entries[key] == api.value
            && |r.log| > |p.log| && r.log[|r.log| - 1] == Reset(api.value, true)
            && (key in p.entries && p.entries[key] != api.value ==> Close(p.entries[key]) in r.log[|p.log|..]))
  {
    var r := Acquire(p, key, c).0;
    if key in p.entries && c.rebind.Fine? && c.reset.Raises? {
      assert r.log[|p.log| + 2] == Close(p.entries[key]);
    }
  }

  predicate Opens(c: Choices) {
    c.create == Fine && c.firstReset == Fine
  }

  /**
   * A call is answered if and only if a new agent can be opened for an environment that has none, or the cached one
   * can be rebound, and either its reset succeeds, or it raises an Exception, the teardown does at most that, and a
   * new agent can be opened.
   */
  lemma AnsweredIff(p: Pool, key: Key, c: Choices)
    ensures Acquire(p, key, c).1.Ok? <==>
            if key !in p.entries then Opens(c)
            else c.rebind == Fine && (c.reset == Fine || (c.reset == Raises && c.close != RaisesBase && Opens(c)))
  {
  }

  /** A cached agent that can be rebound and reset is the answer, and nothing else happens. */
  lemma CachedIsReused(p: Pool, key: Key, c: Choices)
    requires key in p.entries && c.rebind == Fine && c.reset == Fine
    ensures var a := p.entries[key];
      Acquire(p, key, c) == (p.(log := p.log + [Rebind(a), Reset(a, true)]), Ok(a))
  {
    var a := p.entries[key];
    assert p.log + [Rebind(a)] + [Reset(a, true)] == p.log + [Rebind(a), Reset(a, true)];
  }

  /** What happens to agents on the way to a new one: the answer, if any, is the one whose context was entered last. */
  lemma WhatHappens(p: Pool, key: Key, c: Choices)
    ensures var (r, answer) := Acquire(p, key, c);
      var opening :=
        if c.create != Fine then []
        else if c.firstReset == Fine then [Enter(p.next), Reset(p.next, true)]
        else [Enter(p.next), Reset(p.next, false), Close(p.next)];
      var evicted :=
        if key !in p.entries then []
        else if c.rebind != Fine then [Rebind(p.entries[key])]
        else if c.reset == RaisesBase then [Rebind(p.entries[key]), Reset(p.entries[key], false)]
        else [Rebind(p.entries[key]), Reset(p.entries[key], false), Close(p.entries[key])];
      var opens := key !in p.entries || (c.rebind == Fine && c.reset == Raises && c.close != RaisesBase);
      !(key in p.entries && c.rebind == Fine && c.reset == Fine) ==>
        && r.log == p.log + evicted + (if opens then opening else [])
        && r.next == p.next + (if opens && c.create == Fine then 1 else 0)
        && answer == if opens && Opens(c) then Ok(p.next) else Err
  {
    var (r, answer) := Acquire(p, key, c);
    if key in p.entries {
      var a := p.entries[key];
      assert p.log + [Rebind(a)] + [Reset(a, false)] == p.log + [Rebind(a), Reset(a, false)];
      assert p.log + [Rebind(a), Reset(a, false)] + [Close(a)] == p.log + [Rebind(a), Reset(a, false), Close(a)];
    }
    var start := if key in p.entries
      then p.log + [Rebind(p.entries[key]), Reset(p.entries[key], false), Close(p.entries[key])] else p.log;
    assert start + [Enter(p.next), Reset(p.next, false)] + [Close(p.next)] ==
           start + [Enter(p.next), Reset(p.next, false), Close(p.next)];
  }

  /******* Leaving the pool *******/

  /** Every entry is gone, unless an exception got out before the last one. */
  ghost predicate Completes(outcomes: seq<Outcome>) {
    forall i :: 0 <= i < |outcomes| - 1 ==> !outcomes[i].RaisesBase?
  }

  lemma CompletesTail(outcomes: seq<Outcome>)
    requires |outcomes| > 1
    ensures Completes(outcomes) <==> !outcomes[0].RaisesBase? && Completes(outcomes[1..])
  {
    if !outcomes[0].RaisesBase? && Completes(outcomes[1..]) {
      forall i | 0 <= i < |outcomes| - 1 ensures !outcomes[i].RaisesBase? {
        if i > 0 {
          assert !outcomes[1..][i - 1].RaisesBase?;
        }
      }
    }
  }

  lemma KeysWithoutFirst(p: Pool, keys: seq<Key>)
    requires Distinct(keys) && keys != [] && forall k :: k in keys <==> k in p.entries
    ensures forall k :: k in keys[1..] <==> k in CloseEntry(p, keys[0]).entries
  {
    forall k ensures k in keys[1..] <==> k in keys && k != keys[0] {
      if k in keys[1..] {
        var i :| 0 <= i < |keys| - 1 && keys[1..][i] == k;
        assert keys[i + 1] == k;
      }
    }
  }

  lemma {:induction false} ExitBalanced(p: Pool, keys: seq<Key>, outcomes: seq<Outcome>)
    requires Balanced(p) && |keys| == |outcomes|
    ensures Balanced(Exit(p, keys, outcomes)) && Exit(p, keys, outcomes).next == p.next
    decreases keys
  {
    if keys != [] {
      CloseEntryBalanced(p, keys[0]);
      if !outcomes[0].RaisesBase? {
        ExitBalanced(CloseEntry(p, keys[0]), keys[1..], outcomes[1..]);
      }
    }
  }

  lemma {:induction false} ExitEmpties(p: Pool, keys: seq<Key>, outcomes: seq<Outcome>)
    requires |keys| == |outcomes|
    requires Distinct(keys) && forall k :: k in keys <==> k in p.entries
    ensures Exit(p, keys, outcomes).entries == map[] <==> Completes(outcomes)
    decreases keys
  {
    if keys == [] {
      assert forall k :: k !in p.entries;
      assert p.entries == map[];
    } else {
      var q := CloseEntry(p, keys[0]);
      KeysWithoutFirst(p, keys);
      if |keys| == 1 {
        assert forall k :: k !in q.entries;
        assert q.entries == map[];
      } else {
        assert keys[1..][0] in q.entries;
        CompletesTail(outcomes);
        ExitEmpties(q, keys[1..], outcomes[1..]);
      }
    }
  }

  /** The agents of the first `n` keys are closed, in order: all of them, or up to the first teardown that escapes. */
  lemma {:induction false} ExitClosesInOrder(p: Pool, keys: seq<Key>, outcomes: seq<Outcome>) returns (n: nat)
    requires |keys| == |outcomes| && Distinct(keys) && forall k :: k in keys ==> k in p.entries
    ensures n <= |keys| && forall i :: 0 <= i < n - 1 ==> outcomes[i] != RaisesBase
    ensures n < |keys| ==> n > 0 && outcomes[n - 1] == RaisesBase
    ensures p.log <= Exit(p, keys, outcomes).log && |Exit(p, keys, outcomes).log| == |p.log| + n
    ensures forall i :: 0 <= i < n ==> Exit(p, keys, outcomes).log[|p.log| + i] == Close(p.entries[keys[i]])
    decreases keys
  {
    if keys == [] {
      n := 0;
    } else {
      var q := CloseEntry(p, keys[0]);
      if outcomes[0].RaisesBase? {
        n := 1;
      } else {
        forall k | k in keys[1..] ensures k in q.entries && q.entries[k] == p.entries[k] {
          var i :| 0 <= i < |keys| - 1 && keys[1..][i] == k;
          assert keys[i + 1] == k;
        }
        n := ExitClosesInOrder(q, keys[1..], outcomes[1..]);
        ShiftClosings(p, q, keys, outcomes, Exit(p, keys, outcomes).log, n);
        n := n + 1;
      }
    }
  }

  lemma ShiftClosings(p: Pool, q: Pool, keys: seq<Key>, outcomes: seq<Outcome>, end: seq<Act>, m: nat)
    requires |keys| == |outcomes| > m && (forall k :: k in keys ==> k in p.entries) && outcomes[0] != RaisesBase
    requires q.log == p.log + [Close(p.entries[keys[0]])] && q.log <= end && |end| == |q.log| + m
    requires forall k :: k in keys[1..] ==> k in q.entries && q.entries[k] == p.entries[k]
    requires forall i :: 0 <= i < m - 1 ==> outcomes[1..][i] != RaisesBase
    requires m < |keys[1..]| ==> m > 0 && outcomes[1..][m - 1] == RaisesBase
    requires forall i :: 0 <= i < m ==> end[|q.log| + i] == Close(q.entries[keys[1..][i]])
    ensures forall i :: 0 <= i < m ==> outcomes[i] != RaisesBase
    ensures m + 1 < |keys| ==> outcomes[m] == RaisesBase
    ensures p.log <= end
    ensures forall i :: 0 <= i < m + 1 ==> end[|p.log| + i] == Close(p.entries[keys[i]])
  {
    forall i | 0 <= i < m ensures outcomes[i] != RaisesBase {
      if i > 0 {
        assert outcomes[i] == outcomes[1..][i - 1];
      }
    }
    forall i | 0 <= i < m + 1 ensures end[|p.log| + i] == Close(p.entries[keys[i]]) {
      if i == 0 {
        assert end[..|q.log|] == q.log;
        assert end[|p.log|] == q.log[|p.log|];
      } else {
        assert keys[i] == keys[1..][i - 1];
        assert end[|q.log| + (i - 1)] == Close(q.entries[keys[1..][i - 1]]);
      }
    }
    assert end[..|q.log|] == q.log && q.log[..|p.log|] == p.log;
  }

  /**
   * Every context entered during a session is closed exactly once by the end of it, if and only if no
   * teardown but the last lets a BaseException out of `__exit__`.
   */
  lemma SessionBalance(calls: seq<(Items, Choices)>, keys: seq<Key>, outcomes: seq<Outcome>)
    requires |keys| == |outcomes| && Distinct(keys)
    requires forall k :: k in keys <==> k in Run(Pool(map[], 0, []), calls).entries
    ensures var r := Exit(Run(Pool(map[], 0, []), calls), keys, outcomes);
      && (forall a: nat :: multiset(r.log)[Enter(a)] == (if a < r.next then 1 else 0) >= multiset(r.log)[Close(a)])
      && ((forall a: nat :: multiset(r.log)[Close(a)] == multiset(r.log)[Enter(a)]) <==>
            Completes(outcomes))
  {
    var p := Run(Pool(map[], 0, []), calls);
    RunBalanced(Pool(map[], 0, []), calls);
    ExitBalanced(p, keys, outcomes);
    ExitEmpties(p, keys, outcomes);
    var r := Exit(p, keys, outcomes);
    if r.entries != map[] {
      var k :| k in r.entries;
      assert Cached(r, r.entries[k]);
    }
  }
}
