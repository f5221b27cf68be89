/**
 * utils/_remote_config.py, `send_state`: the callback that folds the polls of a library into the states
 * of the configs being awaited, and says when the wait is over.
 */
module RemoteConfigAck {
  import opened Options

  datatype Json = Text(text: string) | Number(number: int)

  const UNKNOWN: Json := Number(0)
  const CONFIG_PATH := "/v0.7/config"

  /** One entry of `config_states`; `fields` are its members other than the id and the product. */
  datatype Report = Report(id: string, product: string, fields: map<string, Json>)

  /** A recorded request: its path, and the client state it carries, if any. */
  datatype Poll = Poll(path: string, targetsVersion: Option<int>, configStates: seq<Report>)

  datatype ConfigState = ConfigState(id: string, product: string, fields: map<string, Json>)

  datatype Awaited = Awaited(id: string, product: string)

  function Placeholder(a: Awaited): ConfigState {
    ConfigState(a.id, a.product,
      map["apply_state" := UNKNOWN, "apply_error" := Text("<No known response from the library>")])
  }

  predicate Acknowledged(c: ConfigState) {
    "apply_state" in c.fields && c.fields["apply_state"] != UNKNOWN
  }

  /** 0 is UNKNOWN. */
  lemma PlaceholderIs(a: Awaited)
    ensures Placeholder(a).id == a.id && Placeholder(a).product == a.product
    ensures Placeholder(a).fields.Keys == {"apply_state", "apply_error"}
    ensures Placeholder(a).fields["apply_state"] == Number(0)
    ensures Placeholder(a).fields["apply_error"] == Text("<No known response from the library>")
    ensures !Acknowledged(Placeholder(a))
  {
  }

  /******* The reference: what each config's own reports say *******/

  function Matching(reports: seq<Report>, a: Awaited): seq<Report> {
    if reports == [] then []
    else
      (if reports[0].id == a.id && reports[0].product == a.product then [reports[0]] else []) +
      Matching(reports[1..], a)
  }

  predicate Relevant(p: Poll, version: int) {
    p.path == CONFIG_PATH && p.targetsVersion == Some(version)
  }

  /** The reports about `a`, from the polls that carry the version waited for, in order. */
  function ReportsOn(polls: seq<Poll>, version: int, a: Awaited): seq<Report> {
    if polls == [] then []
    else
      ReportsOn(polls[..|polls| - 1], version, a) +
      (if Relevant(polls[|polls| - 1], version) then Matching(polls[|polls| - 1].configStates, a) else [])
  }

  function Overlay(c: ConfigState, reports: seq<Report>): ConfigState
    decreases reports
  {
    if reports == [] then c else Overlay(c.(fields := c.fields + reports[0].fields), reports[1..])
  }

  function StateOf(polls: seq<Poll>, version: int, a: Awaited): ConfigState {
    Overlay(Placeholder(a), ReportsOn(polls, version, a))
  }

  lemma {:induction false} OverlayConcat(c: ConfigState, a: seq<Report>, b: seq<Report>)
    ensures Overlay(c, a + b) == Overlay(Overlay(c, a), b)
    decreases a
  {
    if a == [] {
      assert a + b == b;
    } else {
      assert (a + b)[1..] == a[1..] + b;
      OverlayConcat(c.(fields := c.fields + a[0].fields), a[1..], b);
    }
  }

  lemma {:induction false} OverlayKeepsIdentity(c: ConfigState, reports: seq<Report>)
    ensures Overlay(c, reports).id == c.id && Overlay(c, reports).product == c.product
    ensures c.fields.Keys <= Overlay(c, reports).fields.Keys
    decreases reports
  {
    if reports != [] {
      OverlayKeepsIdentity(c.(fields := c.fields + reports[0].fields), reports[1..]);
    }
  }

  /** The last report that has the field. */
  ghost predicate LastToSay(reports: seq<Report>, k: nat, name: string) {
    k < |reports| && name in reports[k].fields && forall j :: k < j < |reports| ==> name !in reports[j].fields
  }

  /** Each field is the one of the last report that has it; a field no report has is as it was. */
  lemma {:induction false} OverlayIsLast(c: ConfigState, reports: seq<Report>, name: string)
    ensures var fields := Overlay(c, reports).fields;
      && (name in fields <==> name in c.fields || exists k :: 0 <= k < |reports| && name in reports[k].fields)
      && (forall k: nat :: LastToSay(reports, k, name) ==> fields[name] == reports[k].fields[name])
      && ((forall k :: 0 <= k < |reports| ==> name !in reports[k].fields) && name in c.fields ==>
            fields[name] == c.fields[name])
    decreases reports
  {
    if reports != [] {
      var next, rest := c.(fields := c.fields + reports[0].fields), reports[1..];
      OverlayIsLast(next, rest, name);
      assert forall k :: 0 <= k < |rest| ==> rest[k] == reports[k + 1];
      forall k: nat | LastToSay(reports, k, name)
        ensures Overlay(c, reports).fields[name] == reports[k].fields[name]
      {
        if k > 0 {
          assert LastToSay(rest, k - 1, name);
        }
      }
    }
  }

  /** The reports about `a` are those with its id and its product, in order. */
  lemma {:induction false} MatchingExtends(reports: seq<Report>, last: Report, a: Awaited)
    ensures Matching([], a) == []
    ensures Matching(reports + [last], a) ==
            Matching(reports, a) + if last.id == a.id && last.product == a.product then [last] else []
  {
    if reports == [] {
      assert [] + [last] == [last];
    } else {
      assert (reports + [last])[1..] == reports[1..] + [last];
      MatchingExtends(reports[1..], last, a);
    }
  }

  /** Only polls of the configuration endpoint that carry the version count. */
  lemma ReportsExtend(polls: seq<Poll>, data: Poll, version: int, a: Awaited)
    ensures ReportsOn([], version, a) == []
    ensures ReportsOn(polls + [data], version, a) ==
            ReportsOn(polls, version, a) +
            if data.path == "/v0.7/config" && data.targetsVersion == Some(version) then Matching(data.configStates, a)
            else []
  {
    assert (polls + [data])[..|polls|] == polls;
  }

  /**
   * A config is acknowledged if and only if some report about it, under the version, has a state, and the last one
   * that has a state says something other than 0.
   */
  lemma AcknowledgedIff(polls: seq<Poll>, version: int, a: Awaited)
    ensures var reports := ReportsOn(polls, version, a);
      Acknowledged(StateOf(polls, version, a)) <==>
        exists k: nat :: LastToSay(reports, k, "apply_state") && reports[k].fields["apply_state"] != Number(0)
  {
    var reports := ReportsOn(polls, version, a);
    OverlayIsLast(Placeholder(a), reports, "apply_state");
    if exists k :: 0 <= k < |reports| && "apply_state" in reports[k].fields {
      var k := LastSaid(reports, "apply_state");
    }
  }

  lemma {:induction false} LastSaid(reports: seq<Report>, name: string) returns (k: nat)
    requires exists k :: 0 <= k < |reports| && name in reports[k].fields
    ensures LastToSay(reports, k, name)
  {
    k := |reports| - 1;
    while name !in reports[k].fields
      invariant k < |reports| && forall j :: k < j < |reports| ==> name !in reports[j].fields
      decreases k
    {
      k := k - 1;
    }
  }

  /******* send_state *******/

  type Configs = map<string, ConfigState>

  datatype Setup = Setup(awaited: seq<Awaited>, version: int, stateVersion: int, waitForAcknowledgedStatus: bool) {
    ghost predicate DistinctIds() {
      forall i, j :: 0 <= i < j < |awaited| ==> awaited[i].id != awaited[j].id
    }
  }

  function Initial(awaited: seq<Awaited>): Configs {
    if awaited == [] then map[]
    else
      var last := awaited[|awaited| - 1];
      Initial(awaited[..|awaited| - 1])[last.id := Placeholder(last)]
  }

  function Update(configs: Configs, report: Report): Configs {
    if report.id in configs && configs[report.id].product == report.product then
      var c := configs[report.id];
      configs[report.id := c.(fields := c.fields + report.fields)]
    else configs
  }

  function UpdateAll(configs: Configs, reports: seq<Report>): Configs
    decreases reports
  {
    if reports == [] then configs else UpdateAll(Update(configs, reports[0]), reports[1..])
  }

  predicate AllAcknowledged(configs: Configs) {
    forall id :: id in configs ==> Acknowledged(configs[id])
  }

  /** What one poll does to the awaited configs, and whether it ends the wait. */
  function Fold(setup: Setup, configs: Configs, data: Poll): (Configs, bool) {
    if data.path != CONFIG_PATH then (configs, false)
    else if setup.awaited == [] then
      (configs, data.targetsVersion == Some(setup.stateVersion) && data.configStates == [])
    else if data.targetsVersion != Some(setup.version) then (configs, false)
    else
      var updated := UpdateAll(configs, data.configStates);
      (updated, setup.waitForAcknowledgedStatus ==> AllAcknowledged(updated))
  }

  function FoldAll(setup: Setup, polls: seq<Poll>): Configs {
    if polls == [] then Initial(setup.awaited)
    else Fold(setup, FoldAll(setup, polls[..|polls| - 1]), polls[|polls| - 1]).0
  }

  class PendingApply {
    const setup: Setup
    var configs: Configs
    var acknowledged: bool

    constructor (setup: Setup)
      ensures this.setup == setup && configs == FoldAll(setup, []) && !acknowledged
    {
      this.setup := setup;
      acknowledged := false;
      var placeholders: Configs := map[];
      for i := 0 to |setup.awaited|
        invariant placeholders == Initial(setup.awaited[..i])
      {
        assert setup.awaited[..i + 1][..i] == setup.awaited[..i];
        placeholders := placeholders[setup.awaited[i].id := Placeholder(setup.awaited[i])];
      }
      assert setup.awaited[..|setup.awaited|] == setup.awaited;
      configs := placeholders;
    }

    /** The callback `remote_config_applied`. */
    method RemoteConfigApplied(data: Poll) returns (applied: bool)
      modifies this`configs, this`acknowledged
      ensures (configs, applied) == Fold(setup, old(configs), data)
      ensures acknowledged == (old(acknowledged) || applied)
    {
      if data.path != CONFIG_PATH {
        return false;
      }
      if setup.awaited == [] {
        applied := data.targetsVersion == Some(setup.stateVersion) && data.configStates == [];
        acknowledged := acknowledged || applied;
        return;
      }
      if data.targetsVersion != Some(setup.version) {
        return false;
      }
      for i := 0 to |data.configStates|
        invariant UpdateAll(configs, data.configStates[i..]) == UpdateAll(old(configs), data.configStates)
        invariant acknowledged == old(acknowledged)
      {
        var report := data.configStates[i];
        if report.id in configs && configs[report.id].product == report.product {
          var c := configs[report.id];
          configs := configs[report.id := c.(fields := c.fields + report.fields)];
        }
      }
      if setup.waitForAcknowledgedStatus && !AllAcknowledged(configs) {
        return false;
      }
      acknowledged := true;
      return true;
    }
  }

  /******* The fold agrees with the reference *******/

  lemma {:induction false} InitialLookup(awaited: seq<Awaited>)
    requires forall i, j :: 0 <= i < j < |awaited| ==> awaited[i].id != awaited[j].id
    ensures forall id :: id in Initial(awaited) <==> exists i :: 0 <= i < |awaited| && awaited[i].id == id
    ensures forall i :: 0 <= i < |awaited| ==> Initial(awaited)[awaited[i].id] == Placeholder(awaited[i])
  {
    if awaited != [] {
      var init := awaited[..|awaited| - 1];
      InitialLookup(init);
      assert forall i :: 0 <= i < |init| ==> init[i] == awaited[i];
      assert forall id :: id in Initial(awaited) <==> id in Initial(init) || id == awaited[|awaited| - 1].id;
    }
  }

  lemma {:induction false} UpdateAllLookup(configs: Configs, reports: seq<Report>, a: Awaited)
    requires a.id in configs && configs[a.id].product == a.product
    ensures UpdateAll(configs, reports).Keys == configs.Keys
    ensures UpdateAll(configs, reports)[a.id] == Overlay(configs[a.id], Matching(reports, a))
    decreases reports
  {
    if reports != [] {
      var next := Update(configs, reports[0]);
      UpdateAllLookup(next, reports[1..], a);
      var hit := reports[0].id == a.id && reports[0].product == a.product;
      if hit {
        assert Matching(reports, a) == [reports[0]] + Matching(reports[1..], a);
      } else {
        assert Matching(reports, a) == Matching(reports[1..], a);
      }
    }
  }

  /** After any polls, the dictionary holds the awaited ids, each with the reports about it overlaid in order. */
  lemma {:induction false} StatesAreOverlays(setup: Setup, polls: seq<Poll>, i: nat)
    requires setup.DistinctIds() && i < |setup.awaited|
    ensures FoldAll(setup, polls).Keys == Initial(setup.awaited).Keys
    ensures setup.awaited[i].id in FoldAll(setup, polls)
    ensures FoldAll(setup, polls)[setup.awaited[i].id] == StateOf(polls, setup.version, setup.awaited[i])
  {
    var a := setup.awaited[i];
    InitialLookup(setup.awaited);
    if polls != [] {
      var before, data := polls[..|polls| - 1], polls[|polls| - 1];
      StatesAreOverlays(setup, before, i);
      var configs := FoldAll(setup, before);
      OverlayKeepsIdentity(Placeholder(a), ReportsOn(before, setup.version, a));
      UpdateAllLookup(configs, data.configStates, a);
      if Relevant(data, setup.version) {
        OverlayConcat(Placeholder(a), ReportsOn(before, setup.version, a), Matching(data.configStates, a));
      } else {
        assert ReportsOn(polls, setup.version, a) == ReportsOn(before, setup.version, a);
      }
    }
  }

  /**
   * A poll ends the wait if and only if it carries the version waited for and, when acknowledgement is
   * waited for, no awaited config is UNKNOWN any more; with nothing awaited, if and only if it reports the
   * global state version and no config.
   */
  lemma WaitEndsIff(setup: Setup, polls: seq<Poll>, data: Poll)
    requires setup.DistinctIds()
    ensures var applied := Fold(setup, FoldAll(setup, polls), data).1;
      applied <==>
        if setup.awaited == [] then
          data.path == "/v0.7/config" && data.targetsVersion == Some(setup.stateVersion) && data.configStates == []
        else
          && data.path == "/v0.7/config" && data.targetsVersion == Some(setup.version)
          && (setup.waitForAcknowledgedStatus ==> forall i :: 0 <= i < |setup.awaited| ==>
                Acknowledged(StateOf(polls + [data], setup.version, setup.awaited[i])))
  {
    var all := polls + [data];
    assert all[..|all| - 1] == polls;
    InitialLookup(setup.awaited);
    forall i | 0 <= i < |setup.awaited|
      ensures var id := setup.awaited[i].id;
        id in FoldAll(setup, all) && FoldAll(setup, all)[id] == StateOf(all, setup.version, setup.awaited[i])
    {
      StatesAreOverlays(setup, all, i);
    }
    if setup.awaited != [] {
      StatesAreOverlays(setup, all, 0);
    }
  }
}
