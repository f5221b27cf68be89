/**
 * utils/_remote_config.py, the combined APM_TRACING and LIVE_DEBUGGING command: each call only gives the
 * options it changes, and the list of previous payloads carries the others along.
 */
module CombinedCommand {
  import opened Options

  datatype LibValue = Text(text: string) | Flag(flag: bool)

  /** The keys of `lib_config`. */
  datatype Field =
    | LibraryLanguage | LibraryVersion | TracingEnabled
    | DynamicInstrumentation | ExceptionReplay | LiveDebugging | CodeOrigin | DynamicSampling
    | OtherField(name: string)

  type LibConfig = map<Field, LibValue>

  /** The five arguments of a call that default to None. */
  datatype Given = Given(
    dynamicInstrumentation: Option<bool>,
    exceptionReplay: Option<bool>,
    liveDebugging: Option<bool>,
    codeOrigin: Option<bool>,
    dynamicSampling: Option<bool>)

  datatype ApmConfig = ApmConfig(libConfig: LibConfig, service: Option<string>, env: Option<string>)

  /** `kind` is the type of the probe in lower case. */
  datatype Probe = Probe(kind: string, id: string, content: string)

  /** `uuid` is the random part of the path of the configuration; `sdk`: the library takes the SDK shape. */
  datatype Call = Call(
    given: Given, service: Option<string>, env: Option<string>, probes: seq<Probe>, uuid: string, sdk: bool)

  /** A file of the command. */
  datatype File = ApmFile(config: ApmConfig, sdk: bool) | ProbeFile(probe: Probe)

  const APM_PREFIX := "datadog/2/APM_TRACING/"
  const PROBE_PREFIX := "datadog/2/LIVE_DEBUGGING/"

  /** A letter behind an underscore becomes a capital, and the underscore goes. */
  function Camel(kind: string): string {
    if |kind| >= 2 && kind[0] == '_' && 'a' <= kind[1] <= 'z' then
      [(kind[1] as int - 'a' as int + 'A' as int) as char] + Camel(kind[2..])
    else if kind == "" then ""
    else [kind[0]] + Camel(kind[1..])
  }

  /** Together, these say what becomes of any text: it has such a pair somewhere, or it has none. */
  lemma {:induction false} CamelOfPair(before: string, i: nat, behind: string)
    requires i < 26
    ensures Camel(before + ['_', LOWER[i]] + behind) == Camel(before) + [UPPER[i]] + Camel(behind)
  {
    var s := before + ['_', LOWER[i]] + behind;
    LetterAt(i);
    if before == "" {
      assert s[2..] == behind;
    } else if |before| >= 2 && before[0] == '_' && 'a' <= before[1] <= 'z' {
      assert s[2..] == before[2..] + ['_', LOWER[i]] + behind && s[1] == before[1];
      CamelOfPair(before[2..], i, behind);
    } else {
      assert s[1..] == before[1..] + ['_', LOWER[i]] + behind && s[1] == (before + "_")[1];
      CamelOfPair(before[1..], i, behind);
    }
  }

  lemma {:induction false} CamelWithoutPairs(s: string)
    requires forall k, i :: 0 <= k < |s| - 1 && 0 <= i < 26 ==> !(s[k] == '_' && s[k + 1] == LOWER[i])
    ensures Camel(s) == s
  {
    if |s| >= 2 && 'a' <= s[1] <= 'z' {
      LetterAt(s[1] as int - 'a' as int);
      assert s[0 + 1] == LOWER[s[1] as int - 'a' as int];
    }
    if s != "" {
      forall k, i | 0 <= k < |s[1..]| - 1 && 0 <= i < 26 ensures !(s[1..][k] == '_' && s[1..][k + 1] == LOWER[i]) {
        assert s[1..][k] == s[k + 1] && s[1..][k + 1] == s[k + 1 + 1];
      }
      CamelWithoutPairs(s[1..]);
    }
  }

  const LOWER := "abcdefghijklmnopqrstuvwxyz"
  const UPPER := "ABCDEFGHIJKLMNOPQRSTUVWXYZ"

  lemma LetterAt(i: nat)
    requires i < 26
    ensures LOWER[i] == ('a' as int + i) as char && UPPER[i] == ('A' as int + i) as char
  {
  }

  lemma LogProbe()
    ensures Camel("log_probe") == "logProbe"
  {
    CamelOfPair("log", 15, "robe");
    CamelWithoutPairs("log");
    CamelWithoutPairs("robe");
    assert "log" + ['_', LOWER[15]] + "robe" == "log_probe";
    assert "log" + [UPPER[15]] + "robe" == "logProbe";
  }

  lemma PathsAre(uuid: string, id: string)
    ensures ApmPath(uuid) == "datadog/2/APM_TRACING/" + uuid + "/config"
    ensures ProbePath(Probe("log_probe", id, "")) ==
            "datadog/2/LIVE_DEBUGGING/" + "logProbe" + "_" + id + "/config"
  {
    LogProbe();
  }

  function ApmPath(uuid: string): string {
    APM_PREFIX + uuid + "/config"
  }

  function ProbePath(p: Probe): string {
    PROBE_PREFIX + Camel(p.kind) + "_" + p.id + "/config"
  }

  /** Of the first `n` probes, the last one with its path. */
  ghost predicate LastAtPath(probes: seq<Probe>, n: nat, i: nat)
    requires n <= |probes|
  {
    i < n && forall j :: i < j < n ==> ProbePath(probes[j]) != ProbePath(probes[i])
  }

  ghost predicate HasPath(probes: seq<Probe>, n: nat, path: string)
    requires n <= |probes|
  {
    exists i :: 0 <= i < n && ProbePath(probes[i]) == path
  }

  /** The configuration and the probes, each under its path; of probes with one path, the last. */
  ghost predicate Carries(files: map<string, File>, call: Call, n: nat, config: ApmConfig)
    requires n <= |call.probes|
  {
    && (forall path :: path in files <==> path == ApmPath(call.uuid) || HasPath(call.probes, n, path))
    && ApmPath(call.uuid) in files && files[ApmPath(call.uuid)] == ApmFile(config, call.sdk)
    && forall i: nat :: LastAtPath(call.probes, n, i) ==>
         ProbePath(call.probes[i]) in files && files[ProbePath(call.probes[i])] == ProbeFile(call.probes[i])
  }

  lemma CarriesExtends(files: map<string, File>, call: Call, n: nat, config: ApmConfig)
    requires n < |call.probes| && Carries(files, call, n, config)
    ensures Carries(files[ProbePath(call.probes[n]) := ProbeFile(call.probes[n])], call, n + 1, config)
  {
    var added := ProbePath(call.probes[n]);
    var files' := files[added := ProbeFile(call.probes[n])];
    PathsDiffer(call.uuid, call.probes[n]);
    forall path ensures HasPath(call.probes, n + 1, path) <==> HasPath(call.probes, n, path) || path == added {
      if path == added {
        assert ProbePath(call.probes[n]) == path;
      } else if HasPath(call.probes, n, path) {
        var i :| 0 <= i < n && ProbePath(call.probes[i]) == path;
        assert ProbePath(call.probes[i]) == path;
      }
    }
    forall i: nat | LastAtPath(call.probes, n + 1, i)
      ensures ProbePath(call.probes[i]) in files' && files'[ProbePath(call.probes[i])] == ProbeFile(call.probes[i])
    {
      if i < n {
        assert ProbePath(call.probes[n]) != ProbePath(call.probes[i]);
        assert LastAtPath(call.probes, n, i);
      }
    }
  }

  lemma PathsDiffer(uuid: string, p: Probe)
    ensures ApmPath(uuid) != ProbePath(p)
  {
    assert ApmPath(uuid)[10] == APM_PREFIX[10] && ProbePath(p)[10] == PROBE_PREFIX[10];
  }

  predicate IsOption(key: Field) {
    key.DynamicInstrumentation? || key.ExceptionReplay? || key.LiveDebugging? || key.CodeOrigin? || key.DynamicSampling?
  }

  function ValueOf(g: Given, key: Field): Option<bool> {
    match key
    case DynamicInstrumentation => g.dynamicInstrumentation
    case ExceptionReplay => g.exceptionReplay
    case LiveDebugging => g.liveDebugging
    case CodeOrigin => g.codeOrigin
    case DynamicSampling => g.dynamicSampling
    case _ => None
  }

  /** The fields every command sets itself, whatever came before. */
  predicate IsFixed(key: Field) {
    key.LibraryLanguage? || key.LibraryVersion? || key.TracingEnabled?
  }

  function FixedValue(key: Field): LibValue {
    match key
    case LibraryLanguage => Text("all")
    case LibraryVersion => Text("latest")
    case _ => Flag(true)
  }

  function PreviousLib(prev: seq<ApmConfig>): LibConfig {
    if prev == [] then map[] else prev[|prev| - 1].libConfig
  }

  /** What a call makes of one field: its own value, else a fixed one, else the inherited one. */
  function FieldAfter(prev: LibConfig, g: Given, key: Field): Option<LibValue> {
    if ValueOf(g, key).Some? then Some(Flag(ValueOf(g, key).value))
    else if IsFixed(key) then Some(FixedValue(key))
    else if key in prev then Some(prev[key])
    else None
  }

  ghost predicate FieldIs(next: LibConfig, key: Field, value: Option<LibValue>) {
    match value
    case None => key !in next
    case Some(v) => key in next && next[key] == v
  }

  ghost predicate Extends(next: LibConfig, prev: LibConfig, g: Given) {
    forall key :: FieldIs(next, key, FieldAfter(prev, g, key))
  }

  function Override(lib: LibConfig, key: Field, value: Option<bool>): LibConfig {
    if value.Some? then lib[key := Flag(value.value)] else lib
  }

  lemma OverrideAt(lib: LibConfig, key: Field, value: Option<bool>, k: Field)
    ensures var next := Override(lib, key, value);
      if k == key && value.Some? then k in next && next[k] == Flag(value.value)
      else (k in next <==> k in lib) && (k in next ==> next[k] == lib[k])
  {
  }

  /** What the five options make of one key. */
  ghost predicate IsGiven(lib: LibConfig, inherited: LibConfig, g: Given, key: Field) {
    && (key in lib <==> key in inherited || ValueOf(g, key).Some?)
    && (key in lib ==>
          lib[key] == if ValueOf(g, key).Some? then Flag(ValueOf(g, key).value) else inherited[key])
  }

  function Overridden(lib: LibConfig, g: Given): LibConfig {
    var first := Override(lib, DynamicInstrumentation, g.dynamicInstrumentation);
    var second := Override(first, ExceptionReplay, g.exceptionReplay);
    var third := Override(second, LiveDebugging, g.liveDebugging);
    var fourth := Override(third, CodeOrigin, g.codeOrigin);
    Override(fourth, DynamicSampling, g.dynamicSampling)
  }

  lemma OverriddenAt(lib: LibConfig, g: Given, key: Field)
    ensures IsGiven(Overridden(lib, g), lib, g, key)
  {
    var first := Override(lib, DynamicInstrumentation, g.dynamicInstrumentation);
    var second := Override(first, ExceptionReplay, g.exceptionReplay);
    var third := Override(second, LiveDebugging, g.liveDebugging);
    var fourth := Override(third, CodeOrigin, g.codeOrigin);
    OverrideAt(lib, DynamicInstrumentation, g.dynamicInstrumentation, key);
    OverrideAt(first, ExceptionReplay, g.exceptionReplay, key);
    OverrideAt(second, LiveDebugging, g.liveDebugging, key);
    OverrideAt(third, CodeOrigin, g.codeOrigin, key);
    OverrideAt(fourth, DynamicSampling, g.dynamicSampling, key);
  }

  lemma GivenIsHeld(lib: LibConfig, inherited: LibConfig, g: Given)
    requires forall key :: IsGiven(lib, inherited, g, key)
    ensures g.dynamicInstrumentation.Some? ==> Holds(lib, DynamicInstrumentation, g.dynamicInstrumentation.value)
    ensures g.exceptionReplay.Some? ==> Holds(lib, ExceptionReplay, g.exceptionReplay.value)
    ensures g.liveDebugging.Some? ==> Holds(lib, LiveDebugging, g.liveDebugging.value)
    ensures g.codeOrigin.Some? ==> Holds(lib, CodeOrigin, g.codeOrigin.value)
    ensures g.dynamicSampling.Some? ==> Holds(lib, DynamicSampling, g.dynamicSampling.value)
  {
    assert IsGiven(lib, inherited, g, DynamicInstrumentation) && IsGiven(lib, inherited, g, ExceptionReplay);
    assert IsGiven(lib, inherited, g, LiveDebugging) && IsGiven(lib, inherited, g, CodeOrigin);
    assert IsGiven(lib, inherited, g, DynamicSampling);
  }

  /** What a command starts from: the fixed fields, and the others of the previous one. */
  ghost predicate IsInherited(inherited: LibConfig, prev: LibConfig, key: Field) {
    && (key in inherited <==> IsFixed(key) || key in prev)
    && (key in inherited ==> inherited[key] == if IsFixed(key) then FixedValue(key) else prev[key])
  }

  lemma FieldsAreAfter(lib: LibConfig, inherited: LibConfig, prev: LibConfig, g: Given)
    requires forall key :: IsInherited(inherited, prev, key)
    requires forall key :: IsGiven(lib, inherited, g, key)
    ensures Extends(lib, prev, g)
    ensures LibraryLanguage in lib && lib[LibraryLanguage] == Text("all")
    ensures LibraryVersion in lib && lib[LibraryVersion] == Text("latest")
    ensures TracingEnabled in lib && lib[TracingEnabled] == Flag(true)
  {
    forall key ensures FieldIs(lib, key, FieldAfter(prev, g, key)) {
      assert IsInherited(inherited, prev, key) && IsGiven(lib, inherited, g, key);
    }
    assert FieldIs(lib, LibraryLanguage, FieldAfter(prev, g, LibraryLanguage));
    assert FieldIs(lib, LibraryVersion, FieldAfter(prev, g, LibraryVersion));
    assert FieldIs(lib, TracingEnabled, FieldAfter(prev, g, TracingEnabled));
  }

  predicate Holds(lib: LibConfig, key: Field, flag: bool) {
    key in lib && lib[key] == Flag(flag)
  }

  /** One `if value is not None` for each option: the new values override the inherited ones. */
  method ApplyGiven(inherited: LibConfig, g: Given) returns (lib: LibConfig)
    ensures forall key :: IsGiven(lib, inherited, g, key)
    ensures g.dynamicInstrumentation.Some? ==> Holds(lib, DynamicInstrumentation, g.dynamicInstrumentation.value)
    ensures g.exceptionReplay.Some? ==> Holds(lib, ExceptionReplay, g.exceptionReplay.value)
    ensures g.liveDebugging.Some? ==> Holds(lib, LiveDebugging, g.liveDebugging.value)
    ensures g.codeOrigin.Some? ==> Holds(lib, CodeOrigin, g.codeOrigin.value)
    ensures g.dynamicSampling.Some? ==> Holds(lib, DynamicSampling, g.dynamicSampling.value)
  {
    lib := Override(inherited, DynamicInstrumentation, g.dynamicInstrumentation);
    lib := Override(lib, ExceptionReplay, g.exceptionReplay);
    lib := Override(lib, LiveDebugging, g.liveDebugging);
    lib := Override(lib, CodeOrigin, g.codeOrigin);
    lib := Override(lib, DynamicSampling, g.dynamicSampling);
    forall key ensures IsGiven(lib, inherited, g, key) {
      OverriddenAt(inherited, g, key);
    }
    GivenIsHeld(lib, inherited, g);
  }

  /** The list a caller passes to each of its commands. */
  class PrevPayloads {
    var items: seq<ApmConfig>

    constructor (items: seq<ApmConfig>)
      ensures this.items == items
    {
      this.items := items;
    }

    method BuildLibConfig(g: Given) returns (lib: LibConfig)
      ensures Extends(lib, PreviousLib(items), g)
      ensures LibraryLanguage in lib && lib[LibraryLanguage] == Text("all")
      ensures LibraryVersion in lib && lib[LibraryVersion] == Text("latest")
      ensures TracingEnabled in lib && lib[TracingEnabled] == Flag(true)
    {
      lib := map[LibraryLanguage := Text("all"), LibraryVersion := Text("latest")];
      if items != [] {
        var prev := items[|items| - 1].libConfig;
        lib := lib + map key | key in prev && !IsFixed(key) :: prev[key];
      }
      lib := lib[TracingEnabled := Flag(true)];
      ghost var inherited := lib;
      forall key ensures IsInherited(inherited, PreviousLib(items), key) {
      }
      lib := ApplyGiven(lib, g);
      FieldsAreAfter(lib, inherited, PreviousLib(items), g);
    }

    /** The files of a command for this configuration. */
    method BuildFiles(call: Call, apmConfig: ApmConfig) returns (files: map<string, File>)
      ensures Carries(files, call, |call.probes|, apmConfig)
    {
      files := map[ApmPath(call.uuid) := ApmFile(apmConfig, call.sdk)];
      for i := 0 to |call.probes|
        invariant Carries(files, call, i, apmConfig)
      {
        CarriesExtends(files, call, i, apmConfig);
        files := files[ProbePath(call.probes[i]) := ProbeFile(call.probes[i])];
      }
    }

    /** Sends one command: the list is left with its configuration alone, in the legacy shape. */
    method SendCombined(call: Call) returns (apmConfig: ApmConfig, files: map<string, File>)
      modifies this
      ensures Carries(files, call, |call.probes|, apmConfig)
      ensures items == [apmConfig]
      ensures Extends(apmConfig.libConfig, PreviousLib(old(items)), call.given)
      ensures apmConfig.service == call.service && apmConfig.env == call.env
    {
      var lib := BuildLibConfig(call.given);
      apmConfig := ApmConfig(lib, call.service, call.env);
      files := BuildFiles(call, apmConfig);
      items := [];
      items := items + [apmConfig];
    }

    method SendAll(calls: seq<Call>)
      modifies this
      ensures calls == [] ==> items == old(items)
      ensures calls != [] ==> |items| == 1
      ensures exists states :: History(states, PreviousLib(old(items)), calls) && PreviousLib(items) == states[|calls|]
    {
      ghost var states := [PreviousLib(items)];
      for i := 0 to |calls|
        invariant i == 0 ==> items == old(items)
        invariant i > 0 ==> |items| == 1
        invariant |states| == i + 1 && states[0] == PreviousLib(old(items)) && states[i] == PreviousLib(items)
        invariant forall k :: 0 <= k < i ==> Extends(states[k + 1], states[k], calls[k].given)
      {
        var sent, files := SendCombined(calls[i]);
        states := states + [sent.libConfig];
      }
      assert History(states, PreviousLib(old(items)), calls);
    }
  }

  /** The library configuration before each call, and after the last. */
  ghost predicate History(states: seq<LibConfig>, start: LibConfig, calls: seq<Call>) {
    && |states| == |calls| + 1
    && states[0] == start
    && forall k :: 0 <= k < |calls| ==> Extends(states[k + 1], states[k], calls[k].given)
  }

  /** The last value any of the calls gave to the option. */
  function MostRecent(calls: seq<Call>, option: Field): Option<bool> {
    if calls == [] then None
    else if ValueOf(calls[|calls| - 1].given, option).Some? then ValueOf(calls[|calls| - 1].given, option)
    else MostRecent(calls[..|calls| - 1], option)
  }

  lemma {:induction false} MostRecentIs(calls: seq<Call>, option: Field)
    ensures MostRecent(calls, option).None? <==> forall i :: 0 <= i < |calls| ==> ValueOf(calls[i].given, option).None?
    ensures MostRecent(calls, option).Some? ==> exists i ::
      && 0 <= i < |calls|
      && ValueOf(calls[i].given, option) == MostRecent(calls, option)
      && forall j :: i < j < |calls| ==> ValueOf(calls[j].given, option).None?
  {
    if calls != [] {
      var n := |calls| - 1;
      MostRecentIs(calls[..n], option);
      if ValueOf(calls[n].given, option).None? && MostRecent(calls[..n], option).Some? {
        var i :| 0 <= i < n && ValueOf(calls[..n][i].given, option) == MostRecent(calls[..n], option) &&
          forall j :: i < j < n ==> ValueOf(calls[..n][j].given, option).None?;
        assert calls[..n][i] == calls[i];
        forall j | i < j < |calls| ensures ValueOf(calls[j].given, option).None? {
          if j < n {
            assert calls[..n][j] == calls[j];
          }
        }
      } else if ValueOf(calls[n].given, option).None? {
        forall j | 0 <= j < |calls| ensures ValueOf(calls[j].given, option).None? {
          if j < n {
            assert calls[..n][j] == calls[j];
          }
        }
      }
    }
  }

  /**
   * After any calls, an option is present if and only if some call gave it, or it was inherited from the
   * payload the list started with; its value is the most recent one.
   */
  lemma {:induction false} OptionsAreMostRecent(
      states: seq<LibConfig>, start: LibConfig, calls: seq<Call>, option: Field)
    requires History(states, start, calls) && IsOption(option)
    ensures var end := states[|calls|];
      match MostRecent(calls, option)
      case Some(v) => option in end && end[option] == Flag(v)
      case None => (option in end <==> option in start) && (option in end ==> end[option] == start[option])
  {
    if calls != [] {
      var n := |calls| - 1;
      OptionsAreMostRecent(states[..n + 1], start, calls[..n], option);
      assert Extends(states[n + 1], states[n], calls[n].given);
      assert FieldIs(states[n + 1], option, FieldAfter(states[n], calls[n].given, option));
    }
  }
}
