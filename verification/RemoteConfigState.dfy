/**
 * utils/_remote_config.py: `ClientConfig` and `_RemoteConfigState`. Base64, JSON, SHA-256 and the signature
 * are external: a file is its decoded bytes, and a hash is the bytes that were hashed.
 */
module RemoteConfigState {
  import opened Bytes
  import opened Options
  import opened Sorting
  import opened Utf8

  /******* ClientConfig *******/

  /** JSON text as the standard library writes it: everything that is not ASCII is escaped. */
  type JsonText = s: bytes | Ascii(s)

  /** A dict (its JSON text), a base64 string (what it decodes to, and whether that is the JSON `null`), or None. */
  datatype Config = Dict(json: JsonText) | Base64(raw: bytes, isNull: bool) | Absent

  const NULL_TEXT: bytes := [110, 117, 108, 108]

  function RawOf(c: Config): bytes {
    match c
    case Dict(json) => json
    case Base64(raw, _) => raw
    case Absent => NULL_TEXT
  }

  datatype ClientConfig = ClientConfig(raw: bytes, isNull: bool, fileVersion: int, length: nat, hashed: bytes)

  datatype Target = Target(fileVersion: int, length: nat, hashed: bytes)

  function TargetOf(c: ClientConfig): Target {
    Target(c.fileVersion, c.length, c.hashed)
  }

  type Configs = map<string, ClientConfig>

  /** The constructor: None refers to what the store has for the path. */
  function NewClientConfig(store: Configs, path: string, config: Config, fileVersion: int): Result<ClientConfig> {
    var raw := RawOf(config);
    match Characters(raw)
    case None => Err
    case Some(n) =>
      match config
      case Dict(_) => Ok(ClientConfig(raw, false, fileVersion, n, raw))
      case Base64(_, isNull) => Ok(ClientConfig(raw, isNull, fileVersion, n, raw))
      case Absent =>
        if path in store then Ok(ClientConfig(raw, true, fileVersion, store[path].length, store[path].hashed)) else Err
  }

  /** Hash and length are those of the raw bytes; the length, if and only if the bytes are ASCII. */
  predicate Describes(t: Target, raw: bytes) {
    t.hashed == raw && (t.length == |raw| <==> Ascii(raw))
  }

  /**
   * A config is refused if it is not UTF-8, or is None for a path the store does not have. Otherwise its target
   * describes its own raw bytes, or, for None, whatever the stored target describes; a dict is always ASCII.
   */
  lemma TargetDescribesFileIff(store: Configs, path: string, config: Config, fileVersion: int)
    ensures var c := NewClientConfig(store, path, config, fileVersion);
      && (c.Ok? <==> Characters(RawOf(config)).Some? && (config.Absent? ==> path in store))
      && (c.Ok? && !config.Absent? ==> c.value.raw == RawOf(config) && Describes(TargetOf(c.value), RawOf(config)))
      && (c.Ok? ==> TargetOf(c.value).fileVersion == fileVersion)
      && (c.Ok? && config.Dict? ==> c.value.raw == config.json && !c.value.isNull)
      && (c.Ok? && config.Base64? ==> c.value.raw == config.raw && c.value.isNull == config.isNull)
      && (c.Ok? && config.Absent? ==>
            && c.value.isNull && TargetOf(c.value) == TargetOf(store[path]).(fileVersion := fileVersion)
            && forall raw :: Describes(TargetOf(store[path]), raw) ==> Describes(TargetOf(c.value), raw))
      && (config.Dict? ==> c.Ok? && c.value.length == |c.value.raw|)
  {
    CharactersAreBytesIff(RawOf(config));
  }

  /******* _RemoteConfigState *******/

  /** The payload of a state, decoded; its signed part has a version of its own. */
  datatype Payload = Payload(
    signedVersion: nat,
    signedTargets: map<string, Target>,
    clientConfigs: seq<string>,
    targetFiles: seq<(string, bytes)>)

  /** What `send_state` is called with. */
  datatype Sent = Sent(payload: Payload, stateVersion: nat)

  /** `order` is the iteration order of the dictionary `targets`. */
  datatype State = State(
    order: seq<string>, targets: Configs, store: Configs, version: nat, resetPending: bool, sent: seq<Sent>)

  function FilesOf(order: seq<string>, targets: Configs): seq<(string, bytes)>
    requires forall p :: p in order ==> p in targets
  {
    if order == [] then []
    else
      FilesOf(order[..|order| - 1], targets) +
      (var p := order[|order| - 1]; if targets[p].isNull then [] else [(p, targets[p].raw)])
  }

  function ToPayload(order: seq<string>, targets: Configs, version: nat): Payload
    requires forall p :: p in order ==> p in targets
  {
    Payload(version, map p | p in targets :: TargetOf(targets[p]), order, FilesOf(order, targets))
  }

  /** The order lists exactly the current paths, each once. */
  ghost predicate Ordered(order: seq<string>, targets: Configs) {
    && (forall p :: p in order <==> p in targets)
    && Distinct(order)
  }

  datatype Op =
    | SetConfig(path: string, config: Config, fileVersion: Option<int>)
    | DelConfig(path: string)
    | Reset
    | Apply

  function Without(order: seq<string>, path: string): seq<string> {
    if order == [] then []
    else Without(order[..|order| - 1], path) + (if order[|order| - 1] == path then [] else [order[|order| - 1]])
  }

  function FileVersion(s: State, op: Op): int
    requires op.SetConfig?
  {
    if op.fileVersion.None? then s.version + 1 else op.fileVersion.value
  }

  function SetResult(s: State, op: Op): Result<ClientConfig>
    requires op.SetConfig?
  {
    NewClientConfig(s.store, op.path, op.config, FileVersion(s, op))
  }

  /** The version moves on by one; the payload is signed with it, and announced with it. */
  function SendNext(s: State): State
    requires forall p :: p in s.order ==> p in s.targets
  {
    var next := s.(version := s.version + 1);
    next.(sent := next.sent + [Sent(ToPayload(next.order, next.targets, next.version), next.version)])
  }

  /** `eager`: the library is golang or java. */
  function Step(s: State, op: Op, eager: bool): State
    requires forall p :: p in s.order ==> p in s.targets
  {
    match op
    case SetConfig(path, config, _) => (
      match SetResult(s, op)
      case Err => s
      case Ok(c) => s.(
        order := if path in s.targets then s.order else s.order + [path],
        targets := s.targets[path := c],
        store := if config.Absent? then s.store else s.store[path := c]))
    case DelConfig(path) => s.(order := Without(s.order, path), targets := s.targets - {path})
    case Reset => s.(order := [], targets := map[], resetPending := true)
    case Apply =>
      var emptyFirst := s.resetPending && s.targets != map[] && eager;
      var cleared := if emptyFirst then SendNext(s.(order := [], targets := map[])) else s;
      SendNext(cleared.(order := s.order, targets := s.targets, resetPending := false))
  }

  class RemoteConfig {
    var order: seq<string>
    var targets: Configs
    var store: Configs
    var version: nat
    var resetPending: bool
    ghost var sent: seq<Sent>

    ghost function View(): State
      reads this
    {
      State(order, targets, store, version, resetPending, sent)
    }

    ghost predicate Valid()
      reads this
    {
      Ordered(order, targets)
    }

    constructor ()
      ensures Valid() && View() == State([], map[], map[], 0, false, [])
    {
      order, targets, store, version, resetPending, sent := [], map[], map[], 0, false, [];
    }

    method SetConfigAt(path: string, config: Config, fileVersion: Option<int>) returns (ok: bool)
      requires Valid()
      modifies this
      ensures Valid() && View() == Step(old(View()), SetConfig(path, config, fileVersion), false)
      ensures ok <==> SetResult(old(View()), SetConfig(path, config, fileVersion)).Ok?
    {
      var made := NewClientConfig(store, path, config, if fileVersion.None? then version + 1 else fileVersion.value);
      ghost var before := View();
      assert made == SetResult(before, SetConfig(path, config, fileVersion));
      if made.Err? {
        return false;
      }
      if !config.Absent? {
        store := store[path := made.value];
      }
      if path !in targets {
        order := order + [path];
      }
      targets := targets[path := made.value];
      return true;
    }

    method DelConfigAt(path: string)
      requires Valid()
      modifies this
      ensures Valid() && View() == Step(old(View()), DelConfig(path), false)
    {
      WithoutIs(order, path);
      if path in targets {
        order, targets := Without(order, path), targets - {path};
      } else {
        assert targets - {path} == targets;
        WithoutAbsent(order, path);
      }
    }

    method ResetConfigs()
      requires Valid()
      modifies this
      ensures Valid() && View() == Step(old(View()), Reset, false)
    {
      order, targets := [], map[];
      resetPending := true;
    }

    method BuildPayload() returns (payload: Payload)
      requires Valid()
      ensures payload == ToPayload(order, targets, version)
    {
      var files: seq<(string, bytes)> := [];
      for i := 0 to |order|
        invariant files == FilesOf(order[..i], targets)
      {
        assert order[..i + 1][..i] == order[..i];
        if !targets[order[i]].isNull {
          files := files + [(order[i], targets[order[i]].raw)];
        }
      }
      assert order[..|order|] == order;
      payload := Payload(version, map p | p in targets :: TargetOf(targets[p]), order, files);
    }

    /** A new version, and the current configs sent under it. */
    method SendCurrent()
      requires Valid()
      modifies this`version, this`sent
      ensures View() == SendNext(old(View()))
    {
      version := version + 1;
      var command := BuildPayload();
      sent := sent + [Sent(command, version)];
    }

    method ApplyConfigs(eager: bool)
      requires Valid()
      modifies this
      ensures Valid() && View() == Step(old(View()), Apply, eager)
    {
      if resetPending && targets != map[] && eager {
        var savedOrder, saved := order, targets;
        order, targets := [], map[];
        SendCurrent();
        order, targets := savedOrder, saved;
      }
      resetPending := false;
      SendCurrent();
    }
  }

  lemma {:induction false} WithoutIs(order: seq<string>, path: string)
    requires Distinct(order)
    ensures Distinct(Without(order, path))
    ensures forall p :: p in Without(order, path) <==> p in order && p != path
  {
    if order != [] {
      var init, last := order[..|order| - 1], order[|order| - 1];
      assert order == init + [last];
      WithoutIs(init, path);
      assert last !in init;
    }
  }

  lemma {:induction false} WithoutAbsent(order: seq<string>, path: string)
    requires path !in order
    ensures Without(order, path) == order
  {
    if order != [] {
      WithoutAbsent(order[..|order| - 1], path);
    }
  }

  /******* Every sequence of operations *******/

  const START := State([], map[], map[], 0, false, [])

  ghost predicate Inv(s: State) {
    Ordered(s.order, s.targets)
  }

  lemma StepInv(s: State, op: Op, eager: bool)
    requires Inv(s)
    ensures Inv(Step(s, op, eager))
  {
    if op.DelConfig? {
      WithoutIs(s.order, op.path);
    }
  }

  ghost function Run(ops: seq<Op>, eager: bool): (s: State)
    ensures Inv(s)
  {
    if ops == [] then START
    else
      StepInv(Run(ops[..|ops| - 1], eager), ops[|ops| - 1], eager);
      Step(Run(ops[..|ops| - 1], eager), ops[|ops| - 1], eager)
  }

  /** What is sent is signed with the version it is announced with, and signs exactly the paths it lists. */
  ghost predicate Coherent(m: Sent) {
    && m.payload.signedVersion == m.stateVersion
    && Distinct(m.payload.clientConfigs)
    && (forall path :: path in m.payload.clientConfigs <==> path in m.payload.signedTargets)
  }

  /** The files are those of the listed paths whose content is not null, with their raw bytes. */
  lemma {:induction false} FilesAreExact(order: seq<string>, targets: Configs)
    requires forall p :: p in order ==> p in targets
    ensures forall f :: f in FilesOf(order, targets) <==>
              f.0 in order && !targets[f.0].isNull && f.1 == targets[f.0].raw
  {
    if order != [] {
      FilesAreExact(order[..|order| - 1], targets);
    }
  }

  /** Every file in it is signed, by a target that describes it. */
  ghost predicate FilesDescribed(p: Payload) {
    forall f :: f in p.targetFiles ==> f.0 in p.signedTargets && Describes(p.signedTargets[f.0], f.1)
  }

  /** The files of the current configs would be described: a config that is not null carries its own target. */
  ghost predicate TargetsDescribe(targets: Configs) {
    forall path :: path in targets && !targets[path].isNull ==> Describes(TargetOf(targets[path]), targets[path].raw)
  }

  ghost predicate SentInOrder(s: State) {
    && s.version == |s.sent|
    && forall i :: 0 <= i < |s.sent| ==> s.sent[i].stateVersion == i + 1 && Coherent(s.sent[i])
  }

  ghost predicate AllDescribed(s: State) {
    TargetsDescribe(s.targets) && forall i :: 0 <= i < |s.sent| ==> FilesDescribed(s.sent[i].payload)
  }

  lemma SendNextInOrder(s: State)
    requires Inv(s) && SentInOrder(s)
    ensures SentInOrder(SendNext(s))
  {
    var s' := SendNext(s);
    assert Coherent(s'.sent[|s.sent|]);
  }

  lemma SendNextDescribed(s: State)
    requires Inv(s) && AllDescribed(s)
    ensures AllDescribed(SendNext(s))
  {
    FilesAreExact(s.order, s.targets);
    var s' := SendNext(s);
    assert FilesDescribed(s'.sent[|s.sent|].payload);
  }

  lemma StepSends(s: State, op: Op, eager: bool)
    requires Inv(s) && SentInOrder(s)
    ensures SentInOrder(Step(s, op, eager))
  {
    if op.Apply? {
      if s.resetPending && s.targets != map[] && eager {
        var cleared := SendNext(s.(order := [], targets := map[]));
        SendNextInOrder(s.(order := [], targets := map[]));
        SendNextInOrder(cleared.(order := s.order, targets := s.targets, resetPending := false));
      } else {
        SendNextInOrder(s.(resetPending := false));
      }
    }
  }

  lemma StepDescribes(s: State, op: Op, eager: bool)
    requires Inv(s) && AllDescribed(s)
    ensures AllDescribed(Step(s, op, eager))
  {
    match op
    case SetConfig(path, config, _) => TargetDescribesFileIff(s.store, path, config, FileVersion(s, op));
    case Apply =>
      if s.resetPending && s.targets != map[] && eager {
        var cleared := SendNext(s.(order := [], targets := map[]));
        SendNextDescribed(s.(order := [], targets := map[]));
        SendNextDescribed(cleared.(order := s.order, targets := s.targets, resetPending := false));
      } else {
        SendNextDescribed(s.(resetPending := false));
      }
    case _ =>
  }

  /** The versions sent count up from 1 to the current one, and every payload is coherent. */
  lemma {:induction false} SentPayloads(ops: seq<Op>, eager: bool)
    ensures SentInOrder(Run(ops, eager))
  {
    if ops != [] {
      SentPayloads(ops[..|ops| - 1], eager);
      StepSends(Run(ops[..|ops| - 1], eager), ops[|ops| - 1], eager);
    }
  }

  /**
   * Every file of every payload sent is signed, with the hash of its bytes, and with their number as its length if
   * and only if they are ASCII, as the bytes of a dict are.
   */
  lemma {:induction false} SentFilesAreDescribed(ops: seq<Op>, eager: bool)
    ensures AllDescribed(Run(ops, eager))
  {
    if ops != [] {
      SentFilesAreDescribed(ops[..|ops| - 1], eager);
      StepDescribes(Run(ops[..|ops| - 1], eager), ops[|ops| - 1], eager);
    }
  }

  /** The JSON text of a one-letter string, and the letter is not ASCII. */
  const E_ACUTE: bytes := [0x22, 0xC3, 0xA9, 0x22]

  lemma ThreeCharacters()
    ensures Characters(E_ACUTE) == Some(3)
  {
    assert E_ACUTE[1..][2..] == [0x22] && E_ACUTE[1..][0] == 0xC3 && E_ACUTE[1..][1] == 0xA9;
    assert Characters([0x22]) == Some(1);
    assert Characters(E_ACUTE[1..]) == Some(2);
  }

  lemma RunExtends(ops: seq<Op>, op: Op, eager: bool)
    ensures Run(ops + [op], eager) == Step(Run(ops, eager), op, eager)
  {
    assert (ops + [op])[..|ops|] == ops;
  }

  /** Some reset was not followed by an apply yet. */
  ghost predicate ResetWaits(ops: seq<Op>) {
    exists i :: 0 <= i < |ops| && ops[i].Reset? && ApplyFree(ops, i + 1)
  }

  ghost predicate ApplyFree(ops: seq<Op>, from: nat) {
    forall j :: from <= j < |ops| ==> !ops[j].Apply?
  }

  lemma ResetWaitsExtends(ops: seq<Op>, op: Op)
    ensures ResetWaits(ops + [op]) <==> op.Reset? || (!op.Apply? && ResetWaits(ops))
  {
    var more := ops + [op];
    assert more[|ops|] == op;
    if ResetWaits(more) {
      var i :| 0 <= i < |more| && more[i].Reset? && ApplyFree(more, i + 1);
      if i < |ops| {
        assert ops[i].Reset? && !more[|ops|].Apply?;
        assert forall j :: i + 1 <= j < |ops| ==> ops[j] == more[j];
        assert ApplyFree(ops, i + 1);
      }
    }
    if op.Reset? {
      assert more[|ops|].Reset? && ApplyFree(more, |ops| + 1);
    } else if !op.Apply? && ResetWaits(ops) {
      var i :| 0 <= i < |ops| && ops[i].Reset? && ApplyFree(ops, i + 1);
      assert more[i] == ops[i] && ApplyFree(more, i + 1);
    }
  }

  lemma StepPending(s: State, op: Op, eager: bool)
    requires Inv(s)
    ensures Step(s, op, eager).resetPending == (op.Reset? || (!op.Apply? && s.resetPending))
  {
  }

  /** Between operations, a reset is pending if and only if one was not followed by an apply yet. */
  lemma {:induction false} ResetPendingIff(ops: seq<Op>, eager: bool)
    ensures Run(ops, eager).resetPending <==> ResetWaits(ops)
  {
    if ops != [] {
      var init, last := ops[..|ops| - 1], ops[|ops| - 1];
      assert ops == init + [last];
      ResetPendingIff(init, eager);
      ResetWaitsExtends(init, last);
      RunExtends(init, last, eager);
      StepPending(Run(init, eager), last, eager);
    }
  }

  /** What is sent, last, for the configs of a state: its paths, their targets, and the files that are not null. */
  ghost predicate Carries(p: Payload, order: seq<string>, targets: Configs) {
    && p.clientConfigs == order
    && (forall path :: path in p.signedTargets <==> path in targets)
    && (forall path :: path in targets ==>
          p.signedTargets[path] == Target(targets[path].fileVersion, targets[path].length, targets[path].hashed))
    && forall f :: f in p.targetFiles <==> f.0 in targets && !targets[f.0].isNull && f.1 == targets[f.0].raw
  }

  lemma PayloadCarries(order: seq<string>, targets: Configs, version: nat)
    requires Ordered(order, targets)
    ensures Carries(ToPayload(order, targets, version), order, targets)
  {
    FilesAreExact(order, targets);
  }

  lemma ApplyStep(s: State, eager: bool)
    requires Inv(s)
    ensures var s' := Step(s, Apply, eager);
      && s'.order == s.order && s'.targets == s.targets && s'.store == s.store && !s'.resetPending
      && s'.sent ==
           if s.resetPending && s.targets != map[] && eager then
             s.sent + [Sent(ToPayload([], map[], s.version + 1), s.version + 1),
                       Sent(ToPayload(s.order, s.targets, s.version + 2), s.version + 2)]
           else s.sent + [Sent(ToPayload(s.order, s.targets, s.version + 1), s.version + 1)]
  {
    if s.resetPending && s.targets != map[] && eager {
      var first := Sent(ToPayload([], map[], s.version + 1), s.version + 1);
      var second := Sent(ToPayload(s.order, s.targets, s.version + 2), s.version + 2);
      assert s.sent + [first] + [second] == s.sent + [first, second];
    }
  }

  /**
   * An apply sends the current configs, and nothing else, unless a reset was not followed by an apply yet, there are
   * configs, and the library needs it: then exactly one empty payload goes first. Either way the configs stay.
   */
  lemma ApplySends(ops: seq<Op>, eager: bool)
    ensures var s, s' := Run(ops, eager), Run(ops + [Apply], eager);
      && s'.order == s.order && s'.targets == s.targets
      && s.sent <= s'.sent
      && var added := s'.sent[|s.sent|..];
      && |added| == (if ResetWaits(ops) && s.targets != map[] && eager then 2 else 1)
      && Carries(added[|added| - 1].payload, s.order, s.targets)
      && (|added| == 2 ==> Carries(added[0].payload, [], map[]))
  {
    var s := Run(ops, eager);
    RunExtends(ops, Apply, eager);
    ResetPendingIff(ops, eager);
    ApplyStep(s, eager);
    PayloadCarries(s.order, s.targets, s.version + 1);
    PayloadCarries(s.order, s.targets, s.version + 2);
    PayloadCarries([], map[], s.version + 1);
  }

  lemma FirstSet(path: string, raw: bytes, n: nat)
    requires Characters(raw) == Some(n)
    ensures var c := ClientConfig(raw, false, 1, n, raw);
      Step(START, SetConfig(path, Base64(raw, false), None), false) ==
      State([path], map[path := c], map[path := c], 0, false, [])
  {
  }

  /** A first config given as a string, and an apply: the file is sent, signed with the number of its characters. */
  lemma FirstApplySends(path: string, raw: bytes, n: nat) returns (m: Sent)
    requires Characters(raw) == Some(n)
    ensures m in Run([] + [SetConfig(path, Base64(raw, false), None)] + [Apply], false).sent
    ensures (path, raw) in m.payload.targetFiles
    ensures path in m.payload.signedTargets && m.payload.signedTargets[path] == Target(1, n, raw)
  {
    var given := SetConfig(path, Base64(raw, false), None);
    RunExtends([], given, false);
    FirstSet(path, raw, n);
    var s := Run([] + [given], false);
    RunExtends([] + [given], Apply, false);
    ApplyStep(s, false);
    PayloadCarries(s.order, s.targets, 1);
    m := Sent(ToPayload(s.order, s.targets, 1), 1);
  }

  /** Four bytes are sent, and signed as three. */
  lemma LengthOfNonAsciiFile()
    ensures var ops := [] + [SetConfig("p", Base64(E_ACUTE, false), None)] + [Apply];
      exists m :: m in Run(ops, false).sent && ("p", E_ACUTE) in m.payload.targetFiles &&
                  "p" in m.payload.signedTargets && m.payload.signedTargets["p"].length == 3 < |E_ACUTE|
  {
    ThreeCharacters();
    var m := FirstApplySends("p", E_ACUTE, 3);
  }

  /** The files come in the order of the paths. */
  lemma {:induction false} FilesFollowOrder(order: seq<string>, targets: Configs) returns (at: seq<nat>)
    requires forall p :: p in order ==> p in targets
    ensures |at| == |FilesOf(order, targets)| && Rising(at)
    ensures forall i :: 0 <= i < |at| ==> at[i] < |order| && FilesOf(order, targets)[i].0 == order[at[i]]
  {
    if order == [] {
      at := [];
    } else {
      var n := |order| - 1;
      at := FilesFollowOrder(order[..n], targets);
      assert order[..n] + [order[n]] == order;
      if !targets[order[n]].isNull {
        at := at + [n];
      }
    }
  }

  ghost predicate Rising(at: seq<nat>) {
    forall i, j :: 0 <= i < j < |at| ==> at[i] < at[j]
  }

  /** What an operation does to the current paths, in the state it meets. */
  datatype Effect = Put(path: string, config: Config, fileVersion: int) | Drop(path: string) | Clear | Nothing

  /** Without a version of its own, a file gets that of the next payload. */
  function EffectOf(s: State, op: Op): Effect {
    match op
    case SetConfig(path, config, version) =>
      if SetResult(s, op).Err? then Nothing
      else Put(path, config, match version case None => |s.sent| + 1 case Some(v) => v)
    case DelConfig(path) => Drop(path)
    case Reset => Clear
    case Apply => Nothing
  }

  ghost function Effects(ops: seq<Op>, eager: bool): (es: seq<Effect>)
    ensures |es| == |ops|
  {
    if ops == [] then []
    else
      var n := |ops| - 1;
      Effects(ops[..n], eager) + [EffectOf(Run(ops[..n], eager), ops[n])]
  }

  predicate Puts(e: Effect, path: string) {
    e.Put? && e.path == path
  }

  predicate Removes(e: Effect, path: string) {
    e.Clear? || (e.Drop? && e.path == path)
  }

  /** The effect at `i` is the last one to have its say about `path`, and it puts a config there. */
  predicate LastPut(es: seq<Effect>, i: nat, path: string) {
    && i < |es|
    && Puts(es[i], path)
    && forall j :: i < j < |es| ==> !Removes(es[j], path) && !Puts(es[j], path)
  }

  /** The config is the one that was put. */
  ghost predicate Holds(c: ClientConfig, e: Effect)
    requires e.Put?
  {
    && c.fileVersion == e.fileVersion
    && match e.config
       case Dict(json) => !c.isNull && c.raw == json && c.length == |json| && c.hashed == json
       case Base64(raw, isNull) => c.isNull == isNull && c.raw == raw && Describes(TargetOf(c), raw)
       case Absent => c.isNull
  }

  lemma StepTargets(s: State, op: Op, eager: bool, path: string)
    requires Inv(s) && s.version == |s.sent|
    ensures var e, s' := EffectOf(s, op), Step(s, op, eager);
      if Puts(e, path) then path in s'.targets && Holds(s'.targets[path], e)
      else if Removes(e, path) then path !in s'.targets
      else (path in s.targets <==> path in s'.targets) && (path in s.targets ==> s.targets[path] == s'.targets[path])
  {
    match op
    case SetConfig(p, config, _) => TargetDescribesFileIff(s.store, p, config, FileVersion(s, op));
    case _ =>
  }

  lemma LastPutExtends(es: seq<Effect>, e: Effect, i: nat, path: string)
    ensures i < |es| ==> (LastPut(es + [e], i, path) <==> LastPut(es, i, path) && !Puts(e, path) && !Removes(e, path))
    ensures LastPut(es + [e], |es|, path) <==> Puts(e, path)
  {
    var more := es + [e];
    assert forall j :: 0 <= j < |es| ==> more[j] == es[j];
    if i < |es| && LastPut(more, i, path) {
      assert more[|es|] == e;
    }
  }

  ghost predicate CurrentAre(targets: Configs, es: seq<Effect>, path: string) {
    && (path in targets <==> exists i: nat :: LastPut(es, i, path))
    && (forall i: nat :: LastPut(es, i, path) ==> path in targets && Holds(targets[path], es[i]))
  }

  lemma CurrentExtend(s: State, op: Op, eager: bool, es: seq<Effect>, path: string)
    requires Inv(s) && s.version == |s.sent| && CurrentAre(s.targets, es, path)
    ensures CurrentAre(Step(s, op, eager).targets, es + [EffectOf(s, op)], path)
  {
    var e, targets' := EffectOf(s, op), Step(s, op, eager).targets;
    StepTargets(s, op, eager, path);
    forall i: nat
      ensures i < |es| ==> (LastPut(es + [e], i, path) <==> LastPut(es, i, path) && !Puts(e, path) && !Removes(e, path))
    {
      LastPutExtends(es, e, i, path);
    }
    LastPutExtends(es, e, |es|, path);
    if path in targets' && !Puts(e, path) {
      var i: nat :| LastPut(es, i, path);
      assert LastPut(es + [e], i, path);
    }
  }

  /** A path is current if and only if a successful set of it was not followed by its removal; the last set counts. */
  lemma {:induction false} CurrentPaths(ops: seq<Op>, eager: bool, path: string)
    ensures CurrentAre(Run(ops, eager).targets, Effects(ops, eager), path)
  {
    if ops != [] {
      var n := |ops| - 1;
      CurrentPaths(ops[..n], eager, path);
      SentPayloads(ops[..n], eager);
      CurrentExtend(Run(ops[..n], eager), ops[n], eager, Effects(ops[..n], eager), path);
    }
  }

  /******* The order of the paths *******/

  /** The path was put at `i`, where it was not current, and was not removed since. */
  ghost predicate Born(es: seq<Effect>, i: nat, path: string) {
    && i < |es| && Puts(es[i], path)
    && (forall j :: i < j < |es| ==> !Removes(es[j], path))
    && (forall k :: 0 <= k < i && Puts(es[k], path) ==> RemovedBetween(es, k, i, path))
  }

  ghost predicate RemovedBetween(es: seq<Effect>, k: nat, i: nat, path: string)
    requires i <= |es|
  {
    exists r :: k < r < i && Removes(es[r], path)
  }

  lemma BornExtends(es: seq<Effect>, e: Effect, i: nat, path: string)
    requires Born(es, i, path) && !Removes(e, path)
    ensures Born(es + [e], i, path)
  {
    var more := es + [e];
    forall k | 0 <= k < i && Puts(more[k], path) ensures RemovedBetween(more, k, i, path) {
      assert more[k] == es[k];
      var r :| k < r < i && Removes(es[r], path);
      assert Removes(more[r], path);
    }
  }

  /** After the last removal of a path, the last put of it is the last put. */
  lemma {:induction false} PutStays(es: seq<Effect>, k: nat, path: string) returns (i: nat)
    requires k < |es| && Puts(es[k], path) && !RemovedBetween(es, k, |es|, path)
    ensures LastPut(es, i, path)
    decreases |es| - k
  {
    if j :| k < j < |es| && Puts(es[j], path) {
      assert !RemovedBetween(es, j, |es|, path);
      i := PutStays(es, j, path);
    } else {
      i := k;
    }
  }

  lemma BornNow(es: seq<Effect>, e: Effect, path: string)
    requires Puts(e, path) && !exists i: nat :: LastPut(es, i, path)
    ensures Born(es + [e], |es|, path)
  {
    var more := es + [e];
    forall k | 0 <= k < |es| && Puts(more[k], path) ensures RemovedBetween(more, k, |es|, path) {
      assert more[k] == es[k];
      if !RemovedBetween(es, k, |es|, path) {
        var i := PutStays(es, k, path);
        assert false;
      }
      var r :| k < r < |es| && Removes(es[r], path);
      assert Removes(more[r], path);
    }
  }

  /** Taking a path out of the order takes one entry out, or none. */
  lemma {:induction false} WithoutIsCut(order: seq<string>, path: string) returns (k: nat)
    requires Distinct(order)
    ensures k <= |order|
    ensures k < |order| ==> order[k] == path && Without(order, path) == order[..k] + order[k + 1..]
    ensures k == |order| ==> path !in order && Without(order, path) == order
  {
    if order == [] {
      k := 0;
    } else {
      var n := |order| - 1;
      if order[n] == path {
        k := n;
        WithoutAbsent(order[..n], path);
      } else {
        k := WithoutIsCut(order[..n], path);
        CutBeforeLast(order, path, k);
        k := if k == n then n + 1 else k;
      }
    }
  }

  lemma CutBeforeLast(order: seq<string>, path: string, k: nat)
    requires order != [] && k < |order| && order[|order| - 1] != path
    requires var init := order[..|order| - 1];
      if k < |init| then Without(init, path) == init[..k] + init[k + 1..]
      else path !in init && Without(init, path) == init
    ensures if k < |order| - 1 then Without(order, path) == order[..k] + order[k + 1..]
            else path !in order && Without(order, path) == order
  {
    var n := |order| - 1;
    assert order == order[..n] + [order[n]];
    if k < n {
      assert order[..n][..k] == order[..k];
      assert order[k + 1..] == order[..n][k + 1..] + [order[n]];
    }
  }

  ghost predicate BornInOrder(order: seq<string>, births: seq<nat>, es: seq<Effect>) {
    |births| == |order| && Rising(births) && forall n :: 0 <= n < |order| ==> Born(es, births[n], order[n])
  }

  lemma OrderStays(order: seq<string>, births: seq<nat>, es: seq<Effect>, e: Effect)
    requires BornInOrder(order, births, es) && forall p :: p in order ==> !Removes(e, p)
    ensures BornInOrder(order, births, es + [e])
  {
    forall n | 0 <= n < |order| ensures Born(es + [e], births[n], order[n]) {
      BornExtends(es, e, births[n], order[n]);
    }
  }

  lemma OrderCut(order: seq<string>, births: seq<nat>, es: seq<Effect>, k: nat)
    requires BornInOrder(order, births, es) && k < |order|
    ensures BornInOrder(order[..k] + order[k + 1..], births[..k] + births[k + 1..], es)
  {
    var order', births' := order[..k] + order[k + 1..], births[..k] + births[k + 1..];
    forall n | 0 <= n < |order'| ensures Born(es, births'[n], order'[n]) {
      var m := if n < k then n else n + 1;
      assert order'[n] == order[m] && births'[n] == births[m];
    }
    forall i, j | 0 <= i < j < |births'| ensures births'[i] < births'[j] {
      assert births'[i] == births[if i < k then i else i + 1] && births'[j] == births[if j < k then j else j + 1];
    }
  }

  lemma OrderGrows(order: seq<string>, births: seq<nat>, es: seq<Effect>, e: Effect)
    requires BornInOrder(order, births, es) && e.Put? && !exists i: nat :: LastPut(es, i, e.path)
    ensures BornInOrder(order + [e.path], births + [|es|], es + [e])
  {
    OrderStays(order, births, es, e);
    BornNow(es, e, e.path);
  }

  lemma OrderShrinks(order: seq<string>, births: seq<nat>, es: seq<Effect>, e: Effect) returns (births': seq<nat>)
    requires BornInOrder(order, births, es) && e.Drop? && Distinct(order)
    ensures BornInOrder(Without(order, e.path), births', es + [e])
  {
    var k := WithoutIsCut(order, e.path);
    births' := births;
    if k < |order| {
      births' := births[..k] + births[k + 1..];
      OrderCut(order, births, es, k);
    }
    WithoutIs(order, e.path);
    OrderStays(Without(order, e.path), births', es, e);
  }

  /** What an operation makes of the order of the paths, by its effect. */
  lemma StepOrder(s: State, op: Op, eager: bool)
    requires Inv(s)
    ensures Step(s, op, eager).order ==
            match EffectOf(s, op)
            case Put(path, _, _) => if path in s.targets then s.order else s.order + [path]
            case Drop(path) => Without(s.order, path)
            case Clear => []
            case Nothing => s.order
  {
  }

  lemma OrderStep(s: State, op: Op, eager: bool, es: seq<Effect>, births: seq<nat>) returns (births': seq<nat>)
    requires Inv(s) && BornInOrder(s.order, births, es)
    requires forall path :: CurrentAre(s.targets, es, path)
    ensures BornInOrder(Step(s, op, eager).order, births', es + [EffectOf(s, op)])
  {
    var e := EffectOf(s, op);
    StepOrder(s, op, eager);
    match e
    case Put(path, _, _) =>
      if path in s.targets {
        births' := births;
        OrderStays(s.order, births, es, e);
      } else {
        births' := births + [|es|];
        assert CurrentAre(s.targets, es, path);
        OrderGrows(s.order, births, es, e);
      }
    case Drop(path) =>
      births' := OrderShrinks(s.order, births, es, e);
    case Clear =>
      births' := [];
    case Nothing =>
      births' := births;
      OrderStays(s.order, births, es, e);
  }

  /** The current paths are listed in the order in which they became current, last. */
  lemma {:induction false} OrderFollowsInsertion(ops: seq<Op>, eager: bool) returns (births: seq<nat>)
    ensures BornInOrder(Run(ops, eager).order, births, Effects(ops, eager))
  {
    if ops == [] {
      births := [];
    } else {
      var n := |ops| - 1;
      births := OrderFollowsInsertion(ops[..n], eager);
      forall path ensures CurrentAre(Run(ops[..n], eager).targets, Effects(ops[..n], eager), path) {
        CurrentPaths(ops[..n], eager, path);
      }
      births := OrderStep(Run(ops[..n], eager), ops[n], eager, Effects(ops[..n], eager), births);
    }
  }

  /******* The store *******/

  /** A config that is not None, and is UTF-8, goes into the store, where neither removal nor reset reaches it. */
  predicate Stores(op: Op, path: string) {
    op.SetConfig? && op.path == path && !op.config.Absent? && Characters(RawOf(op.config)).Some?
  }

  ghost predicate LastStore(ops: seq<Op>, i: nat, path: string) {
    i < |ops| && Stores(ops[i], path) && forall j :: i < j < |ops| ==> !Stores(ops[j], path)
  }

  lemma StepStore(s: State, op: Op, eager: bool, path: string)
    requires Inv(s)
    ensures var store := Step(s, op, eager).store;
      if Stores(op, path) then
        && path in store
        && Some(store[path].length) == Characters(RawOf(op.config)) && store[path].hashed == RawOf(op.config)
      else (path in store <==> path in s.store) && (path in s.store ==> store[path] == s.store[path])
  {
    if op.Apply? {
      ApplyStep(s, eager);
    }
  }

  lemma LastStoreExtends(ops: seq<Op>, op: Op, i: nat, path: string)
    ensures LastStore(ops + [op], i, path) <==>
            if Stores(op, path) then i == |ops| else i < |ops| && LastStore(ops, i, path)
  {
    var more := ops + [op];
    assert more[|ops|] == op;
    assert forall j :: 0 <= j < |ops| ==> more[j] == ops[j];
  }

  /** What the store has for a path is what the last of its sets left there. */
  ghost predicate StoredAre(store: Configs, ops: seq<Op>, path: string) {
    && (path in store <==> exists i: nat :: LastStore(ops, i, path))
    && forall i: nat :: LastStore(ops, i, path) ==>
         && path in store
         && Some(store[path].length) == Characters(RawOf(ops[i].config)) && store[path].hashed == RawOf(ops[i].config)
  }

  lemma StoredExtend(s: State, op: Op, eager: bool, ops: seq<Op>, path: string)
    requires Inv(s) && StoredAre(s.store, ops, path)
    ensures StoredAre(Step(s, op, eager).store, ops + [op], path)
  {
    StepStore(s, op, eager, path);
    forall i: nat
      ensures LastStore(ops + [op], i, path) <==>
              if Stores(op, path) then i == |ops| else i < |ops| && LastStore(ops, i, path)
    {
      LastStoreExtends(ops, op, i, path);
    }
    if path in Step(s, op, eager).store && !Stores(op, path) {
      var i: nat :| LastStore(ops, i, path);
      assert LastStore(ops + [op], i, path);
    }
    if Stores(op, path) {
      assert LastStore(ops + [op], |ops|, path);
    }
  }

  /** None stands for the last config any operation so far has given the path, whatever was removed since. */
  lemma {:induction false} StoreIsHistory(ops: seq<Op>, eager: bool, path: string)
    ensures StoredAre(Run(ops, eager).store, ops, path)
  {
    if ops != [] {
      var n := |ops| - 1;
      assert ops == ops[..n] + [ops[n]];
      StoreIsHistory(ops[..n], eager, path);
      RunExtends(ops[..n], ops[n], eager);
      StoredExtend(Run(ops[..n], eager), ops[n], eager, ops[..n], path);
    }
  }
}
