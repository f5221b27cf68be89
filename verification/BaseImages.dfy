/**
 * utils/base_images/build_base_images.py: publishing base images under content-addressed tags. Docker is what it
 * does to the registry; its inspections may be inconclusive, and its pushes may fail before or after taking effect.
 */
module BaseImages {
  import opened Options
  import opened Sorting

  /******* Tags *******/

  /** What stands before and after the last occurrence of `c`. */
  function Rpartition(s: string, c: char): Option<(string, string)> {
    if s == "" then None
    else
      var init, last := s[..|s| - 1], s[|s| - 1];
      if last == c then Some((init, ""))
      else
        match Rpartition(init, c)
        case None => None
        case Some((before, after)) => Some((before, after + [last]))
  }

  lemma {:induction false} RpartitionSplits(s: string, c: char)
    ensures var r := Rpartition(s, c);
      (r.Some? <==> c in s) && (r.Some? ==> s == r.value.0 + [c] + r.value.1 && c !in r.value.1)
  {
    if s != "" {
      RpartitionSplits(s[..|s| - 1], c);
    }
  }

  lemma {:induction false} RpartitionOf(before: string, c: char, after: string)
    requires c !in after
    ensures Rpartition(before + [c] + after, c) == Some((before, after))
  {
    var s := before + [c] + after;
    if after == "" {
      assert s[..|s| - 1] == before;
    } else {
      var n := |after| - 1;
      assert after == after[..n] + [after[n]] && after[n] in after;
      assert s[..|s| - 1] == before + [c] + after[..n] && s[|s| - 1] == after[n];
      RpartitionOf(before, c, after[..n]);
    }
  }

  const PLATFORMS: seq<string> := ["linux/amd64", "linux/arm64"]

  const CONTENT_HASH_LENGTH := 12

  /** What stands behind the last slash of the platform, or all of it. */
  function Architecture(platform: string): string {
    match Rpartition(platform, '/')
    case None => platform
    case Some((_, after)) => after
  }

  function PlatformTag(tag: string, platform: string): string {
    tag + "-" + Architecture(platform)
  }

  /** What `lock_images` asks of a tag. */
  predicate ContentTag(tag: string) {
    var parts := Rpartition(tag, '-');
    parts.Some? && |parts.value.1| == CONTENT_HASH_LENGTH
  }

  /** A base, a dash, and twelve characters without a dash. */
  lemma ContentTagIff(tag: string)
    ensures ContentTag(tag) <==> exists base, hash :: tag == base + ['-'] + hash && |hash| == 12 && '-' !in hash
  {
    RpartitionSplits(tag, '-');
    if ContentTag(tag) {
      var (base, hash) := Rpartition(tag, '-').value;
      assert tag == base + ['-'] + hash && |hash| == 12 && '-' !in hash;
    }
    if base, hash :| tag == base + ['-'] + hash && |hash| == 12 && '-' !in hash {
      RpartitionOf(base, '-', hash);
    }
  }

  lemma PlatformTagsAre(tag: string)
    ensures PLATFORMS == ["linux/amd64", "linux/arm64"]
    ensures PlatformTag(tag, "linux/amd64") == tag + "-amd64" && PlatformTag(tag, "linux/arm64") == tag + "-arm64"
    ensures Sources(tag) == [tag + "-amd64", tag + "-arm64"]
  {
    Architectures();
    assert tag + "-" + "amd64" == tag + "-amd64" && tag + "-" + "arm64" == tag + "-arm64";
  }

  /** Behind the last slash, or everything. */
  lemma ArchitectureOf(before: string, after: string)
    requires '/' !in after
    ensures Architecture(before + ['/'] + after) == after && Architecture(after) == after
  {
    RpartitionOf(before, '/', after);
    RpartitionSplits(after, '/');
  }

  lemma Architectures()
    ensures Architecture(PLATFORMS[0]) == "amd64" && Architecture(PLATFORMS[1]) == "arm64"
  {
    RpartitionOf("linux", '/', "amd64");
    RpartitionOf("linux", '/', "arm64");
    assert PLATFORMS[0] == "linux" + ['/'] + "amd64" && PLATFORMS[1] == "linux" + ['/'] + "arm64";
  }

  /** A platform tag is never the content tag of a target, and it tells its target and its platform. */
  lemma PlatformTagsDiffer(tag: string, platform: string, other: string)
    requires platform in PLATFORMS
    ensures ContentTag(other) ==> PlatformTag(tag, platform) != other
    ensures forall p :: p in PLATFORMS && PlatformTag(tag, platform) == PlatformTag(other, p) ==>
              tag == other && platform == p
  {
    Architectures();
    var arch := Architecture(platform);
    assert '-' !in arch && |arch| == 5;
    RpartitionOf(tag, '-', arch);
    assert tag + ['-'] + arch == PlatformTag(tag, platform);
    forall p | p in PLATFORMS && PlatformTag(tag, platform) == PlatformTag(other, p)
      ensures tag == other && platform == p
    {
      RpartitionOf(other, '-', Architecture(p));
      assert other + ['-'] + Architecture(p) == PlatformTag(other, p);
      assert "amd64"[1] != "arm64"[1];
    }
  }

  /******* The lock *******/

  datatype Target = Target(library: string, tag: string)

  /** `alias_for_base_tag`, which raises on a base tag it does not understand. */
  type Aliasing = (string, string) -> Option<string>

  function AliasOf(t: Target, aliasing: Aliasing): Option<string> {
    if !ContentTag(t.tag) then None else aliasing(t.library, Rpartition(t.tag, '-').value.0)
  }

  /** The alias is asked for the part of the tag before its hash. */
  lemma AliasIsOfBase(library: string, base: string, hash: string, aliasing: Aliasing)
    requires '-' !in hash
    ensures AliasOf(Target(library, base + ['-'] + hash), aliasing) ==
            if |hash| == 12 then aliasing(library, base) else None
  {
    RpartitionOf(base, '-', hash);
  }

  lemma NoAliasWithoutDash(t: Target, aliasing: Aliasing)
    requires '-' !in t.tag
    ensures AliasOf(t, aliasing) == None
  {
    RpartitionSplits(t.tag, '-');
  }

  /** Every one of the first `n` targets has an alias, and no two have the same. */
  ghost predicate Lockable(targets: seq<Target>, n: nat, aliasing: Aliasing)
    requires n <= |targets|
  {
    && (forall i :: 0 <= i < n ==> AliasOf(targets[i], aliasing).Some?)
    && (forall i, j :: 0 <= i < j < n ==> AliasOf(targets[i], aliasing) != AliasOf(targets[j], aliasing))
  }

  ghost predicate Locks(images: map<string, string>, targets: seq<Target>, n: nat, aliasing: Aliasing)
    requires n <= |targets| && Lockable(targets, n, aliasing)
  {
    && (forall i :: 0 <= i < n ==>
          var alias := AliasOf(targets[i], aliasing).value; alias in images && images[alias] == targets[i].tag)
    && (forall a :: a in images ==> exists i :: 0 <= i < n && AliasOf(targets[i], aliasing) == Some(a))
  }

  lemma LockableExtends(targets: seq<Target>, n: nat, aliasing: Aliasing, images: map<string, string>)
    requires n < |targets| && Lockable(targets, n, aliasing) && Locks(images, targets, n, aliasing)
    ensures var alias := AliasOf(targets[n], aliasing);
      if alias.None? || alias.value in images then !Lockable(targets, n + 1, aliasing)
      else
        Lockable(targets, n + 1, aliasing) && Locks(images[alias.value := targets[n].tag], targets, n + 1, aliasing)
  {
    var alias := AliasOf(targets[n], aliasing);
    if alias.Some? && alias.value !in images {
      forall i | 0 <= i < n ensures AliasOf(targets[i], aliasing) != alias {
      }
    }
  }

  lemma LockableShrinks(targets: seq<Target>, n: nat, m: nat, aliasing: Aliasing)
    requires n <= m <= |targets| && Lockable(targets, m, aliasing)
    ensures Lockable(targets, n, aliasing)
  {
  }

  method LockImages(targets: seq<Target>, aliasing: Aliasing) returns (r: Result<map<string, string>>)
    ensures r.Ok? <==> Lockable(targets, |targets|, aliasing)
    ensures r.Ok? ==> Locks(r.value, targets, |targets|, aliasing)
  {
    var images: map<string, string> := map[];
    for i := 0 to |targets|
      invariant Lockable(targets, i, aliasing) && Locks(images, targets, i, aliasing)
    {
      LockableExtends(targets, i, aliasing, images);
      var alias := AliasOf(targets[i], aliasing);
      if alias.None? || alias.value in images {
        if Lockable(targets, |targets|, aliasing) {
          LockableShrinks(targets, i + 1, |targets|, aliasing);
          assert false;
        }
        return Err;
      }
      images := images[alias.value := targets[i].tag];
    }
    return Ok(images);
  }

  /** Lockable targets of one library have different tags; nothing tells the tags of two libraries apart. */
  lemma LockedTagsDiffer(targets: seq<Target>, aliasing: Aliasing, i: nat, j: nat)
    requires Lockable(targets, |targets|, aliasing) && i < j < |targets| && targets[i].library == targets[j].library
    ensures targets[i].tag != targets[j].tag
  {
    assert AliasOf(targets[i], aliasing) != AliasOf(targets[j], aliasing);
  }

  /******* The registry *******/

  datatype Image = Single | Manifest(sources: seq<string>)

  type Registry = map<string, Image>

  datatype Action = Build(platform: string) | Merge

  /** The three things a step may meet outside: whether an inspection decides, and what becomes of a push. */
  datatype Push = Accepted | Refused | AcceptedThenFailed

  datatype Answer = Answer(inspections: seq<bool>, push: Push)

  function Sources(tag: string): seq<string> {
    [PlatformTag(tag, PLATFORMS[0]), PlatformTag(tag, PLATFORMS[1])]
  }

  /** What `build_platform` and `merge_platforms` look for besides the tag. */
  function Inspected(tag: string, action: Action): seq<string> {
    match action
    case Build(platform) => [PlatformTag(tag, platform)]
    case Merge => Sources(tag)
  }

  function Written(tag: string, action: Action): string {
    match action
    case Build(platform) => PlatformTag(tag, platform)
    case Merge => tag
  }

  function Product(tag: string, action: Action): Image {
    match action
    case Build(_) => Single
    case Merge => Manifest(Sources(tag))
  }

  /** Where the worker of one target is. */
  datatype Pc = InspectTag | InspectSource(k: nat, missing: bool) | Write | Done | Failed

  predicate Running(pc: Pc) {
    !pc.Done? && !pc.Failed?
  }

  predicate Placed(pc: Pc, action: Action) {
    pc.InspectSource? ==> pc.k < (if action.Build? then 1 else 2)
  }

  function WorkerStep(r: Registry, pc: Pc, tag: string, action: Action, a: Answer): (Registry, Pc)
    requires Placed(pc, action)
  {
    match pc
    case InspectTag =>
      (r, if true !in a.inspections then Failed else if tag in r then Done else InspectSource(0, false))
    case InspectSource(k, missing) =>
      var present := Inspected(tag, action)[k] in r;
      (r,
      if true !in a.inspections then Failed
      else if action.Build? then (if present then Done else Write)
      else if k == 0 then InspectSource(1, missing || !present)
      else if missing || !present then Failed
      else Write)
    case Write =>
      (if a.push.Refused? then r else r[Written(tag, action) := Product(tag, action)],
      if a.push.Accepted? then Done else Failed)
    case _ => (r, pc)
  }

  /** A worker left alone, given what it meets at each step. */
  function Alone(r: Registry, pc: Pc, tag: string, action: Action, answers: seq<Answer>): (Registry, Pc)
    requires Placed(pc, action)
    decreases answers
  {
    if answers == [] || !Running(pc) then (r, pc)
    else
      var (r', pc') := WorkerStep(r, pc, tag, action, answers[0]);
      Alone(r', pc', tag, action, answers[1..])
  }

  lemma AloneSteps(r: Registry, pc: Pc, tag: string, action: Action, answers: seq<Answer>, k: nat)
    requires Placed(pc, action) && k < |answers|
    ensures var (r', pc') := WorkerStep(r, pc, tag, action, answers[k]);
      && Placed(pc', action)
      && Alone(r, pc, tag, action, answers[k..]) == Alone(r', pc', tag, action, answers[k + 1..])
  {
    assert answers[k..][1..] == answers[k + 1..];
  }

  predicate Decided(a: Answer) {
    true in a.inspections
  }

  /**
   * A build succeeds if and only if the inspections it makes decide and, where neither the tag nor that of the
   * platform is there, its push is accepted. It adds the tag of the platform, or nothing.
   */
  lemma AloneBuilds(r: Registry, tag: string, platform: string, answers: seq<Answer>)
    requires |answers| == 3
    ensures var (r', pc) := Alone(r, InspectTag, tag, Build(platform), answers);
      var name := PlatformTag(tag, platform);
      && (pc == Done <==>
            Decided(answers[0]) &&
            (tag in r || (Decided(answers[1]) && (name in r || answers[2].push == Accepted))))
      && r' == (if Decided(answers[0]) && tag !in r && Decided(answers[1]) && name !in r && answers[2].push != Refused
                then r[name := Single] else r)
  {
    assert answers[0..] == answers;
    AloneSteps(r, InspectTag, tag, Build(platform), answers, 0);
    if Decided(answers[0]) && tag !in r {
      AloneSteps(r, InspectSource(0, false), tag, Build(platform), answers, 1);
      if Decided(answers[1]) && PlatformTag(tag, platform) !in r {
        AloneSteps(r, Write, tag, Build(platform), answers, 2);
      }
    }
  }

  /**
   * A merge succeeds if and only if the inspections it makes decide and, where the tag is not there, both sources are
   * and its push is accepted. It adds the tag, with both sources, or nothing.
   */
  lemma AloneMerges(r: Registry, tag: string, answers: seq<Answer>)
    requires |answers| == 4
    ensures var (r', pc) := Alone(r, InspectTag, tag, Merge, answers);
      var sources := Decided(answers[1]) && Decided(answers[2]) && tag + "-amd64" in r && tag + "-arm64" in r;
      && (pc == Done <==> Decided(answers[0]) && (tag in r || (sources && answers[3].push == Accepted)))
      && r' == (if Decided(answers[0]) && tag !in r && sources && answers[3].push != Refused
                then r[tag := Manifest([tag + "-amd64", tag + "-arm64"])] else r)
  {
    PlatformTagsAre(tag);
    assert answers[0..] == answers;
    AloneSteps(r, InspectTag, tag, Merge, answers, 0);
    if Decided(answers[0]) && tag !in r {
      AloneSteps(r, InspectSource(0, false), tag, Merge, answers, 1);
      if Decided(answers[1]) {
        var missing := Sources(tag)[0] !in r;
        AloneSteps(r, InspectSource(1, missing), tag, Merge, answers, 2);
        if Decided(answers[2]) && !missing && Sources(tag)[1] in r {
          AloneSteps(r, Write, tag, Merge, answers, 3);
        }
      }
    }
  }

  class Docker {
    var images: Registry

    /** Inspects again as long as the registry does not decide; None if it never does. */
    method ImageExists(tag: string, inspections: seq<bool>) returns (found: Option<bool>)
      ensures found == if true in inspections then Some(tag in images) else None
    {
      for attempt := 0 to |inspections|
        invariant true !in inspections[..attempt]
      {
        if inspections[attempt] {
          return Some(tag in images);
        }
      }
      return None;
    }

    method BuildPlatform(tag: string, platform: string, answers: seq<Answer>) returns (ok: bool)
      requires |answers| == 3
      modifies this
      ensures (images, if ok then Done else Failed) == Alone(old(images), InspectTag, tag, Build(platform), answers)
    {
      assert answers[0..] == answers;
      AloneSteps(images, InspectTag, tag, Build(platform), answers, 0);
      var known := ImageExists(tag, answers[0].inspections);
      if known.None? || known.value {
        return known.Some?;
      }
      var singlePlatformTag := PlatformTag(tag, platform);
      AloneSteps(images, InspectSource(0, false), tag, Build(platform), answers, 1);
      known := ImageExists(singlePlatformTag, answers[1].inspections);
      if known.None? || known.value {
        return known.Some?;
      }
      AloneSteps(images, Write, tag, Build(platform), answers, 2);
      if !answers[2].push.Refused? {
        images := images[singlePlatformTag := Single];
      }
      return answers[2].push.Accepted?;
    }

    method MergePlatforms(tag: string, answers: seq<Answer>) returns (ok: bool)
      requires |answers| == 4
      modifies this
      ensures (images, if ok then Done else Failed) == Alone(old(images), InspectTag, tag, Merge, answers)
    {
      assert answers[0..] == answers;
      AloneSteps(images, InspectTag, tag, Merge, answers, 0);
      var known := ImageExists(tag, answers[0].inspections);
      if known.None? || known.value {
        return known.Some?;
      }
      var sources, missing := Sources(tag), false;
      for k := 0 to 2
        invariant images == old(images)
        invariant Alone(images, InspectTag, tag, Merge, answers) ==
                  Alone(images, if k < 2 then InspectSource(k, missing) else if missing then Failed else Write,
                        tag, Merge, answers[k + 1..])
      {
        AloneSteps(images, InspectSource(k, missing), tag, Merge, answers, k + 1);
        known := ImageExists(sources[k], answers[k + 1].inspections);
        if known.None? {
          return false;
        }
        missing := missing || !known.value;
      }
      if missing {
        return false;
      }
      AloneSteps(images, Write, tag, Merge, answers, 3);
      if !answers[3].push.Refused? {
        images := images[tag := Manifest(sources)];
      }
      return answers[3].push.Accepted?;
    }
  }

  /******* All targets at once *******/

  /** `done` counts the finished steps; `clean` says that no push went to a tag that was there. */
  datatype System = System(registry: Registry, done: nat, pcs: seq<Pc>, attempts: seq<string>, clean: bool)

  datatype Event = Work(target: nat, answer: Answer) | NextStep

  /** The step list of `main` without `--platform` and `--merge`. */
  const FULL: seq<Action> := [Build(PLATFORMS[0]), Build(PLATFORMS[1]), Merge]

  function Fresh(n: nat): seq<Pc> {
    seq(n, _ => InspectTag)
  }

  function Init(registry: Registry, tags: seq<string>): System {
    System(registry, 0, Fresh(|tags|), [], true)
  }

  ghost predicate WellPlaced(s: System, tags: seq<string>, steps: seq<Action>) {
    && |s.pcs| == |tags| && s.done <= |steps|
    && (s.done < |steps| ==> forall i :: 0 <= i < |tags| ==> Placed(s.pcs[i], steps[s.done]))
  }

  ghost predicate Enabled(s: System, tags: seq<string>, steps: seq<Action>, e: Event)
    requires WellPlaced(s, tags, steps)
  {
    && s.done < |steps|
    && match e
       case Work(i, _) => i < |tags| && Running(s.pcs[i])
       case NextStep => forall i :: 0 <= i < |tags| ==> s.pcs[i].Done?
  }

  ghost function Apply(s: System, tags: seq<string>, steps: seq<Action>, e: Event): (s': System)
    requires WellPlaced(s, tags, steps) && Enabled(s, tags, steps, e)
    ensures WellPlaced(s', tags, steps)
  {
    match e
    case NextStep => s.(done := s.done + 1, pcs := Fresh(|tags|))
    case Work(i, answer) =>
      var action := steps[s.done];
      var (registry, pc) := WorkerStep(s.registry, s.pcs[i], tags[i], action, answer);
      var name := Written(tags[i], action);
      s.(registry := registry, pcs := s.pcs[i := pc],
        attempts := if s.pcs[i].Write? then s.attempts + [name] else s.attempts,
        clean := s.clean && !(s.pcs[i].Write? && name in s.registry))
  }

  ghost predicate Follows(tags: seq<string>, steps: seq<Action>, s: System, e: Event, s': System) {
    WellPlaced(s, tags, steps) && Enabled(s, tags, steps, e) && s' == Apply(s, tags, steps, e)
  }

  /** `trace` is what the events make of a registry. */
  ghost predicate IsRun(
      registry: Registry, tags: seq<string>, steps: seq<Action>, events: seq<Event>, trace: seq<System>)
  {
    && |trace| == |events| + 1
    && trace[0] == Init(registry, tags)
    && forall k {:trigger events[k]} :: 0 <= k < |events| ==> Follows(tags, steps, trace[k], events[k], trace[k + 1])
  }

  /******* The invariant *******/

  ghost predicate Separate(tags: seq<string>) {
    Distinct(tags) && forall i :: 0 <= i < |tags| ==> ContentTag(tags[i])
  }

  predicate Known(action: Action) {
    action.Build? ==> action.platform in PLATFORMS
  }

  ghost predicate Extends(before: Registry, after: Registry) {
    forall t :: t in before ==> t in after && after[t] == before[t]
  }

  predicate Achieved(r: Registry, tag: string, action: Action) {
    tag in r || (action.Build? && PlatformTag(tag, action.platform) in r)
  }

  predicate WorkerInv(r: Registry, pc: Pc, tag: string, action: Action) {
    match pc
    case InspectTag => true
    case InspectSource(k, missing) => action.Merge? ==> tag !in r && (k == 1 && !missing ==> Sources(tag)[0] in r)
    case Write =>
      Written(tag, action) !in r && (action.Merge? ==> Sources(tag)[0] in r && Sources(tag)[1] in r)
    case Done => Achieved(r, tag, action)
    case Failed => true
  }

  predicate PlatformTagOf(t: string, tag: string) {
    t in Sources(tag)
  }

  /** An image the tool made: the image of one platform, or a manifest whose sources are there. */
  ghost predicate Explained(r: Registry, tags: seq<string>, t: string)
    requires t in r
  {
    || (r[t] == Single && exists i :: 0 <= i < |tags| && PlatformTagOf(t, tags[i]))
    || (t in tags && r[t] == Manifest(Sources(t)) && Sources(t)[0] in r && Sources(t)[1] in r)
  }

  ghost predicate Made(registry: Registry, r: Registry, tags: seq<string>) {
    forall t {:trigger Explained(r, tags, t)} :: t in r && t !in registry ==> Explained(r, tags, t)
  }

  ghost predicate Inv(registry: Registry, tags: seq<string>, steps: seq<Action>, s: System) {
    && WellPlaced(s, tags, steps)
    && s.clean
    && Extends(registry, s.registry)
    && Made(registry, s.registry, tags)
    && (s.done < |steps| ==> WorkersInv(s.registry, s.pcs, tags, steps[s.done]))
    && (forall b :: 0 <= b < s.done ==> AllAchieved(s.registry, tags, steps[b]))
  }

  ghost predicate WorkersInv(r: Registry, pcs: seq<Pc>, tags: seq<string>, action: Action)
    requires |pcs| == |tags|
  {
    forall i :: 0 <= i < |tags| ==> WorkerInv(r, pcs[i], tags[i], action)
  }

  ghost predicate AllAchieved(r: Registry, tags: seq<string>, action: Action) {
    forall i :: 0 <= i < |tags| ==> Achieved(r, tags[i], action)
  }

  lemma AchievementsLast(r: Registry, r': Registry, tags: seq<string>, action: Action)
    requires AllAchieved(r, tags, action) && Extends(r, r')
    ensures AllAchieved(r', tags, action)
  {
    forall i | 0 <= i < |tags| ensures Achieved(r', tags[i], action) {
      assert Achieved(r, tags[i], action);
    }
  }

  lemma NamesDiffer(tags: seq<string>, action: Action, i: nat, j: nat)
    requires Separate(tags) && Known(action) && i < |tags| && j < |tags| && i != j
    ensures Written(tags[i], action) != Written(tags[j], action)
    ensures Written(tags[i], action) != tags[j]
  {
    assert tags[i] != tags[j];
    if action.Build? {
      PlatformTagsDiffer(tags[i], action.platform, tags[j]);
    }
  }

  /** A worker's own step. */
  lemma OwnStep(r: Registry, pc: Pc, tag: string, action: Action, a: Answer)
    requires Placed(pc, action) && WorkerInv(r, pc, tag, action)
    ensures var (r', pc') := WorkerStep(r, pc, tag, action, a);
      && WorkerInv(r', pc', tag, action)
      && Extends(r, r')
      && (pc.Write? ==> Written(tag, action) !in r)
      && (r' == r || (pc.Write? && r' == r[Written(tag, action) := Product(tag, action)]))
  {
  }

  /** The step of another worker, which may add one name. */
  lemma OthersStep(r: Registry, pc: Pc, tag: string, action: Action, name: string, image: Image)
    requires WorkerInv(r, pc, tag, action) && name != tag && name != Written(tag, action)
    ensures WorkerInv(r[name := image], pc, tag, action)
  {
  }

  lemma MadeExtends(registry: Registry, r: Registry, tags: seq<string>, i: nat, action: Action)
    requires Made(registry, r, tags) && i < |tags| && Known(action) && Written(tags[i], action) !in r
    requires action.Merge? ==> Sources(tags[i])[0] in r && Sources(tags[i])[1] in r
    ensures Made(registry, r[Written(tags[i], action) := Product(tags[i], action)], tags)
  {
    var name := Written(tags[i], action);
    var r' := r[name := Product(tags[i], action)];
    forall t | t in r' && t !in registry ensures Explained(r', tags, t) {
      if t == name {
        assert tags[i] in tags;
        assert action.Build? ==> PlatformTagOf(t, tags[i]);
      } else {
        assert Explained(r, tags, t);
      }
    }
  }

  lemma WorkInv(registry: Registry, tags: seq<string>, steps: seq<Action>, s: System, i: nat, answer: Answer)
    requires Inv(registry, tags, steps, s) && Separate(tags) && s.done < |steps| && Known(steps[s.done])
    requires i < |tags| && Running(s.pcs[i])
    ensures Inv(registry, tags, steps, Apply(s, tags, steps, Work(i, answer)))
    ensures Extends(s.registry, Apply(s, tags, steps, Work(i, answer)).registry)
  {
    var s', action, name := Apply(s, tags, steps, Work(i, answer)), steps[s.done], Written(tags[i], steps[s.done]);
    assert WorkerInv(s.registry, s.pcs[i], tags[i], action);
    OwnStep(s.registry, s.pcs[i], tags[i], action, answer);
    if s'.registry != s.registry {
      MadeExtends(registry, s.registry, tags, i, action);
    }
    forall b | 0 <= b < s.done ensures AllAchieved(s'.registry, tags, steps[b]) {
      AchievementsLast(s.registry, s'.registry, tags, steps[b]);
    }
    forall j | 0 <= j < |tags| ensures WorkerInv(s'.registry, s'.pcs[j], tags[j], action) {
      if j != i {
        NamesDiffer(tags, action, i, j);
        assert WorkerInv(s.registry, s.pcs[j], tags[j], action);
        OthersStep(s.registry, s.pcs[j], tags[j], action, name, Product(tags[i], action));
      }
    }
  }

  lemma AllDone(r: Registry, pcs: seq<Pc>, tags: seq<string>, action: Action)
    requires |pcs| == |tags| && WorkersInv(r, pcs, tags, action) && forall i :: 0 <= i < |tags| ==> pcs[i].Done?
    ensures AllAchieved(r, tags, action)
  {
    forall i | 0 <= i < |tags| ensures Achieved(r, tags[i], action) {
      assert WorkerInv(r, pcs[i], tags[i], action);
    }
  }

  lemma FreshInv(r: Registry, tags: seq<string>, action: Action)
    ensures WorkersInv(r, Fresh(|tags|), tags, action)
  {
  }

  lemma NextInv(registry: Registry, tags: seq<string>, steps: seq<Action>, s: System)
    requires Inv(registry, tags, steps, s) && Enabled(s, tags, steps, NextStep)
    ensures Inv(registry, tags, steps, Apply(s, tags, steps, NextStep))
  {
    AllDone(s.registry, s.pcs, tags, steps[s.done]);
    if s.done + 1 < |steps| {
      FreshInv(s.registry, tags, steps[s.done + 1]);
    }
  }

  lemma {:induction false} RunInv(
      registry: Registry, tags: seq<string>, steps: seq<Action>, events: seq<Event>, trace: seq<System>, k: nat)
    requires IsRun(registry, tags, steps, events, trace) && k < |trace|
    requires Separate(tags) && forall b :: 0 <= b < |steps| ==> Known(steps[b])
    ensures Inv(registry, tags, steps, trace[k])
  {
    if k > 0 {
      RunInv(registry, tags, steps, events, trace, k - 1);
      match events[k - 1]
      case Work(i, answer) => WorkInv(registry, tags, steps, trace[k - 1], i, answer);
      case NextStep => NextInv(registry, tags, steps, trace[k - 1]);
    }
  }

  /******* What every run keeps *******/

  ghost predicate KnownSteps(steps: seq<Action>) {
    forall b :: 0 <= b < |steps| ==> Known(steps[b])
  }

  /** However the targets interleave and whatever fails, nothing is pushed to a tag that is there already. */
  lemma NeverOverwrites(
      registry: Registry, tags: seq<string>, steps: seq<Action>, events: seq<Event>, trace: seq<System>, k: nat)
    requires IsRun(registry, tags, steps, events, trace) && k < |trace| && Separate(tags) && KnownSteps(steps)
    ensures trace[k].clean && Extends(registry, trace[k].registry)
    ensures k + 1 < |trace| ==> Extends(trace[k].registry, trace[k + 1].registry)
  {
    RunInv(registry, tags, steps, events, trace, k);
    if k + 1 < |trace| {
      match events[k]
      case Work(i, answer) => WorkInv(registry, tags, steps, trace[k], i, answer);
      case NextStep => assert trace[k + 1] == Apply(trace[k], tags, steps, NextStep);
    }
  }

  /** What the tool adds is the image of one platform, or a multi-arch image with both its sources in place. */
  lemma ManifestsAreComplete(registry: Registry, tags: seq<string>, steps: seq<Action>, events: seq<Event>,
                             trace: seq<System>, k: nat, tag: string)
    requires IsRun(registry, tags, steps, events, trace) && k < |trace| && Separate(tags) && KnownSteps(steps)
    requires tag in tags && tag in trace[k].registry && tag !in registry
    ensures var r := trace[k].registry;
      r[tag] == Manifest(Sources(tag)) && forall p :: p in PLATFORMS ==> PlatformTag(tag, p) in r
  {
    RunInv(registry, tags, steps, events, trace, k);
    assert Explained(trace[k].registry, tags, tag);
    var i :| 0 <= i < |tags| && tags[i] == tag;
    forall j | 0 <= j < |tags| ensures !PlatformTagOf(tag, tags[j]) {
      PlatformTagsDiffer(tags[j], PLATFORMS[0], tag);
      PlatformTagsDiffer(tags[j], PLATFORMS[1], tag);
    }
  }

  /** A run that got through its steps, the last of which merges, has published every target. */
  lemma CompletedRunPublishes(
      registry: Registry, tags: seq<string>, steps: seq<Action>, events: seq<Event>, trace: seq<System>, i: nat)
    requires IsRun(registry, tags, steps, events, trace) && Separate(tags) && KnownSteps(steps) && i < |tags|
    requires steps != [] && steps[|steps| - 1] == Merge && trace[|events|].done == |steps|
    ensures tags[i] in trace[|events|].registry
  {
    RunInv(registry, tags, steps, events, trace, |events|);
    assert AllAchieved(trace[|events|].registry, tags, steps[|steps| - 1]);
    assert Achieved(trace[|events|].registry, tags[i], Merge);
  }

  ghost predicate Idle(s: System) {
    s.attempts == [] && forall i :: 0 <= i < |s.pcs| ==> s.pcs[i] == InspectTag || s.pcs[i].Done? || s.pcs[i].Failed?
  }

  /** Where every target is published, a run tries no push, and leaves the registry as it is. */
  lemma {:induction false} SecondRunPushesNothing(
      registry: Registry, tags: seq<string>, steps: seq<Action>, events: seq<Event>, trace: seq<System>, k: nat)
    requires IsRun(registry, tags, steps, events, trace) && k < |trace|
    requires forall i :: 0 <= i < |tags| ==> tags[i] in registry
    ensures Idle(trace[k]) && trace[k].registry == registry
  {
    if k > 0 {
      SecondRunPushesNothing(registry, tags, steps, events, trace, k - 1);
      assert trace[k] == Apply(trace[k - 1], tags, steps, events[k - 1]);
    }
  }

  /******* Runs that fail only from outside *******/

  predicate Good(a: Answer) {
    true in a.inspections && a.push.Accepted?
  }

  ghost predicate GoodUntil(events: seq<Event>, k: nat) {
    forall i :: 0 <= i < k && i < |events| && events[i].Work? ==> Good(events[i].answer)
  }

  /** In a full run, a merge does not miss the images of the steps before it. */
  ghost predicate NoFailure(s: System, tags: seq<string>)
    requires |s.pcs| == |tags|
  {
    forall i :: 0 <= i < |tags| ==>
      !s.pcs[i].Failed? && (s.done == 2 && s.pcs[i].InspectSource? ==> !s.pcs[i].missing)
  }

  lemma GoodStep(registry: Registry, tags: seq<string>, s: System, i: nat, answer: Answer)
    requires Inv(registry, tags, FULL, s) && NoFailure(s, tags) && Good(answer)
    requires Enabled(s, tags, FULL, Work(i, answer))
    ensures NoFailure(Apply(s, tags, FULL, Work(i, answer)), tags)
  {
    if s.done == 2 && s.pcs[i].InspectSource? {
      assert WorkerInv(s.registry, s.pcs[i], tags[i], Merge);
      assert AllAchieved(s.registry, tags, FULL[0]) && AllAchieved(s.registry, tags, FULL[1]);
      assert Achieved(s.registry, tags[i], FULL[0]) && Achieved(s.registry, tags[i], FULL[1]);
    }
  }

  /** A full run fails only if an inspection stays inconclusive or a push fails. */
  lemma {:induction false} FullRunFailsOnlyFromOutside(
      registry: Registry, tags: seq<string>, events: seq<Event>, trace: seq<System>, k: nat)
    requires IsRun(registry, tags, FULL, events, trace) && k < |trace| && Separate(tags) && GoodUntil(events, k)
    ensures |trace[k].pcs| == |tags| && NoFailure(trace[k], tags)
  {
    if k > 0 {
      FullRunFailsOnlyFromOutside(registry, tags, events, trace, k - 1);
      RunInv(registry, tags, FULL, events, trace, k - 1);
      match events[k - 1]
      case Work(i, answer) => GoodStep(registry, tags, trace[k - 1], i, answer);
      case NextStep => assert trace[k] == Apply(trace[k - 1], tags, FULL, NextStep);
    }
  }

  /** As long as no target failed and steps remain, something can be done. */
  lemma FindEnabled(s: System, tags: seq<string>, steps: seq<Action>) returns (e: Event)
    requires WellPlaced(s, tags, steps) && s.done < |steps|
    requires forall i :: 0 <= i < |tags| ==> !s.pcs[i].Failed?
    ensures Enabled(s, tags, steps, e) && (e.Work? ==> Good(e.answer))
  {
    if i :| 0 <= i < |tags| && Running(s.pcs[i]) {
      e := Work(i, Answer([true], Accepted));
    } else {
      e := NextStep;
    }
  }

  /** A full run that meets nothing bad, and cannot go on, has published every target. */
  lemma GoodRunPublishes(registry: Registry, tags: seq<string>, events: seq<Event>, trace: seq<System>)
    requires IsRun(registry, tags, FULL, events, trace) && Separate(tags) && GoodUntil(events, |events|)
    requires WellPlaced(trace[|events|], tags, FULL)
    requires forall e :: !Enabled(trace[|events|], tags, FULL, e)
    ensures trace[|events|].done == |FULL| && forall i :: 0 <= i < |tags| ==> tags[i] in trace[|events|].registry
  {
    FullRunFailsOnlyFromOutside(registry, tags, events, trace, |events|);
    if trace[|events|].done < |FULL| {
      var e := FindEnabled(trace[|events|], tags, FULL);
      assert false;
    }
    forall i | 0 <= i < |tags| ensures tags[i] in trace[|events|].registry {
      CompletedRunPublishes(registry, tags, FULL, events, trace, i);
    }
  }

  function Left(pc: Pc): nat {
    match pc
    case InspectTag => 4
    case InspectSource(k, _) => if k == 0 then 3 else 2
    case Write => 1
    case _ => 0
  }

  function TotalLeft(pcs: seq<Pc>): nat {
    if pcs == [] then 0 else TotalLeft(pcs[..|pcs| - 1]) + Left(pcs[|pcs| - 1])
  }

  /** What remains to be done: every event takes at least one unit. */
  function Remaining(s: System, steps: seq<Action>): int {
    (|steps| - s.done) * (4 * |s.pcs| + 1) + TotalLeft(s.pcs) - 4 * |s.pcs|
  }

  lemma {:induction false} WorkUpdate(pcs: seq<Pc>, i: nat, pc: Pc)
    requires i < |pcs|
    ensures TotalLeft(pcs[i := pc]) == TotalLeft(pcs) - Left(pcs[i]) + Left(pc)
  {
    var n := |pcs| - 1;
    if i < n {
      assert pcs[i := pc][..n] == pcs[..n][i := pc];
      WorkUpdate(pcs[..n], i, pc);
    } else {
      assert pcs[i := pc][..n] == pcs[..n];
    }
  }

  lemma {:induction false} WorkFresh(n: nat)
    ensures TotalLeft(Fresh(n)) == 4 * n
  {
    if n > 0 {
      WorkFresh(n - 1);
      assert Fresh(n)[..n - 1] == Fresh(n - 1);
    }
  }

  lemma {:induction false} NoWork(pcs: seq<Pc>)
    requires forall i :: 0 <= i < |pcs| ==> pcs[i].Done?
    ensures TotalLeft(pcs) == 0
  {
    if pcs != [] {
      NoWork(pcs[..|pcs| - 1]);
    }
  }

  lemma WorkConsumes(s: System, tags: seq<string>, steps: seq<Action>, i: nat, answer: Answer)
    requires WellPlaced(s, tags, steps) && Enabled(s, tags, steps, Work(i, answer))
    ensures var s' := Apply(s, tags, steps, Work(i, answer));
      s'.done == s.done && |s'.pcs| == |s.pcs| && TotalLeft(s'.pcs) < TotalLeft(s.pcs)
  {
    WorkUpdate(s.pcs, i, WorkerStep(s.registry, s.pcs[i], tags[i], steps[s.done], answer).1);
  }

  lemma NextConsumes(s: System, tags: seq<string>, steps: seq<Action>)
    requires WellPlaced(s, tags, steps) && Enabled(s, tags, steps, NextStep)
    ensures var s' := Apply(s, tags, steps, NextStep);
      s'.done == s.done + 1 && |s'.pcs| == |s.pcs| && TotalLeft(s.pcs) == 0 && TotalLeft(s'.pcs) == 4 * |s.pcs|
  {
    NoWork(s.pcs);
    WorkFresh(|tags|);
  }

  lemma OneLess(a: int, b: int)
    ensures a * b == (a - 1) * b + b
  {
  }

  lemma StepConsumes(s: System, tags: seq<string>, steps: seq<Action>, e: Event)
    requires WellPlaced(s, tags, steps) && Enabled(s, tags, steps, e)
    ensures Remaining(Apply(s, tags, steps, e), steps) < Remaining(s, steps)
  {
    match e
    case Work(i, answer) => WorkConsumes(s, tags, steps, i, answer);
    case NextStep =>
      NextConsumes(s, tags, steps);
      OneLess(|steps| - s.done, 4 * |s.pcs| + 1);
  }

  lemma AtLeastOne(a: nat, b: nat)
    ensures a * b >= 0 && (a > 0 ==> a * b >= b)
  {
    if a > 0 {
      assert a * b == (a - 1) * b + b;
    }
  }

  lemma RemainingIsNat(s: System, steps: seq<Action>)
    requires s.done <= |steps| && (s.done == |steps| ==> TotalLeft(s.pcs) == 4 * |s.pcs|)
    ensures Remaining(s, steps) >= 0
  {
    AtLeastOne(|steps| - s.done, 4 * |s.pcs| + 1);
  }

  function Bound(tags: seq<string>, steps: seq<Action>): nat {
    |steps| * (4 * |tags| + 1)
  }

  lemma {:induction false} RunConsumes(
      registry: Registry, tags: seq<string>, steps: seq<Action>, events: seq<Event>, trace: seq<System>, k: nat)
    requires IsRun(registry, tags, steps, events, trace) && k < |trace| && steps != []
    ensures |trace[k].pcs| == |tags| && k + Remaining(trace[k], steps) <= Bound(tags, steps)
    ensures trace[k].done < |steps| || (trace[k].done == |steps| && trace[k].pcs == Fresh(|tags|))
  {
    if k == 0 {
      WorkFresh(|tags|);
    } else {
      RunConsumes(registry, tags, steps, events, trace, k - 1);
      assert trace[k] == Apply(trace[k - 1], tags, steps, events[k - 1]);
      StepConsumes(trace[k - 1], tags, steps, events[k - 1]);
    }
  }

  /** Every run is finite: no longer than four events a target and one more, for each step. */
  lemma RunIsBounded(
      registry: Registry, tags: seq<string>, steps: seq<Action>, events: seq<Event>, trace: seq<System>)
    requires IsRun(registry, tags, steps, events, trace) && steps != []
    ensures |events| <= Bound(tags, steps)
  {
    RunConsumes(registry, tags, steps, events, trace, |events|);
    WorkFresh(|tags|);
    RemainingIsNat(trace[|events|], steps);
  }

  /******* Targets that share a tag *******/

  lemma RunExtends(
      registry: Registry, tags: seq<string>, steps: seq<Action>, events: seq<Event>, trace: seq<System>, e: Event)
    requires IsRun(registry, tags, steps, events, trace)
    requires WellPlaced(trace[|events|], tags, steps) && Enabled(trace[|events|], tags, steps, e)
    ensures IsRun(registry, tags, steps, events + [e], trace + [Apply(trace[|events|], tags, steps, e)])
  {
    var n, events', trace' := |events|, events + [e], trace + [Apply(trace[|events|], tags, steps, e)];
    forall k {:trigger events'[k]} | 0 <= k < |events'|
      ensures Follows(tags, steps, trace'[k], events'[k], trace'[k + 1])
    {
      if k < n {
        assert events'[k] == events[k] && trace'[k] == trace[k] && trace'[k + 1] == trace[k + 1];
      } else {
        assert trace'[n] == trace[n] && trace'[n + 1] == Apply(trace[n], tags, steps, e);
      }
    }
    assert trace'[0] == trace[0];
  }

  const GOOD := Answer([true], Accepted)

  /** The registry in which the first step of the list has something to push for every tag. */
  function Ready(tag: string, action: Action): Registry {
    if action.Build? then map[] else map[Sources(tag)[0] := Single, Sources(tag)[1] := Single]
  }

  /** The worker of target `i` gets as far as its push. */
  lemma ReachPush(tag: string, tags: seq<string>, steps: seq<Action>, events: seq<Event>, trace: seq<System>, i: nat)
    returns (events': seq<Event>, trace': seq<System>)
    requires steps != [] && i < |tags| && tags[i] == tag
    requires IsRun(Ready(tag, steps[0]), tags, steps, events, trace)
    requires WellPlaced(trace[|events|], tags, steps) && ContentTag(tag)
    requires var s := trace[|events|]; s.done == 0 && s.pcs[i] == InspectTag && s.registry == Ready(tag, steps[0])
    ensures IsRun(Ready(tag, steps[0]), tags, steps, events', trace')
    ensures trace'[|events'|] == trace[|events|].(pcs := trace[|events|].pcs[i := Write])
  {
    PlatformTagsDiffer(tag, PLATFORMS[0], tag);
    PlatformTagsDiffer(tag, PLATFORMS[1], tag);
    var e := Work(i, GOOD);
    events', trace' := events, trace;
    var inspections := if steps[0].Build? then 2 else 3;
    for n := 0 to inspections
      invariant IsRun(Ready(tag, steps[0]), tags, steps, events', trace')
      invariant WellPlaced(trace'[|events'|], tags, steps)
      invariant trace'[|events'|] == trace[|events|].(pcs := trace[|events|].pcs[i :=
                  if n == 0 then InspectTag else if n < inspections then InspectSource(n - 1, false) else Write])
    {
      RunExtends(Ready(tag, steps[0]), tags, steps, events', trace', e);
      trace' := trace' + [Apply(trace'[|events'|], tags, steps, e)];
      events' := events' + [e];
    }
  }

  ghost predicate AlwaysClean(tags: seq<string>, steps: seq<Action>) {
    forall registry: Registry, events: seq<Event>, trace: seq<System>, k: nat ::
      IsRun(registry, tags, steps, events, trace) && k < |trace| ==> trace[k].clean
  }

  /** Two targets with one tag: both find it missing, both push. */
  lemma SharedTagOverwrites(tags: seq<string>, steps: seq<Action>, i: nat, j: nat)
    returns (events: seq<Event>, trace: seq<System>)
    requires steps != [] && i < j < |tags| && tags[i] == tags[j] && ContentTag(tags[i])
    ensures IsRun(Ready(tags[i], steps[0]), tags, steps, events, trace) && !trace[|events|].clean
  {
    var tag, r := tags[i], Ready(tags[i], steps[0]);
    events, trace := [], [Init(r, tags)];
    events, trace := ReachPush(tag, tags, steps, events, trace, i);
    events, trace := ReachPush(tag, tags, steps, events, trace, j);
    RunExtends(r, tags, steps, events, trace, Work(i, GOOD));
    trace := trace + [Apply(trace[|events|], tags, steps, Work(i, GOOD))];
    events := events + [Work(i, GOOD)];
    RunExtends(r, tags, steps, events, trace, Work(j, GOOD));
    trace := trace + [Apply(trace[|events|], tags, steps, Work(j, GOOD))];
    events := events + [Work(j, GOOD)];
  }

  /** Runs never overwrite a tag if and only if the targets have different tags. */
  lemma CleanIffDistinct(tags: seq<string>, steps: seq<Action>)
    requires steps != [] && KnownSteps(steps) && forall i :: 0 <= i < |tags| ==> ContentTag(tags[i])
    ensures AlwaysClean(tags, steps) <==> Distinct(tags)
  {
    if Distinct(tags) {
      forall registry: Registry, events: seq<Event>, trace: seq<System>, k: nat
        | IsRun(registry, tags, steps, events, trace) && k < |trace|
        ensures trace[k].clean
      {
        NeverOverwrites(registry, tags, steps, events, trace, k);
      }
    } else {
      var i, j :| 0 <= i < j < |tags| && tags[i] == tags[j];
      var events, trace := SharedTagOverwrites(tags, steps, i, j);
      assert !trace[|events|].clean;
    }
  }
}
