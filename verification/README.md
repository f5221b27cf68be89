# Verified model of the system-tests runtime

A Dafny 4.11 model of the parts of the system-tests repository that keep state across threads, payloads and runs,
and proofs of what those parts promise. `dafny verify dfyconfig.toml` checks everything.

| file | what it models |
|---|---|
| `Containers.dfy` | starter threads that start a fleet of containers, dependencies first |
| `FleetOutcomes.dfy` | what whole rounds of starts leave behind |
| `OtelSpans.dfy` | the spans of a request and all their descendants |
| `Interfaces.dfy`, `WaitProtocol.dfy` | the sorted list of received data, its feeders, and the thread that waits for an item |
| `MessageNumbering.dfy` | handlers of the mocked backend, and the names of what it records |
| `ChunkedBody.dfy` | the reader of the chunked transfer coding (section 7.1 of RFC 9112) |
| `AgentPool.dfy` | the per-worker cache of test agents |
| `RemoteConfigState.dfy`, `RemoteConfigAck.dfy`, `CombinedCommand.dfy` | remote-config state, acknowledgement and combined commands |
| `FfeTimeline.dfy` | response timelines and request counters of the feature-flag endpoints |
| `BaseImages.dfy` | publication of base images under content-addressed tags |
| `BackendRequests.dfy`, `TraceRoot.dfy` | retries with backoff; the spans of a trace and its root |
| `IntegerText.dfy`, `Utf8.dfy` | the texts Python reads as base-16 integers; counting the characters of UTF-8 |
| `Lexicographic.dfy`, `Sorting.dfy`, `Flattening.dfy`, `Graphs.dfy`, `Bytes.dfy`, `Options.dfy` | Python's order on strings, stable sorting, nested lists joined into one, finite graphs, bytes, option types |

Three conventions run through the model.

- Threads are step systems: a state, an `Enabled` predicate and an `Apply` function, one step for a critical section or
  for a single access outside of one. Theorems hold in every state of every run.
- What Docker, the network, a clock or a random number does is a parameter (`StartOutcome`, `Choices`, `Answer`,
  `Attempt`, ...), and theorems hold for every value of it.
- An object whose methods change its fields is a class; each method is tied to a specification function of the old
  state, and the lemmas speak about runs of that function.

## Where the code and its promise part

These claims are false of the code as it stands. Each comes with the exact condition under which it holds.

- A container may start although a transitive dependency is not healthy: a container can be started on its own, and
  `stop` does not reset `healthy`, so a stale `healthy` lets a dependent pass. What is settled has settled dependencies
  in all runs from a fleet if and only if its health is chained: whoever is marked healthy has, for each dependency,
  either a terminated thread that left it healthy, or no thread on either side and a dependency that was started,
  healthy, on its own (`FleetOutcomes.AlwaysClosedIffChained`, `FleetOutcomes.StaleHealthBreaksTheChain`). Direct
  dependencies are always settled, and so are all of them when health is chained, as it is when the IPv6 scenario
  starts its backend and its agent directly (`FleetOutcomes.DirectStartsAreSafe`).
- `wait_for` may return True on account of an item that satisfied an older predicate
  (`WaitProtocol.BlockingTrueIsReliableIff`, `WaitProtocol.TrueCanLie`).
- The length signed for a file given as a base64 string counts characters: it is the length of the file if and only if
  the file is ASCII (`RemoteConfigState.SentFilesAreDescribed`, `RemoteConfigState.LengthOfNonAsciiFile`).
- `__exit__` of the agent pool leaves entries open if and only if a teardown other than the last one raises something
  that is not an `Exception` (`AgentPool.SessionBalance`).
- `in_flight` misses requests that were outstanding at a reset (`FfeTimeline.InFlightIsOutstandingIff`,
  `FfeTimeline.ResetLosesRequests`).
- Recorded files sort in the order of their numbers up to 1000 messages, and no further
  (`MessageNumbering.NamesSortIff`).
- Nothing keeps two libraries from having one tag; then, and only then, a tag can be pushed twice
  (`BaseImages.CleanIffDistinct`).

## Model

| member | source | states |
|---|---|---|
| Containers.CheckCircularDependencies | utils/_context/containers.py:294-303 | terminates on every finite graph, and raises if and only if continuing the path along dependencies meets a container twice |
| Containers.CheckFromStart | utils/_context/containers.py:280-284 | `check_circular_dependencies([])` raises if and only if a cycle is reachable from the container |
| Containers.TestedContainer.Start | utils/_context/containers.py:221-276 | the effect on `_container` and `healthy` of each outcome of a start: nothing changes if it is started already, reuse of an old container starts it and leaves `healthy` alone, and any other outcome sets `healthy` to whether all went well |
| Containers.WarmUpFollowsHealth | utils/_context/containers.py:249-276 | a warm-up follows exactly a health check that succeeds; the container is marked healthy while it lasts, and stays so if and only if it succeeds |
| Containers.TestedContainer.AsyncStartRecursive | utils/_context/containers.py:305-314 | a thread is created, at its first program point, exactly when there was none: the transition the step system uses |
| Containers.TestedContainer.Stop | utils/_context/containers.py:444-453 | the thread is forgotten; `healthy` changes only to False, and only for a container that is no longer running |
| Containers.RunInv | utils/_context/containers.py:305-333 | the invariant of every interleaving: who holds which lock, which dependencies have been spawned, joined and checked, and what the main thread has got to |
| Containers.StartsAfterDependencies | utils/_context/containers.py:318-330 | a container enters `start` only after the starter thread of every dependency has terminated and left it healthy |
| Containers.SettledStaysClosed | utils/_context/containers.py:305-333 | from a fleet whose health is chained, in every state of every run what is settled has settled dependencies |
| Containers.StartsAfterTransitiveDependencies | utils/_context/containers.py:305-333 | from such a fleet, a container enters `start` only after the thread of every transitive dependency has terminated and left it healthy |
| Containers.SpawnedAtMostOnce | utils/_context/containers.py:307-312 | in a run, the starter thread of a container is created at most once |
| Containers.HealthReadIsFinal | utils/_context/containers.py:320-325 | the health a dependent reads was left by a terminated thread, and never changes again in the run |
| Containers.FindEnabled | utils/_context/containers.py:305-325 | following locks and joins from any unfinished thread leads to an event that is enabled |
| Containers.NoDeadlock | utils/_context/containers.py:305-325 | while some starter thread is unfinished, some event is enabled |
| Containers.StepConsumesWork | utils/_context/containers.py:305-333 | every event strictly decreases a measure of the work left |
| Containers.RunIsBounded | utils/_context/containers.py:305-333 | no run is longer than the work there was at its start |
| Containers.StuckMeansFinished | utils/_context/containers.py:280-333 | a run that cannot go on has no unfinished starter and no held lock; the main thread has joined every root, or raised, the latter if and only if a cycle is reachable from a root |
| Containers.NextRound | utils/_context/containers.py:444-445 | a finished run, with any containers stopped, is a possible start of the next round; chained health stays chained if dependents of stopped containers are stopped too and no stopped one is marked healthy without having been started |
| FleetOutcomes.AlwaysClosedIffChained | utils/_context/containers.py:305-333 | for all roots, interleavings and outcomes what is settled has settled dependencies, if and only if the health of the fleet is chained |
| FleetOutcomes.LinkedBetweenRounds | utils/_context/containers.py:221-227 | between rounds the condition on a container and a dependency is that the dependency is settled, or neither has a thread and it was started, healthy, on its own |
| FleetOutcomes.DependentStartsTooEarly | utils/_context/containers.py:318-330 | in a whole family of fleets that are not chained, a run exists in which a container starts while a transitive dependency is not settled |
| FleetOutcomes.StaleHealthBreaksTheChain | utils/_context/_scenarios/ipv6.py:21-31 | such a fleet, started directly like that of the IPv6 scenario, but with a backend that is not healthy |
| FleetOutcomes.DirectStartsAreSafe | utils/_context/_scenarios/ipv6.py:21-31 | with a healthy backend the same fleet is always safe, although no thread ran for it |
| FleetOutcomes.StartedStays | utils/_context/containers.py:224-227 | a round leaves a container that was started before it as it is |
| FleetOutcomes.CarryOn | utils/_context/containers.py:305-333 | every run with outcomes fixed in advance can be carried on until nothing is left to do |
| FleetOutcomes.ProgressOfRun | utils/_context/containers.py:316-333 | in every state a container is as the round found it until its thread is done with it, and then started if and only if all dependencies are settled |
| FleetOutcomes.HealthIsPlanned | utils/_context/containers.py:305-333 | a finished first round leaves a container below a root healthy if and only if it and all its transitive dependencies start, whatever the interleaving |
| FleetOutcomes.LifeIsPlanned | utils/_context/containers.py:221-333 | such a round leaves a container below a root not started, if not all its dependencies are healthy, and else as its own outcome has it; with an old container reused, started and of no known health |
| OtelSpans.StandardTagsDecide | utils/interfaces/_open_telemetry.py:15-28 | a non-empty standard user-agent tag decides alone; the test tag is consulted only when no standard tag is set |
| OtelSpans.SpanForRequestIff | utils/interfaces/_open_telemetry.py:15-28 | with each tag by name: the span is one of the request if and only if a standard tag that is set contains the id, or none is set and the test tag contains it; never for an empty id |
| OtelSpans.CorrelatedIsLeast | utils/interfaces/_open_telemetry.py:60-97 | the reference set is closed under matching and descent, and is contained in every such set |
| OtelSpans.EverySpanIsCollected | utils/interfaces/_open_telemetry.py:71-84 | every span of every scope of every resource of every payload has its record, at its position |
| OtelSpans.OnlySpansAreCollected | utils/interfaces/_open_telemetry.py:71-84 | every record is that of a span, at its position |
| OtelSpans.PositionsFollowLoops | utils/interfaces/_open_telemetry.py:71-84 | positions strictly follow payloads, resources, scopes and spans, so there are as many records as spans |
| OtelSpans.Collect | utils/interfaces/_open_telemetry.py:67-84 | the records are `Flatten` of the payloads, which the three members above describe; the indexes are exactly the matching ones, the ids exactly their non-empty span ids |
| OtelSpans.Pass | utils/interfaces/_open_telemetry.py:89-97 | a pass only adds correlated records; it grows the set if it reports a find, and otherwise nothing is left to adopt |
| OtelSpans.FixpointIsLeast | utils/interfaces/_open_telemetry.py:88-97 | once nothing is left to adopt, the indexes are exactly those of the least set, even with cyclic parent links |
| OtelSpans.GetOtelSpans | utils/interfaces/_open_telemetry.py:60-100 | yields exactly the records of the least set, in record order and each once, after at most n + 1 passes |
| OtelSpans.ExportOrderDoesNotMatter | utils/interfaces/_open_telemetry.py:86-100 | permuting the payloads permutes what is yielded |
| Interfaces.ProxyBasedInterfaceValidator.IngestFile | utils/interfaces/_core.py:76-97 | list, ingested paths and event after the call, with the early return for a known path and for a half-written file; the event is set if the installed predicate holds of a file read for the first time |
| Interfaces.ProxyBasedInterfaceValidator.OnMessage | utils/interfaces/_mocked_backend.py:74-81 | the item is inserted in sorted position, and the event set if the installed predicate holds of it |
| Sorting.SortIsStable | utils/interfaces/_core.py:94 | items with equal file names stay in the order in which they came |
| Lexicographic.LtIff | utils/interfaces/_core.py:94 | the order of the names is decided by the first character in which they differ, a proper prefix coming first |
| Interfaces.ProxyBasedInterfaceValidator.IngestAllFiles | utils/interfaces/_mocked_backend.py:34-43 | every listed file is ingested, in sorted order, unless it was before or is half-written; the event is set if and only if it was, or the installed predicate holds of a file read for the first time |
| Interfaces.ProxyBasedInterfaceValidator.LoadDataFromLogs | utils/interfaces/_core.py:115-125 | appends the contents of the listed files in the sorted order of their paths |
| Interfaces.ProxyBasedInterfaceValidator.ScanOrInstall | utils/interfaces/_core.py:220-228 | True if and only if an item matches already; otherwise the predicate is installed and the event cleared |
| Interfaces.RunContents | utils/interfaces/_core.py:76-94 | in every reachable state the list is sorted and holds, besides messages, the content of each path read so far exactly once |
| Interfaces.FirstReadsDistinct | utils/interfaces/_core.py:78-91 | the paths that count are those tried after being fully written, each once |
| Interfaces.ArrivalOrderDoesNotMatter | utils/interfaces/_core.py:76-125 | whatever the order, the retries and who read what, the list is a permutation of the files, and the list of a replay if names are ordered like paths |
| Interfaces.IngestAllIsARun | utils/interfaces/_mocked_backend.py:34-43 | the final ingestion is one more sequence of attempts, failing on the files that are half-written |
| Interfaces.IngestAllCompletes | utils/interfaces/_mocked_backend.py:34-43 | once all listed files are complete, ingesting them gives the files each once, and the list of a replay, whatever the watchdog had tried before |
| WaitProtocol.RunInv | utils/interfaces/_core.py:76-97 | the invariant of every interleaving of feeders and waiter |
| WaitProtocol.NoLostWakeup | utils/interfaces/_core.py:214-239 | while the waiter is blocked and the list has a matching item, the event is set or a feeder is bound to set it |
| WaitProtocol.BoundThreadDelivers | utils/interfaces/_core.py:96-97 | such a feeder is always enabled, and each of its steps brings it closer to setting the event |
| WaitProtocol.OthersDoNotInterfere | utils/interfaces/_core.py:76-97 | no step of another thread takes that away, short of the waiter waking or timing out |
| WaitProtocol.BlockingTrueIsReliableIff | utils/interfaces/_core.py:214-239 | True from the blocking path always means that a matching item was ingested, if and only if no feeder was acting on an older predicate its item satisfies when the predicate was installed |
| WaitProtocol.StaleThreadLies | utils/interfaces/_core.py:96-97 | with such a feeder there is a path that wakes the waiter without a matching item |
| WaitProtocol.StaleIsReachable | utils/interfaces/_core.py:96-97 | for any two predicates and an item that tells them apart, a run from an empty interface ends with such a feeder |
| WaitProtocol.TrueCanLie | utils/interfaces/_core.py:214-239 | so a run from an empty interface wakes a waiter for whom nothing was ingested |
| MessageNumbering.MockedBackendServer.GetHandler | utils/mocked_backend/_backend.py:142-166 | handler, recorded name, export folder and counter after the call: no name for a path that begins with `/system-tests` or without a folder, and one message counted for any other path |
| MessageNumbering.Precedence | utils/mocked_backend/_backend.py:142-177 | the first matching runtime mock, else the first internal one, else the route of method and path, else the default; control requests are never mocked |
| MessageNumbering.FirstMatch | utils/mocked_backend/_backend.py:175-177 | the mock of least index whose path is the one asked for; none if and only if no mock has it |
| MessageNumbering.ControlPaths | utils/mocked_backend/_backend.py:146-153 | a query neither makes a request a control request nor stops it from being one |
| MessageNumbering.IsControlIff | utils/mocked_backend/_backend.py:151 | control requests are those whose path begins with `/system-tests` |
| MessageNumbering.MockedBackendServer.HandleMockedResponses | utils/mocked_backend/_backend.py:186-202 | the runtime mocks become exactly those of the body, in order, or the answer is 400 and they stay as they were |
| MessageNumbering.NumbersAreConsecutive | utils/mocked_backend/_backend.py:151-157 | the counter is the number of messages recorded so far, whatever control requests come in between |
| MessageNumbering.RunNamesDiffer | utils/mocked_backend/_backend.py:155-160 | no two messages recorded in a run share a file name |
| MessageNumbering.FileNameIs | utils/mocked_backend/_backend.py:160 | folder, slash, number, underscore, the path with its slashes replaced and no other character, `.json` |
| MessageNumbering.PaddedValue | utils/mocked_backend/_backend.py:160 | the digits of the name are those of the number |
| MessageNumbering.PaddedToThree | utils/mocked_backend/_backend.py:160 | there are at least three of them, and a leading zero only if there are no more |
| MessageNumbering.FileNamesDiffer | utils/mocked_backend/_backend.py:159-160 | different numbers give different names, whatever the paths and the number of digits |
| MessageNumbering.NamesSortIff | utils/mocked_backend/_backend.py:159-160 | names sort like numbers for every choice of paths if and only if there are at most 1000 messages |
| MessageNumbering.SortedListIsInNumberingOrder | utils/interfaces/_mocked_backend.py:74-78 | up to that bound the sorted list is the list in numbering order, whatever the order of arrival |
| ChunkedBody.ReadBody | utils/mocked_backend/_request_handler.py:112-131 | terminates on every stream; delivers the body and leaves unread the rest that `Decode` defines |
| ChunkedBody.ReadChunked | utils/mocked_backend/_request_handler.py:113-128 | the loop over chunks computes `Decode`, including its exceptions |
| ChunkedBody.Stream.ReadLine | utils/mocked_backend/_request_handler.py:117-127 | takes the bytes up to and with the first line feed, or all there are |
| IntegerText.TextIsRead | utils/mocked_backend/_request_handler.py:120 | every integer in base 16, digits of both cases from the tables, with sign, prefix and single underscores, is read as its value |
| IntegerText.OnlyTextsAreRead | utils/mocked_backend/_request_handler.py:120 | and nothing but such a text is read |
| IntegerText.StripsBlanks | utils/mocked_backend/_request_handler.py:120 | `strip` takes the blanks off both ends, and nothing else |
| ChunkedBody.EveryLengthRenders | utils/mocked_backend/_request_handler.py:120 | every length has a rendering, so every payload can be encoded |
| ChunkedBody.DecodeUndoesEncode | utils/mocked_backend/_request_handler.py:112-128 | for all chunks, renderings of sizes in digits of either case from literal tables with leading zeros, extensions and trailers, the reader returns the payload and stops exactly behind the encoding |
| ChunkedBody.SizeDecides | utils/mocked_backend/_request_handler.py:117-127 | behind any chunks, a size line whose text is no base-16 integer makes the reader raise; otherwise the value decides: below -1 it raises, -1 takes all there is, 0 ends the body, and more than there is takes what there is |
| ChunkedBody.TruncationIsHarmless | utils/mocked_backend/_request_handler.py:116-128 | an encoding cut anywhere is read to its end without an exception, as a prefix of its payload |
| AgentPool.AgentEnvKeyIdentifies | utils/docker_fixtures/_test_agent_pool.py:9-11 | two environments have the same key if and only if they are equal as dictionaries |
| AgentPool.KeyIsSortedItems | utils/docker_fixtures/_test_agent_pool.py:9-11 | the key is a permutation of the items, sorted by name |
| AgentPool.AnsweredIff | utils/docker_fixtures/_test_agent_pool.py:41-68 | a call is answered if and only if a new agent can be opened for an environment that has none, or the cached one is rebound, and its reset succeeds, or raises an Exception, the teardown lets no BaseException out and a new agent can be opened |
| AgentPool.CachedIsReused | utils/docker_fixtures/_test_agent_pool.py:48-55 | a cached agent that is rebound and reset is the answer; one rebind and one reset are all that happens |
| AgentPool.WhatHappens | utils/docker_fixtures/_test_agent_pool.py:41-84 | in every other case: the contexts entered, reset and closed, in order, the answer, and the number of agents created |
| AgentPool.WorkerAgentPool.AcquireFor | utils/docker_fixtures/_test_agent_pool.py:41-56 | entries, contexts and answer after a call, whichever of rebind, reset, teardown and creation raises |
| AgentPool.WorkerAgentPool.ExitPool | utils/docker_fixtures/_test_agent_pool.py:86-88 | the entries are closed in order, until one lets a BaseException out |
| AgentPool.AcquireBalanced | utils/docker_fixtures/_test_agent_pool.py:41-84 | a call keeps the balance: every context entered once, closed once unless cached, one agent per environment |
| AgentPool.RunBalanced | utils/docker_fixtures/_test_agent_pool.py:41-84 | the balance holds after every sequence of calls |
| AgentPool.AcquiredIsFresh | utils/docker_fixtures/_test_agent_pool.py:41-68 | an agent handed out is the cached one and was reset successfully in that call; an evicted one was closed; other environments are untouched |
| AgentPool.ExitEmpties | utils/docker_fixtures/_test_agent_pool.py:86-88 | the pool ends empty if and only if no teardown but the last raises a BaseException |
| AgentPool.ExitClosesInOrder | utils/docker_fixtures/_test_agent_pool.py:86-88 | what is closed are the entries in order, up to the first teardown that raises a BaseException |
| AgentPool.SessionBalance | utils/docker_fixtures/_test_agent_pool.py:37-88 | by the end of a session every context entered is closed exactly once, under that same condition and no other |
| Utf8.CharactersAreBytesIff | utils/_remote_config.py:971-976 | decoding as UTF-8 gives as many characters as there are bytes if and only if all are ASCII |
| Utf8.CountsCharacters | utils/_remote_config.py:971-976 | any Unicode scalar values, written in UTF-8, are counted as that many characters |
| Utf8.OnlyCharactersCount | utils/_remote_config.py:971-976 | whatever is counted is the UTF-8 form of that many scalar values |
| RemoteConfigState.TargetDescribesFileIff | utils/_remote_config.py:967-983 | when a config is accepted; its hash is that of its bytes, and its length too if and only if they are ASCII, as those of a dictionary are; for None both are those stored; file version and null are as given |
| RemoteConfigState.RemoteConfig.SetConfigAt | utils/_remote_config.py:1032-1040 | paths, configs and store after the call, and when it raises |
| RemoteConfigState.RemoteConfig.DelConfigAt | utils/_remote_config.py:1042-1046 | the path is gone, the others stay in order |
| RemoteConfigState.RemoteConfig.BuildPayload | utils/_remote_config.py:1065-1079 | the loop over the configs leaves out the files whose content is null, and keeps the order |
| RemoteConfigState.RemoteConfig.ApplyConfigs | utils/_remote_config.py:1081-1099 | what is sent, and the state afterwards |
| RemoteConfigState.SentPayloads | utils/_remote_config.py:1065-1099 | in every run the i-th payload sent is announced and signed with version i, and signs exactly the paths it lists |
| RemoteConfigState.SentFilesAreDescribed | utils/_remote_config.py:964-1099 | in every run, every file of every payload sent is signed with the hash of its bytes, and with their number if and only if they are ASCII |
| RemoteConfigState.LengthOfNonAsciiFile | utils/_remote_config.py:971-976 | a run that sends a file of four bytes signed with length three |
| RemoteConfigState.ResetPendingIff | utils/_remote_config.py:1048-1092 | a reset is pending if and only if some reset has no apply after it |
| RemoteConfigState.ApplySends | utils/_remote_config.py:1081-1099 | an apply sends the current configs, targets and files, after exactly one empty payload if and only if some reset has no apply after it, there are configs, and the library is golang or java; the configs stay |
| RemoteConfigState.FilesAreExact | utils/_remote_config.py:1068-1074 | the files sent are those of the current paths whose content is not null, with their raw bytes |
| RemoteConfigState.FilesFollowOrder | utils/_remote_config.py:1068-1074 | the files come in the order of the paths |
| RemoteConfigState.CurrentPaths | utils/_remote_config.py:1032-1052 | a path is current if and only if it was set and not removed since; its file and file version are those of the last successful set |
| RemoteConfigState.OrderFollowsInsertion | utils/_remote_config.py:1032-1052 | the current paths are listed in the order in which each was set while it was not current, for the last time |
| RemoteConfigState.StoreIsHistory | utils/_remote_config.py:974-983 | the store holds the last config any operation gave a path, whatever was removed or reset since |
| RemoteConfigAck.PendingApply.RemoteConfigApplied | utils/_remote_config.py:314-355 | configs and answer of the callback for one poll |
| RemoteConfigAck.PlaceholderIs | utils/_remote_config.py:303-311 | what an awaited config starts with: state 0, the literal error, no other field, not acknowledged |
| RemoteConfigAck.MatchingExtends | utils/_remote_config.py:332-341 | the reports about a config are those with its id and its product, in order |
| RemoteConfigAck.ReportsExtend | utils/_remote_config.py:316-333 | only polls of the configuration endpoint with the awaited version count |
| RemoteConfigAck.OverlayIsLast | utils/_remote_config.py:341 | each field is that of the last report that has it, else the one from before |
| RemoteConfigAck.AcknowledgedIff | utils/_remote_config.py:344-347 | a config is acknowledged if and only if the last report about it that has a state has one other than 0 |
| RemoteConfigAck.StatesAreOverlays | utils/_remote_config.py:300-342 | after any polls the awaited ids are unchanged, and each entry is its placeholder overlaid, in order, by the reports of its id and product from polls of the awaited version |
| RemoteConfigAck.WaitEndsIff | utils/_remote_config.py:329-355 | a poll ends the wait if and only if it has the awaited version and, when acknowledgement is required, leaves no awaited config UNKNOWN; with nothing awaited, if and only if it reports the state version and no config |
| CombinedCommand.ApplyGiven | utils/_remote_config.py:878-888 | exactly the options that were given are overwritten, each under its own key |
| CombinedCommand.PrevPayloads.SendCombined | utils/_remote_config.py:857-952 | the list is left with one configuration, whose fields are the fixed ones, the given ones and the inherited ones; the command carries it and the probes |
| CombinedCommand.PrevPayloads.BuildLibConfig | utils/_remote_config.py:857-888 | every field of the new configuration: its own value if the call gives one, else the fixed one (`all`, `latest`, True), else the inherited one |
| CombinedCommand.CamelOfPair | utils/_remote_config.py:905 | an underscore and a small letter, wherever they stand, become the capital |
| CombinedCommand.CamelWithoutPairs | utils/_remote_config.py:905 | a text without such a pair stays as it is |
| CombinedCommand.PathsAre | utils/_remote_config.py:897-906 | the literal paths, and that of a log probe |
| CombinedCommand.PrevPayloads.BuildFiles | utils/_remote_config.py:897-909 | the files are the configuration and the probes, each under its path and no others, of probes with one path the last |
| CombinedCommand.PrevPayloads.SendAll | utils/_remote_config.py:946-948 | after any commands but none, the list holds exactly one configuration, reached through the history of all calls |
| CombinedCommand.MostRecentIs | utils/_remote_config.py:865-888 | the reference value is the one given by the last call that gave any |
| CombinedCommand.OptionsAreMostRecent | utils/_remote_config.py:865-888 | an option is present if and only if some call gave it or it was there at the start, with the most recent value |
| FfeTimeline.ValidateAcceptsIff | utils/mocked_backend/_backend_ffe.py:214-234 | accepted are exactly the non-empty lists of known responses of a known format, unchanged |
| FfeTimeline.RefusedUnless | utils/mocked_backend/_backend_ffe.py:214-226 | anything but a non-empty list of texts, or a format under another name, is refused; `json` and `protobuf` name the formats |
| FfeTimeline.JsonStatuses | utils/mocked_backend/_backend_ffe.py:237-248 | 401, 304, 500 and 200, each with exactly the responses that give it |
| FfeTimeline.ProtobufStatuses | utils/mocked_backend/_backend_ffe.py:374-408 | the same for protobuf: 403, 302, 500 and 200 |
| FfeTimeline.ServableIffValid | utils/mocked_backend/_backend_ffe.py:237-248 | the handler of a format knows a response if and only if the validation lets it in |
| FfeTimeline.EveryResponseIsServable | utils/mocked_backend/_backend_ffe.py:130-167 | in every run timelines are non-empty and valid, so no handler raises on its response |
| FfeTimeline.MockedBackendFFEState.Record | utils/mocked_backend/_backend_ffe.py:151-167 | the head of the timeline is served and, unless it is the last, removed; counters move by one; path, headers and request are observed |
| FfeTimeline.MockedBackendFFEState.SetTimeline | utils/mocked_backend/_backend_ffe.py:143-149 | a valid list replaces one timeline and clears the statuses and the last If-None-Match; an invalid one changes nothing |
| FfeTimeline.MockedBackendFFEState.HandleConfig | utils/mocked_backend/_backend_ffe.py:349-366 | a request served alone records the status of its response, leaves nothing in flight, and does not touch the other format |
| FfeTimeline.KthRequest | utils/mocked_backend/_backend_ffe.py:143-167 | k requests after its timeline was set, a format has the timeline from element min(k, n - 1) on, whatever the other format, the responses and the past did |
| FfeTimeline.DefaultRequest | utils/mocked_backend/_backend_ffe.py:117-120 | until a timeline is set, every request gets `valid` |
| FfeTimeline.StatusesSinceChange | utils/mocked_backend/_backend_ffe.py:130-172 | the statuses kept are those recorded since the last reset or accepted change of a timeline, in order, and the last status is the last of them |
| FfeTimeline.RequestsSinceReset | utils/mocked_backend/_backend_ffe.py:130-162 | listed and counted are exactly the requests since the last reset, of both formats, in order |
| FfeTimeline.LastRequestIsObserved | utils/mocked_backend/_backend_ffe.py:143-161 | until the next request or reset, path, key and If-None-Match are those of the last request, the latter unless a timeline was changed since |
| FfeTimeline.InFlightExact | utils/mocked_backend/_backend_ffe.py:130-176 | `in_flight` is the number of outstanding requests less the least number there was at any moment since the last reset |
| FfeTimeline.InFlightIsOutstandingIff | utils/mocked_backend/_backend_ffe.py:130-176 | it never exceeds the outstanding requests, and equals them if and only if none was outstanding at some moment since the last reset |
| FfeTimeline.QuietResetsAreExact | utils/mocked_backend/_backend_ffe.py:130-176 | it equals them if no reset came while requests were outstanding |
| FfeTimeline.ResetLosesRequests | utils/mocked_backend/_backend_ffe.py:130-134 | a run with a reset after which two requests are outstanding and one is counted |
| FfeTimeline.MaxInFlightIsPeak | utils/mocked_backend/_backend_ffe.py:155-158 | `max_in_flight` is the largest value of `in_flight` since the last reset |
| BaseImages.PlatformTagsDiffer | utils/base_images/build_base_images.py:78-80 | a platform tag is never a content-hash tag, and determines its tag and platform |
| BaseImages.PlatformTagsAre | utils/base_images/build_base_images.py:75-80 | the two platforms, and the tags their images get |
| BaseImages.ArchitectureOf | utils/base_images/build_base_images.py:80 | the part of a platform behind its last slash, or all of it |
| BaseImages.ContentTagIff | utils/base_images/build_base_images.py:256-258 | a content-addressed tag is a base, a dash, and twelve characters without a dash |
| BaseImages.AliasIsOfBase | utils/base_images/build_base_images.py:256-259 | the alias is asked for the part of the tag before its hash, and only if that has twelve characters |
| BaseImages.RpartitionSplits | utils/base_images/build_base_images.py:256-257 | the parts, joined, are the whole, the last has no separator, and there are none if and only if there is no separator |
| BaseImages.RpartitionOf | utils/base_images/build_base_images.py:256-257 | splitting at the last separator gives back the parts that were joined |
| BaseImages.LockImages | utils/base_images/build_base_images.py:251-265 | succeeds if and only if every tag is content-addressed with an alias and no two aliases are equal; then the lock maps exactly the aliases to their tags |
| BaseImages.LockedTagsDiffer | utils/base_images/build_base_images.py:251-265 | targets of one library that can be locked have different tags |
| BaseImages.Docker.ImageExists | utils/base_images/build_base_images.py:343-379 | the first conclusive inspection answers; without one the call fails |
| BaseImages.Docker.BuildPlatform | utils/base_images/build_base_images.py:418-431 | registry and verdict are those of the worker of this step, run alone |
| BaseImages.Docker.MergePlatforms | utils/base_images/build_base_images.py:434-450 | the same for the merge, with its loop over the platforms |
| BaseImages.AloneBuilds | utils/base_images/build_base_images.py:418-431 | a build succeeds if and only if the inspections it makes decide and, where neither its tag nor that of the platform exists, its push is accepted; it adds the tag of the platform or nothing |
| BaseImages.AloneMerges | utils/base_images/build_base_images.py:434-450 | a merge succeeds if and only if the inspections it makes decide and, where its tag does not exist, both sources do and its push is accepted; it adds the tag with both sources or nothing |
| BaseImages.RunInv | utils/base_images/build_base_images.py:418-465 | the invariant of every interleaving of workers, with failing pushes: what each worker knows, what the registry gained, what the finished steps achieved |
| BaseImages.NeverOverwrites | utils/base_images/build_base_images.py:418-465 | with different tags no push ever goes to a tag that exists, and the registry only grows |
| BaseImages.CleanIffDistinct | utils/base_images/build_base_images.py:418-465 | no run pushes to an existing tag if and only if the targets have different tags |
| BaseImages.SharedTagOverwrites | utils/base_images/build_base_images.py:418-431 | two targets with one tag have a run in which the second push hits the first |
| BaseImages.ManifestsAreComplete | utils/base_images/build_base_images.py:434-450 | a multi-arch tag the tool created has exactly its platform tags as sources, and all of them are in the registry |
| BaseImages.CompletedRunPublishes | utils/base_images/build_base_images.py:599-614 | a run that completes its steps, the last being the merge, has published every target |
| BaseImages.SecondRunPushesNothing | utils/base_images/build_base_images.py:418-450 | where every target is published, a run attempts no push and changes nothing |
| BaseImages.FullRunFailsOnlyFromOutside | utils/base_images/build_base_images.py:599-614 | a full run with conclusive inspections and accepted pushes never fails, in particular the merge misses no image |
| BaseImages.GoodRunPublishes | utils/base_images/build_base_images.py:599-614 | such a run, carried on as long as it can be, has published every target |
| BaseImages.FindEnabled | utils/base_images/build_base_images.py:453-465 | while steps remain and no target has failed, something can be done |
| BaseImages.RunIsBounded | utils/base_images/build_base_images.py:453-465 | no run takes more than four events a target, and one more, for each step |
| BackendRequests.MakeRequest | utils/onboarding/backend_interface.py:119-168 | the loop makes exactly the requests and sleeps of its recursive specification, and ends as it says |
| BackendRequests.NeverOversleeps | utils/onboarding/backend_interface.py:161-165 | every sleep, rate limits included, is due to end before the overall timeout, and sleeps do not overlap |
| BackendRequests.RequestsAndSleeps | utils/onboarding/backend_interface.py:138-168 | never more requests than attempts allowed; a sleep between any two; it returns if and only if the last response was a success, it lets an exception out if and only if the last one raised, and nothing before was either |
| BackendRequests.SleepsAreScheduled | utils/onboarding/backend_interface.py:147-166 | each sleep begins after the last one and its request, and lasts as long as the rate limit says, else the last delay times the factor, plus jitter |
| BackendRequests.TimeoutIsJustified | utils/onboarding/backend_interface.py:160-163 | the overall timeout is raised only when the next sleep of that schedule would not end before it |
| BackendRequests.BackoffBound | utils/onboarding/backend_interface.py:158-166 | without rate limits n sleeps take at least n terms of the geometric series, which stay below the timeout |
| BackendRequests.DoublingBound | utils/onboarding/backend_interface.py:119-168 | with factor 2, n sleeps imply retry_delay * (2^n - 1) < overall_timeout |
| BackendRequests.DefaultsMakeNineRequests | utils/onboarding/backend_interface.py:119-130 | with the defaults there are at most nine requests, and the retries are never exhausted |
| BackendRequests.NineRequestsHappen | utils/onboarding/backend_interface.py:119-130 | nine is reached |
| TraceRoot.MetaPrecedence | utils/onboarding/backend_interface.py:290-302 | a key of the span wins over the chunk, the chunk over the payload, and no other keys appear |
| TraceRoot.OfTraceIff | utils/onboarding/backend_interface.py:282-293 | in v1 a span is one of the trace if and only if the id is the low 64 bits of that of its chunk, before that if it carries the id |
| TraceRoot.SpanKeeps | utils/onboarding/backend_interface.py:286-302 | ids and start are those of the span; of a v1 chunk it gets exactly the attributes whose names begin with `_dd.p.` |
| TraceRoot.TraceSpansAreExact | utils/onboarding/backend_interface.py:274-303 | the spans of the trace are, of all spans of all chunks of all payloads of all messages that could be deserialized, those of the trace, in the same order |
| TraceRoot.PlacesFollowLoops | utils/onboarding/backend_interface.py:274-303 | that order is by message, payload, chunk and span |
| TraceRoot.CollectSpans | utils/onboarding/backend_interface.py:274-303 | the nested loops insert exactly the spans of the trace, in order |
| TraceRoot.LastOccurrenceWins | utils/onboarding/backend_interface.py:299-303 | the map holds exactly the ids of the spans of the trace, each once in order, with its last occurrence |
| TraceRoot.OrderFollowsFirstOccurrences | utils/onboarding/backend_interface.py:299-303 | the ids are kept in the order in which they first occur, even if a later span replaces theirs |
| TraceRoot.FirstMin | utils/onboarding/backend_interface.py:311 | the first of the spans that start earliest |
| TraceRoot.GetMockedBackendTrace | utils/onboarding/backend_interface.py:268-315 | None if and only if the trace has no span; otherwise the map and the chosen root |
| TraceRoot.RootIsEarliest | utils/onboarding/backend_interface.py:308-311 | the root was collected; if some collected span has a parent that was not, it is one of those and none of them starts earlier, else no span does; of several equally early, it is the one whose id was collected first |
| TraceRoot.RootExistsIff | utils/onboarding/backend_interface.py:308-311 | a span whose parent was not collected exists if and only if some collected span does not lead into a cycle of parent links |

## Left out

- Docker, HTTP, the file system, threads' scheduling and clocks: each call is a nondeterministic outcome.
- Containers: network, volumes, image handling, log collection and the bodies of `warmup` and health checks; `stop` happens between rounds of starts, not while starter threads run.
- Containers: the overriding `start` methods of subclasses; a start either returns or raises, it does not hang.
- WaitProtocol: one waiter at a time, predicates without side effects, and the two reads of `_wait_for_function` on one line taken as one.
- Interfaces: the fields of an item other than its file name are one opaque content; `replay` makes `wait_for` return True at once and is not modelled.
- OtelSpans: payloads whose `scopeSpans` or `spans` are missing raise in the code and are not modelled; the generator is consumed to its end.
- MessageNumbering: handlers are identified by name, mocks by path and answer; deserialization and export of contents.
- ChunkedBody: the decision whether a body is chunked, a Content-Length that is no number, Content-Encoding decompression, and `deserialize`.
- AgentPool: what `clear` and `reset_remote_config` do to an agent beyond succeeding or raising, and a teardown that raises inside `_open_entry`.
- RemoteConfigState: base64 and JSON text are given as the bytes they stand for; a hash is the bytes that were hashed; the signature beyond its version and targets; base64 strings that are not JSON; one target with its own store, where the code shares the store between two; `send_state` raising.
- RemoteConfigAck: the decoding of the payload that yields the awaited configs, and polls with malformed entries.
- CombinedCommand.PrevPayloads.SendCombined: the random part of a path and the lower-casing of probe types are given; the translation to the SDK shape is a mark on the file; signing and waiting are those of the other modules.
- FfeTimeline: response bodies and headers, delays, the parsing of a path and the lower-casing of header names; an exception of the operating system inside a handler only skips `record_response`.
- BaseImages: bake files, build contexts and `compute_hash` (its input does not determine a context, so nothing is claimed about equal hashes), the normalization inside `alias_for_base_tag` (taken as a function), sorting and writing of the lock, writers other than this run, the limit of eight workers (every interleaving is allowed).
- BackendRequests: request timeouts and parsing of rate-limit headers; times are exact real numbers.
- TraceRoot.GetMockedBackendTrace: metrics, and the parsing of JSON values inside `meta`; the rounding of start times to seconds (a start is the converted number).
