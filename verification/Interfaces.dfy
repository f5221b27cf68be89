/**
 * utils/interfaces/_core.py and _mocked_backend.py: the sorted list of what an interface received, the
 * threads that feed it, and the thread that waits for one of its items.
 */
module Interfaces {
  import opened Lexicographic
  import opened Options
  import opened Sorting

  datatype Data = Data(logFilename: string, content: string)

  function LogFilename(d: Data): string {
    d.logFilename
  }

  /** What opening a file finds: a JSON document, or one that is still being written. */
  datatype File = Unfinished | Complete(data: Data)

  datatype Store = Store(dataList: seq<Data>, ingestedFiles: set<string>)

  type Predicate = Data -> bool

  /** The critical section of `_on_message`, and the tail of the one of `ingest_file`. */
  function Receive(s: Store, d: Data): Store {
    s.(dataList := StableSort(s.dataList + [d], LogFilename))
  }

  /** The critical section of `ingest_file`, and the data it appended. */
  function Ingest(s: Store, path: string, file: File): (Store, Option<Data>) {
    if path in s.ingestedFiles || file.Unfinished? then (s, None)
    else (Receive(s, file.data).(ingestedFiles := s.ingestedFiles + {path}), Some(file.data))
  }

  /** What each path holds once it is fully written. */
  type Disk = string -> Data

  function Identity(path: string): string {
    path
  }

  /** What a replay builds from a directory listing, in whatever order the listing comes. */
  function Replay(disk: Disk, listing: seq<string>): seq<Data> {
    Map(disk, StableSort(listing, Identity))
  }

  /** What opening each path finds at the moment. */
  type Reader = string -> File

  function IngestAll(s: Store, reader: Reader, paths: seq<string>): Store
    decreases paths
  {
    if paths == [] then s else IngestAll(Ingest(s, paths[0], reader(paths[0])).0, reader, paths[1..])
  }

  predicate SomeMatch(list: seq<Data>, f: Predicate) {
    exists i :: 0 <= i < |list| && f(list[i])
  }

  /** The file is read for the first time, and its content is what the waiter looks for. */
  predicate Wakes(seen: set<string>, path: string, file: File, f: Option<Predicate>) {
    path !in seen && file.Complete? && f.Some? && f.value(file.data)
  }

  ghost predicate SomeWakes(seen: set<string>, reader: Reader, paths: seq<string>, f: Option<Predicate>) {
    exists p :: p in paths && Wakes(seen, p, reader(p), f)
  }

  /** After trying these paths, those that were complete are ingested as well. */
  ghost predicate Progress(seen: set<string>, now: set<string>, reader: Reader, paths: seq<string>) {
    forall p :: p in now <==> p in seen || (p in paths && reader(p).Complete?)
  }

  lemma OneMoreFile(
      seen: set<string>, now: set<string>, reader: Reader, paths: seq<string>, path: string, f: Option<Predicate>)
    requires Progress(seen, now, reader, paths)
    ensures SomeWakes(seen, reader, paths + [path], f) <==>
            SomeWakes(seen, reader, paths, f) || Wakes(now, path, reader(path), f)
    ensures Progress(seen, if reader(path).Complete? then now + {path} else now, reader, paths + [path])
  {
    if Wakes(now, path, reader(path), f) {
      assert path in paths + [path] && Wakes(seen, path, reader(path), f);
    }
    if p :| p in paths && Wakes(seen, p, reader(p), f) {
      assert p in paths + [path];
    }
  }

  lemma SameFilesWake(seen: set<string>, reader: Reader, listing: seq<string>, f: Option<Predicate>)
    ensures SomeWakes(seen, reader, StableSort(listing, Identity), f) <==> SomeWakes(seen, reader, listing, f)
  {
    StableSortCorrect(listing, Identity);
    assert forall p :: p in listing <==> p in multiset(listing);
    assert forall p :: p in StableSort(listing, Identity) <==> p in multiset(listing);
  }

  class ProxyBasedInterfaceValidator {
    var dataList: seq<Data>
    var ingestedFiles: set<string>
    var waitForFunction: Option<Predicate>
    var waitForEvent: bool

    constructor ()
      ensures View() == Store([], {}) && waitForFunction == None && !waitForEvent
    {
      dataList, ingestedFiles, waitForFunction, waitForEvent := [], {}, None, false;
    }

    ghost function View(): Store
      reads this
    {
      Store(dataList, ingestedFiles)
    }

    /** The whole of `ingest_file`, no other thread interfering. */
    method IngestFile(srcPath: string, file: File)
      modifies this`dataList, this`ingestedFiles, this`waitForEvent
      ensures View() == Ingest(old(View()), srcPath, file).0
      ensures waitForEvent == (old(waitForEvent) || Wakes(old(ingestedFiles), srcPath, file, waitForFunction))
    {
      if srcPath in ingestedFiles {
        return;
      }
      if file.Unfinished? {
        return;
      }
      dataList := dataList + [file.data];
      ingestedFiles := ingestedFiles + {srcPath};
      dataList := StableSort(dataList, LogFilename);
      if waitForFunction.Some? && waitForFunction.value(file.data) {
        waitForEvent := true;
      }
    }

    method OnMessage(data: Data)
      modifies this`dataList, this`waitForEvent
      ensures View() == Receive(old(View()), data)
      ensures waitForEvent == (old(waitForEvent) || (waitForFunction.Some? && waitForFunction.value(data)))
    {
      dataList := dataList + [data];
      dataList := StableSort(dataList, LogFilename);
      if waitForFunction.Some? && waitForFunction.value(data) {
        waitForEvent := true;
      }
    }

    method IngestAllFiles(reader: Reader, listing: seq<string>)
      modifies this`dataList, this`ingestedFiles, this`waitForEvent
      ensures View() == IngestAll(old(View()), reader, StableSort(listing, Identity))
      ensures waitForEvent ==
                (old(waitForEvent) || SomeWakes(old(ingestedFiles), reader, listing, waitForFunction))
    {
      var files := StableSort(listing, Identity);
      for i := 0 to |files|
        invariant IngestAll(View(), reader, files[i..]) == IngestAll(old(View()), reader, files)
        invariant Progress(old(ingestedFiles), ingestedFiles, reader, files[..i])
        invariant waitForEvent ==
                  (old(waitForEvent) || SomeWakes(old(ingestedFiles), reader, files[..i], waitForFunction))
      {
        assert files[..i + 1] == files[..i] + [files[i]];
        OneMoreFile(old(ingestedFiles), ingestedFiles, reader, files[..i], files[i], waitForFunction);
        IngestFile(files[i], reader(files[i]));
      }
      assert files[..|files|] == files;
      SameFilesWake(old(ingestedFiles), reader, listing, waitForFunction);
    }

    method LoadDataFromLogs(disk: Disk, listing: seq<string>)
      modifies this`dataList
      ensures dataList == old(dataList) + Replay(disk, listing)
    {
      var files := StableSort(listing, Identity);
      for i := 0 to |files|
        invariant dataList == old(dataList) + Map(disk, files[..i])
      {
        dataList := dataList + [disk(files[i])];
        MapConcat(disk, files[..i], [files[i]]);
        assert files[..i] + [files[i]] == files[..i + 1];
      }
      assert files[..|files|] == files;
    }

    /** The critical section of `wait_for`: either an item is there, or the predicate is installed. */
    method ScanOrInstall(f: Predicate) returns (found: bool)
      modifies this`waitForFunction, this`waitForEvent
      ensures found <==> SomeMatch(dataList, f)
      ensures found ==> waitForFunction == old(waitForFunction) && waitForEvent == old(waitForEvent)
      ensures !found ==> waitForFunction == Some(f) && !waitForEvent
    {
      for i := 0 to |dataList|
        invariant forall j :: 0 <= j < i ==> !f(dataList[j])
        invariant waitForFunction == old(waitForFunction) && waitForEvent == old(waitForEvent)
      {
        if f(dataList[i]) {
          return true;
        }
      }
      waitForEvent := false;
      waitForFunction := Some(f);
      return false;
    }
  }

  /******* Every way into the list *******/

  /** An attempt of the watchdog or of `ingest_all_files` on a path, or a message of the in-process server. */
  datatype Arrival = Attempt(path: string, finished: bool) | Message(data: Data)

  function Arrive(s: Store, disk: Disk, a: Arrival): Store {
    match a
    case Attempt(path, finished) => Ingest(s, path, if finished then Complete(disk(path)) else Unfinished).0
    case Message(d) => Receive(s, d)
  }

  function Run(s: Store, disk: Disk, arrivals: seq<Arrival>): Store
    decreases arrivals
  {
    if arrivals == [] then s else Run(Arrive(s, disk, arrivals[0]), disk, arrivals[1..])
  }

  /** The paths read for the first time, in the order in which they were. */
  function FirstReads(seen: set<string>, arrivals: seq<Arrival>): seq<string>
    decreases arrivals
  {
    if arrivals == [] then []
    else if IsFirstRead(seen, arrivals[0]) then
      [arrivals[0].path] + FirstReads(seen + {arrivals[0].path}, arrivals[1..])
    else FirstReads(seen, arrivals[1..])
  }

  function Messages(arrivals: seq<Arrival>): seq<Data> {
    if arrivals == [] then []
    else (if arrivals[0].Message? then [arrivals[0].data] else []) + Messages(arrivals[1..])
  }

  lemma {:induction false} FirstReadsDistinct(seen: set<string>, arrivals: seq<Arrival>)
    ensures Distinct(FirstReads(seen, arrivals))
    ensures forall p :: p in FirstReads(seen, arrivals) <==> p !in seen && Attempt(p, true) in arrivals
    decreases arrivals
  {
    if arrivals != [] {
      assert arrivals == [arrivals[0]] + arrivals[1..];
      FirstReadsDistinct(if IsFirstRead(seen, arrivals[0]) then seen + {arrivals[0].path} else seen, arrivals[1..]);
    }
  }

  lemma ReceiveContents(s: Store, d: Data)
    ensures Sorted(Receive(s, d).dataList, LogFilename)
    ensures multiset(Receive(s, d).dataList) == multiset(s.dataList) + multiset{d}
  {
    StableSortCorrect(s.dataList + [d], LogFilename);
  }

  /** In every reachable state the list is sorted, and holds the content of each path that was read exactly once. */
  lemma {:induction false} RunContents(s: Store, disk: Disk, arrivals: seq<Arrival>)
    requires Sorted(s.dataList, LogFilename)
    ensures var r := Run(s, disk, arrivals);
      && Sorted(r.dataList, LogFilename)
      && (forall p :: p in r.ingestedFiles <==> p in s.ingestedFiles || p in FirstReads(s.ingestedFiles, arrivals))
      && multiset(r.dataList) == multiset(s.dataList)
           + multiset(Map(disk, FirstReads(s.ingestedFiles, arrivals))) + multiset(Messages(arrivals))
    decreases arrivals
  {
    if arrivals != [] {
      var a, s' := arrivals[0], Arrive(s, disk, arrivals[0]);
      var read, rest := Read(s.ingestedFiles, a), FirstReads(s'.ingestedFiles, arrivals[1..]);
      ArriveContents(s, disk, a);
      RunContents(s', disk, arrivals[1..]);
      FirstReadsSplit(s.ingestedFiles, s'.ingestedFiles, arrivals);
      MapConcat(disk, read, rest);
    }
  }

  predicate IsFirstRead(seen: set<string>, a: Arrival) {
    a.Attempt? && a.finished && a.path !in seen
  }

  function Read(seen: set<string>, a: Arrival): seq<string> {
    if IsFirstRead(seen, a) then [a.path] else []
  }

  function Sent(a: Arrival): seq<Data> {
    if a.Message? then [a.data] else []
  }

  lemma FirstReadsSplit(seen: set<string>, seen': set<string>, arrivals: seq<Arrival>)
    requires arrivals != []
    requires forall p :: p in seen' <==> p in seen || p in Read(seen, arrivals[0])
    ensures FirstReads(seen, arrivals) == Read(seen, arrivals[0]) + FirstReads(seen', arrivals[1..])
    ensures Messages(arrivals) == Sent(arrivals[0]) + Messages(arrivals[1..])
  {
    if IsFirstRead(seen, arrivals[0]) {
      assert seen' == seen + {arrivals[0].path};
    } else {
      assert seen' == seen;
    }
  }

  lemma ArriveContents(s: Store, disk: Disk, a: Arrival)
    requires Sorted(s.dataList, LogFilename)
    ensures var r, read := Arrive(s, disk, a), Read(s.ingestedFiles, a);
      && Sorted(r.dataList, LogFilename)
      && (forall p :: p in r.ingestedFiles <==> p in s.ingestedFiles || p in read)
      && multiset(r.dataList) == multiset(s.dataList) + multiset(Map(disk, read)) + multiset(Sent(a))
  {
    if a.Message? {
      ReceiveContents(s, a.data);
    } else if IsFirstRead(s.ingestedFiles, a) {
      ReceiveContents(s, disk(a.path));
      assert Map(disk, [a.path]) == [disk(a.path)];
      assert Arrive(s, disk, a).dataList == Receive(s, disk(a.path)).dataList;
    }
  }

  /** The names of the recorded files are ordered like their paths. */
  ghost predicate NamedLikePaths(disk: Disk, listing: seq<string>) {
    forall p, q :: p in listing && q in listing && Lt(p, q) ==> Lt(disk(p).logFilename, disk(q).logFilename)
  }

  /**
   * Whatever the arrival order, the retries after half-written files, and who read which file: the list
   * is the one a replay builds.
   */
  lemma ArrivalOrderDoesNotMatter(disk: Disk, arrivals: seq<Arrival>, listing: seq<string>)
    requires Distinct(listing) && Messages(arrivals) == []
    requires forall p :: p in listing <==> Attempt(p, true) in arrivals
    ensures multiset(Run(Store([], {}), disk, arrivals).dataList) == multiset(Map(disk, listing))
    ensures NamedLikePaths(disk, listing) ==> Run(Store([], {}), disk, arrivals).dataList == Replay(disk, listing)
  {
    var firstReads := FirstReads({}, arrivals);
    RunContents(Store([], {}), disk, arrivals);
    FirstReadsDistinct({}, arrivals);
    DistinctListings(firstReads, listing);
    MapPermuted(disk, firstReads, listing);
    if NamedLikePaths(disk, listing) {
      ReplayIsSorted(disk, listing);
      SortedUnique(Replay(disk, listing), Run(Store([], {}), disk, arrivals).dataList, LogFilename);
    }
  }

  lemma ReplayIsSorted(disk: Disk, listing: seq<string>)
    requires Distinct(listing) && NamedLikePaths(disk, listing)
    ensures multiset(Replay(disk, listing)) == multiset(Map(disk, listing))
    ensures Sorted(Replay(disk, listing), LogFilename)
    ensures NamesIdentify(Replay(disk, listing))
  {
    var files := StableSort(listing, Identity);
    StableSortCorrect(listing, Identity);
    MapPermuted(disk, files, listing);
    assert forall p :: p in files <==> p in multiset(files);
    assert forall p :: p in listing <==> p in multiset(listing);
    NamesFollowPaths(disk, files);
  }

  ghost predicate NamesIdentify(list: seq<Data>) {
    forall x, y :: x in multiset(list) && y in multiset(list) && LogFilename(x) == LogFilename(y) ==> x == y
  }

  lemma NamesFollowPaths(disk: Disk, files: seq<string>)
    requires Sorted(files, Identity) && NamedLikePaths(disk, files)
    ensures Sorted(Map(disk, files), LogFilename) && NamesIdentify(Map(disk, files))
  {
    NamesAreSorted(disk, files);
    var list := Map(disk, files);
    forall x, y | x in multiset(list) && y in multiset(list) && LogFilename(x) == LogFilename(y) ensures x == y {
      var i := OnDisk(disk, files, x);
      var j := OnDisk(disk, files, y);
      NameIdentifies(disk, files, i, j);
    }
  }

  lemma OnDisk(disk: Disk, files: seq<string>, x: Data) returns (i: nat)
    requires x in multiset(Map(disk, files))
    ensures i < |files| && x == disk(files[i])
  {
    var list := Map(disk, files);
    assert x in list;
    i :| i < |list| && list[i] == x;
  }

  lemma NamesAreSorted(disk: Disk, files: seq<string>)
    requires Sorted(files, Identity) && NamedLikePaths(disk, files)
    ensures Sorted(Map(disk, files), LogFilename)
  {
    var list := Map(disk, files);
    forall i, j | 0 <= i < j < |list| ensures Le(LogFilename(list[i]), LogFilename(list[j])) {
      NamesInOrder(disk, files, i, j);
    }
  }

  lemma NamesInOrder(disk: Disk, files: seq<string>, i: nat, j: nat)
    requires Sorted(files, Identity) && NamedLikePaths(disk, files) && i < j < |files|
    ensures Le(LogFilename(disk(files[i])), LogFilename(disk(files[j])))
  {
    assert Le(Identity(files[i]), Identity(files[j]));
  }

  lemma NameIdentifies(disk: Disk, files: seq<string>, i: nat, j: nat)
    requires NamedLikePaths(disk, files) && i < |files| && j < |files|
    requires LogFilename(disk(files[i])) == LogFilename(disk(files[j]))
    ensures files[i] == files[j]
  {
    LtTrichotomy(files[i], files[j]);
    LtTrichotomy(LogFilename(disk(files[i])), LogFilename(disk(files[j])));
  }

  function AttemptWith(reader: Reader): string -> Arrival {
    path => Attempt(path, reader(path).Complete?)
  }

  /** `reader` finds on each path either a half-written file or what the path is to hold. */
  ghost predicate Reads(reader: Reader, disk: Disk, paths: seq<string>) {
    forall p :: p in paths && reader(p).Complete? ==> reader(p).data == disk(p)
  }

  /** Ingesting every listed file is one more sequence of attempts. */
  lemma {:induction false} IngestAllIsARun(s: Store, disk: Disk, reader: Reader, paths: seq<string>)
    requires Reads(reader, disk, paths)
    ensures IngestAll(s, reader, paths) == Run(s, disk, Map(AttemptWith(reader), paths))
    decreases paths
  {
    if paths != [] {
      assert paths[0] in paths;
      IngestAllIsARun(Ingest(s, paths[0], reader(paths[0])).0, disk, reader, paths[1..]);
    }
  }

  lemma {:induction false} RunConcat(s: Store, disk: Disk, a: seq<Arrival>, b: seq<Arrival>)
    ensures Run(s, disk, a + b) == Run(Run(s, disk, a), disk, b)
    decreases a
  {
    if a == [] {
      assert a + b == b;
    } else {
      assert (a + b)[1..] == a[1..] + b;
      RunConcat(Arrive(s, disk, a[0]), disk, a[1..], b);
    }
  }

  lemma {:induction false} NoMessages(arrivals: seq<Arrival>)
    ensures Messages(arrivals) == [] <==> forall i :: 0 <= i < |arrivals| ==> arrivals[i].Attempt?
  {
    if arrivals != [] {
      assert arrivals == [arrivals[0]] + arrivals[1..];
      NoMessages(arrivals[1..]);
    }
  }

  lemma AttemptsCover(reader: Reader, files: seq<string>, p: string)
    ensures Attempt(p, true) in Map(AttemptWith(reader), files) <==> p in files && reader(p).Complete?
  {
    var attempts := Map(AttemptWith(reader), files);
    if p in files && reader(p).Complete? {
      var i :| 0 <= i < |files| && files[i] == p;
      assert attempts[i] == Attempt(p, true);
    }
  }

  /**
   * Once every recorded file is complete, ingesting them all makes the watchdog's progress irrelevant: whatever it
   * had tried before, in whatever order, the list holds each file once, and is the list of a replay.
   */
  lemma IngestAllCompletes(disk: Disk, arrivals: seq<Arrival>, reader: Reader, listing: seq<string>)
    requires Distinct(listing) && Reads(reader, disk, listing)
    requires forall p :: p in listing ==> reader(p).Complete?
    requires forall i :: 0 <= i < |arrivals| ==> arrivals[i].Attempt? && arrivals[i].path in listing
    ensures var list := IngestAll(Run(Store([], {}), disk, arrivals), reader, StableSort(listing, Identity)).dataList;
      && multiset(list) == multiset(Map(disk, listing))
      && (NamedLikePaths(disk, listing) ==> list == Replay(disk, listing))
  {
    var files := StableSort(listing, Identity);
    var attempts := Map(AttemptWith(reader), files);
    StableSortCorrect(listing, Identity);
    forall p ensures p in files <==> p in listing {
      assert p in files <==> p in multiset(listing);
    }
    IngestAllIsARun(Run(Store([], {}), disk, arrivals), disk, reader, files);
    RunConcat(Store([], {}), disk, arrivals, attempts);
    NoMessages(arrivals + attempts);
    forall p ensures p in listing <==> Attempt(p, true) in arrivals + attempts {
      AttemptsCover(reader, files, p);
    }
    ArrivalOrderDoesNotMatter(disk, arrivals + attempts, listing);
  }
}
