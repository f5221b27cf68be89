/**
 * utils/mocked_backend/_backend.py: which handler serves a request, under which name the exchange is recorded, and
 * in which order those names sort.
 */
module MessageNumbering {
  import opened Interfaces
  import opened Lexicographic
  import opened Options
  import opened Sorting

  const CONTROL_URL_PREFIX := "/system-tests"

  datatype Mock = Mock(path: string, answer: string)

  /** A handler is a mocked response, a registered one (by name), or the default. */
  datatype Handler = FromMock(mock: Mock) | Route(name: string) | Default

  /******* File names *******/

  function Digit(d: nat): char
    requires d < 10
  {
    '0' + d as char
  }

  function Decimal(n: nat): string {
    if n < 10 then [Digit(n)] else Decimal(n / 10) + [Digit(n % 10)]
  }

  /** In decimal, with zeros in front up to three digits. */
  function Padded(n: nat): string {
    if n < 10 then "00" + Decimal(n) else if n < 100 then "0" + Decimal(n) else Decimal(n)
  }

  function Underscored(path: string): string {
    seq(|path|, i requires 0 <= i < |path| => if path[i] == '/' then '_' else path[i])
  }

  function FileName(folder: string, number: nat, path: string): string {
    folder + "/" + Padded(number) + "_" + Underscored(path) + ".json"
  }

  predicate IsDigit(c: char) {
    '0' <= c <= '9'
  }

  /** The number a string of digits stands for. */
  function Value(s: string): nat
    requires forall i :: 0 <= i < |s| ==> IsDigit(s[i])
  {
    if s == "" then 0
    else
      assert IsDigit(s[|s| - 1]);
      10 * Value(s[..|s| - 1]) + (s[|s| - 1] as int - '0' as int)
  }

  lemma {:induction false} DecimalValue(n: nat)
    ensures forall i :: 0 <= i < |Decimal(n)| ==> IsDigit(Decimal(n)[i])
    ensures Value(Decimal(n)) == n
  {
    if n >= 10 {
      DecimalValue(n / 10);
      assert Decimal(n)[..|Decimal(n)| - 1] == Decimal(n / 10);
    } else {
      assert Decimal(n)[..0] == "";
    }
  }

  lemma {:induction false} LeadingZero(s: string)
    requires forall i :: 0 <= i < |s| ==> IsDigit(s[i])
    ensures Value("0" + s) == Value(s)
  {
    if s == "" {
      assert ("0" + s)[..0] == "";
    } else {
      assert ("0" + s)[..|s|] == "0" + s[..|s| - 1];
      LeadingZero(s[..|s| - 1]);
    }
  }

  lemma PaddedValue(n: nat)
    ensures forall i :: 0 <= i < |Padded(n)| ==> IsDigit(Padded(n)[i])
    ensures Value(Padded(n)) == n
  {
    DecimalValue(n);
    if n < 10 {
      LeadingZero(Decimal(n));
      LeadingZero("0" + Decimal(n));
      assert "00" + Decimal(n) == "0" + ("0" + Decimal(n));
    } else if n < 100 {
      LeadingZero(Decimal(n));
    }
  }

  /** Zeros in front only up to three digits. */
  lemma {:induction false} NoNeedlessZero(n: nat)
    ensures Decimal(n) != "" && (n > 0 ==> Decimal(n)[0] != '0') && (n >= 10 ==> |Decimal(n)| >= 2)
    ensures n >= 100 ==> |Decimal(n)| >= 3
  {
    if n >= 10 {
      NoNeedlessZero(n / 10);
    }
  }

  lemma PaddedToThree(n: nat)
    ensures |Padded(n)| >= 3 && (|Padded(n)| > 3 ==> Padded(n)[0] != '0')
  {
    NoNeedlessZero(n);
    if 10 <= n < 100 {
      TwoDigits(n);
    }
  }

  /** Folder, number and path, with slashes only behind the folder. */
  ghost predicate Spells(name: string, folder: string, number: string, path: string) {
    var rest := |folder| + 1 + |number| + 1;
    && |name| == rest + |path| + 5
    && name[..|folder|] == folder && name[|folder|] == '/' && name[rest - 1] == '_'
    && name[|folder| + 1..rest - 1] == number
    && (forall i :: 0 <= i < |path| ==> name[rest + i] == if path[i] == '/' then '_' else path[i])
    && name[rest + |path|..] == ".json"
  }

  lemma Joined(folder: string, number: string, underscored: string, path: string)
    requires |underscored| == |path|
    requires forall i :: 0 <= i < |path| ==> underscored[i] == if path[i] == '/' then '_' else path[i]
    ensures Spells((folder + "/") + (number + "_" + (underscored + ".json")), folder, number, path)
  {
  }

  lemma FileNameIs(folder: string, number: nat, path: string)
    ensures Spells(FileName(folder, number, path), folder, Padded(number), path)
  {
    FileNameSplits(folder, number, path);
    Joined(folder, Padded(number), Underscored(path), path);
  }

  lemma {:induction false} SameHeadBefore(a: string, x: string, b: string, y: string, c: char)
    requires c !in a && c !in b && a + [c] + x == b + [c] + y
    ensures a == b
  {
    var s := a + [c] + x;
    assert s == b + [c] + y;
    assert (a == "" || b == "") ==> s[0] == c;
    assert a != "" ==> s[0] == a[0] && a[0] in a;
    assert b != "" ==> s[0] == b[0] && b[0] in b;
    if a != "" && b != "" {
      assert s[1..] == a[1..] + [c] + x && s[1..] == b[1..] + [c] + y;
      SameHeadBefore(a[1..], x, b[1..], y, c);
    }
  }

  function Tail(number: nat, path: string): string {
    Padded(number) + "_" + (Underscored(path) + ".json")
  }

  lemma FileNameSplits(folder: string, number: nat, path: string)
    ensures FileName(folder, number, path) == (folder + "/") + Tail(number, path)
  {
  }

  /** Two numbers never share a file name, whatever the paths. */
  lemma FileNamesDiffer(folder: string, i: nat, p: string, j: nat, q: string)
    requires i != j
    ensures FileName(folder, i, p) != FileName(folder, j, q)
  {
    PaddedValue(i);
    PaddedValue(j);
    FileNameSplits(folder, i, p);
    FileNameSplits(folder, j, q);
    if FileName(folder, i, p) == FileName(folder, j, q) {
      assert FileName(folder, i, p)[|folder| + 1..] == Tail(i, p);
      assert FileName(folder, j, q)[|folder| + 1..] == Tail(j, q);
      SameHeadBefore(Padded(i), Underscored(p) + ".json", Padded(j), Underscored(q) + ".json", '_');
    }
  }

  lemma TwoDigits(n: nat)
    requires 10 <= n < 100
    ensures Decimal(n) == [Digit(n / 10), Digit(n % 10)]
  {
  }

  lemma ThreeDigits(n: nat)
    requires n < 1000
    ensures Padded(n) == [Digit(n / 10 / 10), Digit(n / 10 % 10), Digit(n % 10)]
  {
    if n >= 100 {
      TwoDigits(n / 10);
      assert Decimal(n) == Decimal(n / 10) + [Digit(n % 10)];
    } else if n >= 10 {
      TwoDigits(n);
    }
  }

  /** The first digit in which two numbers differ decides. */
  lemma DigitsCompare(i: nat, j: nat) returns (k: nat)
    requires i < j < 1000
    ensures |Padded(i)| == |Padded(j)| == 3 && k < 3
    ensures Padded(i)[..k] == Padded(j)[..k] && Padded(i)[k] < Padded(j)[k]
  {
    ThreeDigits(i);
    ThreeDigits(j);
    k := if i / 10 / 10 < j / 10 / 10 then 0 else if i / 10 % 10 < j / 10 % 10 then 1 else 2;
  }

  /** Below 1000, the names sort like the numbers. */
  lemma NamesSortBelow1000(folder: string, i: nat, p: string, j: nat, q: string)
    requires i < j < 1000
    ensures Lt(FileName(folder, i, p), FileName(folder, j, q))
  {
    var a, b := Tail(i, p), Tail(j, q);
    var k := DigitsCompare(i, j);
    assert a[..k] == Padded(i)[..k] && b[..k] == Padded(j)[..k];
    assert a[k] == Padded(i)[k] && b[k] == Padded(j)[k];
    FirstDifference(a, b, k);
    FileNameSplits(folder, i, p);
    FileNameSplits(folder, j, q);
    CommonPrefix(folder + "/", a, b);
  }

  /** Message 1000 sorts before message 100. */
  lemma Message1000SortsEarly(folder: string, p: string, q: string)
    ensures Lt(FileName(folder, 1000, p), FileName(folder, 100, q))
  {
    var a, b := Tail(1000, p), Tail(100, q);
    ThreeDigits(100);
    assert Decimal(1000) == Decimal(100) + ['0'] && Decimal(100) == Decimal(10) + ['0'] && Decimal(10) == "1" + ['0'];
    assert Padded(1000) == "1000" && Padded(100) == "100";
    assert a[..3] == "100" && b[..3] == "100" && a[3] == '0' && b[3] == '_';
    FirstDifference(a, b, 3);
    FileNameSplits(folder, 1000, p);
    FileNameSplits(folder, 100, q);
    CommonPrefix(folder + "/", a, b);
  }

  ghost predicate NamesSortLikeNumbers(folder: string, n: nat) {
    forall i: nat, j: nat, p, q :: i < j < n ==> Lt(FileName(folder, i, p), FileName(folder, j, q))
  }

  /** The order of the names is the order of the numbers up to 1000 messages, and no further. */
  lemma NamesSortIff(folder: string, n: nat)
    ensures NamesSortLikeNumbers(folder, n) <==> n <= 1000
  {
    if n <= 1000 {
      forall i: nat, j: nat, p, q | i < j < n ensures Lt(FileName(folder, i, p), FileName(folder, j, q)) {
        NamesSortBelow1000(folder, i, p, j, q);
      }
    } else {
      Message1000SortsEarly(folder, "", "");
      LtTrichotomy(FileName(folder, 1000, ""), FileName(folder, 100, ""));
    }
  }

  /** So the sorted list of an interface is in numbering order, in whatever order the messages came in. */
  lemma SortedListIsInNumberingOrder(folder: string, recorded: seq<Data>, paths: seq<string>, arrived: seq<Data>)
    requires |recorded| == |paths| <= 1000 && multiset(arrived) == multiset(recorded)
    requires forall i :: 0 <= i < |recorded| ==> recorded[i].logFilename == FileName(folder, i, paths[i])
    ensures StableSort(arrived, LogFilename) == recorded
  {
    forall i, j | 0 <= i < j < |recorded| ensures Lt(LogFilename(recorded[i]), LogFilename(recorded[j])) {
      NamesSortBelow1000(folder, i, paths[i], j, paths[j]);
    }
    StableSortCorrect(arrived, LogFilename);
    forall x, y | x in multiset(recorded) && y in multiset(recorded) && LogFilename(x) == LogFilename(y)
      ensures x == y
    {
      assert x in recorded && y in recorded;
      var i :| 0 <= i < |recorded| && recorded[i] == x;
      var j :| 0 <= j < |recorded| && recorded[j] == y;
      LtTrichotomy(LogFilename(x), LogFilename(y));
    }
    SortedUnique(recorded, StableSort(arrived, LogFilename), LogFilename);
  }

  /******* Handlers *******/

  predicate IsControl(path: string) {
    CONTROL_URL_PREFIX <= path
  }

  lemma IsControlIff(path: string)
    ensures IsControl(path) <==> |path| >= 13 && path[..13] == "/system-tests"
  {
  }

  /** The first of the mocks for the path, if any. */
  function FirstMatch(mocks: seq<Mock>, path: string): (r: Option<Mock>)
    ensures r.None? <==> forall i :: 0 <= i < |mocks| ==> mocks[i].path != path
    ensures r.Some? ==> exists i :: 0 <= i < |mocks| && mocks[i] == r.value && mocks[i].path == path &&
                                    forall j :: 0 <= j < i ==> mocks[j].path != path
  {
    if mocks == [] then None
    else if mocks[0].path == path then Some(mocks[0])
    else FirstMatch(mocks[1..], path)
  }

  function FullPath(path: string, query: string): string {
    if query == "" then path else path + "?" + query
  }

  datatype Request = Request(verb: string, path: string, query: string)

  datatype Server = Server(
    routes: map<(string, string), string>, mocks: seq<Mock>, internal: seq<Mock>,
    messageCount: nat, folder: Option<string>)

  function HandlerFor(s: Server, r: Request): Handler {
    var fullPath := FullPath(r.path, r.query);
    var mock := if IsControl(fullPath) then None else FirstMatch(s.mocks + s.internal, fullPath);
    if mock.Some? then FromMock(mock.value)
    else if (r.verb, r.path) in s.routes then Route(s.routes[(r.verb, r.path)])
    else Default
  }

  /** The first runtime mock that matches path and query wins, then the first internal one, then the route. */
  lemma Precedence(s: Server, r: Request)
    ensures var fullPath := if r.query == "" then r.path else r.path + "?" + r.query;
      var mocked := !("/system-tests" <= r.path);
      HandlerFor(s, r) ==
      if mocked && FirstMatch(s.mocks, fullPath).Some? then FromMock(FirstMatch(s.mocks, fullPath).value)
      else if mocked && FirstMatch(s.internal, fullPath).Some? then
        FromMock(FirstMatch(s.internal, fullPath).value)
      else if (r.verb, r.path) in s.routes then Route(s.routes[(r.verb, r.path)])
      else Default
  {
    ControlPaths(r.path, r.query);
    MatchConcat(s.mocks, s.internal, FullPath(r.path, r.query));
  }

  /** A query does not make a request a control request, or stop it from being one. */
  lemma ControlPaths(path: string, query: string)
    ensures IsControl(FullPath(path, query)) <==> IsControl(path)
  {
    var full := FullPath(path, query);
    if query != "" {
      assert full[|path|] == '?' && full[..|path|] == path && '?' !in CONTROL_URL_PREFIX;
      if |path| < |CONTROL_URL_PREFIX| && IsControl(full) {
        assert false;
      }
    }
  }

  lemma {:induction false} MatchConcat(a: seq<Mock>, b: seq<Mock>, path: string)
    ensures FirstMatch(a + b, path) == if FirstMatch(a, path).Some? then FirstMatch(a, path) else FirstMatch(b, path)
  {
    if a == [] {
      assert a + b == b;
    } else {
      assert (a + b)[1..] == a[1..] + b;
      MatchConcat(a[1..], b, path);
    }
  }

  /** The body of a control request: not a list of objects, or a list with the mocks that could be made of them. */
  datatype Body = Malformed | Objects(mocks: seq<Option<Mock>>)

  function AllMocks(items: seq<Option<Mock>>): (r: Option<seq<Mock>>)
    ensures r.Some? <==> forall i :: 0 <= i < |items| ==> items[i].Some?
    ensures r.Some? ==> |r.value| == |items| && forall i :: 0 <= i < |items| ==> Some(r.value[i]) == items[i]
  {
    if items == [] then Some([])
    else
      var rest := AllMocks(items[1..]);
      if items[0].Some? && rest.Some? then Some([items[0].value] + rest.value) else None
  }

  datatype Event = Get(request: Request) | PutMocks(body: Body) | Register(verb: string, path: string, name: string)

  function Recorded(e: Event): bool {
    e.Get? && !IsControl(e.request.path)
  }

  function Step(s: Server, e: Event): Server {
    match e
    case Get(r) => if IsControl(r.path) then s else s.(messageCount := s.messageCount + 1)
    case PutMocks(body) =>
      if body.Objects? && AllMocks(body.mocks).Some? then s.(mocks := AllMocks(body.mocks).value) else s
    case Register(verb, path, name) => s.(routes := s.routes[(verb, path) := name])
  }

  /** An empty name is no folder. */
  predicate HasFolder(folder: Option<string>) {
    folder.Some? && folder.value != ""
  }

  /** The name under which the event is recorded. */
  function NameOf(s: Server, e: Event): Option<string> {
    if Recorded(e) && HasFolder(s.folder) then Some(FileName(s.folder.value, s.messageCount, e.request.path)) else None
  }

  class MockedBackendServer {
    var routes: map<(string, string), string>
    var mockedResponses: seq<Mock>
    const internalMockedResponses: seq<Mock>
    var messageCount: nat
    const logFolder: Option<string>

    ghost function View(): Server
      reads this
    {
      Server(routes, mockedResponses, internalMockedResponses, messageCount, logFolder)
    }

    constructor (folder: Option<string>, internal: seq<Mock>)
      ensures View() == Server(map[], [], internal, 0, folder)
    {
      routes, mockedResponses, messageCount := map[], [], 0;
      internalMockedResponses, logFolder := internal, folder;
    }

    method AddHandler(verb: string, path: string, name: string)
      modifies this`routes
      ensures View() == Step(old(View()), Register(verb, path, name))
      ensures routes == old(routes)[(verb, path) := name]
    {
      routes := routes[(verb, path) := name];
    }

    method GetHandler(verb: string, path: string, query: string)
      returns (handler: Handler, logFilename: Option<string>, exportContentFilesTo: Option<string>)
      modifies this`messageCount
      ensures View() == Step(old(View()), Get(Request(verb, path, query)))
      ensures handler == HandlerFor(old(View()), Request(verb, path, query))
      ensures logFilename == NameOf(old(View()), Get(Request(verb, path, query)))
      ensures exportContentFilesTo == if logFilename.None? then None else Some(logFolder.value + "/files")
      ensures logFilename.None? <==> "/system-tests" <= path || logFolder.None? || logFolder.value == ""
      ensures messageCount == old(messageCount) + if "/system-tests" <= path then 0 else 1
    {
      var fullPath := if query == "" then path else path + "?" + query;
      handler := if (verb, path) in routes then Route(routes[(verb, path)]) else Default;
      if !IsControl(fullPath) {
        var mock := FirstMatch(mockedResponses + internalMockedResponses, fullPath);
        if mock.Some? {
          handler := FromMock(mock.value);
        }
      }
      if IsControl(path) {
        return handler, None, None;
      }
      var number := messageCount;
      messageCount := messageCount + 1;
      if !HasFolder(logFolder) {
        return handler, None, None;
      }
      return handler, Some(FileName(logFolder.value, number, path)), Some(logFolder.value + "/files");
    }

    /** Replaces the runtime mocks by the ones in the body, all or none of them. */
    method HandleMockedResponses(body: Body) returns (status: int)
      modifies this`mockedResponses
      ensures View() == Step(old(View()), PutMocks(body))
      ensures status == 200 <==> body.Objects? && forall i :: 0 <= i < |body.mocks| ==> body.mocks[i].Some?
      ensures status == 200 ==>
                |mockedResponses| == |body.mocks| &&
                forall i :: 0 <= i < |body.mocks| ==> Some(mockedResponses[i]) == body.mocks[i]
      ensures status == 200 || (status == 400 && mockedResponses == old(mockedResponses))
    {
      if body.Malformed? {
        return 400;
      }
      var mocks := AllMocks(body.mocks);
      if mocks.None? {
        return 400;
      }
      mockedResponses := mocks.value;
      return 200;
    }
  }

  /******* Every run *******/

  ghost function At(s: Server, events: seq<Event>, n: nat): Server
    requires n <= |events|
  {
    if n == 0 then s else Step(At(s, events, n - 1), events[n - 1])
  }

  /** How many of the first `n` events are recorded. */
  function RecordedBefore(events: seq<Event>, n: nat): nat
    requires n <= |events|
  {
    if n == 0 then 0 else RecordedBefore(events, n - 1) + (if Recorded(events[n - 1]) then 1 else 0)
  }

  /** Recorded messages get consecutive numbers, whatever control requests and mocks come in between. */
  lemma {:induction false} NumbersAreConsecutive(s: Server, events: seq<Event>, n: nat)
    requires n <= |events|
    ensures At(s, events, n).messageCount == s.messageCount + RecordedBefore(events, n)
    ensures At(s, events, n).folder == s.folder
  {
    if n > 0 {
      NumbersAreConsecutive(s, events, n - 1);
    }
  }

  lemma {:induction false} RecordedGrows(events: seq<Event>, m: nat, n: nat)
    requires m <= n <= |events|
    ensures RecordedBefore(events, m) <= RecordedBefore(events, n)
    decreases n
  {
    if m < n {
      RecordedGrows(events, m, n - 1);
    }
  }

  lemma NumbersIncrease(s: Server, events: seq<Event>, m: nat, n: nat)
    requires m < n <= |events| && Recorded(events[m])
    ensures At(s, events, m).messageCount < At(s, events, n).messageCount
  {
    NumbersAreConsecutive(s, events, m);
    NumbersAreConsecutive(s, events, n);
    RecordedGrows(events, m + 1, n);
  }

  /** No two recorded messages of a run share a file name, even for the same path. */
  lemma RunNamesDiffer(s: Server, events: seq<Event>, m: nat, n: nat, folder: string)
    requires m < n < |events| && Recorded(events[m]) && Recorded(events[n])
    requires s.folder == Some(folder) && folder != ""
    ensures NameOf(At(s, events, m), events[m]) != NameOf(At(s, events, n), events[n])
  {
    var i, j := At(s, events, m).messageCount, At(s, events, n).messageCount;
    var p, q := events[m].request.path, events[n].request.path;
    NumbersIncrease(s, events, m, n);
    FileNamesDiffer(folder, i, p, j, q);
    NameInRun(s, events, m, folder);
    NameInRun(s, events, n, folder);
  }

  /** The name carries the number of messages recorded before. */
  lemma NameInRun(s: Server, events: seq<Event>, n: nat, folder: string)
    requires n < |events| && Recorded(events[n]) && s.folder == Some(folder) && folder != ""
    ensures NameOf(At(s, events, n), events[n]) ==
            Some(FileName(folder, s.messageCount + RecordedBefore(events, n), events[n].request.path))
    ensures At(s, events, n).messageCount == s.messageCount + RecordedBefore(events, n)
  {
    NumbersAreConsecutive(s, events, n);
  }
}
