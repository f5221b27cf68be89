/**
 * utils/mocked_backend/_backend_ffe.py: the response timelines of the feature-flag endpoints, and what is counted
 * and observed of their requests. The bodies of the responses are not modelled.
 */
module FfeTimeline {
  import opened Options

  datatype Format = Json | Protobuf

  const SELECTION_IGNORED_RESPONSES: set<string> :=
    {"selection_ignored_empty", "selection_ignored_tag_load_failed", "selection_ignored_unknown"}

  function ValidResponseIds(format: Format): set<string> {
    match format
    case Json => {"valid", "unauthorized", "malformed", "not_modified", "server_error", "delayed_valid", "timeout"}
    case Protobuf =>
      {"valid", "malformed", "server_error", "forbidden", "redirect", "empty", "wrong_content_type", "delayed",
      "delayed_body", "disconnect", "truncated_body"} + SELECTION_IGNORED_RESPONSES
  }

  const DEFAULT_TIMELINE: seq<string> := ["valid"]

  /** A JSON value, as far as the validation looks into it. */
  datatype Value = Text(text: string) | List(items: seq<Value>) | Other

  /******* Validation *******/

  function Texts(items: seq<Value>): (r: Option<seq<string>>)
    ensures r.Some? <==> forall i :: 0 <= i < |items| ==> items[i].Text?
    ensures r.Some? ==> |r.value| == |items| && forall i :: 0 <= i < |items| ==> r.value[i] == items[i].text
  {
    if items == [] then Some([])
    else
      var rest := Texts(items[1..]);
      if items[0].Text? && rest.Some? then Some([items[0].text] + rest.value) else None
  }

  function ValidateResponseFormat(format: Value): Result<Format> {
    if format == Text("json") then Ok(Json)
    else if format == Text("protobuf") then Ok(Protobuf)
    else Err
  }

  function ValidateResponses(responses: Value, format: Value): Result<(seq<string>, Format)> {
    match ValidateResponseFormat(format)
    case Err => Err
    case Ok(f) =>
      if !responses.List? || responses.items == [] then Err
      else
        match Texts(responses.items)
        case None => Err
        case Some(texts) => if exists t :: t in texts && t !in ValidResponseIds(f) then Err else Ok((texts, f))
  }

  ghost predicate Timeline(list: seq<string>, format: Format) {
    list != [] && forall i :: 0 <= i < |list| ==> list[i] in ValidResponseIds(format)
  }

  function AsValue(format: Format): Value {
    Text(if format.Json? then "json" else "protobuf")
  }

  /** Anything but a list is refused, and so is a format under any other name, or an element that is no text. */
  lemma RefusedUnless(responses: Value, format: Value)
    ensures ValidateResponses(responses, format).Ok? ==>
              && responses.List? && responses.items != []
              && (format == Text("json") || format == Text("protobuf"))
              && forall i :: 0 <= i < |responses.items| ==> responses.items[i].Text?
    ensures ValidateResponses(responses, format).Ok? ==>
              ValidateResponses(responses, format).value.1 == if format == Text("json") then Json else Protobuf
  {
  }

  /** Accepted are exactly the non-empty lists of known responses of a known format, and they are kept as given. */
  lemma ValidateAcceptsIff(list: seq<Value>, format: Value)
    ensures ValidateResponses(List(list), format).Ok? <==>
            exists f, texts :: AsValue(f) == format && Texts(list) == Some(texts) && Timeline(texts, f)
    ensures ValidateResponses(List(list), format).Ok? ==>
              var (texts, f) := ValidateResponses(List(list), format).value;
              AsValue(f) == format && Texts(list) == Some(texts) && Timeline(texts, f)
  {
    var verdict := ValidateResponses(List(list), format);
    if f, texts :| AsValue(f) == format && Texts(list) == Some(texts) && Timeline(texts, f) {
      assert "json"[0] != "protobuf"[0];
      assert ValidateResponseFormat(format) == Ok(f);
      assert |texts| == |list|;
    }
    if verdict.Ok? {
      var (texts, f) := verdict.value;
      assert forall i :: 0 <= i < |texts| ==> texts[i] in texts;
      assert Timeline(texts, f) && AsValue(f) == format;
    }
  }

  /** The status a handler answers with; None if it does not know the response and raises. */
  function StatusFor(response: string, format: Format): Option<int> {
    match format
    case Json =>
      if response == "unauthorized" then Some(401)
      else if response == "malformed" then Some(200)
      else if response == "not_modified" then Some(304)
      else if response == "server_error" then Some(500)
      else if response in {"valid", "delayed_valid", "timeout"} then Some(200)
      else None
    case Protobuf =>
      if response in SELECTION_IGNORED_RESPONSES then Some(200)
      else if response == "delayed" then Some(200)
      else if response == "delayed_body" then Some(200)
      else if response in {"forbidden", "server_error"} then Some(if response == "forbidden" then 403 else 500)
      else if response == "redirect" then Some(302)
      else if response == "malformed" then Some(200)
      else if response == "empty" then Some(200)
      else if response == "wrong_content_type" then Some(200)
      else if response == "disconnect" then Some(200)
      else if response == "truncated_body" then Some(200)
      else if response != "valid" then None
      else Some(200)
  }

  /** The responses that change a status, and those that are known at all. */
  lemma JsonStatuses(response: string)
    ensures StatusFor(response, Json) == Some(401) <==> response == "unauthorized"
    ensures StatusFor(response, Json) == Some(304) <==> response == "not_modified"
    ensures StatusFor(response, Json) == Some(500) <==> response == "server_error"
    ensures StatusFor(response, Json) == Some(200) <==> response in {"valid", "malformed", "delayed_valid", "timeout"}
    ensures StatusFor(response, Json).Some? ==> StatusFor(response, Json).value in {200, 304, 401, 500}
  {
  }

  lemma ProtobufStatuses(response: string)
    ensures StatusFor(response, Protobuf) == Some(403) <==> response == "forbidden"
    ensures StatusFor(response, Protobuf) == Some(302) <==> response == "redirect"
    ensures StatusFor(response, Protobuf) == Some(500) <==> response == "server_error"
    ensures StatusFor(response, Protobuf) == Some(200) <==>
            response in {"valid", "malformed", "empty", "wrong_content_type", "delayed", "delayed_body", "disconnect",
                         "truncated_body", "selection_ignored_empty", "selection_ignored_tag_load_failed",
                         "selection_ignored_unknown"}
    ensures StatusFor(response, Protobuf).Some? ==> StatusFor(response, Protobuf).value in {200, 302, 403, 500}
  {
  }

  /** What the validation lets in is exactly what the handler of the format can serve. */
  lemma ServableIffValid(response: string, format: Format)
    ensures StatusFor(response, format).Some? <==> response in ValidResponseIds(format)
  {
  }

  /******* The state *******/

  /** `path` as it was requested, `urlPath` without its query; the names of the headers are in lower case. */
  datatype Request = Request(path: string, urlPath: string, headers: map<string, string>)

  datatype Observed = Observed(
    lastPath: Option<string>, lastIfNoneMatch: Option<string>, ddApiKey: Option<string>, requests: seq<Request>)

  const NOTHING := Observed(None, None, None, [])

  datatype State = State(
    responses: map<Format, seq<string>>,
    requestsTotal: nat,
    inFlight: nat,
    maxInFlight: nat,
    lastStatusCode: Option<int>,
    statusCodes: seq<int>,
    observed: Observed)

  const START := State(map[Json := DEFAULT_TIMELINE, Protobuf := DEFAULT_TIMELINE], 0, 0, 0, None, [], NOTHING)

  function Header(r: Request, name: string): Option<string> {
    if name in r.headers then Some(r.headers[name]) else None
  }

  function Observe(o: Observed, r: Request): Observed {
    Observed(Some(r.urlPath), Header(r, "if-none-match"), Header(r, "dd-api-key"), o.requests + [r])
  }

  /** Every format has a timeline, and it is not empty. */
  ghost predicate Inv(s: State) {
    && Json in s.responses && s.responses[Json] != []
    && Protobuf in s.responses && s.responses[Protobuf] != []
  }

  datatype Event =
    | RecordRequest(format: Format, request: Request)
    | RecordResponse(status: int)
    | FinishRequest
    | SetResponses(list: Value, to: Value)
    | Reset

  function Max(a: nat, b: nat): nat {
    if a < b then b else a
  }

  function Step(s: State, e: Event): State
    requires Inv(s)
  {
    match e
    case RecordRequest(f, request) =>
      assert f == Json || f == Protobuf;
      var list := s.responses[f];
      s.(requestsTotal := s.requestsTotal + 1, inFlight := s.inFlight + 1,
        maxInFlight := Max(s.maxInFlight, s.inFlight + 1), observed := Observe(s.observed, request),
        responses := s.responses[f := if |list| > 1 then list[1..] else list])
    case RecordResponse(status) => s.(lastStatusCode := Some(status), statusCodes := s.statusCodes + [status])
    case FinishRequest => s.(inFlight := Max(1, s.inFlight) - 1)
    case SetResponses(list, to) => (
      match ValidateResponses(list, to)
      case Err => s
      case Ok((texts, f)) => s.(
        responses := s.responses[f := texts], lastStatusCode := None, statusCodes := [],
        observed := s.observed.(lastIfNoneMatch := None)))
    case Reset => START
  }

  lemma StepInv(s: State, e: Event)
    requires Inv(s)
    ensures Inv(Step(s, e))
  {
  }

  class MockedBackendFFEState {
    var responses: map<Format, seq<string>>
    var requestsTotal: nat
    var inFlight: nat
    var maxInFlight: nat
    var lastStatusCode: Option<int>
    var statusCodes: seq<int>
    var observed: Observed

    ghost function View(): State
      reads this
    {
      State(responses, requestsTotal, inFlight, maxInFlight, lastStatusCode, statusCodes, observed)
    }

    constructor ()
      ensures View() == START && Inv(View())
    {
      responses := map[Json := DEFAULT_TIMELINE, Protobuf := DEFAULT_TIMELINE];
      requestsTotal, inFlight, maxInFlight, lastStatusCode, statusCodes := 0, 0, 0, None, [];
      observed := NOTHING;
    }

    method ResetAll()
      modifies this
      ensures View() == START
    {
      responses := map[Json := DEFAULT_TIMELINE, Protobuf := DEFAULT_TIMELINE];
      requestsTotal, inFlight, maxInFlight := 0, 0, 0;
      lastStatusCode, statusCodes := None, [];
      observed := NOTHING;
    }

    method SetTimeline(list: Value, to: Value) returns (accepted: bool)
      requires Inv(View())
      modifies this`responses, this`lastStatusCode, this`statusCodes, this`observed
      ensures View() == Step(old(View()), SetResponses(list, to))
      ensures accepted <==> ValidateResponses(list, to).Ok?
    {
      match ValidateResponses(list, to)
      case Err => accepted := false;
      case Ok((texts, f)) =>
        responses := responses[f := texts];
        observed := observed.(lastIfNoneMatch := None);
        lastStatusCode, statusCodes := None, [];
        accepted := true;
    }

    method Record(format: Format, request: Request) returns (response: string)
      requires Inv(View())
      modifies this`responses, this`requestsTotal, this`inFlight, this`maxInFlight, this`observed
      ensures View() == Step(old(View()), RecordRequest(format, request))
      ensures response == old(responses[format])[0]
    {
      requestsTotal := requestsTotal + 1;
      inFlight := inFlight + 1;
      maxInFlight := Max(maxInFlight, inFlight);
      observed := Observed(
        Some(request.urlPath), Header(request, "if-none-match"), Header(request, "dd-api-key"),
        observed.requests + [request]);
      var list := responses[format];
      response := list[0];
      if |list| > 1 {
        responses := responses[format := list[1..]];
      } else {
        assert responses[format := list] == responses;
      }
    }

    method RecordStatus(status: int)
      requires Inv(View())
      modifies this`lastStatusCode, this`statusCodes
      ensures View() == Step(old(View()), RecordResponse(status))
    {
      lastStatusCode := Some(status);
      statusCodes := statusCodes + [status];
    }

    method Finish()
      requires Inv(View())
      modifies this`inFlight
      ensures View() == Step(old(View()), FinishRequest)
    {
      inFlight := Max(1, inFlight) - 1;
    }

    /** A request served on its own: the head of its timeline decides the status, and nothing stays in flight. */
    method HandleConfig(format: Format, request: Request) returns (status: int)
      requires Inv(View()) && Timeline(responses[format], format)
      modifies this
      ensures Inv(View())
      ensures Some(status) == StatusFor(old(responses[format])[0], format)
      ensures statusCodes == old(statusCodes) + [status] && lastStatusCode == Some(status)
      ensures inFlight == old(inFlight) && requestsTotal == old(requestsTotal) + 1
      ensures observed == Observe(old(observed), request)
      ensures forall f :: f != format ==> responses[f] == old(responses[f])
    {
      StepInv(View(), RecordRequest(format, request));
      var response := Record(format, request);
      ServableIffValid(response, format);
      status := StatusFor(response, format).value;
      RecordStatus(status);
      Finish();
    }
  }

  /******* Every run *******/

  /** The state after the first `n` events. */
  ghost function At(events: seq<Event>, n: nat): (s: State)
    requires n <= |events|
    ensures Inv(s)
  {
    if n == 0 then START
    else
      StepInv(At(events, n - 1), events[n - 1]);
      Step(At(events, n - 1), events[n - 1])
  }

  /** The event gives `format` the timeline `list`. */
  predicate Chooses(e: Event, format: Format, list: seq<string>) {
    || (e.Reset? && list == DEFAULT_TIMELINE)
    || (e.SetResponses? && ValidateResponses(e.list, e.to) == Ok((list, format)))
  }

  predicate Retimes(e: Event, format: Format) {
    e.Reset? || (e.SetResponses? && var v := ValidateResponses(e.list, e.to); v.Ok? && v.value.1 == format)
  }

  predicate Asks(e: Event, format: Format) {
    e.RecordRequest? && e.format == format
  }

  /** How many requests of the format are among the events from `lo` up to `hi`. */
  function Requests(events: seq<Event>, lo: nat, hi: nat, format: Format): nat
    requires lo <= hi <= |events|
  {
    if lo == hi then 0
    else Requests(events, lo, hi - 1, format) + (if Asks(events[hi - 1], format) then 1 else 0)
  }

  /** None of the events from `lo` up to `hi` changes the timeline of the format. */
  predicate Kept(events: seq<Event>, lo: nat, hi: nat, format: Format)
    requires lo <= hi <= |events|
  {
    forall i {:trigger Retimes(events[i], format)} :: lo <= i < hi ==> !Retimes(events[i], format)
  }

  function Min(a: nat, b: nat): nat {
    if a < b then a else b
  }

  lemma StepTimeline(s: State, e: Event, format: Format, list: seq<string>)
    requires Inv(s)
    ensures Retimes(e, format) <==> exists other :: Chooses(e, format, other)
    ensures Chooses(e, format, list) ==> Step(s, e).responses[format] == list
    ensures !Retimes(e, format) ==>
              var was := s.responses[format];
              Step(s, e).responses[format] == (if Asks(e, format) && |was| > 1 then was[1..] else was)
  {
    if Retimes(e, format) {
      assert Chooses(e, format, if e.Reset? then DEFAULT_TIMELINE else ValidateResponses(e.list, e.to).value.0);
    }
  }

  /** What one event leaves of a timeline. */
  function Left(was: seq<string>, asked: bool): seq<string> {
    if asked && |was| > 1 then was[1..] else was
  }

  lemma DropOne(list: seq<string>, k: nat, asked: bool)
    requires list != []
    ensures var was := list[Min(k, |list| - 1)..];
      Left(was, asked) == list[Min(if asked then k + 1 else k, |list| - 1)..]
  {
  }

  ghost function TimelineAt(events: seq<Event>, n: nat, format: Format): (list: seq<string>)
    requires n <= |events|
    ensures list != []
    ensures format in At(events, n).responses && At(events, n).responses[format] == list
  {
    match format
    case Json => At(events, n).responses[Json]
    case Protobuf => At(events, n).responses[Protobuf]
  }

  ghost function Timelines(events: seq<Event>, n: nat, format: Format): (lists: seq<seq<string>>)
    requires n <= |events|
    ensures |lists| == n + 1 && forall k :: 0 <= k <= n ==> lists[k] == TimelineAt(events, k, format)
  {
    (if n == 0 then [] else Timelines(events, n - 1, format)) + [TimelineAt(events, n, format)]
  }

  lemma EventTimeline(events: seq<Event>, n: nat, format: Format)
    requires 0 < n <= |events| && !Retimes(events[n - 1], format)
    ensures TimelineAt(events, n, format) == Left(TimelineAt(events, n - 1, format), Asks(events[n - 1], format))
  {
    StepTimeline(At(events, n - 1), events[n - 1], format, []);
  }

  lemma {:induction false} ShrinksByRequests(
      lists: seq<seq<string>>, events: seq<Event>, lo: nat, hi: nat, format: Format)
    requires lo <= hi <= |events| && |lists| == |events| + 1 && lists[lo] != []
    requires forall n {:trigger lists[n]} :: lo < n <= hi ==>
      lists[n] == Left(lists[n - 1], Asks(events[n - 1], format))
    ensures lists[hi] == lists[lo][Min(Requests(events, lo, hi, format), |lists[lo]| - 1)..]
    decreases hi
  {
    if lo < hi {
      ShrinksByRequests(lists, events, lo, hi - 1, format);
      DropOne(lists[lo], Requests(events, lo, hi - 1, format), Asks(events[hi - 1], format));
    }
  }

  lemma TimelineFrom(events: seq<Event>, lo: nat, hi: nat, format: Format, list: seq<string>)
    requires lo <= hi <= |events| && Kept(events, lo, hi, format)
    requires list == At(events, lo).responses[format]
    ensures list != [] && At(events, hi).responses[format] == list[Min(Requests(events, lo, hi, format), |list| - 1)..]
  {
    var lists := Timelines(events, |events|, format);
    forall n {:trigger lists[n]} | lo < n <= hi
      ensures lists[n] == Left(lists[n - 1], Asks(events[n - 1], format))
    {
      assert !Retimes(events[n - 1], format);
      EventTimeline(events, n, format);
    }
    assert lists[lo] == list;
    ShrinksByRequests(lists, events, lo, hi, format);
  }

  /**
   * After k requests since the timeline of a format was last set, its head, which the next request gets, is
   * element min(k, n - 1), and the rest is to come: whatever happened before the timeline was set, and whatever
   * the other format and the responses did since.
   */
  lemma KthRequest(events: seq<Event>, chosen: nat, now: nat, format: Format, list: seq<string>)
    requires chosen < now <= |events| && Chooses(events[chosen], format, list)
    requires Kept(events, chosen + 1, now, format)
    ensures list != []
    ensures At(events, now).responses[format] == list[Min(Requests(events, chosen + 1, now, format), |list| - 1)..]
  {
    ChosenAt(events, chosen, format, list);
    TimelineFrom(events, chosen + 1, now, format, list);
  }

  lemma ChosenAt(events: seq<Event>, chosen: nat, format: Format, list: seq<string>)
    requires chosen < |events| && Chooses(events[chosen], format, list)
    ensures At(events, chosen + 1).responses[format] == list && list != []
  {
    StepTimeline(At(events, chosen), events[chosen], format, list);
  }

  /** Before any timeline is set, every request is answered with the default. */
  lemma DefaultRequest(events: seq<Event>, now: nat, format: Format)
    requires now <= |events|
    requires Kept(events, 0, now, format)
    ensures At(events, now).responses[format][0] == "valid"
  {
    assert START.responses[format] == DEFAULT_TIMELINE;
    TimelineFrom(events, 0, now, format, DEFAULT_TIMELINE);
  }

  lemma StepServable(s: State, e: Event, format: Format)
    requires Inv(s) && Timeline(s.responses[format], format)
    ensures Timeline(Step(s, e).responses[format], format)
  {
    match e
    case SetResponses(list, to) =>
      if ValidateResponses(list, to).Ok? {
        ValidateAcceptsIff(list.items, to);
      }
    case Reset => assert DEFAULT_TIMELINE[0] == "valid";
    case _ =>
  }

  /** No run makes a handler raise on a response it does not know. */
  lemma {:induction false} EveryResponseIsServable(events: seq<Event>, now: nat, format: Format)
    requires now <= |events|
    ensures Timeline(At(events, now).responses[format], format)
    ensures StatusFor(At(events, now).responses[format][0], format).Some?
  {
    if now == 0 {
      assert DEFAULT_TIMELINE[0] == "valid";
    } else {
      EveryResponseIsServable(events, now - 1, format);
      StepServable(At(events, now - 1), events[now - 1], format);
    }
    ServableIffValid(At(events, now).responses[format][0], format);
  }

  /** The statuses are forgotten at the event. */
  predicate Clears(e: Event) {
    e.Reset? || (e.SetResponses? && ValidateResponses(e.list, e.to).Ok?)
  }

  /** The statuses recorded by the first `n` events, and not forgotten by them. */
  function Statuses(events: seq<Event>, n: nat): seq<int>
    requires n <= |events|
  {
    if n == 0 || Clears(events[n - 1]) then []
    else
      Statuses(events, n - 1) + (if events[n - 1].RecordResponse? then [events[n - 1].status] else [])
  }

  lemma StepStatuses(s: State, e: Event)
    requires Inv(s)
    ensures Step(s, e).statusCodes ==
            if Clears(e) then [] else if e.RecordResponse? then s.statusCodes + [e.status] else s.statusCodes
    ensures Step(s, e).lastStatusCode ==
            if Clears(e) then None else if e.RecordResponse? then Some(e.status) else s.lastStatusCode
  {
  }

  /** Kept are the statuses since the last reset or change of a timeline, in order; the last one is the last of them. */
  lemma {:induction false} StatusesSinceChange(events: seq<Event>, n: nat)
    requires n <= |events|
    ensures var s, kept := At(events, n), Statuses(events, n);
      && s.statusCodes == kept
      && s.lastStatusCode == (if kept == [] then None else Some(kept[|kept| - 1]))
  {
    if n > 0 {
      StatusesSinceChange(events, n - 1);
      StepStatuses(At(events, n - 1), events[n - 1]);
    }
  }

  /******* What is observed of requests *******/

  /** The requests recorded by the first `n` events, since the last reset. */
  function Recorded(events: seq<Event>, n: nat): seq<Request>
    requires n <= |events|
  {
    if n == 0 || events[n - 1].Reset? then []
    else Recorded(events, n - 1) + (if events[n - 1].RecordRequest? then [events[n - 1].request] else [])
  }

  lemma StepObserves(s: State, e: Event)
    requires Inv(s)
    ensures Step(s, e).observed ==
            if e.RecordRequest? then Observe(s.observed, e.request)
            else if e.Reset? then NOTHING
            else if Clears(e) then s.observed.(lastIfNoneMatch := None)
            else s.observed
    ensures Step(s, e).requestsTotal ==
            if e.RecordRequest? then s.requestsTotal + 1 else if e.Reset? then 0 else s.requestsTotal
  {
  }

  /** Listed and counted are exactly the requests since the last reset, of either format, in order. */
  lemma {:induction false} RequestsSinceReset(events: seq<Event>, n: nat)
    requires n <= |events|
    ensures At(events, n).observed.requests == Recorded(events, n)
    ensures At(events, n).requestsTotal == |Recorded(events, n)|
  {
    if n > 0 {
      RequestsSinceReset(events, n - 1);
      StepObserves(At(events, n - 1), events[n - 1]);
    }
  }

  /**
   * Until the next request or reset, path and key are those of the last request, and so is its If-None-Match header,
   * unless a timeline was changed since.
   */
  lemma {:induction false} LastRequestIsObserved(events: seq<Event>, last: nat, n: nat)
    requires last < n <= |events| && events[last].RecordRequest?
    requires forall i :: last < i < n ==> !events[i].RecordRequest? && !events[i].Reset?
    ensures var o, r := At(events, n).observed, events[last].request;
      && o.lastPath == Some(r.urlPath)
      && o.ddApiKey == (if "dd-api-key" in r.headers then Some(r.headers["dd-api-key"]) else None)
      && o.lastIfNoneMatch ==
           if (exists i :: last < i < n && Clears(events[i])) || "if-none-match" !in r.headers then None
           else Some(r.headers["if-none-match"])
  {
    StepObserves(At(events, n - 1), events[n - 1]);
    if last < n - 1 {
      LastRequestIsObserved(events, last, n - 1);
    }
  }

  /******* Requests in flight *******/

  /** How many of the requests recorded by the first `n` events were not finished by them. */
  function Outstanding(events: seq<Event>, n: nat): int
    requires n <= |events|
  {
    if n == 0 then 0
    else
      Outstanding(events, n - 1) +
      (if events[n - 1].RecordRequest? then 1 else if events[n - 1].FinishRequest? then -1 else 0)
  }

  /** Handlers finish what they recorded, once. */
  ghost predicate Paired(events: seq<Event>) {
    forall n: nat :: n <= |events| ==> Outstanding(events, n) >= 0
  }

  /** How many of the first `n` events there are up to and including the last reset. */
  function SinceReset(events: seq<Event>, n: nat): (r: nat)
    requires n <= |events|
    ensures r <= n
    ensures r > 0 ==> events[r - 1].Reset?
    ensures forall j :: r <= j < n ==> !events[j].Reset?
  {
    if n == 0 then 0
    else if events[n - 1].Reset? then n
    else SinceReset(events, n - 1)
  }

  /** The moment after `j` events lies between the last reset and now. */
  predicate Recent(events: seq<Event>, j: nat, n: nat)
    requires n <= |events|
  {
    SinceReset(events, n) <= j <= n
  }

  /** `low` is the least number of requests outstanding at any moment since the last reset. */
  ghost predicate LeastOutstanding(events: seq<Event>, n: nat, low: int)
    requires n <= |events|
  {
    && (forall j: nat {:trigger Recent(events, j, n)} :: Recent(events, j, n) ==> low <= Outstanding(events, j))
    && (exists j: nat {:trigger Recent(events, j, n)} :: Recent(events, j, n) && low == Outstanding(events, j))
  }

  lemma StepInFlight(s: State, e: Event)
    requires Inv(s)
    ensures Step(s, e).inFlight ==
            if e.RecordRequest? then s.inFlight + 1
            else if e.FinishRequest? && s.inFlight > 0 then s.inFlight - 1
            else if e.Reset? then 0
            else s.inFlight
  {
  }

  lemma LeastExtends(events: seq<Event>, n: nat, before: int, low: int)
    requires 0 < n <= |events| && LeastOutstanding(events, n - 1, before)
    requires var now := Outstanding(events, n); low == if events[n - 1].Reset? || now < before then now else before
    ensures LeastOutstanding(events, n, low)
  {
    var j: nat :| Recent(events, j, n - 1) && Outstanding(events, j) == before;
    var moment := if Outstanding(events, n) == low then n else j;
    assert forall i: nat {:trigger Recent(events, i, n)} :: Recent(events, i, n) ==> i == n || Recent(events, i, n - 1);
    assert Recent(events, moment, n) && Outstanding(events, moment) == low;
  }

  /** What `in_flight` counts: the outstanding requests, short of the least there were since the last reset. */
  lemma {:induction false} InFlightExact(events: seq<Event>, n: nat)
    requires n <= |events| && Paired(events)
    ensures LeastOutstanding(events, n, Outstanding(events, n) - At(events, n).inFlight)
  {
    if n == 0 {
      assert Recent(events, 0, 0) && Outstanding(events, 0) == 0;
    } else {
      InFlightExact(events, n - 1);
      StepInFlight(At(events, n - 1), events[n - 1]);
      assert Recent(events, n - 1, n - 1) && Outstanding(events, n) >= 0;
      LeastExtends(events, n, Outstanding(events, n - 1) - At(events, n - 1).inFlight,
                   Outstanding(events, n) - At(events, n).inFlight);
    }
  }

  lemma LeastIsZeroIff(events: seq<Event>, n: nat, low: int)
    requires n <= |events| && Paired(events) && LeastOutstanding(events, n, low)
    ensures 0 <= low <= Outstanding(events, n)
    ensures low == 0 <==>
            exists j: nat {:trigger Recent(events, j, n)} :: Recent(events, j, n) && Outstanding(events, j) == 0
  {
    assert Recent(events, n, n);
  }

  /** It never counts a request too many, and is exact unless every moment since the last reset had some outstanding. */
  lemma InFlightIsOutstandingIff(events: seq<Event>, n: nat)
    requires n <= |events| && Paired(events)
    ensures At(events, n).inFlight <= Outstanding(events, n)
    ensures At(events, n).inFlight == Outstanding(events, n) <==>
            exists j: nat {:trigger Recent(events, j, n)} :: Recent(events, j, n) && Outstanding(events, j) == 0
  {
    InFlightExact(events, n);
    LeastIsZeroIff(events, n, Outstanding(events, n) - At(events, n).inFlight);
  }

  /** In particular it is exact when no reset comes while requests are outstanding. */
  lemma QuietResetsAreExact(events: seq<Event>, n: nat)
    requires n <= |events| && Paired(events)
    requires forall j: nat :: j < n && events[j].Reset? ==> Outstanding(events, j) == 0
    ensures At(events, n).inFlight == Outstanding(events, n)
  {
    InFlightIsOutstandingIff(events, n);
    var r := SinceReset(events, n);
    assert Recent(events, r, n) && Outstanding(events, r) == 0;
  }

  /** A reset while a request is outstanding loses it: the next one is then taken for the only one. */
  lemma ResetLosesRequests(r: Request)
    ensures var events := [RecordRequest(Json, r), Reset, RecordRequest(Json, r)];
      Paired(events) && Outstanding(events, 3) == 2 && At(events, 3).inFlight == 1
  {
    var events := [RecordRequest(Json, r), Reset, RecordRequest(Json, r)];
    assert Outstanding(events, 1) == 1;
    assert Outstanding(events, 2) == 1;
    assert Outstanding(events, 3) == 2;
    StepInFlight(At(events, 1), events[1]);
    StepInFlight(At(events, 2), events[2]);
  }

  lemma StepPeak(s: State, e: Event)
    requires Inv(s)
    ensures Step(s, e).maxInFlight ==
            if e.RecordRequest? then Max(s.maxInFlight, s.inFlight + 1) else if e.Reset? then 0 else s.maxInFlight
  {
  }

  /** `peak` is the largest `in_flight` at any moment since the last reset. */
  ghost predicate Peak(events: seq<Event>, n: nat, peak: nat)
    requires n <= |events|
  {
    && (forall j: nat {:trigger Recent(events, j, n)} :: Recent(events, j, n) ==> At(events, j).inFlight <= peak)
    && (exists j: nat {:trigger Recent(events, j, n)} :: Recent(events, j, n) && At(events, j).inFlight == peak)
  }

  lemma PeakExtends(events: seq<Event>, n: nat, before: nat, peak: nat)
    requires 0 < n <= |events| && Peak(events, n - 1, before)
    requires var now := At(events, n).inFlight; peak == if events[n - 1].Reset? then now else Max(before, now)
    ensures Peak(events, n, peak)
  {
    var j: nat :| Recent(events, j, n - 1) && At(events, j).inFlight == before;
    var moment := if events[n - 1].Reset? || At(events, n).inFlight == peak then n else j;
    assert forall i: nat {:trigger Recent(events, i, n)} :: Recent(events, i, n) ==> i == n || Recent(events, i, n - 1);
    assert Recent(events, moment, n) && At(events, moment).inFlight == peak;
  }

  /** `max_in_flight` is the largest `in_flight` since the last reset. */
  lemma {:induction false} MaxInFlightIsPeak(events: seq<Event>, n: nat)
    requires n <= |events|
    ensures Peak(events, n, At(events, n).maxInFlight)
  {
    if n == 0 {
      assert Recent(events, 0, 0) && At(events, 0).inFlight == 0;
    } else {
      var s, e := At(events, n - 1), events[n - 1];
      MaxInFlightIsPeak(events, n - 1);
      assert Recent(events, n - 1, n - 1);
      StepInFlight(s, e);
      StepPeak(s, e);
      assert At(events, n) == Step(s, e);
      PeakExtends(events, n, s.maxInFlight, At(events, n).maxInFlight);
    }
  }
}
