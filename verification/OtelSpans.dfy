/**
 * utils/interfaces/_open_telemetry.py: the spans of a request are the ones whose attributes name it, and
 * every descendant of those, whatever the order in which the payloads were exported.
 */
module OtelSpans {

  import opened Flattening
  import opened Options
  import opened Sorting

  /** The JSON value of an attribute: a string, or anything else that is true or false in a condition. */
  datatype Attribute = Text(text: string) | Other(truthy: bool)

  /** `attributes` is None when the proxy left something that is not a dictionary. */
  datatype Span = Span(attributes: Option<map<string, Attribute>>, spanId: Option<string>, parentSpanId: Option<string>)

  /** `resources`: resourceSpans, their scopeSpans, their spans. */
  datatype Payload = Payload(request: string, resources: seq<seq<seq<Span>>>)

  datatype Record = Record(request: string, span: Span)

  /******* is_otel_span_for_request *******/

  const STANDARD_TAGS := ["http.request.headers.user-agent", "http.useragent", "user_agent.original"]
  const TEST_TAG := "system_tests.request.user_agent"

  predicate Truthy(attributes: map<string, Attribute>, tag: string) {
    tag in attributes && match attributes[tag]
      case Text(t) => t != ""
      case Other(b) => b
  }

  predicate Contains(text: string, part: string) {
    part <= text || (text != "" && Contains(text[1..], part))
  }

  predicate Names(attributes: map<string, Attribute>, tag: string, rid: string) {
    tag in attributes && attributes[tag].Text? && Contains(attributes[tag].text, rid)
  }

  function TruthyTags(attributes: map<string, Attribute>, tags: seq<string>): seq<string> {
    if tags == [] then []
    else (if Truthy(attributes, tags[0]) then [tags[0]] else []) + TruthyTags(attributes, tags[1..])
  }

  function UserAgentTags(attributes: map<string, Attribute>): seq<string> {
    var standard := TruthyTags(attributes, STANDARD_TAGS);
    if standard == [] then [TEST_TAG] else standard
  }

  predicate IsOtelSpanForRequest(span: Span, rid: string) {
    match span.attributes
    case None => false
    case Some(attributes) =>
      rid != "" && exists tag :: tag in UserAgentTags(attributes) && Names(attributes, tag, rid)
  }

  /** `part` stands somewhere in `text`. */
  lemma {:induction false} ContainsIff(text: string, part: string)
    ensures Contains(text, part) <==> exists i: nat :: OccursAt(text, part, i)
  {
    if part <= text {
      assert OccursAt(text, part, 0);
    } else if text != "" {
      ContainsIff(text[1..], part);
      forall i: nat ensures OccursAt(text[1..], part, i) <==> OccursAt(text, part, i + 1) {
        if i + 1 <= |text| {
          assert text[i + 1..] == text[1..][i..];
        }
      }
      if i: nat :| OccursAt(text, part, i) {
        assert i > 0 && OccursAt(text[1..], part, i - 1);
      }
      if i: nat :| OccursAt(text[1..], part, i) {
        assert OccursAt(text, part, i + 1);
      }
    }
  }

  predicate OccursAt(text: string, part: string, i: nat) {
    i <= |text| && part <= text[i..]
  }

  /** A string value of the tag has the request id somewhere in it. */
  ghost predicate Mentions(attributes: map<string, Attribute>, tag: string, rid: string) {
    exists text, i: nat :: tag in attributes && attributes[tag] == Text(text) && OccursAt(text, rid, i)
  }

  ghost predicate Set(attributes: map<string, Attribute>, tag: string) {
    tag in attributes && attributes[tag] != Text("") && attributes[tag] != Other(false)
  }

  lemma NamesIff(attributes: map<string, Attribute>, tag: string, rid: string)
    ensures Names(attributes, tag, rid) <==> Mentions(attributes, tag, rid)
    ensures Truthy(attributes, tag) <==> Set(attributes, tag)
  {
    if tag in attributes && attributes[tag].Text? {
      ContainsIff(attributes[tag].text, rid);
    }
  }

  /**
   * The span is one of the request, if and only if the request has an id, and a standard tag that is set mentions it,
   * or none is set and the test tag does.
   */
  lemma SpanForRequestIff(span: Span, rid: string)
    ensures IsOtelSpanForRequest(span, rid) <==>
            && rid != "" && span.attributes.Some?
            && var a := span.attributes.value;
            && var t1, t2, t3 := "http.request.headers.user-agent", "http.useragent", "user_agent.original";
            if Set(a, t1) || Set(a, t2) || Set(a, t3) then
              (Set(a, t1) && Mentions(a, t1, rid)) || (Set(a, t2) && Mentions(a, t2, rid)) ||
              (Set(a, t3) && Mentions(a, t3, rid))
            else Mentions(a, "system_tests.request.user_agent", rid)
  {
    if span.attributes.Some? {
      var a := span.attributes.value;
      StandardTagsDecide(a, span, rid);
      assert STANDARD_TAGS == ["http.request.headers.user-agent", "http.useragent", "user_agent.original"];
      assert forall i :: 0 <= i < 3 ==> STANDARD_TAGS[i] in STANDARD_TAGS;
      forall tag
        ensures Names(a, tag, rid) <==> Mentions(a, tag, rid)
        ensures Truthy(a, tag) <==> Set(a, tag)
      {
        NamesIff(a, tag, rid);
      }
    }
  }

  lemma {:induction false} TruthyTagsAre(attributes: map<string, Attribute>, tags: seq<string>, tag: string)
    ensures tag in TruthyTags(attributes, tags) <==> tag in tags && Truthy(attributes, tag)
  {
    if tags != [] {
      TruthyTagsAre(attributes, tags[1..], tag);
    }
  }

  predicate StandardTagSet(attributes: map<string, Attribute>) {
    exists tag :: tag in STANDARD_TAGS && Truthy(attributes, tag)
  }

  predicate StandardTagNames(attributes: map<string, Attribute>, rid: string) {
    exists tag :: tag in STANDARD_TAGS && Truthy(attributes, tag) && Names(attributes, tag, rid)
  }

  /** A standard tag that is set decides alone; the test tag is only consulted when none is. */
  lemma StandardTagsDecide(attributes: map<string, Attribute>, span: Span, rid: string)
    requires span.attributes == Some(attributes)
    ensures IsOtelSpanForRequest(span, rid) <==>
      (rid != "" &&
      if StandardTagSet(attributes) then StandardTagNames(attributes, rid) else Names(attributes, TEST_TAG, rid))
  {
    var standard := TruthyTags(attributes, STANDARD_TAGS);
    forall tag ensures tag in standard <==> tag in STANDARD_TAGS && Truthy(attributes, tag) {
      TruthyTagsAre(attributes, STANDARD_TAGS, tag);
    }
    if standard == [] {
      assert TEST_TAG in UserAgentTags(attributes);
    } else {
      assert standard[0] in standard;
    }
  }

  /******* Collection *******/

  function Records(request: string, spans: seq<Span>): seq<Record> {
    if spans == [] then [] else [Record(request, spans[0])] + Records(request, spans[1..])
  }

  function OfScopes(request: string, scopes: seq<seq<Span>>): seq<Record> {
    if scopes == [] then [] else Records(request, scopes[0]) + OfScopes(request, scopes[1..])
  }

  function OfResources(request: string, resources: seq<seq<seq<Span>>>): seq<Record> {
    if resources == [] then [] else OfScopes(request, resources[0]) + OfResources(request, resources[1..])
  }

  function OfPayload(payload: Payload): seq<Record> {
    OfResources(payload.request, payload.resources)
  }

  function Flatten(payloads: seq<Payload>): seq<Record> {
    if payloads == [] then [] else OfPayload(payloads[0]) + Flatten(payloads[1..])
  }

  /** The records, nested as the payloads are. */
  function Nest(payloads: seq<Payload>): Nested<Record> {
    Map(NestOne, payloads)
  }

  function NestOne(payload: Payload): seq<seq<seq<Record>>> {
    seq(|payload.resources|, i requires 0 <= i < |payload.resources| =>
      seq(|payload.resources[i]|, j requires 0 <= j < |payload.resources[i]| =>
        seq(|payload.resources[i][j]|, k requires 0 <= k < |payload.resources[i][j]| =>
          Record(payload.request, payload.resources[i][j][k]))))
  }

  lemma {:induction false} RecordsAt(request: string, spans: seq<Span>, k: nat)
    requires k < |spans|
    ensures |Records(request, spans)| == |spans| && Records(request, spans)[k] == Record(request, spans[k])
  {
    if |spans| > 1 {
      RecordsAt(request, spans[1..], if k > 0 then k - 1 else 0);
    }
  }

  lemma {:induction false} ScopesAreConcat(request: string, scopes: seq<seq<Span>>, nested: seq<seq<Record>>)
    requires |nested| == |scopes|
    requires forall j :: 0 <= j < |scopes| ==> |nested[j]| == |scopes[j]|
    requires forall j, k :: 0 <= j < |scopes| && 0 <= k < |scopes[j]| ==> nested[j][k] == Record(request, scopes[j][k])
    ensures OfScopes(request, scopes) == Concat(nested)
  {
    if scopes != [] {
      ScopesAreConcat(request, scopes[1..], nested[1..]);
      var first := Records(request, scopes[0]);
      if scopes[0] != [] {
        forall k | 0 <= k < |scopes[0]| ensures |first| == |scopes[0]| && first[k] == nested[0][k] {
          RecordsAt(request, scopes[0], k);
        }
        assert |first| == |scopes[0]| by {
          RecordsAt(request, scopes[0], 0);
        }
      }
      assert first == nested[0];
    }
  }

  lemma {:induction false} ResourcesAreConcat(
    request: string, resources: seq<seq<seq<Span>>>, nested: seq<seq<seq<Record>>>)
    requires |nested| == |resources|
    requires forall i :: 0 <= i < |resources| ==> OfScopes(request, resources[i]) == Concat(nested[i])
    ensures OfResources(request, resources) == Concat(Concat(nested))
  {
    if resources != [] {
      ResourcesAreConcat(request, resources[1..], nested[1..]);
      ConcatConcat(nested[0], Concat(nested[1..]));
    }
  }

  lemma PayloadIsConcat(payload: Payload)
    ensures OfPayload(payload) == Concat(Concat(NestOne(payload)))
  {
    forall i | 0 <= i < |payload.resources|
      ensures OfScopes(payload.request, payload.resources[i]) == Concat(NestOne(payload)[i])
    {
      ScopesAreConcat(payload.request, payload.resources[i], NestOne(payload)[i]);
    }
    ResourcesAreConcat(payload.request, payload.resources, NestOne(payload));
  }

  lemma {:induction false} FlattenIsFlat(payloads: seq<Payload>)
    ensures Flatten(payloads) == Flat(Nest(payloads))
  {
    if payloads != [] {
      FlattenIsFlat(payloads[1..]);
      PayloadIsConcat(payloads[0]);
      var first, rest := NestOne(payloads[0]), Nest(payloads[1..]);
      assert Nest(payloads) == [first] + rest;
      assert Concat([first] + rest) == first + Concat(rest);
      ConcatConcat(first, Concat(rest));
      ConcatConcat(Concat(first), Concat(Concat(rest)));
    }
  }

  /** There is a k-th span in the j-th scope of the i-th resource of the p-th payload. */
  predicate HasSpan(payloads: seq<Payload>, p: nat, i: nat, j: nat, k: nat) {
    p < |payloads| && i < |payloads[p].resources| && j < |payloads[p].resources[i]| &&
    k < |payloads[p].resources[i][j]|
  }

  lemma NestHas(payloads: seq<Payload>, p: nat, i: nat, j: nat, k: nat)
    requires HasSpan(payloads, p, i, j, k)
    ensures Inside(Nest(payloads), p, i, j, k)
    ensures Nest(payloads)[p][i][j][k] == Record(payloads[p].request, payloads[p].resources[i][j][k])
  {
    assert Nest(payloads)[p] == NestOne(payloads[p]);
  }

  lemma NestHasOnly(payloads: seq<Payload>, p: nat, i: nat, j: nat, k: nat)
    requires Inside(Nest(payloads), p, i, j, k)
    ensures HasSpan(payloads, p, i, j, k)
  {
    assert Nest(payloads)[p] == NestOne(payloads[p]);
  }

  /** Where the four nested loops put it. */
  function Position(payloads: seq<Payload>, p: nat, i: nat, j: nat, k: nat): nat
    requires HasSpan(payloads, p, i, j, k)
  {
    NestHas(payloads, p, i, j, k);
    Place(Nest(payloads), p, i, j, k)
  }

  /** Every span of every scope of every resource of every payload has its record, at its position. */
  lemma EverySpanIsCollected(payloads: seq<Payload>, p: nat, i: nat, j: nat, k: nat)
    requires HasSpan(payloads, p, i, j, k)
    ensures var n := Position(payloads, p, i, j, k);
      n < |Flatten(payloads)| &&
      Flatten(payloads)[n] == Record(payloads[p].request, payloads[p].resources[i][j][k])
  {
    FlattenIsFlat(payloads);
    NestHas(payloads, p, i, j, k);
    FlatAt(Nest(payloads), p, i, j, k);
  }

  /** Every record is that of a span, whose position it has. */
  lemma OnlySpansAreCollected(payloads: seq<Payload>, n: nat) returns (p: nat, i: nat, j: nat, k: nat)
    requires n < |Flatten(payloads)|
    ensures HasSpan(payloads, p, i, j, k) && Position(payloads, p, i, j, k) == n
  {
    FlattenIsFlat(payloads);
    p, i, j, k := FlatFrom(Nest(payloads), n);
    NestHasOnly(payloads, p, i, j, k);
  }

  /** Positions follow payloads, then resources, then scopes, then spans: so no two spans share one. */
  lemma PositionsFollowLoops(
    payloads: seq<Payload>, p: nat, i: nat, j: nat, k: nat, p': nat, i': nat, j': nat, k': nat)
    requires HasSpan(payloads, p, i, j, k) && HasSpan(payloads, p', i', j', k')
    requires Before(p, i, j, k, p', i', j', k')
    ensures Position(payloads, p, i, j, k) < Position(payloads, p', i', j', k')
  {
    NestHas(payloads, p, i, j, k);
    NestHas(payloads, p', i', j', k');
    PlacesOrdered(Nest(payloads), p, i, j, k, p', i', j', k');
  }

  /******* The least set *******/

  /** `child` names a member of `s` by a non-empty span id. */
  ghost predicate ChildOf(child: Record, s: set<Record>) {
    exists parent :: parent in s && parent.span.spanId.Some? && parent.span.spanId.value != "" &&
      child.span.parentSpanId == parent.span.spanId
  }

  /** `s` holds the records of `all` that match the request, and the children of its own members. */
  ghost predicate ClosedUnderDescent(all: seq<Record>, rid: string, s: set<Record>) {
    forall r :: r in all && (IsOtelSpanForRequest(r.span, rid) || ChildOf(r, s)) ==> r in s
  }

  /** The least such set. */
  ghost function Correlated(all: seq<Record>, rid: string): set<Record> {
    set r | r in all && forall s: set<Record> :: ClosedUnderDescent(all, rid, s) ==> r in s
  }

  lemma CorrelatedIsLeast(all: seq<Record>, rid: string)
    ensures ClosedUnderDescent(all, rid, Correlated(all, rid))
    ensures forall s :: ClosedUnderDescent(all, rid, s) ==> Correlated(all, rid) <= s
  {
    var least := Correlated(all, rid);
    forall r | r in all && (IsOtelSpanForRequest(r.span, rid) || ChildOf(r, least)) ensures r in least {
      forall s: set<Record> | ClosedUnderDescent(all, rid, s) ensures r in s {
        if ChildOf(r, least) {
          var parent :| parent in least && parent.span.spanId.Some? && parent.span.spanId.value != "" &&
            r.span.parentSpanId == parent.span.spanId;
          assert parent in s;
          assert ChildOf(r, s);
        }
      }
    }
  }

  ghost function Select(all: seq<Record>, s: set<Record>): seq<Record> {
    if all == [] then [] else (if all[0] in s then [all[0]] else []) + Select(all[1..], s)
  }

  lemma {:induction false} SelectAppend(all: seq<Record>, r: Record, s: set<Record>)
    ensures Select(all + [r], s) == Select(all, s) + (if r in s then [r] else [])
  {
    if all == [] {
      assert all + [r] == [r];
    } else {
      assert (all + [r])[1..] == all[1..] + [r];
      SelectAppend(all[1..], r, s);
    }
  }

  /******* get_otel_spans *******/

  /** `ids` are the non-empty span ids of the records at `indexes`. */
  ghost predicate Tracks(records: seq<Record>, indexes: set<nat>, ids: set<string>) {
    && (forall i :: i in indexes ==> i < |records|)
    && (forall i :: i in indexes && records[i].span.spanId.Some? && records[i].span.spanId.value != "" ==>
          records[i].span.spanId.value in ids)
    && (forall x :: x in ids ==> x != "" && exists i :: i in indexes && records[i].span.spanId == Some(x))
  }

  /** Whether a record is one the search begins with. */
  ghost function Seed(rid: string): Record -> bool {
    (r: Record) => IsOtelSpanForRequest(r.span, rid)
  }

  ghost predicate Seeded(records: seq<Record>, seed: Record -> bool, indexes: set<nat>) {
    forall i :: 0 <= i < |records| && seed(records[i]) ==> i in indexes
  }

  ghost predicate OnlySeeds(records: seq<Record>, seed: Record -> bool, indexes: set<nat>) {
    forall i :: i in indexes ==> i < |records| && seed(records[i])
  }

  ghost predicate Collected(records: seq<Record>, seed: Record -> bool, indexes: set<nat>, ids: set<string>) {
    Tracks(records, indexes, ids) && Seeded(records, seed, indexes) && OnlySeeds(records, seed, indexes)
  }

  lemma CollectedNothing(seed: Record -> bool)
    ensures Collected([], seed, {}, {})
  {
  }

  lemma TracksOneMore(records: seq<Record>, indexes: set<nat>, ids: set<string>, r: Record, found: bool)
    requires Tracks(records, indexes, ids)
    ensures Tracks(records + [r], if found then indexes + {|records|} else indexes,
                   if found && r.span.spanId.Some? && r.span.spanId.value != "" then ids + {r.span.spanId.value}
                   else ids)
  {
    var more := records + [r];
    assert more[|records|] == r;
    forall x | x in ids ensures exists i :: i in indexes && more[i].span.spanId == Some(x) {
      var i :| i in indexes && records[i].span.spanId == Some(x);
      assert more[i] == records[i];
    }
  }

  lemma CollectedOneMore(
    records: seq<Record>, seed: Record -> bool, indexes: set<nat>, ids: set<string>, r: Record)
    requires Collected(records, seed, indexes, ids)
    ensures if seed(r) then
              Collected(records + [r], seed, indexes + {|records|},
                if r.span.spanId.Some? && r.span.spanId.value != "" then ids + {r.span.spanId.value} else ids)
            else
              Collected(records + [r], seed, indexes, ids)
  {
    TracksOneMore(records, indexes, ids, r, seed(r));
    var more := records + [r];
    assert more[|records|] == r;
    assert forall i :: 0 <= i < |records| ==> more[i] == records[i];
  }

  /** The innermost of the four nested loops over the payloads. */
  method CollectScope(
    request: string, spans: seq<Span>, rid: string, records0: seq<Record>, indexes0: set<nat>, ids0: set<string>)
    returns (records: seq<Record>, indexes: set<nat>, ids: set<string>)
    requires Collected(records0, Seed(rid), indexes0, ids0)
    ensures records == records0 + Records(request, spans)
    ensures Collected(records, Seed(rid), indexes, ids)
  {
    records, indexes, ids := records0, indexes0, ids0;
    for i := 0 to |spans|
      invariant records + Records(request, spans[i..]) == records0 + Records(request, spans)
      invariant Collected(records, Seed(rid), indexes, ids)
    {
      var index := |records|;
      var span := spans[i];
      ghost var was, after := records, Records(request, spans[i + 1..]);
      records := records + [Record(request, span)];
      ConcatAssociates(was, [Record(request, span)], after);
      CollectedOneMore(was, Seed(rid), indexes, ids, records[index]);
      if IsOtelSpanForRequest(span, rid) {
        indexes := indexes + {index};
        if span.spanId.Some? && span.spanId.value != "" {
          ids := ids + {span.spanId.value};
        }
      }
    }
  }

  method CollectResource(
    request: string, scopes: seq<seq<Span>>, rid: string, records0: seq<Record>, indexes0: set<nat>, ids0: set<string>)
    returns (records: seq<Record>, indexes: set<nat>, ids: set<string>)
    requires Collected(records0, Seed(rid), indexes0, ids0)
    ensures records == records0 + OfScopes(request, scopes)
    ensures Collected(records, Seed(rid), indexes, ids)
  {
    records, indexes, ids := records0, indexes0, ids0;
    for i := 0 to |scopes|
      invariant records + OfScopes(request, scopes[i..]) == records0 + OfScopes(request, scopes)
      invariant Collected(records, Seed(rid), indexes, ids)
    {
      ghost var was, after := records, OfScopes(request, scopes[i + 1..]);
      records, indexes, ids := CollectScope(request, scopes[i], rid, records, indexes, ids);
      ConcatAssociates(was, Records(request, scopes[i]), after);
    }
  }

  method CollectPayload(
    payload: Payload, rid: string, records0: seq<Record>, indexes0: set<nat>, ids0: set<string>)
    returns (records: seq<Record>, indexes: set<nat>, ids: set<string>)
    requires Collected(records0, Seed(rid), indexes0, ids0)
    ensures records == records0 + OfPayload(payload)
    ensures Collected(records, Seed(rid), indexes, ids)
  {
    records, indexes, ids := records0, indexes0, ids0;
    var request, resources := payload.request, payload.resources;
    for i := 0 to |resources|
      invariant records + OfResources(request, resources[i..]) == records0 + OfPayload(payload)
      invariant Collected(records, Seed(rid), indexes, ids)
    {
      ghost var was, after := records, OfResources(request, resources[i + 1..]);
      records, indexes, ids := CollectResource(request, resources[i], rid, records, indexes, ids);
      ConcatAssociates(was, OfScopes(request, resources[i]), after);
    }
  }

  method Collect(payloads: seq<Payload>, rid: string)
    returns (records: seq<Record>, indexes: set<nat>, ids: set<string>)
    ensures records == Flatten(payloads)
    ensures Collected(records, Seed(rid), indexes, ids)
  {
    CollectedNothing(Seed(rid));
    records, indexes, ids := [], {}, {};
    for i := 0 to |payloads|
      invariant records + Flatten(payloads[i..]) == Flatten(payloads)
      invariant Collected(records, Seed(rid), indexes, ids)
    {
      ghost var was, after := records, Flatten(payloads[i + 1..]);
      records, indexes, ids := CollectPayload(payloads[i], rid, records, indexes, ids);
      ConcatAssociates(was, OfPayload(payloads[i]), after);
    }
  }

  ghost predicate Within(records: seq<Record>, rid: string, indexes: set<nat>) {
    forall i :: i in indexes ==> i < |records| && records[i] in Correlated(records, rid)
  }

  predicate Adopted(span: Span, ids: set<string>) {
    span.parentSpanId.Some? && span.parentSpanId.value in ids
  }

  lemma AdoptedIsCorrelated(records: seq<Record>, rid: string, indexes: set<nat>, ids: set<string>, i: nat)
    requires Tracks(records, indexes, ids) && Within(records, rid, indexes)
    requires i < |records| && Adopted(records[i].span, ids)
    ensures records[i] in Correlated(records, rid)
  {
    CorrelatedIsLeast(records, rid);
    var k :| k in indexes && records[k].span.spanId == Some(records[i].span.parentSpanId.value);
    assert ChildOf(records[i], Correlated(records, rid));
  }

  /** Once a pass finds nothing, exactly the least set has been found. */
  lemma FixpointIsLeast(records: seq<Record>, rid: string, indexes: set<nat>, ids: set<string>)
    requires Tracks(records, indexes, ids) && Seeded(records, Seed(rid), indexes) && Within(records, rid, indexes)
    requires forall i :: 0 <= i < |records| && Adopted(records[i].span, ids) ==> i in indexes
    ensures forall i :: 0 <= i < |records| ==> (i in indexes <==> records[i] in Correlated(records, rid))
  {
    var found := set r | r in records && forall i :: 0 <= i < |records| && records[i] == r ==> i in indexes;
    forall r | r in records && (IsOtelSpanForRequest(r.span, rid) || ChildOf(r, found)) ensures r in found {
      if ChildOf(r, found) {
        var parent :| parent in found && parent.span.spanId.Some? && parent.span.spanId.value != "" &&
          r.span.parentSpanId == parent.span.spanId;
        var k :| 0 <= k < |records| && records[k] == parent;
        assert k in indexes;
        assert Adopted(r.span, ids);
      }
    }
    assert ClosedUnderDescent(records, rid, found);
    CorrelatedIsLeast(records, rid);
  }

  lemma {:induction false} IndexesBound(indexes: set<nat>, n: nat)
    requires forall i :: i in indexes ==> i < n
    ensures |indexes| <= n
  {
    if n == 0 {
      assert indexes == {};
    } else {
      IndexesBound(indexes - {n - 1}, n - 1);
    }
  }

  lemma {:induction false} SubsetSize(a: set<nat>, b: set<nat>)
    requires a <= b
    ensures |a| <= |b|
  {
    if a != {} {
      var x :| x in a;
      SubsetSize(a - {x}, b - {x});
    }
  }

  /** One pass over the records, with the sets growing under it. */
  method Pass(records: seq<Record>, rid: string, indexes0: set<nat>, ids0: set<string>)
    returns (indexes: set<nat>, ids: set<string>, found: bool)
    requires Tracks(records, indexes0, ids0) && Within(records, rid, indexes0)
    ensures Tracks(records, indexes, ids) && Within(records, rid, indexes) && indexes0 <= indexes
    ensures found ==> |indexes| > |indexes0|
    ensures !found ==> indexes == indexes0 && ids == ids0
    ensures !found ==> forall i :: 0 <= i < |records| && Adopted(records[i].span, ids) ==> i in indexes
  {
    indexes, ids, found := indexes0, ids0, false;
    for index := 0 to |records|
      invariant Tracks(records, indexes, ids) && Within(records, rid, indexes) && indexes0 <= indexes
      invariant found ==> |indexes| > |indexes0|
      invariant !found ==> indexes == indexes0 && ids == ids0
      invariant !found ==> forall i :: 0 <= i < index && Adopted(records[i].span, ids) ==> i in indexes
    {
      var span := records[index].span;
      if index in indexes || !Adopted(span, ids) {
        continue;
      }
      AdoptedIsCorrelated(records, rid, indexes, ids, index);
      SubsetSize(indexes0, indexes);
      indexes := indexes + {index};
      if span.spanId.Some? && span.spanId.value != "" {
        ids := ids + {span.spanId.value};
      }
      found := true;
    }
  }

  /** The passes, until one of them finds no descendant. */
  method Resolve(records: seq<Record>, rid: string, indexes0: set<nat>, ids0: set<string>)
    returns (indexes: set<nat>, ghost passes: nat)
    requires Collected(records, Seed(rid), indexes0, ids0)
    ensures forall i :: 0 <= i < |records| ==> (i in indexes <==> records[i] in Correlated(records, rid))
    ensures passes <= |records| + 1
  {
    indexes, passes := indexes0, 0;
    var ids, foundDescendant := ids0, true;
    CorrelatedIsLeast(records, rid);
    IndexesBound(indexes, |records|);
    while foundDescendant
      invariant Tracks(records, indexes, ids) && Within(records, rid, indexes) && Seeded(records, Seed(rid), indexes)
      invariant !foundDescendant ==>
        forall i :: 0 <= i < |records| && Adopted(records[i].span, ids) ==> i in indexes
      invariant |indexes| <= |records|
      invariant passes <= |indexes| + if foundDescendant then 0 else 1
      decreases |records| - |indexes|, foundDescendant
    {
      indexes, ids, foundDescendant := Pass(records, rid, indexes, ids);
      IndexesBound(indexes, |records|);
      passes := passes + 1;
    }
    FixpointIsLeast(records, rid, indexes, ids);
  }

  /**
   * Yields the correlated records, in the order they were collected and each of them once, after at most
   * one pass more than there are records.
   */
  method GetOtelSpans(payloads: seq<Payload>, rid: string) returns (yielded: seq<Record>, ghost passes: nat)
    ensures yielded == Select(Flatten(payloads), Correlated(Flatten(payloads), rid))
    ensures passes <= |Flatten(payloads)| + 1
  {
    var records, indexes, ids := Collect(payloads, rid);
    indexes, passes := Resolve(records, rid, indexes, ids);
    yielded := [];
    ghost var least := Correlated(records, rid);
    for index := 0 to |records|
      invariant yielded == Select(records[..index], least)
    {
      SelectAppend(records[..index], records[index], least);
      assert records[..index + 1] == records[..index] + [records[index]];
      if index in indexes {
        yielded := yielded + [records[index]];
      }
    }
    assert records[..|records|] == records;
  }

  /******* Export order *******/

  lemma {:induction false} SelectCounts(all: seq<Record>, s: set<Record>, r: Record)
    ensures multiset(Select(all, s))[r] == if r in s then multiset(all)[r] else 0
  {
    if all != [] {
      assert all == [all[0]] + all[1..];
      SelectCounts(all[1..], s, r);
    }
  }

  lemma {:induction false} FlattenConcat(a: seq<Payload>, b: seq<Payload>)
    ensures Flatten(a + b) == Flatten(a) + Flatten(b)
  {
    if a == [] {
      assert a + b == b;
    } else {
      assert (a + b)[1..] == a[1..] + b;
      FlattenConcat(a[1..], b);
    }
  }

  lemma FlattenWithout(b: seq<Payload>, k: nat)
    requires k < |b|
    ensures multiset(Flatten(b)) == multiset(OfPayload(b[k])) + multiset(Flatten(b[..k] + b[k + 1..]))
  {
    FlattenConcat(b[..k], b[k + 1..]);
    FlattenConcat(b[..k], b[k..]);
    assert b == b[..k] + b[k..];
  }

  lemma {:induction false} FlattenPermuted(a: seq<Payload>, b: seq<Payload>)
    requires multiset(a) == multiset(b)
    ensures multiset(Flatten(a)) == multiset(Flatten(b))
  {
    if a == [] {
      assert |multiset(b)| == 0;
    } else {
      assert a[0] in multiset(b);
      var k :| 0 <= k < |b| && b[k] == a[0];
      var rest := b[..k] + b[k + 1..];
      WithoutOne(a, b, k);
      FlattenPermuted(a[1..], rest);
      FlattenWithout(b, k);
    }
  }

  /** Exporting the payloads in another order yields the same records, as often. */
  lemma ExportOrderDoesNotMatter(a: seq<Payload>, b: seq<Payload>, rid: string)
    requires multiset(a) == multiset(b)
    ensures var recordsA, recordsB := Flatten(a), Flatten(b);
      && Correlated(recordsA, rid) == Correlated(recordsB, rid)
      && multiset(Select(recordsA, Correlated(recordsA, rid))) == multiset(Select(recordsB, Correlated(recordsB, rid)))
  {
    FlattenPermuted(a, b);
    var recordsA, recordsB := Flatten(a), Flatten(b);
    assert forall r :: r in recordsA <==> r in multiset(recordsB);
    assert forall s :: ClosedUnderDescent(recordsA, rid, s) <==> ClosedUnderDescent(recordsB, rid, s);
    var s := Correlated(recordsA, rid);
    assert s == Correlated(recordsB, rid);
    forall r ensures multiset(Select(recordsA, s))[r] == multiset(Select(recordsB, s))[r] {
      SelectCounts(recordsA, s, r);
      SelectCounts(recordsB, s, r);
    }
  }
}
