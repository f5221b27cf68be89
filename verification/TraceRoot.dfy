/**
 * utils/onboarding/backend_interface.py: `_get_mocked_backend_trace`, the spans of a trace among what the mocked
 * backend received, and the choice of its root. A start is a number as the conversion to seconds yields it.
 */
module TraceRoot {
  import opened Flattening
  import opened Graphs
  import opened Options
  import opened Sorting

  type Meta = map<string, string>

  datatype RawSpan = RawSpan(spanId: string, parentId: string, traceId: int, start: real, meta: Meta)

  /** `traceId` is what a v1 chunk carries: up to 128 bits. */
  datatype Chunk = Chunk(traceId: nat, attributes: Meta, spans: seq<RawSpan>)

  datatype Payload = Payload(meta: Meta, chunks: seq<Chunk>)

  /** A request to the trace endpoint; `Other` has no payloads that could be deserialized. */
  datatype Message = Legacy(payloads: seq<Payload>) | V1(payloads: seq<Payload>) | Other

  datatype Span = Span(spanId: string, parentId: string, start: real, meta: Meta)

  /** A dictionary by span id: `order` lists its keys as they were first inserted. */
  datatype Spans = Spans(order: seq<string>, byId: map<string, Span>)

  datatype Trace = Trace(rootId: string, spans: Spans)

  /******* The spans of the trace *******/

  const LOW_64_BITS: nat := 0x1_0000_0000_0000_0000

  predicate HasPrefix(prefix: string, s: string) {
    prefix <= s
  }

  /** Only a v1 chunk has attributes for its spans. */
  function ChunkMeta(c: Chunk, v1: bool): Meta {
    if v1 then map k | k in c.attributes && HasPrefix("_dd.p.", k) :: c.attributes[k] else map[]
  }

  predicate OfTrace(c: Chunk, s: RawSpan, v1: bool, traceId: int) {
    if v1 then c.traceId % LOW_64_BITS == traceId else s.traceId == traceId
  }

  function ToSpan(p: Payload, c: Chunk, s: RawSpan, v1: bool): Span {
    Span(s.spanId, s.parentId, s.start, p.meta + ChunkMeta(c, v1) + s.meta)
  }

  /** In v1 the chunk decides, by the low 64 bits of its 128; before that, each span. */
  lemma OfTraceIff(c: Chunk, s: RawSpan, traceId: int)
    ensures OfTrace(c, s, true, traceId) <==>
            0 <= traceId < 18446744073709551616 &&
            exists high: nat :: c.traceId == high * 18446744073709551616 + traceId
    ensures OfTrace(c, s, false, traceId) <==> s.traceId == traceId
  {
    var high := c.traceId / 18446744073709551616;
    assert c.traceId == high * 18446744073709551616 + c.traceId % 18446744073709551616;
    if traceId == c.traceId % 18446744073709551616 {
      assert c.traceId == high * 18446744073709551616 + traceId;
    }
    forall h: nat | 0 <= traceId < 18446744073709551616 && c.traceId == h * 18446744073709551616 + traceId
      ensures c.traceId % 18446744073709551616 == traceId
    {
      assert high == h;
    }
  }

  /** A span keeps its identity. Of the attributes of a v1 chunk, it gets those whose names begin with `_dd.p.` */
  lemma SpanKeeps(p: Payload, c: Chunk, s: RawSpan, v1: bool, k: string)
    ensures var span := ToSpan(p, c, s, v1);
      span.spanId == s.spanId && span.parentId == s.parentId && span.start == s.start
    ensures k in ChunkMeta(c, v1) <==> v1 && k in c.attributes && |k| >= 6 && k[..6] == "_dd.p."
    ensures k in ChunkMeta(c, v1) ==> ChunkMeta(c, v1)[k] == c.attributes[k]
  {
  }

  /** A key of the span wins over the chunk, the chunk over the payload, and no other keys come in. */
  lemma MetaPrecedence(p: Payload, c: Chunk, s: RawSpan, v1: bool, k: string)
    ensures var meta, chunkMeta := ToSpan(p, c, s, v1).meta, ChunkMeta(c, v1);
      && (k in meta <==> k in s.meta || k in chunkMeta || k in p.meta)
      && (k in meta ==>
            meta[k] == if k in s.meta then s.meta[k] else if k in chunkMeta then chunkMeta[k] else p.meta[k])
  {
  }

  /** The spans of the trace among the first `n` of a chunk, and so on outwards. */
  function ChunkSpans(p: Payload, c: Chunk, v1: bool, traceId: int, n: nat): seq<Span>
    requires n <= |c.spans|
  {
    if n == 0 then []
    else
      ChunkSpans(p, c, v1, traceId, n - 1) +
      (if OfTrace(c, c.spans[n - 1], v1, traceId) then [ToSpan(p, c, c.spans[n - 1], v1)] else [])
  }

  function PayloadSpans(p: Payload, v1: bool, traceId: int, n: nat): seq<Span>
    requires n <= |p.chunks|
  {
    if n == 0 then []
    else
      PayloadSpans(p, v1, traceId, n - 1) + ChunkSpans(p, p.chunks[n - 1], v1, traceId, |p.chunks[n - 1].spans|)
  }

  function MessageSpans(payloads: seq<Payload>, v1: bool, traceId: int, n: nat): seq<Span>
    requires n <= |payloads|
  {
    if n == 0 then []
    else
      MessageSpans(payloads, v1, traceId, n - 1) +
      PayloadSpans(payloads[n - 1], v1, traceId, |payloads[n - 1].chunks|)
  }

  function SpansOf(m: Message, traceId: int): seq<Span> {
    if m.Other? then [] else MessageSpans(m.payloads, m.V1?, traceId, |m.payloads|)
  }

  function TraceSpans(messages: seq<Message>, traceId: int, n: nat): seq<Span>
    requires n <= |messages|
  {
    if n == 0 then [] else TraceSpans(messages, traceId, n - 1) + SpansOf(messages[n - 1], traceId)
  }

  /** A span, and whether it is one of the trace. */
  datatype Candidate = Candidate(span: Span, wanted: bool)

  function Candidates(m: Message, traceId: int): seq<seq<seq<Candidate>>> {
    if m.Other? then []
    else
      seq(|m.payloads|, i requires 0 <= i < |m.payloads| =>
        seq(|m.payloads[i].chunks|, j requires 0 <= j < |m.payloads[i].chunks| =>
          ChunkCandidates(m.payloads[i], m.payloads[i].chunks[j], m.V1?, traceId)))
  }

  function ChunkCandidates(p: Payload, c: Chunk, v1: bool, traceId: int): seq<Candidate> {
    seq(|c.spans|, k requires 0 <= k < |c.spans| =>
      Candidate(ToSpan(p, c, c.spans[k], v1), OfTrace(c, c.spans[k], v1, traceId)))
  }

  /** Every span received, by message, payload and chunk. */
  function Received(messages: seq<Message>, traceId: int): Nested<Candidate> {
    seq(|messages|, m requires 0 <= m < |messages| => Candidates(messages[m], traceId))
  }

  function Wanted(cs: seq<Candidate>): seq<Span> {
    if cs == [] then [] else (if cs[0].wanted then [cs[0].span] else []) + Wanted(cs[1..])
  }

  lemma {:induction false} WantedConcat(a: seq<Candidate>, b: seq<Candidate>)
    ensures Wanted(a + b) == Wanted(a) + Wanted(b)
  {
    if a == [] {
      assert a + b == b;
    } else {
      var head := if a[0].wanted then [a[0].span] else [];
      assert (a + b)[1..] == a[1..] + b && (a + b)[0] == a[0];
      WantedConcat(a[1..], b);
      assert head + (Wanted(a[1..]) + Wanted(b)) == head + Wanted(a[1..]) + Wanted(b);
    }
  }

  lemma {:induction false} ChunkIsWanted(p: Payload, c: Chunk, v1: bool, traceId: int, n: nat)
    requires n <= |c.spans|
    ensures ChunkSpans(p, c, v1, traceId, n) == Wanted(ChunkCandidates(p, c, v1, traceId)[..n])
  {
    if n > 0 {
      var all := ChunkCandidates(p, c, v1, traceId);
      ChunkIsWanted(p, c, v1, traceId, n - 1);
      assert all[..n] == all[..n - 1] + [all[n - 1]];
      WantedConcat(all[..n - 1], [all[n - 1]]);
    }
  }

  function PayloadCandidates(p: Payload, v1: bool, traceId: int): seq<seq<Candidate>> {
    seq(|p.chunks|, j requires 0 <= j < |p.chunks| => ChunkCandidates(p, p.chunks[j], v1, traceId))
  }

  lemma {:induction false} PayloadIsWanted(p: Payload, v1: bool, traceId: int, n: nat)
    requires n <= |p.chunks|
    ensures PayloadSpans(p, v1, traceId, n) == Wanted(Concat(PayloadCandidates(p, v1, traceId)[..n]))
  {
    if n > 0 {
      var all := PayloadCandidates(p, v1, traceId);
      PayloadIsWanted(p, v1, traceId, n - 1);
      ChunkIsWanted(p, p.chunks[n - 1], v1, traceId, |p.chunks[n - 1].spans|);
      assert all[n - 1][..|all[n - 1]|] == all[n - 1];
      assert all[..n] == all[..n - 1] + [all[n - 1]];
      ConcatSnoc(all[..n - 1], all[n - 1]);
      WantedConcat(Concat(all[..n - 1]), all[n - 1]);
    }
  }

  lemma {:induction false} MessageIsWanted(m: Message, traceId: int, n: nat)
    requires !m.Other? && n <= |m.payloads|
    ensures MessageSpans(m.payloads, m.V1?, traceId, n) == Wanted(Concat(Concat(Candidates(m, traceId)[..n])))
  {
    if n > 0 {
      var p := m.payloads[n - 1];
      var one := PayloadCandidates(p, m.V1?, traceId);
      MessageIsWanted(m, traceId, n - 1);
      PayloadIsWanted(p, m.V1?, traceId, |p.chunks|);
      assert one[..|p.chunks|] == one;
      CandidatesSnoc(m, traceId, n);
      ConcatSnoc2(Candidates(m, traceId)[..n - 1], one);
      WantedConcat(Concat(Concat(Candidates(m, traceId)[..n - 1])), Concat(one));
    }
  }

  lemma CandidatesSnoc(m: Message, traceId: int, n: nat)
    requires !m.Other? && 0 < n <= |m.payloads|
    ensures var all := Candidates(m, traceId);
      all[..n] == all[..n - 1] + [PayloadCandidates(m.payloads[n - 1], m.V1?, traceId)]
  {
    var all := Candidates(m, traceId);
    assert all[n - 1] == PayloadCandidates(m.payloads[n - 1], m.V1?, traceId);
  }

  lemma OneMessageIsWanted(m: Message, traceId: int)
    ensures SpansOf(m, traceId) == Wanted(Concat(Concat(Candidates(m, traceId))))
  {
    if !m.Other? {
      MessageIsWanted(m, traceId, |m.payloads|);
      assert Candidates(m, traceId)[..|m.payloads|] == Candidates(m, traceId);
    }
  }

  lemma ReceivedSnoc(messages: seq<Message>, traceId: int, n: nat)
    requires 0 < n <= |messages|
    ensures var all := Received(messages, traceId);
      all[..n] == all[..n - 1] + [Candidates(messages[n - 1], traceId)]
  {
  }

  lemma WantedSnoc(all: Nested<Candidate>, one: seq<seq<seq<Candidate>>>)
    ensures Wanted(Flat(all + [one])) == Wanted(Flat(all)) + Wanted(Concat(Concat(one)))
  {
    FlatSnoc(all, one);
    WantedConcat(Flat(all), Concat(Concat(one)));
  }

  lemma {:induction false} TraceIsWanted(messages: seq<Message>, traceId: int, n: nat)
    requires n <= |messages|
    ensures TraceSpans(messages, traceId, n) == Wanted(Flat(Received(messages, traceId)[..n]))
  {
    if n > 0 {
      TraceIsWanted(messages, traceId, n - 1);
      OneMessageIsWanted(messages[n - 1], traceId);
      ReceivedSnoc(messages, traceId, n);
      WantedSnoc(Received(messages, traceId)[..n - 1], Candidates(messages[n - 1], traceId));
    }
  }

  /** There is a k-th span in the j-th chunk of the i-th payload of the m-th message that could be deserialized. */
  predicate HasSpan(messages: seq<Message>, m: nat, i: nat, j: nat, k: nat) {
    m < |messages| && !messages[m].Other? && i < |messages[m].payloads| && j < |messages[m].payloads[i].chunks| &&
    k < |messages[m].payloads[i].chunks[j].spans|
  }

  lemma ReceivedHas(messages: seq<Message>, traceId: int, m: nat, i: nat, j: nat, k: nat)
    ensures HasSpan(messages, m, i, j, k) <==> Inside(Received(messages, traceId), m, i, j, k)
    ensures HasSpan(messages, m, i, j, k) ==>
              var p, v1 := messages[m].payloads[i], messages[m].V1?;
              var c := p.chunks[j];
              Received(messages, traceId)[m][i][j][k] ==
              Candidate(ToSpan(p, c, c.spans[k], v1), OfTrace(c, c.spans[k], v1, traceId))
  {
  }

  /**
   * The spans of the trace are, of all spans of all chunks of all payloads of all messages, listed in the order of
   * the loops, those of the trace, in the same order.
   */
  lemma TraceSpansAreExact(messages: seq<Message>, traceId: int)
    ensures TraceSpans(messages, traceId, |messages|) == Wanted(Flat(Received(messages, traceId)))
    ensures forall m: nat, i: nat, j: nat, k: nat :: HasSpan(messages, m, i, j, k) ==>
              HasPlace(messages, traceId, m, i, j, k)
    ensures forall n: nat :: n < |Flat(Received(messages, traceId))| ==> IsListed(messages, traceId, n)
  {
    var all := Received(messages, traceId);
    TraceIsWanted(messages, traceId, |messages|);
    assert all[..|messages|] == all;
    forall m: nat, i: nat, j: nat, k: nat | HasSpan(messages, m, i, j, k)
      ensures HasPlace(messages, traceId, m, i, j, k)
    {
      ReceivedHas(messages, traceId, m, i, j, k);
      FlatAt(all, m, i, j, k);
    }
    forall n: nat | n < |Flat(all)| ensures IsListed(messages, traceId, n) {
      var m, i, j, k := FlatFrom(all, n);
      ReceivedHas(messages, traceId, m, i, j, k);
    }
  }

  /** The span has its place in the list of all spans. */
  ghost predicate HasPlace(messages: seq<Message>, traceId: int, m: nat, i: nat, j: nat, k: nat)
    requires HasSpan(messages, m, i, j, k)
  {
    var p, v1, all := messages[m].payloads[i], messages[m].V1?, Received(messages, traceId);
    var c := p.chunks[j];
    && Inside(all, m, i, j, k)
    && Place(all, m, i, j, k) < |Flat(all)|
    && Flat(all)[Place(all, m, i, j, k)] ==
         Candidate(ToSpan(p, c, c.spans[k], v1), OfTrace(c, c.spans[k], v1, traceId))
  }

  ghost predicate IsListed(messages: seq<Message>, traceId: int, n: nat) {
    exists m: nat, i: nat, j: nat, k: nat ::
      HasSpan(messages, m, i, j, k) && Inside(Received(messages, traceId), m, i, j, k) &&
      Place(Received(messages, traceId), m, i, j, k) == n
  }

  /** Places follow messages, then payloads, then chunks, then spans. */
  lemma PlacesFollowLoops(messages: seq<Message>, traceId: int,
                          m: nat, i: nat, j: nat, k: nat, m': nat, i': nat, j': nat, k': nat)
    requires HasSpan(messages, m, i, j, k) && HasSpan(messages, m', i', j', k')
    requires Before(m, i, j, k, m', i', j', k')
    ensures var all := Received(messages, traceId);
      Inside(all, m, i, j, k) && Inside(all, m', i', j', k') && Place(all, m, i, j, k) < Place(all, m', i', j', k')
  {
    ReceivedHas(messages, traceId, m, i, j, k);
    ReceivedHas(messages, traceId, m', i', j', k');
    PlacesOrdered(Received(messages, traceId), m, i, j, k, m', i', j', k');
  }

  /** What is wanted of one more candidate. */
  lemma WantedExtends(cs: seq<Candidate>, c: Candidate)
    ensures Wanted([]) == [] && Wanted(cs + [c]) == Wanted(cs) + (if c.wanted then [c.span] else [])
  {
    WantedConcat(cs, [c]);
  }

  const NO_SPANS := Spans([], map[])

  function Put(spans: Spans, s: Span): Spans {
    Spans(if s.spanId in spans.byId then spans.order else spans.order + [s.spanId], spans.byId[s.spanId := s])
  }

  function PutAll(spans: Spans, list: seq<Span>): Spans {
    if list == [] then spans else Put(PutAll(spans, list[..|list| - 1]), list[|list| - 1])
  }

  lemma {:induction false} PutAllConcat(spans: Spans, a: seq<Span>, b: seq<Span>)
    ensures PutAll(spans, a + b) == PutAll(PutAll(spans, a), b)
  {
    if b == [] {
      assert a + b == a;
    } else {
      var n := |b| - 1;
      assert (a + b)[..|a + b| - 1] == a + b[..n];
      PutAllConcat(spans, a, b[..n]);
    }
  }

  ghost predicate WellKept(spans: Spans) {
    && Distinct(spans.order)
    && (forall id :: id in spans.order <==> id in spans.byId)
    && (forall id :: id in spans.byId ==> spans.byId[id].spanId == id)
  }

  ghost predicate LastWithId(list: seq<Span>, i: nat, id: string) {
    i < |list| && list[i].spanId == id && forall j :: i < j < |list| ==> list[j].spanId != id
  }

  lemma PutKeeps(spans: Spans, s: Span)
    requires WellKept(spans)
    ensures var r := Put(spans, s);
      && WellKept(r) && r.order != []
      && (forall id :: id in r.byId <==> id in spans.byId || id == s.spanId)
      && (forall id :: id in r.byId ==> r.byId[id] == if id == s.spanId then s else spans.byId[id])
  {
  }

  /** The dictionary holds the ids of the spans of the trace, no others, and for each of them its last occurrence. */
  lemma {:induction false} LastOccurrenceWins(list: seq<Span>)
    ensures WellKept(PutAll(NO_SPANS, list))
    ensures list != [] ==> PutAll(NO_SPANS, list).order != []
    ensures forall id :: id in PutAll(NO_SPANS, list).byId <==> exists i: nat :: i < |list| && list[i].spanId == id
    ensures forall id, i: nat :: LastWithId(list, i, id) ==>
              id in PutAll(NO_SPANS, list).byId && PutAll(NO_SPANS, list).byId[id] == list[i]
  {
    if list != [] {
      var n := |list| - 1;
      var init, last := list[..n], list[n];
      LastOccurrenceWins(init);
      PutKeeps(PutAll(NO_SPANS, init), last);
      assert forall i :: 0 <= i < n ==> init[i] == list[i];
      forall id ensures id in PutAll(NO_SPANS, list).byId <==> exists i: nat :: i < |list| && list[i].spanId == id {
        if id in PutAll(NO_SPANS, init).byId {
          var i: nat :| i < |init| && init[i].spanId == id;
          assert list[i].spanId == id;
        }
      }
      forall id, i: nat | LastWithId(list, i, id)
        ensures id in PutAll(NO_SPANS, list).byId && PutAll(NO_SPANS, list).byId[id] == list[i]
      {
        if i < n {
          assert list[n].spanId != id && LastWithId(init, i, id);
        }
      }
    }
  }

  ghost predicate FirstWithId(list: seq<Span>, i: nat, id: string) {
    i < |list| && list[i].spanId == id && forall j :: 0 <= j < i ==> list[j].spanId != id
  }

  /** The ids are kept in the order in which they first occur, whatever replaces their spans later. */
  lemma {:induction false} OrderFollowsFirstOccurrences(list: seq<Span>, a: nat, b: nat, i: nat, j: nat)
    requires a < |PutAll(NO_SPANS, list).order| && b < |PutAll(NO_SPANS, list).order|
    requires FirstWithId(list, i, PutAll(NO_SPANS, list).order[a])
    requires FirstWithId(list, j, PutAll(NO_SPANS, list).order[b])
    ensures a < b <==> i < j
  {
    LastOccurrenceWins(list);
    if a < b {
      EarlierIdFirst(list, a, b, i, j);
    } else if b < a {
      EarlierIdFirst(list, b, a, j, i);
    }
  }

  lemma {:induction false} EarlierIdFirst(list: seq<Span>, a: nat, b: nat, i: nat, j: nat)
    requires a < b < |PutAll(NO_SPANS, list).order|
    requires FirstWithId(list, i, PutAll(NO_SPANS, list).order[a])
    requires FirstWithId(list, j, PutAll(NO_SPANS, list).order[b])
    ensures i < j
  {
    var n := |list| - 1;
    var init := list[..n];
    var before := PutAll(NO_SPANS, init);
    var first := FirstOfKept(init, a, list[n]);
    assert list[first] == init[first];
    assert i <= first && FirstWithId(init, i, before.order[a]);
    if b < |before.order| {
      var second := FirstOfKept(init, b, list[n]);
      assert list[second] == init[second];
      assert j <= second && FirstWithId(init, j, before.order[b]);
      EarlierIdFirst(init, a, b, i, j);
    } else {
      assert list[n].spanId !in before.byId;
      LastOccurrenceWins(init);
      assert forall k: nat :: k < n ==> init[k].spanId != list[n].spanId;
    }
  }

  /** An id that is kept occurs, and stays where it is when one more span is put. */
  lemma FirstOfKept(list: seq<Span>, a: nat, next: Span) returns (i: nat)
    requires a < |PutAll(NO_SPANS, list + [next]).order| - 1 || a < |PutAll(NO_SPANS, list).order|
    ensures a < |PutAll(NO_SPANS, list).order| <= |PutAll(NO_SPANS, list + [next]).order|
    ensures PutAll(NO_SPANS, list + [next]).order[a] == PutAll(NO_SPANS, list).order[a]
    ensures i < |list| && list[i].spanId == PutAll(NO_SPANS, list).order[a]
  {
    assert (list + [next])[..|list|] == list;
    LastOccurrenceWins(list);
    var id := PutAll(NO_SPANS, list).order[a];
    assert id in PutAll(NO_SPANS, list).order;
    i :| i < |list| && list[i].spanId == id;
  }

  /******* The root *******/

  predicate IsRoot(spans: Spans, id: string)
    requires id in spans.byId
  {
    spans.byId[id].parentId !in spans.byId
  }

  /** Among the first `n`, the position of the first that starts earliest. */
  function FirstMin(list: seq<Span>, n: nat): (r: nat)
    requires 0 < n <= |list|
    ensures r < n
    ensures forall j :: 0 <= j < n ==> list[r].start <= list[j].start
    ensures forall j :: 0 <= j < r ==> list[r].start < list[j].start
  {
    if n == 1 then 0
    else
      var best := FirstMin(list, n - 1);
      if list[n - 1].start < list[best].start then n - 1 else best
  }

  ghost predicate Listed(spans: Spans) {
    forall id :: id in spans.order ==> id in spans.byId
  }

  /** The spans in the order of their ids, and those of them whose parent was not collected, up to the n-th. */
  function Values(spans: Spans, n: nat): (r: seq<Span>)
    requires n <= |spans.order| && Listed(spans)
    ensures |r| == n && forall i :: 0 <= i < n ==> r[i] == spans.byId[spans.order[i]]
  {
    if n == 0 then [] else Values(spans, n - 1) + [spans.byId[spans.order[n - 1]]]
  }

  function Roots(spans: Spans, n: nat): seq<Span>
    requires n <= |spans.order| && Listed(spans)
  {
    if n == 0 then []
    else
      Roots(spans, n - 1) +
      (if IsRoot(spans, spans.order[n - 1]) then [spans.byId[spans.order[n - 1]]] else [])
  }

  function ChooseRoot(spans: Spans): Span
    requires spans.order != [] && Listed(spans)
  {
    var roots, values := Roots(spans, |spans.order|), Values(spans, |spans.order|);
    if roots != [] then roots[FirstMin(roots, |roots|)] else values[FirstMin(values, |values|)]
  }

  method CollectChunk(before: Spans, p: Payload, chunk: Chunk, v1: bool, traceId: int) returns (spans: Spans)
    ensures spans == PutAll(before, ChunkSpans(p, chunk, v1, traceId, |chunk.spans|))
  {
    spans := before;
    for i := 0 to |chunk.spans|
      invariant spans == PutAll(before, ChunkSpans(p, chunk, v1, traceId, i))
    {
      if OfTrace(chunk, chunk.spans[i], v1, traceId) {
        var span := ToSpan(p, chunk, chunk.spans[i], v1);
        PutAllConcat(before, ChunkSpans(p, chunk, v1, traceId, i), [span]);
        assert PutAll(spans, [span]) == Put(spans, span);
        spans := Put(spans, span);
      } else {
        assert ChunkSpans(p, chunk, v1, traceId, i + 1) == ChunkSpans(p, chunk, v1, traceId, i);
      }
    }
  }

  method CollectPayload(before: Spans, p: Payload, v1: bool, traceId: int) returns (spans: Spans)
    ensures spans == PutAll(before, PayloadSpans(p, v1, traceId, |p.chunks|))
  {
    spans := before;
    for c := 0 to |p.chunks|
      invariant spans == PutAll(before, PayloadSpans(p, v1, traceId, c))
    {
      PutAllConcat(before, PayloadSpans(p, v1, traceId, c),
                   ChunkSpans(p, p.chunks[c], v1, traceId, |p.chunks[c].spans|));
      spans := CollectChunk(spans, p, p.chunks[c], v1, traceId);
    }
  }

  method CollectMessage(before: Spans, payloads: seq<Payload>, v1: bool, traceId: int) returns (spans: Spans)
    ensures spans == PutAll(before, MessageSpans(payloads, v1, traceId, |payloads|))
  {
    spans := before;
    for i := 0 to |payloads|
      invariant spans == PutAll(before, MessageSpans(payloads, v1, traceId, i))
    {
      PutAllConcat(before, MessageSpans(payloads, v1, traceId, i),
                   PayloadSpans(payloads[i], v1, traceId, |payloads[i].chunks|));
      spans := CollectPayload(spans, payloads[i], v1, traceId);
    }
  }

  method CollectContent(before: Spans, data: Message, traceId: int) returns (spans: Spans)
    ensures spans == PutAll(before, SpansOf(data, traceId))
  {
    if data.Other? {
      return before;
    }
    spans := CollectMessage(before, data.payloads, data.V1?, traceId);
  }

  method CollectSpans(messages: seq<Message>, traceId: int) returns (spans: Spans)
    ensures spans == PutAll(NO_SPANS, TraceSpans(messages, traceId, |messages|))
  {
    spans := NO_SPANS;
    for m := 0 to |messages|
      invariant spans == PutAll(NO_SPANS, TraceSpans(messages, traceId, m))
    {
      PutAllConcat(NO_SPANS, TraceSpans(messages, traceId, m), SpansOf(messages[m], traceId));
      spans := CollectContent(spans, messages[m], traceId);
    }
  }

  /** Only roots if there is one, else everything; then the first of the smallest starts. */
  method FindRoot(spans: Spans) returns (root: Span)
    requires Listed(spans) && spans.order != []
    ensures root == ChooseRoot(spans)
  {
    var roots: seq<Span> := [];
    for i := 0 to |spans.order|
      invariant roots == Roots(spans, i)
    {
      if IsRoot(spans, spans.order[i]) {
        roots := roots + [spans.byId[spans.order[i]]];
      }
    }
    if roots == [] {
      roots := Values(spans, |spans.order|);
    }
    root := roots[FirstMin(roots, |roots|)];
  }

  method GetMockedBackendTrace(messages: seq<Message>, traceId: int) returns (trace: Option<Trace>)
    ensures var list := TraceSpans(messages, traceId, |messages|);
      var spans := PutAll(NO_SPANS, list);
      if list == [] then trace == None
      else WellKept(spans) && spans.order != [] && trace == Some(Trace(ChooseRoot(spans).spanId, spans))
  {
    var spans := CollectSpans(messages, traceId);
    LastOccurrenceWins(TraceSpans(messages, traceId, |messages|));
    if |spans.order| == 0 {
      return None;
    }
    var root := FindRoot(spans);
    return Some(Trace(root.spanId, spans));
  }

  lemma {:induction false} RootIsListed(spans: Spans, n: nat, i: nat)
    requires i < n <= |spans.order| && Listed(spans) && IsRoot(spans, spans.order[i])
    ensures |Roots(spans, i)| < |Roots(spans, n)|
    ensures Roots(spans, n)[|Roots(spans, i)|] == spans.byId[spans.order[i]]
  {
    if i < n - 1 {
      RootIsListed(spans, n - 1, i);
    }
  }

  lemma {:induction false} ListedIsRoot(spans: Spans, n: nat, k: nat) returns (i: nat)
    requires n <= |spans.order| && Listed(spans) && k < |Roots(spans, n)|
    ensures i < n && IsRoot(spans, spans.order[i]) && Roots(spans, n)[k] == spans.byId[spans.order[i]]
    ensures k == |Roots(spans, i)|
  {
    if k < |Roots(spans, n - 1)| {
      i := ListedIsRoot(spans, n - 1, k);
    } else {
      i := n - 1;
    }
  }

  ghost predicate HasRoot(spans: Spans) {
    exists id :: id in spans.byId && IsRoot(spans, id)
  }

  /** What comes before it in the order, and may be the root as well, starts later. */
  ghost predicate IsFirstEarliest(spans: Spans, root: Span)
    requires Listed(spans)
  {
    exists r: nat :: r < |spans.order| && spans.order[r] == root.spanId && StartsBeforeEarlier(spans, root, r)
  }

  ghost predicate StartsBeforeEarlier(spans: Spans, root: Span, r: nat)
    requires Listed(spans) && r < |spans.order|
  {
    forall a: nat :: a < r ==>
      ((HasRoot(spans) ==> IsRoot(spans, spans.order[a])) ==> root.start < spans.byId[spans.order[a]].start)
  }

  /**
   * The root was collected. When the parent of some collected span was not, the root is such a span, and none of
   * them starts earlier; otherwise nothing at all starts earlier. Of several that start equally early, it is the one
   * whose id was collected first.
   */
  lemma RootIsEarliest(spans: Spans)
    requires WellKept(spans) && spans.order != []
    ensures var root := ChooseRoot(spans);
      && root.spanId in spans.byId && spans.byId[root.spanId] == root
      && (HasRoot(spans) ==> IsRoot(spans, root.spanId))
      && (forall id :: id in spans.byId && (HasRoot(spans) ==> IsRoot(spans, id)) ==>
            root.start <= spans.byId[id].start)
      && IsFirstEarliest(spans, root)
  {
    if Roots(spans, |spans.order|) == [] {
      NoRoots(spans);
      EarliestOfAll(spans);
    } else {
      EarliestRoot(spans);
    }
  }

  lemma NoRoots(spans: Spans)
    requires WellKept(spans) && Roots(spans, |spans.order|) == []
    ensures !HasRoot(spans)
  {
    if id :| id in spans.byId && IsRoot(spans, id) {
      assert id in spans.order;
      var i: nat :| i < |spans.order| && spans.order[i] == id;
      RootIsListed(spans, |spans.order|, i);
    }
  }

  lemma EarliestOfAll(spans: Spans)
    requires WellKept(spans) && spans.order != [] && Roots(spans, |spans.order|) == []
    ensures var root := ChooseRoot(spans);
      && root.spanId in spans.byId && spans.byId[root.spanId] == root
      && (forall id :: id in spans.byId ==> root.start <= spans.byId[id].start)
      && IsFirstEarliest(spans, root)
  {
    var values := Values(spans, |spans.order|);
    var m := FirstMin(values, |values|);
    assert spans.order[m] in spans.order;
    forall id | id in spans.byId ensures values[m].start <= spans.byId[id].start {
      assert id in spans.order;
      var i :| 0 <= i < |spans.order| && spans.order[i] == id;
      assert values[i] == spans.byId[id];
    }
    forall a: nat | a < m ensures values[m].start < spans.byId[spans.order[a]].start {
      assert values[a] == spans.byId[spans.order[a]];
    }
    assert StartsBeforeEarlier(spans, values[m], m);
  }

  lemma EarliestRoot(spans: Spans)
    requires WellKept(spans) && Roots(spans, |spans.order|) != []
    ensures var root := ChooseRoot(spans);
      && root.spanId in spans.byId && spans.byId[root.spanId] == root && IsRoot(spans, root.spanId)
      && (forall id :: id in spans.byId && IsRoot(spans, id) ==> root.start <= spans.byId[id].start)
      && IsFirstEarliest(spans, root)
  {
    var roots := Roots(spans, |spans.order|);
    var m := FirstMin(roots, |roots|);
    var i := ListedIsRoot(spans, |spans.order|, m);
    assert spans.order[i] in spans.order;
    forall id | id in spans.byId && IsRoot(spans, id) ensures roots[m].start <= spans.byId[id].start {
      assert id in spans.order;
      var j: nat :| j < |spans.order| && spans.order[j] == id;
      RootIsListed(spans, |spans.order|, j);
    }
    forall a: nat | a < i && IsRoot(spans, spans.order[a])
      ensures roots[m].start < spans.byId[spans.order[a]].start
    {
      RootIsListed(spans, |spans.order|, a);
      RootIsListed(spans, i, a);
    }
    assert HasRoot(spans) && StartsBeforeEarlier(spans, roots[m], i);
  }

  /******* When there is a root *******/

  function IndexOf(ids: seq<string>, id: string): (i: nat)
    requires id in ids
    ensures i < |ids| && ids[i] == id
  {
    if ids[0] == id then 0 else IndexOf(ids[1..], id) + 1
  }

  /** The position of the parent of the i-th collected span, if that was collected. */
  ghost function Parents(spans: Spans, i: nat): seq<nat>
    requires WellKept(spans) && i < |spans.order|
  {
    assert spans.order[i] in spans.order;
    var parent := spans.byId[spans.order[i]].parentId;
    if parent in spans.byId then [IndexOf(spans.order, parent)] else []
  }

  ghost function ParentGraph(spans: Spans): Graph
    requires WellKept(spans)
  {
    seq(|spans.order|, i requires 0 <= i < |spans.order| => Parents(spans, i))
  }

  ghost predicate LinksParents(g: Graph, spans: Spans)
    requires WellKept(spans)
  {
    && |g| == |spans.order|
    && WellFormed(g)
    && forall i: nat :: i < |g| ==> (g[i] == [] <==> IsRoot(spans, IdAt(spans, i)))
  }

  ghost function IdAt(spans: Spans, i: nat): (id: string)
    requires WellKept(spans) && i < |spans.order|
    ensures id in spans.byId
  {
    assert spans.order[i] in spans.order;
    spans.order[i]
  }

  lemma ParentGraphLinks(spans: Spans)
    requires WellKept(spans)
    ensures LinksParents(ParentGraph(spans), spans)
  {
    var g := ParentGraph(spans);
    forall i: nat | i < |g| ensures g[i] == Parents(spans, i) && (g[i] == [] <==> IsRoot(spans, IdAt(spans, i))) {
    }
  }

  /** Parent after parent, from a span that leads into no cycle: the chain is finite, and ends in a root. */
  lemma {:induction false} ChainEndsInRoot(g: Graph, spans: Spans, p: seq<nat>)
    requires WellKept(spans) && LinksParents(g, spans)
    requires Walk(g, p) && !CycleReachable(g, p[0])
    ensures HasRoot(spans)
    decreases |g| + 1 - |p|
  {
    WalkBound(g, p);
    var i := p[|p| - 1];
    assert g[i] == [] <==> IsRoot(spans, IdAt(spans, i));
    if g[i] != [] {
      var j := g[i][0];
      assert j in g[i];
      var q := p + [j];
      assert Walk(g, q) && q[0] == p[0];
      WalkBound(g, q);
      ChainEndsInRoot(g, spans, q);
    }
  }

  lemma HeadHasSuccessor(g: Graph, p: seq<nat>)
    requires Walk(g, p) && |p| > 1
    ensures g[p[0]] != []
  {
    assert p[1] in g[p[0]];
  }

  /** There is a root if and only if some collected span does not lead into a cycle of parent links. */
  lemma RootExistsIff(spans: Spans)
    requires WellKept(spans)
    ensures HasRoot(spans) <==> exists i: nat :: i < |spans.order| && !CycleReachable(ParentGraph(spans), i)
  {
    var g := ParentGraph(spans);
    ParentGraphLinks(spans);
    if HasRoot(spans) {
      var id :| id in spans.byId && IsRoot(spans, id);
      assert id in spans.order;
      var i: nat :| i < |spans.order| && spans.order[i] == id;
      assert IdAt(spans, i) == id;
      forall p: seq<nat> | Walk(g, p) && p[0] == i ensures Distinct(p) {
        if |p| > 1 {
          HeadHasSuccessor(g, p);
        }
      }
      assert !CycleReachable(g, i);
    }
    if i: nat :| i < |g| && !CycleReachable(g, i) {
      ChainEndsInRoot(g, spans, [i]);
    }
  }
}
