/**
 * utils/mocked_backend/_request_handler.py: `_read_body`, a reader of the chunked transfer coding of
 * section 7.1 of RFC 9112, over a stream of bytes.
 */
module ChunkedBody {
  import opened Bytes
  import opened IntegerText
  import opened Options

  const LF: byte := 10
  const CR: byte := 13
  const CRLF: bytes := [CR, LF]
  const SEMICOLON: byte := 59

  /******* The stream *******/

  /** How many bytes `readline` takes: up to and with the first line feed, or all there is. */
  function LineLength(s: bytes): (n: nat)
    ensures n <= |s| && (s != [] ==> n > 0)
  {
    if s == [] then 0 else if s[0] == LF then 1 else 1 + LineLength(s[1..])
  }

  /** How many bytes `read(size)` takes. */
  function Taken(size: int, s: bytes): (n: nat)
    ensures n <= |s|
  {
    if size < 0 || size > |s| then |s| else size
  }

  class Stream {
    var data: bytes

    constructor (data: bytes)
      ensures this.data == data
    {
      this.data := data;
    }

    method ReadLine() returns (line: bytes)
      modifies this
      ensures line == old(data)[..LineLength(old(data))] && data == old(data)[LineLength(old(data))..]
    {
      var n := 0;
      while n < |data| && (n == 0 || data[n - 1] != LF)
        invariant n <= |data| && data == old(data)
        invariant n == 0 || data[n - 1] != LF ==> LineLength(data) == n + LineLength(data[n..])
        invariant n > 0 && data[n - 1] == LF ==> LineLength(data) == n
      {
        n := n + 1;
      }
      line := data[..n];
      data := data[n..];
    }

    /** `read(size)`: -1 means everything, anything below that is refused. */
    method Read(size: int) returns (r: Result<bytes>)
      modifies this
      ensures size < -1 ==> r == Err && data == old(data)
      ensures size >= -1 ==>
        && r == Ok(old(data)[..Taken(size, old(data))]) && data == old(data)[Taken(size, old(data))..]
    {
      if size < -1 {
        return Err;
      }
      var n := Taken(size, data);
      r := Ok(data[..n]);
      data := data[n..];
    }
  }

  /******* The size of a chunk *******/

  function BeforeSemicolon(s: bytes): bytes {
    if s == [] || s[0] == SEMICOLON then [] else [s[0]] + BeforeSemicolon(s[1..])
  }

  /** A hexadecimal integer in front of the first semicolon, with blanks around it. */
  function ParseSize(line: bytes): Result<int> {
    ParseInt16(Strip(BeforeSemicolon(line)))
  }

  /******* _read_body *******/

  function AfterLine(s: bytes): (r: bytes)
    ensures s != [] ==> |r| < |s|
  {
    s[LineLength(s)..]
  }

  predicate EndsTrailers(line: bytes) {
    line == CRLF || line == [LF] || line == []
  }

  function SkipTrailers(s: bytes): bytes {
    if EndsTrailers(s[..LineLength(s)]) then AfterLine(s) else SkipTrailers(AfterLine(s))
  }

  /** The body the reader finds in `s`, and what it leaves unread. */
  function Decode(s: bytes): Result<(bytes, bytes)>
    decreases |s|
  {
    if s == [] then Ok(([], []))
    else
      match ParseSize(s[..LineLength(s)])
      case Err => Err
      case Ok(size) =>
        var after := AfterLine(s);
        if size == 0 then Ok(([], SkipTrailers(after)))
        else if size < -1 then Err
        else
          var n := Taken(size, after);
          match Decode(AfterLine(after[n..]))
          case Err => Err
          case Ok((body, rest)) => Ok((after[..n] + body, rest))
  }

  function Join(chunks: seq<bytes>): bytes {
    if chunks == [] then [] else Join(chunks[..|chunks| - 1]) + chunks[|chunks| - 1]
  }

  function Prepend(front: bytes, r: Result<(bytes, bytes)>): Result<(bytes, bytes)> {
    match r
    case Err => Err
    case Ok((body, rest)) => Ok((front + body, rest))
  }

  method ReadTrailers(rfile: Stream)
    modifies rfile
    ensures rfile.data == SkipTrailers(old(rfile.data))
  {
    var line := rfile.ReadLine();
    while !EndsTrailers(line)
      invariant SkipTrailers(old(rfile.data)) == if EndsTrailers(line) then rfile.data else SkipTrailers(rfile.data)
      decreases |rfile.data|, |line|
    {
      line := rfile.ReadLine();
    }
  }

  lemma DecodeChunk(s: bytes, size: int)
    requires s != [] && ParseSize(s[..LineLength(s)]) == Ok(size) && size != 0 && size >= -1
    ensures var after := AfterLine(s); var n := Taken(size, after);
      Decode(s) == Prepend(after[..n], Decode(AfterLine(after[n..])))
  {}

  lemma PrependAgain(a: bytes, b: bytes, r: Result<(bytes, bytes)>)
    ensures Prepend(a, Prepend(b, r)) == Prepend(a + b, r) && Prepend([], r) == r
  {
    if r.Ok? {
      assert [] + r.value.0 == r.value.0;
      assert a + (b + r.value.0) == a + b + r.value.0;
    }
  }

  /** One turn of the loop: a chunk, the end of the body, or an exception. */
  datatype Turn = Chunk(payload: bytes) | End | Failure

  method ReadChunk(rfile: Stream) returns (turn: Turn)
    modifies rfile
    ensures match turn
      case Chunk(payload) =>
        Decode(old(rfile.data)) == Prepend(payload, Decode(rfile.data)) && |rfile.data| < |old(rfile.data)|
      case End => Decode(old(rfile.data)) == Ok(([], rfile.data))
      case Failure => Decode(old(rfile.data)) == Err
  {
    var sizeLine := rfile.ReadLine();
    if sizeLine == [] {
      return End;
    }
    var parsed := ParseSize(sizeLine);
    if parsed.Err? {
      return Failure;
    }
    if parsed.value == 0 {
      ReadTrailers(rfile);
      return End;
    }
    var chunk := rfile.Read(parsed.value);
    if chunk.Err? {
      return Failure;
    }
    var crlf := rfile.ReadLine();
    DecodeChunk(old(rfile.data), parsed.value);
    return Chunk(chunk.value);
  }

  /** The answer `r` and the unread `left` are what `decoded` says. */
  predicate Delivers(decoded: Result<(bytes, bytes)>, r: Result<bytes>, left: bytes) {
    match decoded
    case Err => r == Err
    case Ok((body, rest)) => r == Ok(body) && left == rest
  }

  lemma JoinAppend(chunks: seq<bytes>, chunk: bytes)
    ensures Join(chunks + [chunk]) == Join(chunks) + chunk
  {
    var more := chunks + [chunk];
    assert more[..|more| - 1] == chunks;
  }

  method ReadChunked(rfile: Stream) returns (r: Result<bytes>)
    modifies rfile
    ensures Delivers(Decode(old(rfile.data)), r, rfile.data)
  {
    var chunks: seq<bytes> := [];
    PrependAgain([], [], Decode(rfile.data));
    while true
      invariant Decode(old(rfile.data)) == Prepend(Join(chunks), Decode(rfile.data))
      decreases |rfile.data|
    {
      ghost var before := Join(chunks);
      var turn := ReadChunk(rfile);
      match turn
      case Failure =>
        return Err;
      case End =>
        assert before + [] == before;
        return Ok(Join(chunks));
      case Chunk(payload) =>
        PrependAgain(before, payload, Decode(rfile.data));
        JoinAppend(chunks, payload);
        chunks := chunks + [payload];
    }
  }

  /** Reads exactly what `Decode` finds, and stops where it says; terminates on every input. */
  method ReadBody(chunked: bool, contentLength: int, rfile: Stream) returns (r: Result<bytes>)
    modifies rfile
    ensures chunked ==> Delivers(Decode(old(rfile.data)), r, rfile.data)
    ensures !chunked ==>
      var n := Taken(contentLength, old(rfile.data));
      if contentLength < -1 then r == Err && rfile.data == old(rfile.data)
      else r == Ok(old(rfile.data)[..n]) && rfile.data == old(rfile.data)[n..]
  {
    if chunked {
      r := ReadChunked(rfile);
    } else if contentLength == 0 {
      r := Ok([]);
    } else {
      r := rfile.Read(contentLength);
    }
  }

  /******* The encoding of section 7.1 *******/

  /** Digits of `n` from the tables of either case, leading zeros allowed. */
  ghost predicate Renders(size: bytes, n: nat) {
    size != [] && exists ds :: Writes(size, ds) && NumberOf(ds) == n
  }

  /** Blanks, and anything once a semicolon has come: what may stand behind a chunk size. */
  predicate Ignorable(s: bytes) {
    s == [] || s[0] == SEMICOLON || (s[0] in BLANKS && Ignorable(s[1..]))
  }

  datatype EncodedChunk = EncodedChunk(payload: bytes, size: bytes, extension: bytes) {
    ghost predicate Valid() {
      payload != [] && Renders(size, |payload|) && Ignorable(extension) && LF !in extension
    }

    function Line(): bytes {
      size + extension + CRLF
    }

    function Bytes(): bytes {
      Line() + (payload + CRLF)
    }
  }

  /** The trailers are lines without their line feed; the empty line behind them is `end`. */
  datatype LastChunk = LastChunk(size: bytes, extension: bytes, trailers: seq<bytes>, end: bytes) {
    ghost predicate Valid() {
      && Renders(size, 0) && Ignorable(extension) && LF !in extension
      && ValidTrailers(trailers) && (end == CRLF || end == [LF])
    }

    function Line(): bytes {
      size + extension + CRLF
    }
  }

  ghost predicate ValidTrailers(trailers: seq<bytes>) {
    forall i :: 0 <= i < |trailers| ==> trailers[i] != [] && trailers[i] != [CR] && LF !in trailers[i]
  }

  function TrailerSection(trailers: seq<bytes>, end: bytes): bytes {
    if trailers == [] then end else (trailers[0] + [LF]) + TrailerSection(trailers[1..], end)
  }

  function EncodeChunks(chunks: seq<EncodedChunk>): bytes {
    if chunks == [] then [] else chunks[0].Bytes() + EncodeChunks(chunks[1..])
  }

  function EncodeLast(last: LastChunk): bytes {
    last.Line() + TrailerSection(last.trailers, last.end)
  }

  function Encode(chunks: seq<EncodedChunk>, last: LastChunk): bytes {
    EncodeChunks(chunks) + EncodeLast(last)
  }

  function Payload(chunks: seq<EncodedChunk>): bytes {
    if chunks == [] then [] else chunks[0].payload + Payload(chunks[1..])
  }

  ghost predicate ValidChunks(chunks: seq<EncodedChunk>) {
    forall i :: 0 <= i < |chunks| ==> chunks[i].Valid()
  }

  ghost predicate ValidEncoding(chunks: seq<EncodedChunk>, last: LastChunk) {
    last.Valid() && ValidChunks(chunks)
  }

  /** Every payload can be encoded: its length has a rendering. */
  lemma EveryLengthRenders(n: nat) returns (size: bytes)
    ensures Renders(size, n)
  {
    var ds := DigitsOf(n);
    size := seq(|ds|, i requires 0 <= i < |ds| => LowerByte(ds[i]));
    assert Writes(size, ds);
  }

  function LowerByte(d: nat): (b: byte)
    requires d < 16
    ensures Stands(b, d)
  {
    var b: byte := if d < 10 then 48 + d else 87 + d;
    DigitStands(b, d);
    b
  }

  /******* Lines *******/

  lemma {:induction false} LineEndsAtLF(a: bytes, t: bytes)
    requires LF !in a
    ensures LineLength(a + [LF] + t) == |a| + 1
  {
    if a == [] {
      assert a + [LF] + t == [LF] + t;
    } else {
      assert (a + [LF] + t)[1..] == a[1..] + [LF] + t;
      LineEndsAtLF(a[1..], t);
    }
  }

  lemma {:induction false} LineWithoutLF(a: bytes)
    requires LF !in a
    ensures LineLength(a) == |a|
  {
    if a != [] {
      LineWithoutLF(a[1..]);
    }
  }

  lemma NextLine(a: bytes, t: bytes)
    requires LF !in a
    ensures var s := a + [LF] + t;
      LineLength(s) == |a| + 1 && s[..LineLength(s)] == a + [LF] && AfterLine(s) == t
  {
    LineEndsAtLF(a, t);
  }

  /******* Reading a size line *******/

  lemma {:induction false} BlankPart(t: bytes)
    requires Ignorable(t)
    ensures Blank(BeforeSemicolon(t))
  {
    if t != [] && t[0] != SEMICOLON {
      BlankPart(t[1..]);
    }
  }

  lemma {:induction false} BeforeSemicolonConcat(s: bytes, t: bytes)
    requires SEMICOLON !in s
    ensures BeforeSemicolon(s + t) == s + BeforeSemicolon(t)
  {
    if s == [] {
      assert s + t == t;
    } else {
      assert (s + t)[1..] == s[1..] + t;
      BeforeSemicolonConcat(s[1..], t);
      assert [s[0]] + (s[1..] + BeforeSemicolon(t)) == s + BeforeSemicolon(t);
    }
  }

  /** Blanks around a text and an extension behind it make no difference to how the text is read. */
  lemma SizeAround(before: bytes, text: bytes, t: bytes)
    requires Blank(before) && SEMICOLON !in text && Ignorable(t)
    requires text != [] ==> text[0] !in BLANKS && text[|text| - 1] !in BLANKS
    ensures ParseSize(before + text + t) == ParseInt16(text)
  {
    BlankPart(t);
    BeforeSemicolonConcat(before + text, t);
    StripsBlanks(before, text, BeforeSemicolon(t));
  }

  lemma DigitsArePlain(size: bytes, ds: seq<nat>)
    requires Writes(size, ds)
    ensures SEMICOLON !in size && LF !in size && forall i :: 0 <= i < |size| ==> size[i] !in BLANKS
  {
    forall i | 0 <= i < |size| ensures size[i] !in BLANKS && size[i] != SEMICOLON && size[i] != LF {
      NotUnderscore(size[i], ds[i]);
      assert LF == BLANKS[1];
    }
  }

  /** A hexadecimal size, and behind it blanks or an extension, is read as its value. */
  lemma ParseSizeOf(size: bytes, ds: seq<nat>, t: bytes)
    requires size != [] && Writes(size, ds) && Ignorable(t)
    ensures ParseSize(size + t) == Ok(NumberOf(ds))
  {
    DigitsArePlain(size, ds);
    SizeAround([], size, t);
    assert [] + size + t == size + t;
    PlainIsRead(size, ds);
  }

  lemma {:induction false} IgnorableConcat(t: bytes, u: bytes)
    requires Ignorable(t) && Ignorable(u)
    ensures Ignorable(t + u)
  {
    if t == [] {
      assert t + u == u;
    } else if t[0] != SEMICOLON {
      assert (t + u)[1..] == t[1..] + u;
      IgnorableConcat(t[1..], u);
    }
  }

  lemma {:induction false} IgnorablePrefix(t: bytes, k: nat)
    requires Ignorable(t) && k <= |t|
    ensures Ignorable(t[..k])
  {
    if k > 0 && t[0] != SEMICOLON {
      assert t[..k][1..] == t[1..][..k - 1];
      IgnorablePrefix(t[1..], k - 1);
    }
  }

  lemma EndOfLineIsIgnorable()
    ensures Ignorable(CRLF) && Ignorable([LF])
  {
    assert CR == BLANKS[4] && LF == BLANKS[1];
    assert CRLF[1..] == [LF];
  }

  /** The size line is read as one line, and as the size it renders. */
  lemma ReadSizeLine(size: bytes, n: nat, extension: bytes, t: bytes)
    requires Renders(size, n) && Ignorable(extension) && LF !in extension
    ensures var line := size + extension + CRLF;
      LineLength(line + t) == |line| && (line + t)[..|line|] == line && AfterLine(line + t) == t &&
      ParseSize(line) == Ok(n)
  {
    var ds :| Writes(size, ds) && NumberOf(ds) == n;
    DigitsArePlain(size, ds);
    var line := size + extension + CRLF;
    NextLine(size + extension + [CR], t);
    assert line + t == size + extension + [CR] + [LF] + t;
    EndOfLineIsIgnorable();
    IgnorableConcat(extension, CRLF);
    assert line == size + (extension + CRLF);
    ParseSizeOf(size, ds, extension + CRLF);
  }

  /******* The reader undoes the encoder *******/

  lemma {:induction false} SkipTrailerSection(trailers: seq<bytes>, end: bytes, rest: bytes)
    requires ValidTrailers(trailers) && (end == CRLF || end == [LF])
    ensures SkipTrailers(TrailerSection(trailers, end) + rest) == rest
  {
    if trailers == [] {
      var blank: bytes := if end == CRLF then [CR] else [];
      NextLine(blank, rest);
      assert end + rest == blank + [LF] + rest && blank + [LF] == end;
    } else {
      var t := TrailerSection(trailers[1..], end) + rest;
      assert TrailerSection(trailers, end) + rest == trailers[0] + [LF] + t;
      NextLine(trailers[0], t);
      assert trailers[0] != [] ==> (trailers[0] + [LF])[0] == trailers[0][0];
      assert |trailers[0]| == 1 ==> trailers[0] == [trailers[0][0]];
      SkipTrailerSection(trailers[1..], end, rest);
    }
  }

  lemma DecodeLast(last: LastChunk, rest: bytes)
    requires last.Valid()
    ensures Decode(EncodeLast(last) + rest) == Ok(([], rest))
  {
    var line, t := last.Line(), TrailerSection(last.trailers, last.end) + rest;
    assert EncodeLast(last) + rest == line + t;
    ReadSizeLine(last.size, 0, last.extension, t);
    SkipTrailerSection(last.trailers, last.end, rest);
  }

  /** What a size makes the reader do with the bytes behind its line. */
  function AfterSize(size: Result<int>, t: bytes): Result<(bytes, bytes)> {
    match size
    case Err => Err
    case Ok(n) =>
      if n < -1 then Err
      else if n == -1 then Ok((t, []))
      else if n == 0 then Ok(([], SkipTrailers(t)))
      else if n <= |t| then Prepend(t[..n], Decode(AfterLine(t[n..])))
      else Ok((t, []))
  }

  lemma OneSize(s: bytes, size: Result<int>, t: bytes)
    requires s != [] && ParseSize(s[..LineLength(s)]) == size && AfterLine(s) == t
    ensures Decode(s) == AfterSize(size, t)
  {
    if size.Ok? && size.value != 0 && size.value >= -1 {
      DecodeChunk(s, size.value);
      var n := Taken(size.value, t);
      if size.value == -1 || size.value > |t| {
        assert t[..n] == t && t[n..] == [];
        assert AfterLine([]) == [];
        assert t + [] == t;
      }
    }
  }

  lemma DecodeFirst(c: EncodedChunk, t: bytes)
    requires c.Valid()
    ensures Decode(c.Bytes() + t) == Prepend(c.payload, Decode(t))
  {
    var line, s := c.Line(), c.Bytes() + t;
    var after := c.payload + CRLF + t;
    assert s == line + after;
    ReadSizeLine(c.size, |c.payload|, c.extension, after);
    BehindPayload(c.payload, t);
    OneSize(s, Ok(|c.payload|), after);
  }

  lemma BehindPayload(payload: bytes, t: bytes)
    ensures var after := payload + CRLF + t;
      |payload| <= |after| && after[..|payload|] == payload && AfterLine(after[|payload|..]) == t
  {
    assert (payload + CRLF + t)[|payload|..] == [CR] + [LF] + t;
    NextLine([CR], t);
  }

  /** Behind any chunks, the reader goes on with what follows, and puts their payload in front. */
  lemma {:induction false} AfterChunks(chunks: seq<EncodedChunk>, t: bytes)
    requires ValidChunks(chunks)
    ensures Decode(EncodeChunks(chunks) + t) == Prepend(Payload(chunks), Decode(t))
  {
    if chunks == [] {
      assert EncodeChunks(chunks) + t == t;
      PrependAgain([], [], Decode(t));
    } else {
      assert EncodeChunks(chunks) + t == chunks[0].Bytes() + (EncodeChunks(chunks[1..]) + t);
      DecodeFirst(chunks[0], EncodeChunks(chunks[1..]) + t);
      AfterChunks(chunks[1..], t);
      PrependAgain(chunks[0].payload, Payload(chunks[1..]), Decode(t));
    }
  }

  /**
   * Whatever the payload bytes, the rendering of the sizes, the extensions and the trailers: the reader
   * returns the concatenated payload, and leaves the stream exactly behind the encoding.
   */
  lemma DecodeUndoesEncode(chunks: seq<EncodedChunk>, last: LastChunk, rest: bytes)
    requires ValidEncoding(chunks, last)
    ensures Decode(Encode(chunks, last) + rest) == Ok((Payload(chunks), rest))
  {
    assert Encode(chunks, last) + rest == EncodeChunks(chunks) + (EncodeLast(last) + rest);
    AfterChunks(chunks, EncodeLast(last) + rest);
    DecodeLast(last, rest);
    assert Payload(chunks) + [] == Payload(chunks);
  }

  /**
   * A size line of any other kind, behind any chunks: the text between blanks and extension is no integer, and the
   * reader raises; or it has a sign, a prefix or underscores, and its value decides, -1 taking all there is.
   */
  lemma SizeDecides(chunks: seq<EncodedChunk>, before: bytes, text: bytes, extension: bytes, t: bytes)
    requires ValidChunks(chunks) && Blank(before) && Ignorable(extension) && SEMICOLON !in text
    requires LF !in before + text + extension
    requires text != [] ==> text[0] !in BLANKS && text[|text| - 1] !in BLANKS
    ensures (forall i: Integer :: i.Valid() ==> i.Text() != text) ==>
              Decode(EncodeChunks(chunks) + (before + text + extension + [LF] + t)) == Err
    ensures forall i: Integer :: i.Valid() && i.Text() == text ==>
              Decode(EncodeChunks(chunks) + (before + text + extension + [LF] + t)) ==
              Prepend(Payload(chunks), AfterSize(Ok(i.Value()), t))
  {
    var line := before + text + extension;
    AfterChunks(chunks, line + [LF] + t);
    NextLine(line, t);
    EndOfLineIsIgnorable();
    IgnorableConcat(extension, [LF]);
    assert line + [LF] == before + text + (extension + [LF]);
    SizeAround(before, text, extension + [LF]);
    OneSize(line + [LF] + t, ParseInt16(text), t);
    if ParseInt16(text).Ok? {
      var i := OnlyTextsAreRead(text);
      assert i.Valid() && i.Text() == text;
    }
    forall i: Integer | i.Valid() && i.Text() == text ensures ParseInt16(text) == Ok(i.Value()) {
      TextIsRead(i);
    }
  }

  /******* Truncated input *******/

  /** Whatever part of a size line arrives, it is a line of its own with a size that is not negative. */
  lemma TruncatedSizeLine(size: bytes, n: nat, extension: bytes, k: nat)
    requires Renders(size, n) && Ignorable(extension) && LF !in extension
    requires 0 < k < |size + extension + CRLF|
    ensures var s := (size + extension + CRLF)[..k];
      LineLength(s) == |s| && ParseSize(s).Ok? && ParseSize(s).value >= 0
  {
    var ds :| Writes(size, ds) && NumberOf(ds) == n;
    var s := (size + extension + CRLF)[..k];
    DigitsArePlain(size, ds);
    assert s == (size + extension + [CR])[..k];
    LineWithoutLF(s);
    if k <= |size| {
      assert s == size[..k] + [];
      ParseSizeOf(size[..k], ds[..k], []);
    } else {
      assert s == size + (extension + CRLF)[..k - |size|];
      CutExtension(extension, k - |size|);
      ParseSizeOf(size, ds, (extension + CRLF)[..k - |size|]);
    }
  }

  lemma CutExtension(extension: bytes, k: nat)
    requires Ignorable(extension) && k <= |extension + CRLF|
    ensures Ignorable((extension + CRLF)[..k])
  {
    EndOfLineIsIgnorable();
    IgnorableConcat(extension, CRLF);
    IgnorablePrefix(extension + CRLF, k);
  }

  lemma {:induction false} TruncatedTrailers(trailers: seq<bytes>, end: bytes, k: nat)
    requires ValidTrailers(trailers) && (end == CRLF || end == [LF]) && k <= |TrailerSection(trailers, end)|
    ensures SkipTrailers(TrailerSection(trailers, end)[..k]) == []
  {
    var line := if trailers == [] then end else trailers[0] + [LF];
    var s := TrailerSection(trailers, end)[..k];
    if k < |line| {
      assert s == line[..|line| - 1][..k];
      LineWithoutLF(s);
      assert AfterLine(s) == [];
    } else if trailers == [] {
      SkipTrailerSection([], end, []);
      assert s == TrailerSection([], end) + [];
    } else {
      var t := TrailerSection(trailers[1..], end)[..k - |line|];
      assert s == trailers[0] + [LF] + t;
      NextLine(trailers[0], t);
      assert (trailers[0] + [LF])[0] == trailers[0][0];
      assert |trailers[0]| == 1 ==> trailers[0] == [trailers[0][0]];
      TruncatedTrailers(trailers[1..], end, k - |line|);
    }
  }

  /** Read to the end, without an exception, as a part of the payload. */
  predicate ReadsPart(s: bytes, payload: bytes) {
    var d := Decode(s);
    d.Ok? && d.value.0 <= payload && d.value.1 == []
  }

  lemma PartBehind(c: EncodedChunk, t: bytes, payload: bytes)
    requires c.Valid() && ReadsPart(t, payload)
    ensures ReadsPart(c.Bytes() + t, c.payload + payload)
  {
    DecodeFirst(c, t);
  }

  /** Cut anywhere, an encoding is still read to its end, without an exception, as a part of its payload. */
  lemma {:induction false} TruncationIsHarmless(chunks: seq<EncodedChunk>, last: LastChunk, k: nat)
    requires ValidEncoding(chunks, last) && k <= |Encode(chunks, last)|
    ensures ReadsPart(Encode(chunks, last)[..k], Payload(chunks))
  {
    var s := Encode(chunks, last)[..k];
    if k == 0 {
      assert s == [];
    } else if chunks == [] {
      assert Encode(chunks, last) == EncodeLast(last);
      TruncatedLast(last, k);
    } else {
      var first, rest := chunks[0].Bytes(), Encode(chunks[1..], last);
      assert Encode(chunks, last) == first + rest;
      if k < |first| {
        assert s == first[..k];
        TruncatedChunk(chunks[0], k);
      } else {
        assert s == first + rest[..k - |first|];
        TruncationIsHarmless(chunks[1..], last, k - |first|);
        PartBehind(chunks[0], rest[..k - |first|], Payload(chunks[1..]));
      }
    }
  }

  lemma TruncatedLast(last: LastChunk, k: nat)
    requires last.Valid() && 0 < k <= |EncodeLast(last)|
    ensures Decode(EncodeLast(last)[..k]) == Ok(([], []))
  {
    var line := last.Line();
    var s := EncodeLast(last)[..k];
    if k < |line| {
      assert s == line[..k];
      TruncatedSizeLine(last.size, 0, last.extension, k);
      LineWithoutSize(s);
    } else {
      var t := TrailerSection(last.trailers, last.end)[..k - |line|];
      assert s == line + t;
      ReadSizeLine(last.size, 0, last.extension, t);
      TruncatedTrailers(last.trailers, last.end, k - |line|);
    }
  }

  /** A size line with nothing behind it. */
  lemma LineWithoutSize(s: bytes)
    requires s != [] && LineLength(s) == |s| && ParseSize(s).Ok? && ParseSize(s).value >= 0
    ensures Decode(s) == Ok(([], []))
  {
    assert s[..LineLength(s)] == s;
    var after := AfterLine(s);
    assert after == [];
    var size := ParseSize(s).value;
    if size == 0 {
      assert SkipTrailers(after) == [];
    } else {
      DecodeChunk(s, size);
      assert after[..Taken(size, after)] == [] && AfterLine(after[Taken(size, after)..]) == [];
      PrependAgain([], [], Decode([]));
    }
  }

  lemma TruncatedChunk(c: EncodedChunk, k: nat)
    requires c.Valid() && 0 < k < |c.Bytes()|
    ensures var d := Decode(c.Bytes()[..k]); d.Ok? && d.value.0 <= c.payload && d.value.1 == []
  {
    var line, s := c.Line(), c.Bytes()[..k];
    if k < |line| {
      assert s == line[..k];
      TruncatedSizeLine(c.size, |c.payload|, c.extension, k);
      LineWithoutSize(s);
    } else {
      var after := (c.payload + CRLF)[..k - |line|];
      assert s == line + after;
      ReadSizeLine(c.size, |c.payload|, c.extension, after);
      assert AfterLine(s) == after;
      DecodeChunk(s, |c.payload|);
      var n := Taken(|c.payload|, after);
      assert after[..n] <= c.payload;
      assert after[n..] == [] || after[n..] == [CR];
      LineWithoutLF(after[n..]);
      assert AfterLine(after[n..]) == [];
    }
  }
}
