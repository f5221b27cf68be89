/**
 * Python's reading of a hexadecimal integer from bytes, which `_read_body` in
 * utils/mocked_backend/_request_handler.py relies on, and the texts it accepts.
 */
module IntegerText {
  import opened Bytes
  import opened Options

  /******* The reader *******/

  predicate IsSpace(b: byte) {
    b == 32 || 9 <= b <= 13
  }

  function StripLeft(s: bytes): bytes {
    if s == [] || !IsSpace(s[0]) then s else StripLeft(s[1..])
  }

  function StripRight(s: bytes): bytes {
    if s == [] || !IsSpace(s[|s| - 1]) then s else StripRight(s[..|s| - 1])
  }

  function Strip(s: bytes): bytes {
    StripRight(StripLeft(s))
  }

  function Digit(b: byte): Option<nat> {
    if 48 <= b <= 57 then Some(b - 48)
    else if 97 <= b <= 102 then Some(b - 87)
    else if 65 <= b <= 70 then Some(b - 55)
    else None
  }

  /** Digits, with single underscores between them. */
  function ParseDigits(s: bytes, value: nat, afterDigit: bool): Option<nat> {
    if s == [] then (if afterDigit then Some(value) else None)
    else if s[0] == 95 then (if afterDigit then ParseDigits(s[1..], value, false) else None)
    else match Digit(s[0])
      case None => None
      case Some(d) => ParseDigits(s[1..], 16 * value + d, true)
  }

  /** After the sign: an optional `0x`, which an underscore may follow. */
  function ParseUnsigned(s: bytes): Option<nat> {
    if |s| >= 2 && s[0] == 48 && (s[1] == 120 || s[1] == 88) then
      if |s| >= 3 && s[2] == 95 then ParseDigits(s[3..], 0, false) else ParseDigits(s[2..], 0, false)
    else ParseDigits(s, 0, false)
  }

  function ParseInt16(s: bytes): Result<int> {
    var negative := s != [] && s[0] == 45;
    var digits := if s != [] && (s[0] == 45 || s[0] == 43) then s[1..] else s;
    match ParseUnsigned(digits)
    case None => Err
    case Some(n) =>
      var value: int := n;
      Ok(if negative then -value else value)
  }

  /******* Digits and blanks, from tables *******/

  const LOWER := "0123456789abcdef"
  const UPPER := "0123456789ABCDEF"

  /** Tab, line feed, vertical tab, form feed, carriage return, space. */
  const BLANKS: bytes := [9, 10, 11, 12, 13, 32]

  /** The byte is the character of digit `d` in one of the tables. */
  predicate Stands(b: byte, d: nat) {
    d < 16 && (b == LOWER[d] as int || b == UPPER[d] as int)
  }

  predicate Blank(s: bytes) {
    forall i :: 0 <= i < |s| ==> s[i] in BLANKS
  }

  lemma SpaceIff(b: byte)
    ensures IsSpace(b) <==> b in BLANKS
  {
  }

  lemma DigitStands(b: byte, d: nat)
    ensures Digit(b) == Some(d) <==> Stands(b, d)
  {
    assert LOWER[0] == '0' && LOWER[1] == '1' && LOWER[2] == '2' && LOWER[3] == '3' && LOWER[4] == '4';
    assert LOWER[5] == '5' && LOWER[6] == '6' && LOWER[7] == '7' && LOWER[8] == '8' && LOWER[9] == '9';
    assert LOWER[10] == 'a' && LOWER[11] == 'b' && LOWER[12] == 'c' && LOWER[13] == 'd' && LOWER[14] == 'e';
    assert UPPER[0] == '0' && UPPER[1] == '1' && UPPER[2] == '2' && UPPER[3] == '3' && UPPER[4] == '4';
    assert UPPER[5] == '5' && UPPER[6] == '6' && UPPER[7] == '7' && UPPER[8] == '8' && UPPER[9] == '9';
    assert UPPER[10] == 'A' && UPPER[11] == 'B' && UPPER[12] == 'C' && UPPER[13] == 'D' && UPPER[14] == 'E';
    assert LOWER[15] == 'f' && UPPER[15] == 'F';
  }

  /** The number a list of digits stands for. */
  function NumberOf(ds: seq<nat>): nat {
    if ds == [] then 0 else 16 * NumberOf(ds[..|ds| - 1]) + ds[|ds| - 1]
  }

  /** `s` writes the digits, each in either case. */
  predicate Writes(s: bytes, ds: seq<nat>) {
    |s| == |ds| && forall i :: 0 <= i < |s| ==> Stands(s[i], ds[i])
  }

  /******* The texts of integers *******/

  datatype Sign = NoSign | Plus | Minus

  datatype Prefix = NoPrefix | LowerX | UpperX

  /** A digit, and whether an underscore stands in front of it. */
  datatype Place = Place(underscore: bool, b: byte, d: nat)

  datatype Integer = Integer(sign: Sign, prefix: Prefix, places: seq<Place>) {
    /** Only a prefix may have an underscore behind it; otherwise they stand between digits. */
    predicate Valid() {
      && places != []
      && (forall i :: 0 <= i < |places| ==> Stands(places[i].b, places[i].d))
      && (places[0].underscore ==> prefix != NoPrefix)
    }

    function Text(): bytes {
      (match sign case NoSign => [] case Plus => [43] case Minus => [45]) +
      (PrefixText(prefix) + PlacesText(places))
    }

    function Value(): int {
      var n: int := NumberOf(DigitsIn(places));
      if sign.Minus? then -n else n
    }
  }

  function PlacesText(places: seq<Place>): bytes {
    if places == [] then []
    else (if places[0].underscore then [95, places[0].b] else [places[0].b]) + PlacesText(places[1..])
  }

  function DigitsIn(places: seq<Place>): seq<nat> {
    if places == [] then [] else [places[0].d] + DigitsIn(places[1..])
  }

  /** The value so far, and the digits to come. */
  function Continued(value: nat, ds: seq<nat>): nat
    decreases ds
  {
    if ds == [] then value else Continued(16 * value + ds[0], ds[1..])
  }

  lemma {:induction false} ContinuedSnoc(value: nat, ds: seq<nat>, d: nat)
    ensures Continued(value, ds + [d]) == 16 * Continued(value, ds) + d
    decreases ds
  {
    if ds == [] {
      assert ([d])[1..] == [] && ds + [d] == [d];
    } else {
      assert (ds + [d])[1..] == ds[1..] + [d];
      ContinuedSnoc(16 * value + ds[0], ds[1..], d);
    }
  }

  lemma {:induction false} ContinuedIsNumber(ds: seq<nat>)
    ensures Continued(0, ds) == NumberOf(ds)
  {
    if ds != [] {
      var n := |ds| - 1;
      ContinuedIsNumber(ds[..n]);
      ContinuedSnoc(0, ds[..n], ds[n]);
      assert ds == ds[..n] + [ds[n]];
    }
  }

  ghost predicate AllStand(places: seq<Place>) {
    forall i :: 0 <= i < |places| ==> Stands(places[i].b, places[i].d)
  }

  lemma {:induction false} ParsePlaces(places: seq<Place>, value: nat, afterDigit: bool)
    requires AllStand(places) && (places == [] ==> afterDigit)
    requires places != [] && places[0].underscore ==> afterDigit
    ensures ParseDigits(PlacesText(places), value, afterDigit) == Some(Continued(value, DigitsIn(places)))
    decreases places
  {
    if places != [] {
      var p, rest := places[0], PlacesText(places[1..]);
      DigitStands(p.b, p.d);
      NotUnderscore(p.b, p.d);
      ParsePlaces(places[1..], 16 * value + p.d, true);
      assert ([p.b] + rest)[1..] == rest;
      assert ([95, p.b] + rest)[1..] == [p.b] + rest;
    }
  }

  lemma NotUnderscore(b: byte, d: nat)
    requires Stands(b, d)
    ensures b != 95 && b != 43 && b != 45 && b != 120 && b != 88 && b !in BLANKS && b != 59
  {
    DigitStands(b, d);
    SpaceIff(b);
  }

  function PrefixText(prefix: Prefix): bytes {
    match prefix case NoPrefix => [] case LowerX => [48, 120] case UpperX => [48, 88]
  }

  lemma AfterPrefix(prefix: Prefix, s: bytes)
    requires prefix != NoPrefix
    ensures ParseUnsigned(PrefixText(prefix) + s) ==
            if s != [] && s[0] == 95 then ParseDigits(s[1..], 0, false) else ParseDigits(s, 0, false)
  {
    var text := PrefixText(prefix) + s;
    assert text[2..] == s;
    if s != [] {
      assert text[3..] == s[1..];
    }
  }

  lemma WithoutMark(places: seq<Place>)
    requires places != [] && places[0].underscore
    ensures var plain := [places[0].(underscore := false)] + places[1..];
      PlacesText(places) == [95] + PlacesText(plain) && DigitsIn(plain) == DigitsIn(places)
  {
    var plain := [places[0].(underscore := false)] + places[1..];
    assert plain[1..] == places[1..];
  }

  lemma NoPrefixHere(places: seq<Place>)
    requires AllStand(places) && places != [] && !places[0].underscore
    ensures var s := PlacesText(places); |s| >= 2 ==> s[1] != 120 && s[1] != 88
  {
    NotUnderscore(places[0].b, places[0].d);
    if |places| > 1 {
      NotUnderscore(places[1].b, places[1].d);
    }
  }

  lemma UnsignedText(prefix: Prefix, places: seq<Place>)
    requires Integer(NoSign, prefix, places).Valid()
    ensures ParseUnsigned(PrefixText(prefix) + PlacesText(places)) == Some(NumberOf(DigitsIn(places)))
  {
    ContinuedIsNumber(DigitsIn(places));
    NotUnderscore(places[0].b, places[0].d);
    if prefix == NoPrefix {
      assert PrefixText(prefix) + PlacesText(places) == PlacesText(places);
      NoPrefixHere(places);
      ParsePlaces(places, 0, false);
    } else {
      AfterPrefix(prefix, PlacesText(places));
      if places[0].underscore {
        WithoutMark(places);
        ParsePlaces([places[0].(underscore := false)] + places[1..], 0, false);
      } else {
        ParsePlaces(places, 0, false);
      }
    }
  }

  /** The text of an integer is read as its value. */
  lemma TextIsRead(t: Integer)
    requires t.Valid()
    ensures ParseInt16(t.Text()) == Ok(t.Value())
  {
    var unsigned := PrefixText(t.prefix) + PlacesText(t.places);
    UnsignedText(t.prefix, t.places);
    NotUnderscore(t.places[0].b, t.places[0].d);
    if t.sign == NoSign {
      assert t.Text() == unsigned;
    } else {
      assert t.Text()[1..] == unsigned;
    }
  }

  /** Nothing but digits with single underscores in front of them gets through. */
  lemma {:induction false} OnlyPlaces(s: bytes, value: nat, afterDigit: bool) returns (places: seq<Place>)
    requires ParseDigits(s, value, afterDigit).Some?
    ensures AllStand(places) && PlacesText(places) == s
    ensures !afterDigit ==> places != [] && !places[0].underscore
    decreases s
  {
    if s == [] {
      places := [];
    } else if s[0] == 95 {
      var rest := OnlyPlaces(s[1..], value, false);
      places := [rest[0].(underscore := true)] + rest[1..];
      assert PlacesText(rest) == [rest[0].b] + PlacesText(rest[1..]);
      assert s == [95] + s[1..];
    } else {
      var d := Digit(s[0]).value;
      DigitStands(s[0], d);
      var rest := OnlyPlaces(s[1..], 16 * value + d, true);
      places := [Place(false, s[0], d)] + rest;
      assert s == [s[0]] + s[1..];
    }
  }

  lemma OnlyPrefixed(prefix: Prefix, s: bytes) returns (places: seq<Place>)
    requires prefix != NoPrefix && ParseUnsigned(PrefixText(prefix) + s).Some?
    ensures places != [] && AllStand(places) && PlacesText(places) == s
  {
    AfterPrefix(prefix, s);
    if s != [] && s[0] == 95 {
      var rest := OnlyPlaces(s[1..], 0, false);
      places := [rest[0].(underscore := true)] + rest[1..];
      WithoutMark(places);
      assert [rest[0]] + rest[1..] == rest;
      assert s == [95] + s[1..];
    } else {
      places := OnlyPlaces(s, 0, false);
    }
  }

  lemma OnlyUnsigned(s: bytes) returns (t: Integer)
    requires ParseUnsigned(s).Some?
    ensures t.Valid() && t.sign == NoSign && t.Text() == s
  {
    if |s| >= 2 && s[0] == 48 && (s[1] == 120 || s[1] == 88) {
      var prefix := if s[1] == 120 then LowerX else UpperX;
      assert s == PrefixText(prefix) + s[2..];
      var places := OnlyPrefixed(prefix, s[2..]);
      t := Integer(NoSign, prefix, places);
    } else {
      var places := OnlyPlaces(s, 0, false);
      t := Integer(NoSign, NoPrefix, places);
      assert [] + s == s;
    }
    assert [] + (PrefixText(t.prefix) + PlacesText(t.places)) == PrefixText(t.prefix) + PlacesText(t.places);
  }

  /** And nothing else is read: what is accepted is the text of an integer. */
  lemma OnlyTextsAreRead(s: bytes) returns (t: Integer)
    requires ParseInt16(s).Ok?
    ensures t.Valid() && t.Text() == s
  {
    if s != [] && (s[0] == 45 || s[0] == 43) {
      var unsigned := OnlyUnsigned(s[1..]);
      t := unsigned.(sign := if s[0] == 45 then Minus else Plus);
      assert t.Text() == [s[0]] + unsigned.Text();
      assert s == [s[0]] + s[1..];
    } else {
      t := OnlyUnsigned(s);
    }
  }

  /******* Blanks around it *******/

  lemma {:induction false} StripLeftBlanks(blanks: bytes, s: bytes)
    requires Blank(blanks) && (s != [] ==> s[0] !in BLANKS)
    ensures StripLeft(blanks + s) == s
  {
    if blanks == [] {
      assert blanks + s == s;
      if s != [] {
        SpaceIff(s[0]);
      }
    } else {
      SpaceIff(blanks[0]);
      assert (blanks + s)[1..] == blanks[1..] + s;
      StripLeftBlanks(blanks[1..], s);
    }
  }

  lemma {:induction false} StripRightBlanks(s: bytes, blanks: bytes)
    requires Blank(blanks) && (s != [] ==> s[|s| - 1] !in BLANKS)
    ensures StripRight(s + blanks) == s
  {
    if blanks == [] {
      assert s + blanks == s;
      if s != [] {
        SpaceIff(s[|s| - 1]);
      }
    } else {
      var n := |blanks| - 1;
      SpaceIff(blanks[n]);
      assert (s + blanks)[..|s + blanks| - 1] == s + blanks[..n];
      StripRightBlanks(s, blanks[..n]);
    }
  }

  /** Stripping takes the blanks off both ends, and nothing else. */
  lemma StripsBlanks(before: bytes, s: bytes, after: bytes)
    requires Blank(before) && Blank(after)
    requires s != [] ==> s[0] !in BLANKS && s[|s| - 1] !in BLANKS
    ensures Strip(before + s + after) == s
  {
    if s == [] {
      var all := before + s + after;
      assert Blank(all);
      StripLeftBlanks(all, []);
      assert all + [] == all;
    } else {
      assert before + s + after == before + (s + after);
      StripLeftBlanks(before, s + after);
      StripRightBlanks(s, after);
    }
  }

  /******* Plain hexadecimal *******/

  function PlainPlaces(s: bytes, ds: seq<nat>): seq<Place>
    requires |s| == |ds|
  {
    if s == [] then [] else [Place(false, s[0], ds[0])] + PlainPlaces(s[1..], ds[1..])
  }

  lemma {:induction false} PlainText(s: bytes, ds: seq<nat>)
    requires Writes(s, ds)
    ensures var places := PlainPlaces(s, ds);
      && |places| == |s| && AllStand(places) && (places != [] ==> !places[0].underscore)
      && PlacesText(places) == s && DigitsIn(places) == ds
  {
    if s != [] {
      PlainText(s[1..], ds[1..]);
      assert s == [s[0]] + s[1..] && ds == [ds[0]] + ds[1..];
    }
  }

  /** Digits written without sign, prefix or underscore, leading zeros included. */
  lemma PlainIsRead(s: bytes, ds: seq<nat>)
    requires Writes(s, ds) && s != []
    ensures ParseInt16(s) == Ok(NumberOf(ds))
  {
    PlainText(s, ds);
    var t := Integer(NoSign, NoPrefix, PlainPlaces(s, ds));
    assert t.Text() == s;
    TextIsRead(t);
  }

  /** Every number has digits. */
  function DigitsOf(n: nat): (ds: seq<nat>)
    ensures ds != [] && NumberOf(ds) == n && forall i :: 0 <= i < |ds| ==> ds[i] < 16
  {
    if n < 16 then
      assert [n][..0] == [];
      [n]
    else
      var ds := DigitsOf(n / 16) + [n % 16];
      assert ds[..|ds| - 1] == DigitsOf(n / 16);
      ds
  }
}
