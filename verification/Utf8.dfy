/** UTF-8, section 3 of RFC 3629: how Python counts the characters of bytes, and what the bytes of characters are. */
module Utf8 {
  import opened Bytes
  import opened Options

  /******* The reader *******/

  predicate Continues(s: bytes, from: nat, to: nat) {
    to <= |s| && forall i :: from <= i < to ==> 0x80 <= s[i] <= 0xBF
  }

  /** How many bytes the character at the head of `s` takes in UTF-8; None if there is no valid one. */
  function CharLength(s: bytes): (n: Option<nat>)
    requires s != []
    ensures n.Some? ==> 1 <= n.value <= |s| && (n.value == 1 <==> s[0] < 0x80)
  {
    if s[0] < 0x80 then Some(1)
    else if 0xC2 <= s[0] <= 0xDF && Continues(s, 1, 2) then Some(2)
    else if && 0xE0 <= s[0] <= 0xEF && Continues(s, 1, 3)
            && (s[0] == 0xE0 ==> s[1] >= 0xA0) && (s[0] == 0xED ==> s[1] <= 0x9F) then Some(3)
    else if && 0xF0 <= s[0] <= 0xF4 && Continues(s, 1, 4)
            && (s[0] == 0xF0 ==> s[1] >= 0x90) && (s[0] == 0xF4 ==> s[1] <= 0x8F) then Some(4)
    else None
  }

  /** How many characters the bytes are in UTF-8; None if they are not UTF-8, and decoding them raises. */
  function Characters(s: bytes): (n: Option<nat>)
    ensures n.Some? ==> n.value <= |s|
  {
    if s == [] then Some(0)
    else if CharLength(s).None? then None
    else
      var rest := Characters(s[CharLength(s).value..]);
      if rest.None? then None else Some(rest.value + 1)
  }

  /** The number of characters is the number of bytes only for ASCII. */
  lemma {:induction false} CharactersAreBytesIff(s: bytes)
    ensures Characters(s) == Some(|s|) <==> Ascii(s)
  {
    if s != [] && CharLength(s).Some? {
      var n := CharLength(s).value;
      CharactersAreBytesIff(s[n..]);
      if Ascii(s[n..]) && s[0] < 0x80 {
        assert forall i :: 0 < i < |s| ==> s[i] == s[1..][i - 1];
      }
    }
  }

  /******* The writer *******/

  /** The characters Unicode has: no surrogates. */
  predicate Scalar(c: nat) {
    c < 0xD800 || 0xE000 <= c < 0x11_0000
  }

  function Encoded(c: nat): bytes
    requires Scalar(c)
  {
    if c < 0x80 then [c]
    else if c < 0x800 then [0xC0 + c / 64, 0x80 + c % 64]
    else if c < 0x1_0000 then [0xE0 + c / 4096, 0x80 + c / 64 % 64, 0x80 + c % 64]
    else [0xF0 + c / 262144, 0x80 + c / 4096 % 64, 0x80 + c / 64 % 64, 0x80 + c % 64]
  }

  predicate AllScalar(cs: seq<nat>) {
    forall i :: 0 <= i < |cs| ==> Scalar(cs[i])
  }

  function EncodedAll(cs: seq<nat>): bytes
    requires AllScalar(cs)
  {
    if cs == [] then [] else Encoded(cs[0]) + EncodedAll(cs[1..])
  }

  /** Two numbers below 64 are told from their sum with one of them scaled. */
  lemma Digits64(hi: nat, lo: nat)
    requires lo < 64
    ensures (hi * 64 + lo) / 64 == hi && (hi * 64 + lo) % 64 == lo
  {
  }

  lemma ThreeDigits64(a: nat, b: nat, c: nat)
    requires b < 64 && c < 64
    ensures var n := a * 4096 + b * 64 + c; n / 4096 == a && n / 64 % 64 == b && n % 64 == c
  {
    Digits64(a * 64 + b, c);
    Digits64(a, b);
  }

  lemma FourDigits64(a: nat, b: nat, c: nat, d: nat)
    requires b < 64 && c < 64 && d < 64
    ensures var n := a * 262144 + b * 4096 + c * 64 + d;
      n / 262144 == a && n / 4096 % 64 == b && n / 64 % 64 == c && n % 64 == d
  {
    Digits64(a * 4096 + b * 64 + c, d);
    ThreeDigits64(a, b, c);
  }

  lemma TwoAreRead(b0: byte, b1: byte)
    requires 0xC2 <= b0 <= 0xDF && 0x80 <= b1 <= 0xBF
    ensures CharLength([b0, b1]) == Some(2)
  {
  }

  lemma ThreeAreRead(b0: byte, b1: byte, b2: byte)
    requires 0xE0 <= b0 <= 0xEF && 0x80 <= b1 <= 0xBF && 0x80 <= b2 <= 0xBF
    requires (b0 == 0xE0 ==> b1 >= 0xA0) && (b0 == 0xED ==> b1 <= 0x9F)
    ensures CharLength([b0, b1, b2]) == Some(3)
  {
  }

  lemma FourAreRead(b0: byte, b1: byte, b2: byte, b3: byte)
    requires 0xF0 <= b0 <= 0xF4 && 0x80 <= b1 <= 0xBF && 0x80 <= b2 <= 0xBF && 0x80 <= b3 <= 0xBF
    requires (b0 == 0xF0 ==> b1 >= 0x90) && (b0 == 0xF4 ==> b1 <= 0x8F)
    ensures CharLength([b0, b1, b2, b3]) == Some(4)
  {
  }

  /** The bytes of one character are read as one. */
  lemma OneIsRead(c: nat)
    requires Scalar(c)
    ensures CharLength(Encoded(c)) == Some(|Encoded(c)|)
  {
    if c >= 0x1_0000 {
      FourAreRead(0xF0 + c / 262144, 0x80 + c / 4096 % 64, 0x80 + c / 64 % 64, 0x80 + c % 64);
    } else if c >= 0x800 {
      ThreeAreRead(0xE0 + c / 4096, 0x80 + c / 64 % 64, 0x80 + c % 64);
    } else if c >= 0x80 {
      TwoAreRead(0xC0 + c / 64, 0x80 + c % 64);
    }
  }

  lemma LengthOfHead(s: bytes, t: bytes)
    requires s != [] && CharLength(s).Some?
    ensures CharLength(s + t) == CharLength(s)
  {
    assert forall i :: 0 <= i < |s| ==> (s + t)[i] == s[i];
  }

  /** And what is read as one is the bytes of one. */
  lemma HeadIsCharacter(s: bytes) returns (c: nat)
    requires s != [] && CharLength(s).Some?
    ensures Scalar(c) && s[..CharLength(s).value] == Encoded(c)
  {
    var n, b0 := CharLength(s).value, s[0] as int;
    if n == 1 {
      c := b0;
    } else if n == 2 {
      var b1 := s[1] as int;
      c := (b0 - 0xC0) * 64 + (b1 - 0x80);
      Digits64(b0 - 0xC0, b1 - 0x80);
      assert s[..2] == [s[0], s[1]];
    } else if n == 3 {
      var b1, b2 := s[1] as int, s[2] as int;
      c := (b0 - 0xE0) * 4096 + (b1 - 0x80) * 64 + (b2 - 0x80);
      ThreeDigits64(b0 - 0xE0, b1 - 0x80, b2 - 0x80);
      assert s[..3] == [s[0], s[1], s[2]];
    } else {
      var b1, b2, b3 := s[1] as int, s[2] as int, s[3] as int;
      c := (b0 - 0xF0) * 262144 + (b1 - 0x80) * 4096 + (b2 - 0x80) * 64 + (b3 - 0x80);
      FourDigits64(b0 - 0xF0, b1 - 0x80, b2 - 0x80, b3 - 0x80);
      assert s[..4] == [s[0], s[1], s[2], s[3]];
    }
  }

  lemma OneMore(s: bytes, t: bytes)
    requires s != [] && CharLength(s) == Some(|s|)
    ensures Characters(s + t) == if Characters(t).None? then None else Some(Characters(t).value + 1)
  {
    LengthOfHead(s, t);
    assert (s + t)[|s|..] == t;
  }

  /** Characters written in UTF-8 are counted. */
  lemma {:induction false} CountsCharacters(cs: seq<nat>)
    requires AllScalar(cs)
    ensures Characters(EncodedAll(cs)) == Some(|cs|)
  {
    if cs != [] {
      CountsCharacters(cs[1..]);
      OneIsRead(cs[0]);
      OneMore(Encoded(cs[0]), EncodedAll(cs[1..]));
    }
  }

  lemma HeadAndRest(s: bytes) returns (n: nat)
    requires s != [] && Characters(s).Some?
    ensures CharLength(s) == Some(n) && n <= |s|
    ensures Characters(s[n..]) == Some(Characters(s).value - 1) && |s[n..]| < |s|
  {
    n := CharLength(s).value;
  }

  /** And whatever is counted is that many characters, written in UTF-8. */
  lemma {:induction false} OnlyCharactersCount(s: bytes) returns (cs: seq<nat>)
    requires Characters(s).Some?
    ensures |cs| == Characters(s).value && AllScalar(cs) && EncodedAll(cs) == s
    decreases |s|
  {
    if s == [] {
      cs := [];
    } else {
      var n := HeadAndRest(s);
      var c := HeadIsCharacter(s);
      var rest := OnlyCharactersCount(s[n..]);
      cs := Prepended(c, rest, s, n);
    }
  }

  lemma Prepended(c: nat, rest: seq<nat>, s: bytes, n: nat) returns (cs: seq<nat>)
    requires Scalar(c) && AllScalar(rest) && n <= |s| && s[..n] == Encoded(c) && s[n..] == EncodedAll(rest)
    ensures |cs| == |rest| + 1 && AllScalar(cs) && EncodedAll(cs) == s
  {
    cs := [c] + rest;
    Appended(c, rest);
    assert s == s[..n] + s[n..];
  }

  lemma Appended(c: nat, rest: seq<nat>)
    requires Scalar(c) && AllScalar(rest)
    ensures AllScalar([c] + rest) && EncodedAll([c] + rest) == Encoded(c) + EncodedAll(rest)
  {
    assert ([c] + rest)[1..] == rest;
  }
}
