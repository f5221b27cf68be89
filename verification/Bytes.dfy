/** Bytes, and the text among them that UTF-8 writes with one byte a character. */
module Bytes {
  type byte = x: int | 0 <= x < 256

  type bytes = seq<byte>

  predicate Ascii(s: bytes) {
    forall i :: 0 <= i < |s| ==> s[i] < 0x80
  }
}
