/** Rust strings: byte sequences that are well-formed UTF-8 (section 4 of RFC 3629). */
module Utf8 {
  import opened Integers
  import opened Sse
  import opened Wrappers

  predicate Tail(b: Byte) {
    0x80 <= b <= 0xBF
  }

  /** The length of the character at the front, or 0 if there is none. */
  function FirstLength(b: Bytes): (n: nat)
    ensures n <= |b|
  {
    if |b| >= 1 && b[0] <= 0x7F then 1
    else if |b| >= 2 && 0xC2 <= b[0] <= 0xDF && Tail(b[1]) then 2
    else if |b| >= 3 && Tail(b[1]) && Tail(b[2])
      && (if b[0] == 0xE0 then 0xA0 <= b[1] else if b[0] == 0xED then b[1] <= 0x9F else 0xE1 <= b[0] <= 0xEF) then 3
    else if |b| >= 4 && Tail(b[1]) && Tail(b[2]) && Tail(b[3])
      && (if b[0] == 0xF0 then 0x90 <= b[1] else if b[0] == 0xF4 then b[1] <= 0x8F else 0xF1 <= b[0] <= 0xF3) then 4
    else 0
  }

  predicate WellFormed(b: Bytes) {
    b == [] || (FirstLength(b) > 0 && WellFormed(b[FirstLength(b)..]))
  }

  type Str = b: Bytes | WellFormed(b)

  function EncodeString(s: Str, rest: Bytes): Bytes {
    EncodeVec(EncodeU8, s, rest)
  }

  /** `String::from_utf8(inner).unwrap()`. */
  function DecodeString(s: Bytes): Decoded<Str> {
    var (b, rest) :- DecodeVec(DecodeU8, s);
    if WellFormed(b) then Some((b, rest)) else None
  }

  predicate SizedString(s: Str) {
    |s| < 0x8000_0000
  }

  predicate AnyByte(b: Byte) {
    true
  }

  /** Strings survive exactly below 2^31 bytes. */
  lemma StringCodec()
    ensures forall s: Str, rest: Bytes :: Inverts(DecodeString(EncodeString(s, rest)), s, rest, SizedString(s))
    ensures forall s: Str, rest: Bytes, more: Bytes {:trigger EncodeString(s, rest) + more} ::
      EncodeString(s, rest) + more == EncodeString(s, rest + more)
  {
    VecCodec(EncodeU8, DecodeU8, AnyByte);
    forall s: Str, rest: Bytes
      ensures Inverts(DecodeString(EncodeString(s, rest)), s, rest, SizedString(s))
    {
      var b: Bytes := s;
      assert Inverts(DecodeVec(DecodeU8, EncodeVec(EncodeU8, b, rest)), b, rest, SizedVec(AnyByte, b));
    }
  }

  lemma OptionStringCodec()
    ensures forall v: Option<Str>, rest: Bytes ::
      Inverts(DecodeOption(DecodeString, EncodeOption(EncodeString, v, rest)), v, rest, SizedOption(SizedString, v))
    ensures forall v: Option<Str>, rest: Bytes, more: Bytes {:trigger EncodeOption(EncodeString, v, rest) + more} ::
      EncodeOption(EncodeString, v, rest) + more == EncodeOption(EncodeString, v, rest + more)
  {
    StringCodec();
    OptionCodec(EncodeString, DecodeString, SizedString);
  }
}
