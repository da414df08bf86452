/**
 * The byte codec between the facade and the app: integers, strings, options and vectors.
 *
 * Encoders take the bytes that follow the value; decoders return the value and the bytes left,
 * or `None` where decoding panics.
 */
module Sse {
  import opened Integers
  import opened Wrappers

  type Decoded<T> = Option<(T, Bytes)>

  /** Whether the machine is little endian (`NativeEndian`); either way is covered. */
  const LITTLE_ENDIAN: bool

  function Power256(n: nat): (p: nat)
    ensures p >= 1
  {
    if n == 0 then 1 else 256 * Power256(n - 1)
  }

  /** The `n` low bytes of `x`, least significant first. */
  function LowBytes(x: nat, n: nat): (b: Bytes)
    ensures |b| == n
  {
    if n == 0 then [] else [x % 256] + LowBytes(x / 256, n - 1)
  }

  function ValueOf(b: Bytes): nat {
    if b == [] then 0 else b[0] + 256 * ValueOf(b[1..])
  }

  function Reverse(b: Bytes): (r: Bytes)
    ensures |r| == |b|
    ensures forall i | 0 <= i < |b| :: r[i] == b[|b| - 1 - i]
  {
    seq(|b|, i requires 0 <= i < |b| => b[|b| - 1 - i])
  }

  function InNativeOrder(b: Bytes): (r: Bytes)
    ensures |r| == |b|
  {
    if LITTLE_ENDIAN then b else Reverse(b)
  }

  function EncodeUnsigned(x: nat, n: nat, rest: Bytes): Bytes {
    InNativeOrder(LowBytes(x, n)) + rest
  }

  function DecodeUnsigned(n: nat, s: Bytes): Decoded<nat> {
    if |s| < n then None else Some((ValueOf(InNativeOrder(s[..n])), s[n..]))
  }

  lemma {:induction false} LowBytesValue(x: nat, n: nat)
    requires x < Power256(n)
    ensures ValueOf(LowBytes(x, n)) == x
  {
    if n > 0 {
      LowBytesValue(x / 256, n - 1);
    }
  }

  lemma UnsignedRoundTrip(x: nat, n: nat, rest: Bytes)
    requires x < Power256(n)
    ensures DecodeUnsigned(n, EncodeUnsigned(x, n, rest)) == Some((x, rest))
  {
    var low := LowBytes(x, n);
    var s := EncodeUnsigned(x, n, rest);
    LowBytesValue(x, n);
    assert s[..n] == InNativeOrder(low) && s[n..] == rest;
    assert Reverse(Reverse(low)) == low;
  }

  lemma Widths()
    ensures Power256(4) == 0x1_0000_0000 && Power256(8) == 0x1_0000_0000_0000_0000
  {
    assert Power256(4) == 256 * Power256(3) == 256 * (256 * Power256(2));
    assert Power256(8) == 256 * Power256(7) == 256 * (256 * Power256(6)) == 256 * (256 * (256 * Power256(5)));
  }

  // What every codec promises: decoding inverts encoding for well-sized values and for no others.

  ghost predicate Inverts<T>(decoded: Decoded<T>, value: T, rest: Bytes, sized: bool) {
    && (sized ==> decoded == Some((value, rest)))
    && (!sized ==> decoded.None? || decoded.value.0 != value)
  }

  /** Following bytes are passed through, so encoders can also append to a cursor. */
  ghost predicate Appends<T(!new)>(encode: (T, Bytes) -> Bytes) {
    forall v: T, rest: Bytes, more: Bytes {:trigger encode(v, rest) + more} ::
      encode(v, rest) + more == encode(v, rest + more)
  }

  ghost predicate Codec<T(!new)>(encode: (T, Bytes) -> Bytes, decode: Bytes -> Decoded<T>, sized: T -> bool) {
    && (forall v: T, rest: Bytes :: Inverts(decode(encode(v, rest)), v, rest, sized(v)))
    && Appends(encode)
  }

  /** The size condition of values without vectors or strings. */
  predicate Always<T>(v: T) {
    true
  }

  // Numbers and flags.

  function EncodeU32(x: U32, rest: Bytes): Bytes {
    EncodeUnsigned(x, 4, rest)
  }

  function DecodeU32(s: Bytes): Decoded<U32> {
    var (x, rest) :- DecodeUnsigned(4, s);
    if x < 0x1_0000_0000 then Some((x, rest)) else None
  }

  function EncodeU64(x: U64, rest: Bytes): Bytes {
    EncodeUnsigned(x, 8, rest)
  }

  function DecodeU64(s: Bytes): Decoded<U64> {
    var (x, rest) :- DecodeUnsigned(8, s);
    if x < 0x1_0000_0000_0000_0000 then Some((x, rest)) else None
  }

  /** Two's complement. */
  function EncodeI32(x: I32, rest: Bytes): Bytes {
    EncodeU32(if x < 0 then x + 0x1_0000_0000 else x, rest)
  }

  function DecodeI32(s: Bytes): Decoded<I32> {
    var (x, rest) :- DecodeU32(s);
    Some((if x < 0x8000_0000 then x else x - 0x1_0000_0000, rest))
  }

  function EncodeI64(x: I64, rest: Bytes): Bytes {
    EncodeU64(if x < 0 then x + 0x1_0000_0000_0000_0000 else x, rest)
  }

  function DecodeI64(s: Bytes): Decoded<I64> {
    var (x, rest) :- DecodeU64(s);
    Some((if x < 0x8000_0000_0000_0000 then x else x - 0x1_0000_0000_0000_0000, rest))
  }

  function EncodeBool(b: bool, rest: Bytes): Bytes {
    [if b then 1 else 0] + rest
  }

  function DecodeBool(s: Bytes): Decoded<bool> {
    if s == [] then None else Some((s[0] != 0, s[1..]))
  }

  function EncodeU8(x: Byte, rest: Bytes): Bytes {
    [x] + rest
  }

  function DecodeU8(s: Bytes): Decoded<Byte> {
    if s == [] then None else Some((s[0], s[1..]))
  }

  lemma U32Codec()
    ensures forall x: U32, rest: Bytes :: DecodeU32(EncodeU32(x, rest)) == Some((x, rest))
    ensures forall x: U32, rest: Bytes, more: Bytes {:trigger EncodeU32(x, rest) + more} ::
      EncodeU32(x, rest) + more == EncodeU32(x, rest + more)
  {
    Widths();
    forall x: U32, rest: Bytes ensures DecodeU32(EncodeU32(x, rest)) == Some((x, rest)) {
      UnsignedRoundTrip(x, 4, rest);
    }
  }

  lemma U64Codec()
    ensures forall x: U64, rest: Bytes :: DecodeU64(EncodeU64(x, rest)) == Some((x, rest))
    ensures forall x: U64, rest: Bytes, more: Bytes {:trigger EncodeU64(x, rest) + more} ::
      EncodeU64(x, rest) + more == EncodeU64(x, rest + more)
  {
    Widths();
    forall x: U64, rest: Bytes ensures DecodeU64(EncodeU64(x, rest)) == Some((x, rest)) {
      UnsignedRoundTrip(x, 8, rest);
    }
  }

  lemma I32Codec()
    ensures forall x: I32, rest: Bytes :: DecodeI32(EncodeI32(x, rest)) == Some((x, rest))
    ensures forall x: I32, rest: Bytes, more: Bytes {:trigger EncodeI32(x, rest) + more} ::
      EncodeI32(x, rest) + more == EncodeI32(x, rest + more)
  {
    U32Codec();
  }

  lemma I64Codec()
    ensures forall x: I64, rest: Bytes :: DecodeI64(EncodeI64(x, rest)) == Some((x, rest))
    ensures forall x: I64, rest: Bytes, more: Bytes {:trigger EncodeI64(x, rest) + more} ::
      EncodeI64(x, rest) + more == EncodeI64(x, rest + more)
  {
    U64Codec();
  }

  lemma BoolCodec()
    ensures forall b: bool, rest: Bytes :: DecodeBool(EncodeBool(b, rest)) == Some((b, rest))
    ensures forall b: bool, rest: Bytes, more: Bytes {:trigger EncodeBool(b, rest) + more} ::
      EncodeBool(b, rest) + more == EncodeBool(b, rest + more)
  {
  }

  // Vectors: the length as an i32 (`len() as _` wraps), then the items.

  function AsI32(n: nat): (r: I32)
    ensures n < 0x8000_0000 <==> r == n
  {
    var low := n % 0x1_0000_0000;
    if low < 0x8000_0000 then low else low - 0x1_0000_0000
  }

  function EncodeItems<T>(encode: (T, Bytes) -> Bytes, items: seq<T>, rest: Bytes): Bytes {
    if items == [] then rest else encode(items[0], EncodeItems(encode, items[1..], rest))
  }

  function DecodeItems<T>(decode: Bytes -> Decoded<T>, n: nat, s: Bytes): Decoded<seq<T>> {
    if n == 0 then Some(([], s))
    else
      var (first, s1) :- decode(s);
      var (others, s2) :- DecodeItems(decode, n - 1, s1);
      Some(([first] + others, s2))
  }

  function EncodeVec<T>(encode: (T, Bytes) -> Bytes, items: seq<T>, rest: Bytes): Bytes {
    EncodeI32(AsI32(|items|), EncodeItems(encode, items, rest))
  }

  /** A negative length has no capacity to allocate. */
  function DecodeVec<T>(decode: Bytes -> Decoded<T>, s: Bytes): Decoded<seq<T>> {
    var (length, s1) :- DecodeI32(s);
    if length < 0 then None else DecodeItems(decode, length, s1)
  }

  predicate SizedVec<T>(sized: T -> bool, items: seq<T>) {
    |items| < 0x8000_0000 && forall i | 0 <= i < |items| :: sized(items[i])
  }

  lemma {:induction false} ItemsRoundTrip<T(!new)>(
    encode: (T, Bytes) -> Bytes, decode: Bytes -> Decoded<T>, sized: T -> bool, items: seq<T>, rest: Bytes)
    requires Codec(encode, decode, sized)
    ensures Inverts(DecodeItems(decode, |items|, EncodeItems(encode, items, rest)), items, rest,
                    forall i | 0 <= i < |items| :: sized(items[i]))
  {
    if items != [] {
      var following := EncodeItems(encode, items[1..], rest);
      ItemsRoundTrip(encode, decode, sized, items[1..], rest);
      assert Inverts(decode(encode(items[0], following)), items[0], following, sized(items[0]));
      assert items == [items[0]] + items[1..];
      assert forall i | 0 < i < |items| :: items[i] == items[1..][i - 1];
      assert forall i | 0 <= i < |items| - 1 :: items[1..][i] == items[i + 1];
    }
  }

  lemma {:induction false} ItemsAppend<T(!new)>(
    encode: (T, Bytes) -> Bytes, decode: Bytes -> Decoded<T>, sized: T -> bool,
    items: seq<T>, rest: Bytes, more: Bytes)
    requires Codec(encode, decode, sized)
    ensures EncodeItems(encode, items, rest) + more == EncodeItems(encode, items, rest + more)
  {
    if items != [] {
      ItemsAppend(encode, decode, sized, items[1..], rest, more);
    }
  }

  lemma {:induction false} DecodedCount<T>(decode: Bytes -> Decoded<T>, n: nat, s: Bytes)
    ensures var d := DecodeItems(decode, n, s); d.Some? ==> |d.value.0| == n
  {
    if n > 0 && decode(s).Some? {
      DecodedCount(decode, n - 1, decode(s).value.1);
    }
  }

  lemma VecCodec<T(!new)>(encode: (T, Bytes) -> Bytes, decode: Bytes -> Decoded<T>, sized: T -> bool)
    requires Codec(encode, decode, sized)
    ensures forall items: seq<T>, rest: Bytes ::
      Inverts(DecodeVec(decode, EncodeVec(encode, items, rest)), items, rest, SizedVec(sized, items))
    ensures forall items: seq<T>, rest: Bytes, more: Bytes {:trigger EncodeVec(encode, items, rest) + more} ::
      EncodeVec(encode, items, rest) + more == EncodeVec(encode, items, rest + more)
  {
    I32Codec();
    forall items: seq<T>, rest: Bytes
      ensures Inverts(DecodeVec(decode, EncodeVec(encode, items, rest)), items, rest, SizedVec(sized, items))
    {
      var length, body := AsI32(|items|), EncodeItems(encode, items, rest);
      assert DecodeI32(EncodeI32(length, body)) == Some((length, body));
      ItemsRoundTrip(encode, decode, sized, items, rest);
      if length >= 0 {
        DecodedCount(decode, length, body);
      }
    }
    forall items: seq<T>, rest: Bytes, more: Bytes
      ensures EncodeVec(encode, items, rest) + more == EncodeVec(encode, items, rest + more)
    {
      ItemsAppend(encode, decode, sized, items, rest, more);
    }
  }

  // Options: a flag, then the value if there is one.

  function EncodeOption<T>(encode: (T, Bytes) -> Bytes, v: Option<T>, rest: Bytes): Bytes {
    EncodeBool(v.Some?, if v.Some? then encode(v.value, rest) else rest)
  }

  function DecodeOption<T>(decode: Bytes -> Decoded<T>, s: Bytes): Decoded<Option<T>> {
    var (present, s1) :- DecodeBool(s);
    if present then
      var (v, s2) :- decode(s1);
      Some((Some(v), s2))
    else Some((None, s1))
  }

  predicate SizedOption<T>(sized: T -> bool, v: Option<T>) {
    v.Some? ==> sized(v.value)
  }

  lemma OptionCodec<T(!new)>(encode: (T, Bytes) -> Bytes, decode: Bytes -> Decoded<T>, sized: T -> bool)
    requires Codec(encode, decode, sized)
    ensures forall v: Option<T>, rest: Bytes ::
      Inverts(DecodeOption(decode, EncodeOption(encode, v, rest)), v, rest, SizedOption(sized, v))
    ensures forall v: Option<T>, rest: Bytes, more: Bytes {:trigger EncodeOption(encode, v, rest) + more} ::
      EncodeOption(encode, v, rest) + more == EncodeOption(encode, v, rest + more)
  {
    BoolCodec();
    forall v: Option<T>, rest: Bytes
      ensures Inverts(DecodeOption(decode, EncodeOption(encode, v, rest)), v, rest, SizedOption(sized, v))
    {
      if v.Some? {
        assert Inverts(decode(encode(v.value, rest)), v.value, rest, sized(v.value));
      }
    }
  }

  lemma OptionU32Codec()
    ensures forall v: Option<U32>, rest: Bytes ::
      DecodeOption(DecodeU32, EncodeOption(EncodeU32, v, rest)) == Some((v, rest))
    ensures forall v: Option<U32>, rest: Bytes, more: Bytes {:trigger EncodeOption(EncodeU32, v, rest) + more} ::
      EncodeOption(EncodeU32, v, rest) + more == EncodeOption(EncodeU32, v, rest + more)
  {
    U32Codec();
    OptionCodec(EncodeU32, DecodeU32, Always);
    forall v: Option<U32>, rest: Bytes
      ensures DecodeOption(DecodeU32, EncodeOption(EncodeU32, v, rest)) == Some((v, rest))
    {
      assert Inverts(DecodeOption(DecodeU32, EncodeOption(EncodeU32, v, rest)), v, rest, SizedOption(Always, v));
    }
  }

  lemma OptionU64Codec()
    ensures forall v: Option<U64>, rest: Bytes ::
      DecodeOption(DecodeU64, EncodeOption(EncodeU64, v, rest)) == Some((v, rest))
    ensures forall v: Option<U64>, rest: Bytes, more: Bytes {:trigger EncodeOption(EncodeU64, v, rest) + more} ::
      EncodeOption(EncodeU64, v, rest) + more == EncodeOption(EncodeU64, v, rest + more)
  {
    U64Codec();
    OptionCodec(EncodeU64, DecodeU64, Always);
    forall v: Option<U64>, rest: Bytes
      ensures DecodeOption(DecodeU64, EncodeOption(EncodeU64, v, rest)) == Some((v, rest))
    {
      assert Inverts(DecodeOption(DecodeU64, EncodeOption(EncodeU64, v, rest)), v, rest, SizedOption(Always, v));
    }
  }
}
