/** The strict UTF-8 codec, on strings of Unicode scalar values. */
module Utf8 {
  import opened Prelude
  import opened Base64

  function EncodeScalar(c: char): seq<byte> {
    var n := c as int;
    if n < 0x80 then [n]
    else if n < 0x800 then [0xC0 + n / 64, 0x80 + n % 64]
    else if n < 0x10000 then [0xE0 + n / 4096, 0x80 + n / 64 % 64, 0x80 + n % 64]
    else [0xF0 + n / 262144, 0x80 + n / 4096 % 64, 0x80 + n / 64 % 64, 0x80 + n % 64]
  }

  function Encode(s: string): seq<byte> {
    if s == "" then [] else EncodeScalar(s[0]) + Encode(s[1..])
  }

  predicate Continues(bs: seq<byte>, count: nat) {
    |bs| > count && forall i :: 1 <= i <= count ==> 0x80 <= bs[i] < 0xC0
  }

  /** A code point that a sequence of the given length may carry: not overlong, not a
      surrogate, not past the end of Unicode. */
  predicate Admissible(n: int, length: nat) {
    && (if length == 2 then 0x80 <= n < 0x800
        else if length == 3 then 0x800 <= n < 0x10000 && !(0xD800 <= n < 0xE000)
        else 0x10000 <= n < 0x110000)
  }

  datatype Scalar = Scalar(c: char, length: nat)

  /** The scalar at the front of a byte string, and the bytes it takes. */
  function DecodeScalar(bs: seq<byte>): (r: Option<Scalar>)
    ensures r.Some? ==> 1 <= r.value.length <= |bs|
  {
    if bs == [] then None
    else
      var b0: int := bs[0];
      if b0 < 0x80 then Some(Scalar(b0 as char, 1))
      else if 0xC0 <= b0 < 0xE0 && Continues(bs, 1) then
        var n := (b0 - 0xC0) * 64 + Bits(bs, 1);
        if Admissible(n, 2) then Some(Scalar(n as char, 2)) else None
      else if 0xE0 <= b0 < 0xF0 && Continues(bs, 2) then
        var n := (b0 - 0xE0) * 4096 + Bits(bs, 1) * 64 + Bits(bs, 2);
        if Admissible(n, 3) then Some(Scalar(n as char, 3)) else None
      else if 0xF0 <= b0 < 0xF8 && Continues(bs, 3) then
        var n := (b0 - 0xF0) * 262144 + Bits(bs, 1) * 4096 + Bits(bs, 2) * 64 + Bits(bs, 3);
        if Admissible(n, 4) then Some(Scalar(n as char, 4)) else None
      else None
  }

  /** The six bits of a continuation byte. */
  function Bits(bs: seq<byte>, i: nat): int
    requires i < |bs|
  {
    bs[i] as int - 0x80
  }

  function Decode(bs: seq<byte>): Option<string>
    decreases |bs|
  {
    if bs == [] then Some("")
    else
      match DecodeScalar(bs)
      case None => None
      case Some(first) =>
        match Decode(bs[first.length..])
        case None => None
        case Some(rest) => Some([first.c] + rest)
  }

  lemma Split64(n: int)
    ensures n / 64 * 64 + n % 64 == n && n / 64 / 64 == n / 4096 && n / 64 / 64 / 64 == n / 262144
  {
  }

  lemma ScalarRoundTrip(c: char, tail: seq<byte>)
    ensures DecodeScalar(EncodeScalar(c) + tail) == Some(Scalar(c, |EncodeScalar(c)|))
  {
    var n, bs := c as int, EncodeScalar(c) + tail;
    Split64(n);
    Split64(n / 64);
    Split64(n / 64 / 64);
    if 0x800 <= n < 0x10000 {
      assert Continues(bs, 2);
      assert (bs[0] as int - 0xE0) * 4096 + Bits(bs, 1) * 64 + Bits(bs, 2) == n;
    } else if n >= 0x10000 {
      assert Continues(bs, 3);
      assert (bs[0] as int - 0xF0) * 262144 + Bits(bs, 1) * 4096 + Bits(bs, 2) * 64 + Bits(bs, 3) == n;
    }
  }

  /** Decoding undoes encoding, on every string. */
  lemma {:induction false} RoundTrip(s: string)
    ensures Decode(Encode(s)) == Some(s)
    decreases |s|
  {
    if s == "" {
    } else {
      var head, tail := EncodeScalar(s[0]), Encode(s[1..]);
      ScalarRoundTrip(s[0], tail);
      assert (head + tail)[|head|..] == tail;
      RoundTrip(s[1..]);
      assert s == [s[0]] + s[1..];
    }
  }

  lemma {:induction false} DecodeShorter(bs: seq<byte>)
    ensures Decode(bs).Some? ==> |Decode(bs).value| <= |bs|
    decreases |bs|
  {
    if |bs| > 0 && DecodeScalar(bs).Some? { DecodeShorter(bs[DecodeScalar(bs).value.length..]); }
  }

  /** One character of each length. */
  lemma Samples()
    ensures EncodeScalar('z') == [0x7A] && EncodeScalar('\U{e9}') == [0xC3, 0xA9]
    ensures EncodeScalar('\U{20ac}') == [0xE2, 0x82, 0xAC] && EncodeScalar('\U{1f600}') == [0xF0, 0x9F, 0x98, 0x80]
  {
  }

  // ---- What the decoder takes ----

  lemma Join64(a: int, b: int, c: int, d: int)
    requires 0 <= b < 64 && 0 <= c < 64 && 0 <= d < 64
    ensures var n := a * 262144 + b * 4096 + c * 64 + d;
            n % 64 == d && n / 64 % 64 == c && n / 4096 % 64 == b && n / 262144 == a
  {
    var n := a * 262144 + b * 4096 + c * 64 + d;
    assert n / 64 == a * 4096 + b * 64 + c;
    Split64(n);
    assert n / 64 / 64 == a * 64 + b;
  }

  /** A scalar that is decoded was encoded in exactly the bytes it took. */
  lemma ScalarExact(bs: seq<byte>)
    requires DecodeScalar(bs).Some?
    ensures var r := DecodeScalar(bs).value;
            bs[..r.length] == EncodeScalar(r.c)
  {
    var b0: int := bs[0];
    if b0 < 0x80 {
    } else if b0 < 0xE0 {
      Join64(0, 0, b0 - 0xC0, Bits(bs, 1));
    } else if b0 < 0xF0 {
      Join64(0, b0 - 0xE0, Bits(bs, 1), Bits(bs, 2));
    } else {
      Join64(b0 - 0xF0, Bits(bs, 1), Bits(bs, 2), Bits(bs, 3));
    }
  }

  /** Bytes decode to a string exactly when they are its encoding: nothing overlong, no surrogate and
      nothing cut short is taken. */
  lemma {:induction false} DecodeExact(bs: seq<byte>, s: string)
    ensures Decode(bs) == Some(s) <==> bs == Encode(s)
    decreases |bs|
  {
    RoundTrip(s);
    if bs != [] && Decode(bs) == Some(s) {
      ScalarExact(bs);
      var first := DecodeScalar(bs).value;
      assert s[1..] == Decode(bs[first.length..]).value && s[0] == first.c;
      DecodeExact(bs[first.length..], s[1..]);
      assert bs == bs[..first.length] + bs[first.length..];
    }
  }
}
