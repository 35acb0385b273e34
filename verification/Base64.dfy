/** Base64 (section 4 of RFC 4648): the encoder, and the decoder of the `binascii` module with
    its strict and lenient modes. */
module Base64 {
  import opened Prelude

  type byte = b: int | 0 <= b < 256

  type sextet = v: int | 0 <= v < 64

  function EncodeChar(v: sextet): char {
    if v < 26 then 'A' + v as char
    else if v < 52 then 'a' + (v - 26) as char
    else if v < 62 then '0' + (v - 52) as char
    else if v == 62 then '+' else '/'
  }

  function DecodeChar(c: char): Option<sextet> {
    if 'A' <= c <= 'Z' then Some(c as int - 'A' as int)
    else if 'a' <= c <= 'z' then Some(c as int - 'a' as int + 26)
    else if '0' <= c <= '9' then Some(c as int - '0' as int + 52)
    else if c == '+' then Some(62)
    else if c == '/' then Some(63) else None
  }

  /** Four characters for three bytes. */
  function Group(a: byte, b: byte, c: byte): string {
    [EncodeChar(a / 4), EncodeChar(a % 4 * 16 + b / 16), EncodeChar(b % 16 * 4 + c / 64), EncodeChar(c % 64)]
  }

  /** Two characters and padding for one byte left at the end. */
  function LastOne(a: byte): string { [EncodeChar(a / 4), EncodeChar(a % 4 * 16)] + "==" }

  /** Three characters and padding for two. */
  function LastTwo(a: byte, b: byte): string {
    [EncodeChar(a / 4), EncodeChar(a % 4 * 16 + b / 16), EncodeChar(b % 16 * 4)] + "="
  }

  function Encode(bs: seq<byte>): string {
    if |bs| == 0 then ""
    else if |bs| == 1 then LastOne(bs[0])
    else if |bs| == 2 then LastTwo(bs[0], bs[1])
    else Group(bs[0], bs[1], bs[2]) + Encode(bs[3..])
  }

  /** The place in a group of four, the bits left over from the last character, the padding
      characters counted since then, and whether any padding has been seen. */
  datatype Place = Place(quad: nat, left: nat, pads: nat, padded: bool)

  predicate IsPlace(p: Place) {
    p.quad < 4 && (p.quad == 1 ==> p.left < 64) && (p.quad == 2 ==> p.left < 16) && (p.quad == 3 ==> p.left < 4)
  }

  const OUTSET := Place(0, 0, 0, false)

  /** The bytes a data character completes. */
  function Emitted(p: Place, v: sextet): seq<byte>
    requires IsPlace(p)
  {
    match p.quad
    case 0 => []
    case 1 => [p.left * 4 + v / 16]
    case 2 => [p.left * 16 + v / 4]
    case _ => [p.left * 64 + v]
  }

  function Advance(p: Place, v: sextet): (q: Place)
    requires IsPlace(p)
    ensures IsPlace(q)
  {
    match p.quad
    case 0 => Place(1, v, 0, p.padded)
    case 1 => Place(2, v % 16, 0, p.padded)
    case 2 => Place(3, v % 4, 0, p.padded)
    case _ => Place(0, 0, 0, p.padded)
  }

  /** `a2b_base64` from a place in a group on: lenient mode skips foreign characters and ignores
      what follows complete padding; strict mode rejects both. */
  function Scan(s: string, strict: bool, p: Place): Option<seq<byte>>
    requires IsPlace(p)
    decreases |s|
  {
    if s == "" then (if p.quad == 0 then Some([]) else None)
    else if s[0] == '=' then
      if strict && p.quad == 0 then None
      else if p.quad >= 2 && p.quad + p.pads + 1 >= 4 then (if strict && |s| > 1 then None else Some([]))
      else Scan(s[1..], strict, p.(pads := if p.quad >= 2 then p.pads + 1 else p.pads, padded := true))
    else
      match DecodeChar(s[0])
      case None => if strict then None else Scan(s[1..], strict, p)
      case Some(v) =>
        if strict && p.padded then None
        else Prepend(Emitted(p, v), Scan(s[1..], strict, Advance(p, v)))
  }

  function Prepend(bs: seq<byte>, rest: Option<seq<byte>>): Option<seq<byte>> {
    if rest.None? then None else Some(bs + rest.value)
  }

  predicate IsAscii(s: string) { forall c :: c in s ==> c < '\U{80}' }

  /** `b64decode(s, validate=strict)` of a string. */
  function Decode(s: string, strict: bool): Option<seq<byte>> {
    if IsAscii(s) then Scan(s, strict, OUTSET) else None
  }

  lemma CharRoundTrip(v: sextet)
    ensures DecodeChar(EncodeChar(v)) == Some(v) && EncodeChar(v) != '=' && EncodeChar(v) < '\U{80}'
  {
  }

  lemma {:induction false} ScanData(v: sextet, s: string, strict: bool, p: Place)
    requires IsPlace(p) && !p.padded
    ensures Scan([EncodeChar(v)] + s, strict, p) == Prepend(Emitted(p, v), Scan(s, strict, Advance(p, v)))
  {
    CharRoundTrip(v);
    assert ([EncodeChar(v)] + s)[1..] == s;
  }

  lemma GroupBits(a: byte, b: byte, c: byte)
    ensures var v1, v2 := a % 4 * 16 + b / 16, b % 16 * 4 + c / 64;
            && v1 / 16 == a % 4 && v1 % 16 == b / 16 && v2 / 4 == b % 16 && v2 % 4 == c / 64
            && a / 4 * 4 + a % 4 == a && b / 16 * 16 + b % 16 == b && c / 64 * 64 + c % 64 == c
  {
  }

  /** Four data characters, one after the other. */
  lemma {:induction false} ScanFour(v0: sextet, v1: sextet, v2: sextet, v3: sextet, s: string, strict: bool)
    ensures var p1 := Advance(OUTSET, v0);
            var p2 := Advance(p1, v1);
            var p3 := Advance(p2, v2);
            Scan([EncodeChar(v0)] + ([EncodeChar(v1)] + ([EncodeChar(v2)] + ([EncodeChar(v3)] + s))), strict, OUTSET) ==
            Prepend([], Prepend(Emitted(p1, v1), Prepend(Emitted(p2, v2), Prepend(Emitted(p3, v3),
                                                                                  Scan(s, strict, OUTSET)))))
  {
    var p1 := Advance(OUTSET, v0);
    var p2 := Advance(p1, v1);
    var p3 := Advance(p2, v2);
    var s3 := [EncodeChar(v3)] + s;
    var s2 := [EncodeChar(v2)] + s3;
    ScanData(v3, s, strict, p3);
    ScanData(v2, s3, strict, p2);
    ScanData(v1, s2, strict, p1);
    ScanData(v0, [EncodeChar(v1)] + s2, strict, OUTSET);
  }

  lemma RegroupFour(a: char, b: char, c: char, d: char, s: string)
    ensures [a, b, c, d] + s == [a] + ([b] + ([c] + ([d] + s)))
  {
  }

  /** The characters of a group, and the bytes they complete. */
  lemma GroupEmits(a: byte, b: byte, c: byte)
    ensures var v0: sextet, v1: sextet := a / 4, a % 4 * 16 + b / 16;
            var v2: sextet, v3: sextet := b % 16 * 4 + c / 64, c % 64;
            var p1 := Advance(OUTSET, v0);
            var p2 := Advance(p1, v1);
            Emitted(p1, v1) == [a] && Emitted(p2, v2) == [b] && Emitted(Advance(p2, v2), v3) == [c]
  {
    GroupBits(a, b, c);
  }

  lemma PrependGroup(a: byte, b: byte, c: byte, rest: Option<seq<byte>>)
    ensures Prepend([], Prepend([a], Prepend([b], Prepend([c], rest)))) == Prepend([a, b, c], rest)
  {
    PrependFour([], [a], [b], [c], rest);
    assert [] + [a] + [b] + [c] == [a, b, c];
  }

  /** Three bytes from four characters. */
  lemma {:induction false} ScanGroup(a: byte, b: byte, c: byte, s: string, strict: bool)
    ensures Scan(Group(a, b, c) + s, strict, OUTSET) == Prepend([a, b, c], Scan(s, strict, OUTSET))
  {
    var v0: sextet, v1: sextet, v2: sextet, v3: sextet := a / 4, a % 4 * 16 + b / 16, b % 16 * 4 + c / 64, c % 64;
    RegroupFour(EncodeChar(v0), EncodeChar(v1), EncodeChar(v2), EncodeChar(v3), s);
    ScanFour(v0, v1, v2, v3, s, strict);
    GroupEmits(a, b, c);
    PrependGroup(a, b, c, Scan(s, strict, OUTSET));
  }

  lemma PrependFour(w: seq<byte>, x: seq<byte>, y: seq<byte>, z: seq<byte>, rest: Option<seq<byte>>)
    ensures Prepend(w, Prepend(x, Prepend(y, Prepend(z, rest)))) == Prepend(w + x + y + z, rest)
  {
    if rest.Some? {
      assert w + (x + (y + (z + rest.value))) == w + x + y + z + rest.value;
    }
  }

  lemma {:induction false} ScanOne(a: byte, strict: bool)
    ensures Scan(LastOne(a), strict, OUTSET) == Some([a])
  {
    var v0: sextet, v1: sextet := a / 4, a % 4 * 16;
    GroupBits(a, 0, 0);
    var p1 := Advance(OUTSET, v0);
    var p2 := Advance(p1, v1);
    var end := [EncodeChar(v1)] + "==";
    assert Emitted(p1, v1) == [a];
    ScanPadding(strict, p2);
    ScanData(v1, "==", strict, p1);
    assert Scan(end, strict, p1) == Some([a] + []);
    ScanData(v0, end, strict, OUTSET);
    assert LastOne(a) == [EncodeChar(v0)] + end;
    assert [] + ([a] + []) == [a];
  }

  lemma {:induction false} ScanTwo(a: byte, b: byte, strict: bool)
    ensures Scan(LastTwo(a, b), strict, OUTSET) == Some([a, b])
  {
    var v0: sextet, v1: sextet, v2: sextet := a / 4, a % 4 * 16 + b / 16, b % 16 * 4;
    GroupBits(a, b, 0);
    var p1 := Advance(OUTSET, v0);
    var p2 := Advance(p1, v1);
    var last := [EncodeChar(v2)] + "=";
    var end := [EncodeChar(v1)] + last;
    assert Emitted(p1, v1) == [a];
    assert Emitted(p2, v2) == [b];
    ScanPadding(strict, Advance(p2, v2));
    ScanData(v2, "=", strict, p2);
    ScanData(v1, last, strict, p1);
    ScanData(v0, end, strict, OUTSET);
    assert LastTwo(a, b) == [EncodeChar(v0)] + end;
    assert [] + ([a] + ([b] + [])) == [a, b];
  }

  lemma {:induction false} ScanPadding(strict: bool, p: Place)
    requires IsPlace(p) && p.pads == 0
    ensures p.quad == 2 ==> Scan("==", strict, p) == Some([])
    ensures p.quad == 3 ==> Scan("=", strict, p) == Some([])
  {
    assert "=="[1..] == "=";
  }

  lemma {:induction false} ScanEncoded(bs: seq<byte>, strict: bool)
    ensures Scan(Encode(bs), strict, OUTSET) == Some(bs)
  {
    if |bs| >= 3 {
      var tail := bs[3..];
      ScanEncoded(tail, strict);
      ScanGroup(bs[0], bs[1], bs[2], Encode(tail), strict);
      assert bs == [bs[0], bs[1], bs[2]] + tail;
    } else if |bs| == 2 {
      ScanTwo(bs[0], bs[1], strict);
      assert bs == [bs[0], bs[1]];
    } else if |bs| == 1 {
      ScanOne(bs[0], strict);
      assert bs == [bs[0]];
    }
  }

  lemma {:induction false} EncodedIsAscii(bs: seq<byte>)
    ensures IsAscii(Encode(bs))
  {
    if |bs| >= 3 { EncodedIsAscii(bs[3..]); }
  }

  /** Both decoding modes undo the encoder, on every byte string. */
  lemma {:induction false} RoundTrip(bs: seq<byte>, strict: bool)
    ensures Decode(Encode(bs), strict) == Some(bs)
  {
    EncodedIsAscii(bs);
    ScanEncoded(bs, strict);
  }

  predicate InAlphabet(c: char) { DecodeChar(c).Some? || c == '=' }

  /** Strict base64 is made of the alphabet and padding only. */
  lemma {:induction false} StrictAlphabet(s: string, p: Place)
    requires IsPlace(p) && Scan(s, true, p).Some?
    ensures forall c :: c in s ==> InAlphabet(c)
    decreases |s|
  {
    if s == "" {
    } else {
      assert s == [s[0]] + s[1..];
      if s[0] == '=' {
        if p.quad < 2 || p.quad + p.pads + 1 < 4 {
          StrictAlphabet(s[1..], p.(pads := if p.quad >= 2 then p.pads + 1 else p.pads, padded := true));
        }
      } else {
        StrictAlphabet(s[1..], Advance(p, DecodeChar(s[0]).value));
      }
    }
  }

  lemma {:induction false} ScanShorter(s: string, strict: bool, p: Place)
    requires IsPlace(p)
    ensures Scan(s, strict, p).Some? ==> |Scan(s, strict, p).value| <= |s|
    decreases |s|
  {
    if s == "" {
    } else {
      if s[0] == '=' {
        ScanShorter(s[1..], strict, p.(pads := if p.quad >= 2 then p.pads + 1 else p.pads, padded := true));
      } else if DecodeChar(s[0]).Some? {
        ScanShorter(s[1..], strict, Advance(p, DecodeChar(s[0]).value));
      } else {
        ScanShorter(s[1..], strict, p);
      }
    }
  }

  // ---- The alphabet and the bits ----

  /** The alphabet of section 4 of RFC 4648: capitals, small letters, digits, plus and slash, each run
      in order, and nothing else. */
  lemma AlphabetExactly(v: sextet, c: char)
    ensures EncodeChar(0) == 'A' && EncodeChar(25) == 'Z' && EncodeChar(26) == 'a' && EncodeChar(51) == 'z'
    ensures EncodeChar(52) == '0' && EncodeChar(61) == '9' && EncodeChar(62) == '+' && EncodeChar(63) == '/'
    ensures v !in [25, 51, 61, 62, 63] ==> EncodeChar(v + 1) as int == EncodeChar(v) as int + 1
    ensures DecodeChar(c) == Some(v) <==> c == EncodeChar(v)
  {
    CharRoundTrip(v);
  }

  /** Three bytes and their four characters are the same 24 bits, most significant first. */
  lemma GroupBitsExactly(a: byte, b: byte, c: byte)
    ensures var g := Group(a, b, c);
            && (forall i :: 0 <= i < 4 ==> DecodeChar(g[i]).Some?)
            && DecodeChar(g[0]).value * 262144 + DecodeChar(g[1]).value * 4096 + DecodeChar(g[2]).value * 64
               + DecodeChar(g[3]).value == a * 65536 + b * 256 + c
  {
    GroupBits(a, b, c);
    CharRoundTrip(a / 4);
    CharRoundTrip(a % 4 * 16 + b / 16);
    CharRoundTrip(b % 16 * 4 + c / 64);
    CharRoundTrip(c % 64);
  }

  /** The test vectors of section 10 of RFC 4648 for one to three bytes. */
  lemma EncodeSamples()
    ensures Encode([102]) == "Zg==" && Encode([102, 111]) == "Zm8=" && Encode([102, 111, 111]) == "Zm9v"
  {
    var foo: seq<byte> := [102, 111, 111];
    assert foo[3..] == [];
    assert Encode(foo) == Group(102, 111, 111) + Encode([]);
  }

  /** What lenient decoding looks at: the characters of the alphabet and the padding. */
  function Relevant(s: string): string {
    if s == "" then "" else (if InAlphabet(s[0]) then [s[0]] else "") + Relevant(s[1..])
  }

  /** Lenient decoding skips every other character; strict decoding takes none. */
  lemma {:induction false} LenientSkips(s: string, p: Place)
    requires IsPlace(p)
    ensures Scan(s, false, p) == Scan(Relevant(s), false, p)
    decreases |s|
  {
    if s == "" {
    } else if !InAlphabet(s[0]) {
      LenientSkips(s[1..], p);
      assert Relevant(s) == Relevant(s[1..]);
    } else {
      var t := Relevant(s);
      assert t[0] == s[0] && t[1..] == Relevant(s[1..]);
      if s[0] == '=' {
        if p.quad >= 2 && p.quad + p.pads + 1 >= 4 {
        } else {
          LenientSkips(s[1..], p.(pads := if p.quad >= 2 then p.pads + 1 else p.pads, padded := true));
        }
      } else {
        LenientSkips(s[1..], Advance(p, DecodeChar(s[0]).value));
      }
    }
  }

  // ---- What the decoder takes ----

  /** The value of four characters, as 24 bits. */
  function Value4(v0: sextet, v1: sextet, v2: sextet, v3: sextet): int { v0 * 262144 + v1 * 4096 + v2 * 64 + v3 }

  lemma Bytes24(x: byte, y: byte, z: byte)
    ensures var n := x * 65536 + y * 256 + z; n / 65536 == x && n / 256 % 256 == y && n % 256 == z
  {
    var n := x * 65536 + y * 256 + z;
    assert n / 256 == x * 256 + y;
  }

  /** The three bytes of four characters, and the characters of the bytes. */
  lemma FourBytes(v0: sextet, v1: sextet, v2: sextet, v3: sextet)
    ensures var x: byte, y: byte, z: byte := v0 * 4 + v1 / 16, v1 % 16 * 16 + v2 / 4, v2 % 4 * 64 + v3;
            && x * 65536 + y * 256 + z == Value4(v0, v1, v2, v3)
            && x / 4 == v0 && x % 4 * 16 + y / 16 == v1 && y % 16 * 4 + z / 64 == v2 && z % 64 == v3
  {
  }

  /** Four characters of the alphabet, whichever they are, decode to the three bytes of their 24 bits. */
  lemma {:induction false} DecodeFour(v0: sextet, v1: sextet, v2: sextet, v3: sextet, s: string, strict: bool)
    ensures var n := v0 * 262144 + v1 * 4096 + v2 * 64 + v3;
            && 0 <= n < 0x1000000
            && Scan([EncodeChar(v0), EncodeChar(v1), EncodeChar(v2), EncodeChar(v3)] + s, strict, OUTSET) ==
               Prepend([n / 65536, n / 256 % 256, n % 256], Scan(s, strict, OUTSET))
  {
    var x: byte, y: byte, z: byte := v0 * 4 + v1 / 16, v1 % 16 * 16 + v2 / 4, v2 % 4 * 64 + v3;
    FourBytes(v0, v1, v2, v3);
    Bytes24(x, y, z);
    ScanGroup(x, y, z, s, strict);
  }

  /** Two characters and padding decode to their first eight bits, whatever the others are. */
  lemma {:induction false} DecodeTwo(v0: sextet, v1: sextet, strict: bool)
    ensures Scan([EncodeChar(v0)] + ([EncodeChar(v1)] + "=="), strict, OUTSET) == Some([v0 * 4 + v1 / 16])
  {
    var p1 := Advance(OUTSET, v0);
    var end := [EncodeChar(v1)] + "==";
    ScanPadding(strict, Advance(p1, v1));
    ScanData(v1, "==", strict, p1);
    assert Emitted(p1, v1) + [] == [v0 * 4 + v1 / 16];
    assert Scan(end, strict, p1) == Some([v0 * 4 + v1 / 16]);
    ScanData(v0, end, strict, OUTSET);
    assert [] + [v0 * 4 + v1 / 16] == [v0 * 4 + v1 / 16];
  }

  /** Three characters and padding decode to their first sixteen. */
  lemma {:induction false} DecodeThree(v0: sextet, v1: sextet, v2: sextet, strict: bool)
    ensures Scan([EncodeChar(v0)] + ([EncodeChar(v1)] + ([EncodeChar(v2)] + "=")), strict, OUTSET) ==
            Some([v0 * 4 + v1 / 16, v1 % 16 * 16 + v2 / 4])
  {
    var p1 := Advance(OUTSET, v0);
    var p2 := Advance(p1, v1);
    var last := [EncodeChar(v2)] + "=";
    var end := [EncodeChar(v1)] + last;
    ScanPadding(strict, Advance(p2, v2));
    ScanData(v2, "=", strict, p2);
    assert Emitted(p2, v2) + [] == [v1 % 16 * 16 + v2 / 4];
    assert Scan(last, strict, p2) == Some([v1 % 16 * 16 + v2 / 4]);
    ScanData(v1, last, strict, p1);
    var two := [v0 * 4 + v1 / 16] + [v1 % 16 * 16 + v2 / 4];
    assert Scan(end, strict, p1) == Some(two);
    ScanData(v0, end, strict, OUTSET);
    assert [] + two == [v0 * 4 + v1 / 16, v1 % 16 * 16 + v2 / 4];
  }

  /** The length of the run of alphabet characters at the front. */
  function DataRun(s: string): (n: nat)
    ensures n <= |s| && (forall i :: 0 <= i < n ==> DecodeChar(s[i]).Some?)
    ensures n < |s| ==> DecodeChar(s[n]).None?
  {
    if s == "" || DecodeChar(s[0]).None? then 0 else 1 + DataRun(s[1..])
  }

  /** After one character of a group, padding completes nothing. */
  lemma {:induction false} PaddedTooSoon(s: string, p: Place)
    requires IsPlace(p) && p.quad == 1 && p.padded
    ensures Scan(s, true, p).None?
    decreases |s|
  {
    if s == "" {
    } else if s[0] == '=' {
      PaddedTooSoon(s[1..], p);
    }
  }

  /** The text is data and then at most two padding characters. */
  predicate PaddedData(s: string) {
    var rest := s[DataRun(s)..];
    rest == "" || rest == "=" || rest == "=="
  }

  lemma {:induction false} StrictFrom(s: string, p: Place)
    requires IsPlace(p) && !p.padded && p.pads == 0
    ensures Scan(s, true, p).Some? <==> PaddedData(s) && (p.quad + |s|) % 4 == 0
    decreases |s|
  {
    if s == "" {
    } else if s[0] == '=' {
      StrictFromPad(s, p);
    } else if DecodeChar(s[0]).Some? {
      StrictFrom(s[1..], Advance(p, DecodeChar(s[0]).value));
      MoreData(s);
      NextQuad(p, DecodeChar(s[0]).value, |s|);
    } else {
      assert s[DataRun(s)..] == s;
    }
  }

  lemma MoreData(s: string)
    requires s != "" && DecodeChar(s[0]).Some?
    ensures PaddedData(s) <==> PaddedData(s[1..])
  {
    assert s[DataRun(s)..] == s[1..][DataRun(s[1..])..];
  }

  lemma NextQuad(p: Place, v: sextet, n: nat)
    requires IsPlace(p) && n > 0
    ensures (Advance(p, v).quad + (n - 1)) % 4 == (p.quad + n) % 4
  {
  }

  lemma {:induction false} StrictFromPad(s: string, p: Place)
    requires IsPlace(p) && !p.padded && p.pads == 0 && s != "" && s[0] == '='
    ensures Scan(s, true, p).Some? <==> PaddedData(s) && (p.quad + |s|) % 4 == 0
  {
    PadsOnly(s);
    if p.quad == 1 {
      PaddedTooSoon(s[1..], p.(padded := true));
    } else if p.quad == 2 {
      SecondPad(s[1..], p.(pads := 1, padded := true));
    }
  }

  lemma PadsOnly(s: string)
    requires s != "" && s[0] == '='
    ensures PaddedData(s) <==> |s| == 1 || (|s| == 2 && s[1..] == "=")
  {
    assert DataRun(s) == 0 && s[0..] == s;
    if |s| == 1 {
      assert s == "=";
    } else if |s| == 2 && s[1] == '=' {
      assert s == "==" && s[1..] == "=";
    } else if |s| == 2 {
      assert s != "==" && s[1..][0] != '=';
    }
  }

  lemma {:induction false} SecondPad(s: string, p: Place)
    requires IsPlace(p) && p.quad == 2 && p.pads == 1 && p.padded
    ensures Scan(s, true, p).Some? <==> s == "="
  {
    if s != "" { assert s == [s[0]] + s[1..]; }
  }

  /** Strict decoding takes exactly the texts of the alphabet with at most two padding characters at the
      end, a multiple of four characters in all. */
  lemma {:induction false} StrictExactly(s: string)
    ensures Decode(s, true).Some? <==>
            |s| % 4 == 0
            && exists data, pads :: s == data + pads && IsData(data) && (pads == "" || pads == "=" || pads == "==")
  {
    StrictFrom(s, OUTSET);
    if Decode(s, true).Some? {
      var n := DataRun(s);
      assert s == s[..n] + s[n..] && IsData(s[..n]);
    }
    if data, pads :| s == data + pads && IsData(data) && (pads == "" || pads == "=" || pads == "==") {
      RunIsData(data, pads);
      DataIsAscii(data, pads);
    }
  }

  predicate IsData(s: string) { forall i :: 0 <= i < |s| ==> DecodeChar(s[i]).Some? }

  lemma {:induction false} RunIsData(data: string, pads: string)
    requires IsData(data) && (pads == "" || pads == "=" || pads == "==")
    ensures (data + pads)[DataRun(data + pads)..] == pads
  {
    var s := data + pads;
    assert forall i :: 0 <= i < |data| ==> s[i] == data[i];
    assert pads != "" ==> s[|data|] == pads[0] == '=' && DecodeChar('=').None?;
  }

  lemma DataIsAscii(data: string, pads: string)
    requires IsData(data) && (pads == "" || pads == "=" || pads == "==")
    ensures IsAscii(data + pads)
  {
    forall c | c in data + pads ensures c < '\U{80}' {
      if c in data { assert DecodeChar(c).Some?; }
    }
  }
}
