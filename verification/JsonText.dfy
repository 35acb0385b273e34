/** JSON texts (RFC 8259) as the `json` module prints and parses them: `Print` is `dumps` with
    its default separators and ASCII escapes, `Loads` is `loads`. */
module JsonText {
  import opened Prelude
  import opened Text

  /** A number keeps its lexeme; a `Constant` is one of the three that are no numbers. */
  datatype Json =
    | Null | Bool(b: bool) | Num(lexeme: string) | Constant(name: string)
    | Str(text: Text) | Arr(items: Items) | Obj(members: Members)

  datatype Items = NoItems | Item(head: Json, tail: Items)

  datatype Members = NoMembers | Member(key: Text, value: Json, rest: Members)

  /** What the interpreter allows: how deep containers may nest before it raises RecursionError, how
      many digits an integer may have before it raises ValueError, and the power of two below which a
      float is read as zero. */
  datatype Limits = Limits(depth: nat, digits: nat, tiny: nat) {
    function Inside(): Limits
      requires depth > 0
    {
      this.(depth := depth - 1)
    }
  }

  // ---- Printing ----

  function HexDigit(n: nat): char
    requires n < 16
  {
    if n < 10 then '0' + n as char else 'a' + (n - 10) as char
  }

  function Hex4(n: nat): string
    requires n < 0x10000
  {
    [HexDigit(n / 4096), HexDigit(n / 256 % 16), HexDigit(n / 16 % 16), HexDigit(n % 16)]
  }

  /** The letter of a two-character escape. */
  function ShortEscape(p: Point): Option<char> {
    match p
    case 0x22 => Some('"')
    case 0x5C => Some('\\')
    case 0x0A => Some('n')
    case 0x0D => Some('r')
    case 0x09 => Some('t')
    case 0x08 => Some('b')
    case 0x0C => Some('f')
    case _ => None
  }

  /** What follows `\u`: one code unit, or a surrogate pair. */
  function UnicodeBody(p: Point): string {
    if p < 0x10000 then Hex4(p) else PairBody(Surrogates(p).0, Surrogates(p).1)
  }

  /** The surrogate pair of a code point past the first plane. */
  function Surrogates(n: int): (pair: (nat, nat))
    requires 0x10000 <= n < 0x110000
    ensures 0xD800 <= pair.0 < 0xDC00 && 0xDC00 <= pair.1 < 0xE000
    ensures 0x10000 + (pair.0 - 0xD800) * 1024 + (pair.1 - 0xDC00) == n
  {
    (0xD800 + (n - 0x10000) / 1024, 0xDC00 + (n - 0x10000) % 1024)
  }

  function PairBody(high: nat, low: nat): string
    requires high < 0x10000 && low < 0x10000
  {
    Hex4(high) + ("\\u" + Hex4(low))
  }

  function Escape(p: Point): string {
    if ShortEscape(p).Some? then ['\\', ShortEscape(p).value]
    else if 0x20 <= p <= 0x7E then [p as char] else "\\u" + UnicodeBody(p)
  }

  function EscapeAll(t: Text): string {
    if t == [] then "" else Escape(t[0]) + EscapeAll(t[1..])
  }

  function Quote(t: Text): string { "\"" + EscapeAll(t) + "\"" }

  function Print(v: Json): string {
    match v
    case Null => "null"
    case Bool(b) => if b then "true" else "false"
    case Num(lexeme) => lexeme
    case Constant(name) => name
    case Str(text) => Quote(text)
    case Arr(items) => "[" + (if items.NoItems? then "" else PrintItems(items)) + "]"
    case Obj(members) => "{" + (if members.NoMembers? then "" else PrintMembers(members)) + "}"
  }

  function PrintItems(items: Items): string
    requires items.Item?
  {
    Print(items.head) + if items.tail.NoItems? then "" else ", " + PrintItems(items.tail)
  }

  function PrintMembers(ms: Members): string
    requires ms.Member?
  {
    Quote(ms.key) + ": " + Print(ms.value) + if ms.rest.NoMembers? then "" else ", " + PrintMembers(ms.rest)
  }

  // ---- Parsing ----

  /** What was read, and the text after it. */
  datatype Parsed<+T> = Parsed(value: T, rest: string)

  predicate IsJsonSpace(c: char) { c == ' ' || c == '\t' || c == '\n' || c == '\r' }

  function SkipSpace(s: string): (r: string)
    ensures |r| <= |s|
  {
    if s != "" && IsJsonSpace(s[0]) then SkipSpace(s[1..]) else s
  }

  function HexValue(c: char): Option<nat> {
    if '0' <= c <= '9' then Some(c as int - '0' as int)
    else if 'a' <= c <= 'f' then Some(c as int - 'a' as int + 10)
    else if 'A' <= c <= 'F' then Some(c as int - 'A' as int + 10) else None
  }

  /** The code unit of the four hexadecimal digits at the front. */
  function ParseHex4(s: string): (r: Option<nat>)
    ensures r.Some? ==> |s| >= 4 && r.value < 0x10000
  {
    if |s| < 4 || HexValue(s[0]).None? || HexValue(s[1]).None? || HexValue(s[2]).None? || HexValue(s[3]).None? then None
    else
      HexBound(s[0]); HexBound(s[1]); HexBound(s[2]); HexBound(s[3]);
      Some(HexValue(s[0]).value * 4096 + HexValue(s[1]).value * 256 + HexValue(s[2]).value * 16 + HexValue(s[3]).value)
  }

  lemma HexBound(c: char)
    ensures HexValue(c).Some? ==> HexValue(c).value < 16
  {
  }

  /** The text goes on with the escape of a low surrogate. */
  predicate LowNext(s: string) {
    |s| >= 2 && s[..2] == "\\u" && ParseHex4(s[2..]).Some? && IsLow(ParseHex4(s[2..]).value)
  }

  /** The code point after `\u`: a surrogate pair, or one code unit, which may be a surrogate that
      pairs with nothing. */
  function ParseUnicode(s: string): (r: Option<Parsed<Point>>)
    ensures r.Some? ==> |r.value.rest| < |s|
  {
    match ParseHex4(s)
    case None => None
    case Some(unit) =>
      if IsHigh(unit) && LowNext(s[4..])
      then Some(Parsed(0x10000 + (unit - 0xD800) * 1024 + (ParseHex4(s[4..][2..]).value - 0xDC00), s[10..]))
      else Some(Parsed(unit, s[4..]))
  }

  function ParseEscape(s: string): (r: Option<Parsed<Point>>)
    ensures r.Some? ==> |r.value.rest| < |s|
  {
    if s == "" then None
    else
      var rest := s[1..];
      if s[0] == '"' || s[0] == '\\' || s[0] == '/' then Some(Parsed(s[0] as int, rest))
      else if s[0] == 'n' then Some(Parsed(0x0A, rest))
      else if s[0] == 'r' then Some(Parsed(0x0D, rest))
      else if s[0] == 't' then Some(Parsed(0x09, rest))
      else if s[0] == 'b' then Some(Parsed(0x08, rest))
      else if s[0] == 'f' then Some(Parsed(0x0C, rest))
      else if s[0] == 'u' then ParseUnicode(rest) else None
  }

  /** One character of a string. */
  function ParseChar(s: string): (r: Option<Parsed<Point>>)
    ensures r.Some? ==> |r.value.rest| < |s|
  {
    if s == "" || s[0] == '"' || s[0] < ' ' then None
    else if s[0] == '\\' then ParseEscape(s[1..])
    else Some(Parsed(s[0] as int, s[1..]))
  }

  /** A string, from after its opening quote to past its closing one. */
  function ParseText(s: string): (r: Option<Parsed<Text>>)
    ensures r.Some? ==> |r.value.rest| < |s|
    decreases |s|
  {
    if s != "" && s[0] == '"' then Some(Parsed([], s[1..]))
    else
      match ParseChar(s)
      case None => None
      case Some(first) =>
        match ParseText(first.rest)
        case None => None
        case Some(more) => Some(Parsed([first.value] + more.value, more.rest))
  }

  predicate IsDigit(c: char) { '0' <= c <= '9' }

  predicate IsNumberChar(c: char) { IsDigit(c) || c == '-' || c == '+' || c == '.' || c == 'e' || c == 'E' }

  /** The length of the run of digits at the front. */
  function DigitRun(s: string): (n: nat)
    ensures n <= |s|
  {
    if s != "" && IsDigit(s[0]) then 1 + DigitRun(s[1..]) else 0
  }

  function DropExponent(s: string): string {
    if s != "" && (s[0] == 'e' || s[0] == 'E') then
      var t := if |s| > 1 && (s[1] == '+' || s[1] == '-') then s[2..] else s[1..];
      if DigitRun(t) > 0 then t[DigitRun(t)..] else s
    else s
  }

  function DropFraction(s: string): string {
    if s != "" && s[0] == '.' && DigitRun(s[1..]) > 0 then s[1..][DigitRun(s[1..])..] else s
  }

  /** The number grammar: minus, integer without leading zeros, fraction, exponent. */
  predicate IsNumber(s: string) {
    var t := if s != "" && s[0] == '-' then s[1..] else s;
    var n := DigitRun(t);
    n > 0 && (t[0] == '0' ==> n == 1) && DropExponent(DropFraction(t[n..])) == ""
  }

  /** The longest run of number characters at the front. */
  function NumberRun(s: string): (n: nat)
    ensures n <= |s|
    ensures n > 0 <==> s != "" && IsNumberChar(s[0])
  {
    if s != "" && IsNumberChar(s[0]) then 1 + NumberRun(s[1..]) else 0
  }

  predicate StartsWith(s: string, p: string) { |p| <= |s| && s[..|p|] == p }

  /** The number has no fraction, no exponent and more digits than `int` takes. */
  predicate TooLong(lexeme: string, digits: nat) {
    (forall i :: 0 <= i < |lexeme| ==> IsDigit(lexeme[i]) || lexeme[i] == '-')
    && |lexeme| - (if lexeme != "" && lexeme[0] == '-' then 1 else 0) > digits
  }

  /** What reading gives: a value and the text after it, a ValueError, or a RecursionError. */
  datatype Reading<+T> = Got(value: T, rest: string) | Malformed | TooDeep

  function ParseValue(s: string, lim: Limits): (r: Reading<Json>)
    ensures r.Got? ==> |r.rest| < |s|
    decreases |s|, 0
  {
    if s == "" then Malformed
    else if s[0] == '"' then
      match ParseText(s[1..])
      case None => Malformed
      case Some(p) => Got(Str(p.value), p.rest)
    else if s[0] == '[' then
      if lim.depth == 0 then TooDeep
      else
        var t := SkipSpace(s[1..]);
        if t != "" && t[0] == ']' then Got(Arr(NoItems), t[1..])
        else
          match ParseItems(t, lim.Inside())
          case Got(items, rest) => Got(Arr(items), rest)
          case Malformed => Malformed
          case TooDeep => TooDeep
    else if s[0] == '{' then
      if lim.depth == 0 then TooDeep
      else
        var t := SkipSpace(s[1..]);
        if t != "" && t[0] == '}' then Got(Obj(NoMembers), t[1..])
        else
          match ParseMembers(t, lim.Inside())
          case Got(members, rest) => Got(Obj(members), rest)
          case Malformed => Malformed
          case TooDeep => TooDeep
    else if StartsWith(s, "null") then Got(Null, s[4..])
    else if StartsWith(s, "true") then Got(Bool(true), s[4..])
    else if StartsWith(s, "false") then Got(Bool(false), s[5..])
    else if StartsWith(s, "NaN") then Got(Constant("NaN"), s[3..])
    else if StartsWith(s, "Infinity") then Got(Constant("Infinity"), s[8..])
    else if StartsWith(s, "-Infinity") then Got(Constant("-Infinity"), s[9..])
    else
      var n := NumberRun(s);
      if n > 0 && IsNumber(s[..n]) && !TooLong(s[..n], lim.digits) then Got(Num(s[..n]), s[n..]) else Malformed
  }

  /** One or more items, up to and past the closing bracket. */
  function ParseItems(s: string, lim: Limits): (r: Reading<Items>)
    ensures r.Got? ==> |r.rest| < |s|
    decreases |s|, 1
  {
    match ParseValue(s, lim)
    case Malformed => Malformed
    case TooDeep => TooDeep
    case Got(head, rest) =>
      var t := SkipSpace(rest);
      if t == "" then Malformed
      else if t[0] == ']' then Got(Item(head, NoItems), t[1..])
      else if t[0] != ',' then Malformed
      else
        match ParseItems(SkipSpace(t[1..]), lim)
        case Malformed => Malformed
        case TooDeep => TooDeep
        case Got(tail, end) => Got(Item(head, tail), end)
  }

  /** One or more members, up to and past the closing brace. */
  function ParseMembers(s: string, lim: Limits): (r: Reading<Members>)
    ensures r.Got? ==> |r.rest| < |s|
    decreases |s|, 1
  {
    match ParseKey(s)
    case None => Malformed
    case Some(key) =>
      match ParseValue(key.rest, lim)
      case Malformed => Malformed
      case TooDeep => TooDeep
      case Got(value, rest) =>
        var t := SkipSpace(rest);
        if t == "" then Malformed
        else if t[0] == '}' then Got(Member(key.value, value, NoMembers), t[1..])
        else if t[0] != ',' then Malformed
        else
          match ParseMembers(SkipSpace(t[1..]), lim)
          case Malformed => Malformed
          case TooDeep => TooDeep
          case Got(more, end) => Got(Member(key.value, value, more), end)
  }

  /** A quoted key, the colon after it and the space around that. */
  function ParseKey(s: string): (r: Option<Parsed<Text>>)
    ensures r.Some? ==> |r.value.rest| < |s|
  {
    if s == "" || s[0] != '"' then None
    else
      match ParseText(s[1..])
      case None => None
      case Some(key) =>
        var t := SkipSpace(key.rest);
        if t == "" || t[0] != ':' then None else Some(Parsed(key.value, SkipSpace(t[1..])))
  }

  /** What `json.loads` gives: a value, a ValueError, or a RecursionError. */
  datatype Loaded = Value(value: Json) | Rejected | Overflow

  function Loads(s: string, lim: Limits): Loaded {
    match ParseValue(SkipSpace(s), lim)
    case Malformed => Rejected
    case TooDeep => Overflow
    case Got(value, rest) => if SkipSpace(rest) == "" then Value(value) else Rejected
  }

  // ---- Parsing undoes printing ----

  /** No high surrogate is followed by a low one: the two would be one character once printed. */
  predicate Unsplit(t: Text) {
    |t| < 2 || (!(IsHigh(t[0]) && IsLow(t[1])) && Unsplit(t[1..]))
  }

  /** The value is one loading can give: within the limits, with numbers that are numbers, and no
      surrogate pair left in two halves. */
  predicate WellFormed(v: Json, lim: Limits) {
    match v
    case Num(lexeme) => IsNumber(lexeme) && !TooLong(lexeme, lim.digits)
    case Str(text) => Unsplit(text)
    case Constant(name) => name == "NaN" || name == "Infinity" || name == "-Infinity"
    case Arr(items) => lim.depth > 0 && WellFormedItems(items, lim.Inside())
    case Obj(members) => lim.depth > 0 && WellFormedMembers(members, lim.Inside())
    case _ => true
  }

  predicate WellFormedItems(items: Items, lim: Limits) {
    items.Item? ==> WellFormed(items.head, lim) && WellFormedItems(items.tail, lim)
  }

  predicate WellFormedMembers(ms: Members, lim: Limits) {
    ms.Member? ==> Unsplit(ms.key) && WellFormed(ms.value, lim) && WellFormedMembers(ms.rest, lim)
  }

  lemma Hex4RoundTrip(n: nat, t: string)
    requires n < 0x10000
    ensures ParseHex4(Hex4(n) + t) == Some(n)
  {
    HexSplit(n);
    var s := Hex4(n) + t;
    HexDigitRoundTrip(n / 4096);
    HexDigitRoundTrip(n / 256 % 16);
    HexDigitRoundTrip(n / 16 % 16);
    HexDigitRoundTrip(n % 16);
    assert s[0] == HexDigit(n / 4096) && s[1] == HexDigit(n / 256 % 16);
    assert s[2] == HexDigit(n / 16 % 16) && s[3] == HexDigit(n % 16);
  }

  lemma HexDigitRoundTrip(d: nat)
    requires d < 16
    ensures HexValue(HexDigit(d)) == Some(d)
  {
  }

  lemma HexSplit(n: nat)
    requires n < 0x10000
    ensures n / 4096 < 16 && n / 4096 * 4096 + n / 256 % 16 * 256 + n / 16 % 16 * 16 + n % 16 == n
  {
    assert n / 256 == n / 16 / 16 && n / 4096 == n / 16 / 16 / 16;
  }

  lemma PairRoundTrip(high: nat, low: nat, p: Point, t: string)
    requires IsHigh(high) && IsLow(low) && p == 0x10000 + (high - 0xD800) * 1024 + (low - 0xDC00)
    ensures ParseUnicode(PairBody(high, low) + t) == Some(Parsed(p, t))
  {
    var end := "\\u" + (Hex4(low) + t);
    var s := Hex4(high) + end;
    Hex4RoundTrip(high, end);
    Hex4RoundTrip(low, t);
    assert s[4..] == end && end[..2] == "\\u" && end[2..] == Hex4(low) + t;
    assert s[10..] == t;
    assert PairBody(high, low) + t == s;
  }

  lemma OneUnitRoundTrip(p: Point, t: string)
    requires p < 0x10000 && (IsHigh(p) ==> !LowNext(t))
    ensures ParseUnicode(Hex4(p) + t) == Some(Parsed(p, t))
  {
    Hex4RoundTrip(p, t);
    assert (Hex4(p) + t)[4..] == t;
  }

  lemma UnicodeRoundTrip(p: Point, t: string)
    requires IsHigh(p) ==> !LowNext(t)
    ensures ParseUnicode(UnicodeBody(p) + t) == Some(Parsed(p, t))
  {
    if p < 0x10000 {
      OneUnitRoundTrip(p, t);
      assert UnicodeBody(p) == Hex4(p);
    } else {
      var pair := Surrogates(p);
      PairRoundTrip(pair.0, pair.1, p, t);
      assert UnicodeBody(p) == PairBody(pair.0, pair.1);
    }
  }

  lemma Peel(h: char, t: string)
    ensures ([h] + t)[0] == h && ([h] + t)[1..] == t
  {
  }

  lemma RegroupEscape(e: char, b: string, m: string, t: string)
    ensures ['\\', e] + t == ['\\'] + ([e] + t)
    ensures ("\\u" + b) + t == ['\\'] + (['u'] + (b + t))
    ensures (b + m) + "\"" + t == b + (m + "\"" + t)
  {
  }

  lemma EscapeRoundTrip(p: Point, t: string)
    requires ShortEscape(p).Some?
    ensures ParseEscape([ShortEscape(p).value] + t) == Some(Parsed(p, t))
  {
    Peel(ShortEscape(p).value, t);
  }

  lemma CharRoundTrip(p: Point, t: string)
    requires IsHigh(p) ==> !LowNext(t)
    ensures ParseChar(Escape(p) + t) == Some(Parsed(p, t)) && (Escape(p) + t)[0] != '"'
  {
    if ShortEscape(p).Some? {
      var e := ShortEscape(p).value;
      RegroupEscape(e, "", "", t);
      EscapeRoundTrip(p, t);
      Peel('\\', [e] + t);
    } else if 0x20 <= p <= 0x7E {
      Peel(p as char, t);
    } else {
      var body := UnicodeBody(p) + t;
      RegroupEscape('u', UnicodeBody(p), "", t);
      UnicodeRoundTrip(p, t);
      Peel('u', body);
      Peel('\\', ['u'] + body);
    }
  }

  /** An escaped character that is no low surrogate does not read as one. */
  lemma EscapeNotLow(p: Point, t: string)
    requires !IsLow(p)
    ensures !LowNext(Escape(p) + t)
  {
    var s := Escape(p) + t;
    if ShortEscape(p).Some? {
      assert s[..2] == Escape(p);
      assert Escape(p)[1] != 'u' && "\\u"[1] == 'u';
    } else if 0x20 <= p <= 0x7E {
      assert s[0] == p as char != '\\' && "\\u"[0] == '\\';
    } else {
      assert s[2..] == UnicodeBody(p) + t;
      UnitOf(p, t);
    }
  }

  /** The first code unit an escaped character reads as. */
  lemma UnitOf(p: Point, t: string)
    ensures ParseHex4(UnicodeBody(p) + t) == Some(if p < 0x10000 then p else Surrogates(p).0)
  {
    if p < 0x10000 {
      Hex4RoundTrip(p, t);
    } else {
      var high, low := Surrogates(p).0, Surrogates(p).1;
      Hex4RoundTrip(high, "\\u" + Hex4(low) + t);
      assert UnicodeBody(p) + t == Hex4(high) + ("\\u" + Hex4(low) + t);
    }
  }

  /** Reading one character and then the rest of the string. */
  lemma {:induction false} TextStep(s: string, p: Point, more: string, text: Text, t: string)
    requires s != "" && s[0] != '"' && ParseChar(s) == Some(Parsed(p, more)) && ParseText(more) == Some(Parsed(text, t))
    ensures ParseText(s) == Some(Parsed([p] + text, t))
  {
  }

  lemma {:induction false} NoMoreText(t: string)
    ensures ParseText(EscapeAll([]) + "\"" + t) == Some(Parsed([], t))
  {
    Peel('"', t);
    assert EscapeAll([]) + "\"" + t == ['"'] + t;
  }

  lemma {:induction false} OneMorePoint(text: Text, t: string)
    requires Unsplit(text) && text != []
    requires ParseText(EscapeAll(text[1..]) + "\"" + t) == Some(Parsed(text[1..], t))
    ensures ParseText(EscapeAll(text) + "\"" + t) == Some(Parsed([text[0]] + text[1..], t))
  {
    var more := EscapeAll(text[1..]) + "\"" + t;
    RegroupEscape('u', Escape(text[0]), EscapeAll(text[1..]), t);
    RestNotLow(text, t);
    CharRoundTrip(text[0], more);
    TextStep(Escape(text[0]) + more, text[0], more, text[1..], t);
  }

  lemma {:induction false} TextRoundTrip(text: Text, t: string)
    requires Unsplit(text)
    ensures ParseText(EscapeAll(text) + "\"" + t) == Some(Parsed(text, t))
    decreases |text|
  {
    if |text| == 0 {
      NoMoreText(t);
    } else {
      TextRoundTrip(text[1..], t);
      OneMorePoint(text, t);
      assert text == [text[0]] + text[1..];
    }
  }

  /** After a high surrogate of an unsplit text comes no low one. */
  lemma {:induction false} RestNotLow(text: Text, t: string)
    requires Unsplit(text) && text != []
    ensures IsHigh(text[0]) ==> !LowNext(EscapeAll(text[1..]) + "\"" + t)
  {
    var rest := text[1..];
    if rest == [] {
      assert (EscapeAll(rest) + "\"" + t)[0] == '"' && "\\u"[0] == '\\';
    } else if IsHigh(text[0]) {
      EscapeNotLow(rest[0], EscapeAll(rest[1..]) + "\"" + t);
      RegroupEscape('u', Escape(rest[0]), EscapeAll(rest[1..]), t);
    }
  }

  lemma {:induction false} DigitRunIsNumber(s: string)
    ensures forall i :: 0 <= i < DigitRun(s) ==> IsDigit(s[i])
  {
    if s != "" && IsDigit(s[0]) {
      DigitRunIsNumber(s[1..]);
    }
  }

  predicate AllNumberChars(s: string) { forall i :: 0 <= i < |s| ==> IsNumberChar(s[i]) }

  lemma AllConcat(s: string, n: nat)
    requires n <= |s| && AllNumberChars(s[..n]) && AllNumberChars(s[n..])
    ensures AllNumberChars(s)
  {
    assert s == s[..n] + s[n..];
  }

  lemma {:induction false} DigitsThen(s: string)
    requires AllNumberChars(s[DigitRun(s)..])
    ensures AllNumberChars(s)
  {
    DigitRunIsNumber(s);
    AllConcat(s, DigitRun(s));
  }

  /** A number is all number characters. */
  lemma NumberChars(s: string)
    requires IsNumber(s)
    ensures s != "" && AllNumberChars(s)
  {
    var t := if s != "" && s[0] == '-' then s[1..] else s;
    FractionChars(t[DigitRun(t)..]);
    DigitsThen(t);
    if t != s { AllConcat(s, 1); }
  }

  lemma FractionChars(s: string)
    requires DropExponent(DropFraction(s)) == ""
    ensures AllNumberChars(s)
  {
    ExponentChars(DropFraction(s));
    if s != "" && s[0] == '.' && DigitRun(s[1..]) > 0 {
      DigitsThen(s[1..]);
      AllConcat(s, 1);
    }
  }

  lemma ExponentChars(s: string)
    requires DropExponent(s) == ""
    ensures AllNumberChars(s)
  {
    if s != "" {
      var signed := |s| > 1 && (s[1] == '+' || s[1] == '-');
      var t := if signed then s[2..] else s[1..];
      DigitsThen(t);
      AllConcat(s, if signed then 2 else 1);
    }
  }

  lemma {:induction false} NumberRunStops(s: string, t: string)
    requires AllNumberChars(s)
    requires t == "" || !IsNumberChar(t[0])
    ensures NumberRun(s + t) == |s|
    decreases |s|
  {
    if s == "" {
      assert s + t == t;
    } else {
      assert (s + t)[1..] == s[1..] + t;
      NumberRunStops(s[1..], t);
    }
  }

  /** A value's text starts with no space and with no closing mark. */
  lemma {:induction false} FirstChar(v: Json, lim: Limits)
    requires WellFormed(v, lim)
    ensures Print(v) != "" && !IsJsonSpace(Print(v)[0]) && Print(v)[0] != ']' && Print(v)[0] != '}'
  {
    if v.Num? { NumberChars(v.lexeme); }
  }

  lemma {:induction false} SpaceSkipped(s: string)
    requires s == "" || !IsJsonSpace(s[0])
    ensures SkipSpace(s) == s && SkipSpace([' '] + s) == s
  {
    Peel(' ', s);
  }

  // How the parser goes on from each point of a printed value.

  lemma {:induction false} ItemsEnd(s: string, head: Json, t: string, lim: Limits)
    requires ParseValue(s, lim) == Got(head, [']'] + t)
    ensures ParseItems(s, lim) == Got(Item(head, NoItems), t)
  {
    Peel(']', t);
    SpaceSkipped([']'] + t);
  }

  lemma {:induction false} ItemsGoOn(s: string, head: Json, more: string, tail: Items, t: string, lim: Limits)
    requires ParseValue(s, lim) == Got(head, [','] + ([' '] + more))
    requires more != "" && !IsJsonSpace(more[0]) && ParseItems(more, lim) == Got(tail, t)
    ensures ParseItems(s, lim) == Got(Item(head, tail), t)
  {
    Peel(',', [' '] + more);
    SpaceSkipped([','] + ([' '] + more));
    SpaceSkipped(more);
  }

  lemma {:induction false} MembersEnd(s: string, key: Text, u: string, value: Json, t: string, lim: Limits)
    requires ParseKey(s) == Some(Parsed(key, u)) && ParseValue(u, lim) == Got(value, ['}'] + t)
    ensures ParseMembers(s, lim) == Got(Member(key, value, NoMembers), t)
  {
    Peel('}', t);
    SpaceSkipped(['}'] + t);
  }

  lemma {:induction false} MembersGoOn(s: string, key: Text, u: string, value: Json, more: string, rest: Members,
                                       t: string, lim: Limits)
    requires ParseKey(s) == Some(Parsed(key, u)) && ParseValue(u, lim) == Got(value, [','] + ([' '] + more))
    requires more != "" && !IsJsonSpace(more[0]) && ParseMembers(more, lim) == Got(rest, t)
    ensures ParseMembers(s, lim) == Got(Member(key, value, rest), t)
  {
    Peel(',', [' '] + more);
    SpaceSkipped([','] + ([' '] + more));
    SpaceSkipped(more);
  }

  lemma {:induction false} KeyStep(s: string, key: Text, value: string)
    requires ParseText(s) == Some(Parsed(key, [':'] + ([' '] + value))) && value != "" && !IsJsonSpace(value[0])
    ensures ParseKey(['"'] + s) == Some(Parsed(key, value))
  {
    Peel('"', s);
    Peel(':', [' '] + value);
    SpaceSkipped([':'] + ([' '] + value));
    SpaceSkipped(value);
  }

  lemma {:induction false} ArrayStep(s: string, items: Items, t: string, lim: Limits)
    requires s != "" && !IsJsonSpace(s[0]) && lim.depth > 0
    requires if s[0] == ']' then items == NoItems && t == s[1..] else ParseItems(s, lim.Inside()) == Got(items, t)
    ensures ParseValue(['['] + s, lim) == Got(Arr(items), t)
  {
    Peel('[', s);
    SpaceSkipped(s);
  }

  lemma {:induction false} ObjectStep(s: string, members: Members, t: string, lim: Limits)
    requires s != "" && !IsJsonSpace(s[0]) && lim.depth > 0
    requires if s[0] == '}' then members == NoMembers && t == s[1..]
             else ParseMembers(s, lim.Inside()) == Got(members, t)
    ensures ParseValue(['{'] + s, lim) == Got(Obj(members), t)
  {
    Peel('{', s);
    SpaceSkipped(s);
  }

  lemma {:induction false} ScalarParses(v: Json, t: string, lim: Limits)
    requires WellFormed(v, lim) && (t == "" || !IsNumberChar(t[0]))
    requires v.Null? || v.Bool? || v.Num? || v.Constant?
    ensures ParseValue(Print(v) + t, lim) == Got(v, t)
  {
    if v.Num? {
      NumberParses(v.lexeme, t, lim);
    } else {
      WordParses(v, t, lim);
    }
  }

  lemma {:induction false} WordParses(v: Json, t: string, lim: Limits)
    requires WellFormed(v, lim) && (v.Null? || v.Bool? || v.Constant?)
    ensures ParseValue(Print(v) + t, lim) == Got(v, t)
  {
    var s, n := Print(v) + t, |Print(v)|;
    assert s[..n] == Print(v) && s[n..] == t;
    assert s[0] == Print(v)[0];
    Initials();
  }

  lemma Initials()
    ensures "null"[0] == 'n' && "true"[0] == 't' && "false"[0] == 'f' && "NaN"[0] == 'N'
    ensures "Infinity"[0] == 'I' && "-Infinity"[0] == '-' && "-Infinity"[1] == 'I'
  {
  }

  lemma {:induction false} NumberParses(lexeme: string, t: string, lim: Limits)
    requires IsNumber(lexeme) && !TooLong(lexeme, lim.digits) && (t == "" || !IsNumberChar(t[0]))
    ensures ParseValue(lexeme + t, lim) == Got(Num(lexeme), t)
  {
    var s, n := lexeme + t, |lexeme|;
    NumberChars(lexeme);
    NumberRunStops(lexeme, t);
    assert s[..n] == lexeme && s[n..] == t;
    assert IsNumberChar(s[0]) && (n > 1 ==> IsNumberChar(s[1]));
    NoWord(s);
    if n == 1 { assert lexeme != "-"; }
  }

  /** A text that starts with a digit, or with a minus and no capital I, starts none of the words. */
  lemma NoWord(s: string)
    requires s != "" && IsNumberChar(s[0])
    requires s[0] == '-' ==> |s| == 1 || s[1] != 'I'
    ensures !StartsWith(s, "null") && !StartsWith(s, "true") && !StartsWith(s, "false")
    ensures !StartsWith(s, "NaN") && !StartsWith(s, "Infinity") && !StartsWith(s, "-Infinity")
  {
    Initials();
  }

  // Regrouping printed text, whatever the pieces are.

  lemma RegroupQuoted(p: string, t: string)
    ensures ("\"" + p + "\"") + t == ['"'] + (p + "\"" + t)
  {
  }

  lemma RegroupBracketed(p: string, t: string)
    ensures ("[" + p + "]") + t == ['['] + (p + "]" + t)
    ensures ("{" + p + "}") + t == ['{'] + (p + "}" + t)
  {
  }

  lemma RegroupLast(p: string, t: string)
    ensures p + "" + "]" + t == p + ([']'] + t) && p + "" + "}" + t == p + (['}'] + t)
  {
  }

  lemma RegroupMore(p: string, q: string, t: string)
    ensures (p + (", " + q)) + "]" + t == p + ([','] + ([' '] + (q + "]" + t)))
    ensures (p + (", " + q)) + "}" + t == p + ([','] + ([' '] + (q + "}" + t)))
  {
  }

  lemma RegroupKey(k: string, p: string, end: string)
    ensures ("\"" + k + "\"") + ": " + p + end == ['"'] + (k + "\"" + ([':'] + ([' '] + (p + end))))
  {
  }

  lemma {:induction false} StringParses(text: Text, t: string, lim: Limits)
    requires Unsplit(text)
    ensures ParseValue(Quote(text) + t, lim) == Got(Str(text), t)
  {
    var s := EscapeAll(text) + "\"" + t;
    RegroupQuoted(EscapeAll(text), t);
    TextRoundTrip(text, t);
    Peel('"', s);
  }

  lemma {:induction false} ArrayParses(items: Items, t: string, lim: Limits)
    requires items.Item? && lim.depth > 0 && WellFormedItems(items, lim.Inside())
    requires ParseItems(PrintItems(items) + "]" + t, lim.Inside()) == Got(items, t)
    ensures ParseValue(Print(Arr(items)) + t, lim) == Got(Arr(items), t)
  {
    var s := PrintItems(items) + "]" + t;
    RegroupBracketed(PrintItems(items), t);
    FirstChar(items.head, lim.Inside());
    assert s[0] == Print(items.head)[0];
    ArrayStep(s, items, t, lim);
  }

  lemma {:induction false} ObjectParses(ms: Members, t: string, lim: Limits)
    requires ms.Member? && lim.depth > 0 && WellFormedMembers(ms, lim.Inside())
    requires ParseMembers(PrintMembers(ms) + "}" + t, lim.Inside()) == Got(ms, t)
    ensures ParseValue(Print(Obj(ms)) + t, lim) == Got(Obj(ms), t)
  {
    var s := PrintMembers(ms) + "}" + t;
    RegroupBracketed(PrintMembers(ms), t);
    assert s[0] == '"';
    ObjectStep(s, ms, t, lim);
  }

  lemma {:induction false} EmptyParses(t: string, lim: Limits)
    requires lim.depth > 0
    ensures ParseValue(Print(Arr(NoItems)) + t, lim) == Got(Arr(NoItems), t)
    ensures ParseValue(Print(Obj(NoMembers)) + t, lim) == Got(Obj(NoMembers), t)
  {
    assert Print(Arr(NoItems)) + t == ['['] + ([']'] + t);
    assert Print(Obj(NoMembers)) + t == ['{'] + (['}'] + t);
    Peel(']', t);
    Peel('}', t);
    ArrayStep([']'] + t, NoItems, t, lim);
    ObjectStep(['}'] + t, NoMembers, t, lim);
  }

  lemma {:induction false} PrintParses(v: Json, t: string, lim: Limits)
    requires WellFormed(v, lim) && (t == "" || !IsNumberChar(t[0]))
    ensures ParseValue(Print(v) + t, lim) == Got(v, t)
    decreases v, 1
  {
    match v {
      case Str(text) => StringParses(text, t, lim);
      case Arr(items) =>
        if items.NoItems? {
          EmptyParses(t, lim);
        } else {
          PrintItemsParse(items, t, lim.Inside());
          ArrayParses(items, t, lim);
        }
      case Obj(members) =>
        if members.NoMembers? {
          EmptyParses(t, lim);
        } else {
          PrintMembersParse(members, t, lim.Inside());
          ObjectParses(members, t, lim);
        }
      case _ => ScalarParses(v, t, lim);
    }
  }

  lemma {:induction false} PrintItemsParse(items: Items, t: string, lim: Limits)
    requires items.Item? && WellFormedItems(items, lim)
    ensures ParseItems(PrintItems(items) + "]" + t, lim) == Got(items, t)
    decreases items, 0
  {
    var s := PrintItems(items) + "]" + t;
    if items.tail.NoItems? {
      var end := [']'] + t;
      RegroupLast(Print(items.head), t);
      PrintParses(items.head, end, lim);
      ItemsEnd(s, items.head, t, lim);
    } else {
      var more := PrintItems(items.tail) + "]" + t;
      var end := [','] + ([' '] + more);
      RegroupMore(Print(items.head), PrintItems(items.tail), t);
      PrintParses(items.head, end, lim);
      FirstChar(items.tail.head, lim);
      assert more[0] == Print(items.tail.head)[0];
      PrintItemsParse(items.tail, t, lim);
      ItemsGoOn(s, items.head, more, items.tail, t, lim);
    }
  }

  lemma {:induction false} PrintMembersParse(ms: Members, t: string, lim: Limits)
    requires ms.Member? && WellFormedMembers(ms, lim)
    ensures ParseMembers(PrintMembers(ms) + "}" + t, lim) == Got(ms, t)
    decreases ms, 0
  {
    var s := PrintMembers(ms) + "}" + t;
    if ms.rest.NoMembers? {
      var end := ['}'] + t;
      RegroupLast(Quote(ms.key) + ": " + Print(ms.value), t);
      KeyParses(ms.key, ms.value, end, lim);
      PrintParses(ms.value, end, lim);
      MembersEnd(s, ms.key, Print(ms.value) + end, ms.value, t, lim);
    } else {
      var more := PrintMembers(ms.rest) + "}" + t;
      var end := [','] + ([' '] + more);
      RegroupMore(Quote(ms.key) + ": " + Print(ms.value), PrintMembers(ms.rest), t);
      KeyParses(ms.key, ms.value, end, lim);
      PrintParses(ms.value, end, lim);
      assert more[0] == '"';
      PrintMembersParse(ms.rest, t, lim);
      MembersGoOn(s, ms.key, Print(ms.value) + end, ms.value, more, ms.rest, t, lim);
    }
  }

  lemma {:induction false} KeyParses(key: Text, v: Json, end: string, lim: Limits)
    requires Unsplit(key) && WellFormed(v, lim)
    ensures ParseKey(Quote(key) + ": " + Print(v) + end) == Some(Parsed(key, Print(v) + end))
  {
    var value := Print(v) + end;
    var colon := [':'] + ([' '] + value);
    var s := EscapeAll(key) + "\"" + colon;
    RegroupKey(EscapeAll(key), Print(v), end);
    TextRoundTrip(key, colon);
    FirstChar(v, lim);
    assert value[0] == Print(v)[0];
    KeyStep(s, key, value);
  }

  /** Loading what was dumped gives back the value, for every value within the limits. */
  lemma {:induction false} RoundTrip(v: Json, lim: Limits)
    requires WellFormed(v, lim)
    ensures Loads(Print(v), lim) == Value(v)
  {
    FirstChar(v, lim);
    PrintParses(v, "", lim);
    assert Print(v) + "" == Print(v);
  }

  // ---- Nesting past the limit ----

  /** So many opening brackets. */
  function Brackets(n: nat): string { if n == 0 then "" else "[" + Brackets(n - 1) }

  /** More opening brackets than the limit overflow, whatever follows them. */
  lemma {:induction false} BracketsOverflow(n: nat, t: string, lim: Limits)
    requires n > lim.depth
    ensures ParseValue(Brackets(n) + t, lim) == TooDeep
    decreases n
  {
    var s, more := Brackets(n) + t, Brackets(n - 1) + t;
    assert s == ['['] + more;
    Peel('[', more);
    if lim.depth == 0 {
    } else {
      BracketsOverflow(n - 1, t, lim.Inside());
      assert more[0] == '[';
    }
  }

  /** How deep containers nest in a value. */
  function Depth(v: Json): nat {
    match v
    case Arr(items) => 1 + ItemsDepth(items)
    case Obj(members) => 1 + MembersDepth(members)
    case _ => 0
  }

  function ItemsDepth(items: Items): nat {
    if items.NoItems? then 0 else Max(Depth(items.head), ItemsDepth(items.tail))
  }

  function MembersDepth(ms: Members): nat {
    if ms.NoMembers? then 0 else Max(Depth(ms.value), MembersDepth(ms.rest))
  }

  predicate SameNumbers(one: Limits, other: Limits) { one.digits == other.digits }

  /** Only the depth of a value matters to the depth limit. */
  lemma {:induction false} DeeperLimit(v: Json, lim: Limits, more: Limits)
    requires WellFormed(v, more) && SameNumbers(more, lim) && Depth(v) <= lim.depth
    ensures WellFormed(v, lim)
    decreases v, 1
  {
    match v {
      case Arr(items) => DeeperItems(items, lim.Inside(), more.Inside());
      case Obj(members) => DeeperMembers(members, lim.Inside(), more.Inside());
      case _ =>
    }
  }

  lemma {:induction false} DeeperItems(items: Items, lim: Limits, more: Limits)
    requires WellFormedItems(items, more) && SameNumbers(more, lim) && ItemsDepth(items) <= lim.depth
    ensures WellFormedItems(items, lim)
    decreases items, 0
  {
    if items.Item? {
      DeeperLimit(items.head, lim, more);
      DeeperItems(items.tail, lim, more);
    }
  }

  lemma {:induction false} DeeperMembers(ms: Members, lim: Limits, more: Limits)
    requires WellFormedMembers(ms, more) && SameNumbers(more, lim) && MembersDepth(ms) <= lim.depth
    ensures WellFormedMembers(ms, lim)
    decreases ms, 0
  {
    if ms.Member? {
      DeeperLimit(ms.value, lim, more);
      DeeperMembers(ms.rest, lim, more);
    }
  }

  lemma {:induction false} DepthWithin(v: Json, lim: Limits)
    requires WellFormed(v, lim)
    ensures Depth(v) <= lim.depth
    decreases v, 1
  {
    match v {
      case Arr(items) => ItemsWithin(items, lim.Inside());
      case Obj(members) => MembersWithin(members, lim.Inside());
      case _ =>
    }
  }

  lemma {:induction false} ItemsWithin(items: Items, lim: Limits)
    requires WellFormedItems(items, lim)
    ensures ItemsDepth(items) <= lim.depth
    decreases items, 0
  {
    if items.Item? {
      DepthWithin(items.head, lim);
      ItemsWithin(items.tail, lim);
    }
  }

  lemma {:induction false} MembersWithin(ms: Members, lim: Limits)
    requires WellFormedMembers(ms, lim)
    ensures MembersDepth(ms) <= lim.depth
    decreases ms, 0
  {
    if ms.Member? {
      DepthWithin(ms.value, lim);
      MembersWithin(ms.rest, lim);
    }
  }

  lemma {:induction false} ItemsGoTooDeep(s: string, head: Json, more: string, lim: Limits)
    requires ParseValue(s, lim) == Got(head, [','] + ([' '] + more))
    requires more != "" && !IsJsonSpace(more[0]) && ParseItems(more, lim) == TooDeep
    ensures ParseItems(s, lim) == TooDeep
  {
    Peel(',', [' '] + more);
    SpaceSkipped([','] + ([' '] + more));
    SpaceSkipped(more);
  }

  lemma {:induction false} MembersGoTooDeep(s: string, key: Text, u: string, value: Json, more: string, lim: Limits)
    requires ParseKey(s) == Some(Parsed(key, u)) && ParseValue(u, lim) == Got(value, [','] + ([' '] + more))
    requires more != "" && !IsJsonSpace(more[0]) && ParseMembers(more, lim) == TooDeep
    ensures ParseMembers(s, lim) == TooDeep
  {
    Peel(',', [' '] + more);
    SpaceSkipped([','] + ([' '] + more));
    SpaceSkipped(more);
  }

  lemma {:induction false} ContainerTooDeep(s: string, lim: Limits)
    requires s != "" && !IsJsonSpace(s[0]) && lim.depth > 0
    ensures s[0] != ']' && ParseItems(s, lim.Inside()) == TooDeep ==> ParseValue(['['] + s, lim) == TooDeep
    ensures s[0] != '}' && ParseMembers(s, lim.Inside()) == TooDeep ==> ParseValue(['{'] + s, lim) == TooDeep
  {
    Peel('[', s);
    Peel('{', s);
    SpaceSkipped(s);
  }

  /** A value nested deeper than the limit overflows when its text is loaded. */
  lemma {:induction false} PrintOverflows(v: Json, t: string, lim: Limits, more: Limits)
    requires WellFormed(v, more) && SameNumbers(more, lim) && Depth(v) > lim.depth
    ensures ParseValue(Print(v) + t, lim) == TooDeep
    decreases v, 1
  {
    if lim.depth == 0 {
      assert (Print(v) + t)[0] == Print(v)[0];
    } else if v.Arr? {
      var s := PrintItems(v.items) + "]" + t;
      RegroupBracketed(PrintItems(v.items), t);
      FirstChar(v.items.head, more.Inside());
      assert s[0] == Print(v.items.head)[0];
      ItemsOverflow(v.items, t, lim.Inside(), more.Inside());
      ContainerTooDeep(s, lim);
    } else {
      var s := PrintMembers(v.members) + "}" + t;
      RegroupBracketed(PrintMembers(v.members), t);
      assert s[0] == '"';
      MembersOverflow(v.members, t, lim.Inside(), more.Inside());
      ContainerTooDeep(s, lim);
    }
  }

  lemma {:induction false} ItemsOverflow(items: Items, t: string, lim: Limits, more: Limits)
    requires WellFormedItems(items, more) && SameNumbers(more, lim) && ItemsDepth(items) > lim.depth
    ensures ParseItems(PrintItems(items) + "]" + t, lim) == TooDeep
    decreases items, 0
  {
    var s := PrintItems(items) + "]" + t;
    var rest := if items.tail.NoItems? then "" else PrintItems(items.tail) + "]" + t;
    var end := if items.tail.NoItems? then [']'] + t else [','] + ([' '] + rest);
    if items.tail.NoItems? {
      RegroupLast(Print(items.head), t);
    } else {
      RegroupMore(Print(items.head), PrintItems(items.tail), t);
    }
    if Depth(items.head) > lim.depth {
      PrintOverflows(items.head, end, lim, more);
    } else {
      DeeperLimit(items.head, lim, more);
      PrintParses(items.head, end, lim);
      FirstChar(items.tail.head, more);
      assert rest[0] == Print(items.tail.head)[0];
      ItemsOverflow(items.tail, t, lim, more);
      ItemsGoTooDeep(s, items.head, rest, lim);
    }
  }

  lemma {:induction false} MembersOverflow(ms: Members, t: string, lim: Limits, more: Limits)
    requires WellFormedMembers(ms, more) && SameNumbers(more, lim) && MembersDepth(ms) > lim.depth
    ensures ParseMembers(PrintMembers(ms) + "}" + t, lim) == TooDeep
    decreases ms, 0
  {
    var s := PrintMembers(ms) + "}" + t;
    var rest := if ms.rest.NoMembers? then "" else PrintMembers(ms.rest) + "}" + t;
    var end := if ms.rest.NoMembers? then ['}'] + t else [','] + ([' '] + rest);
    if ms.rest.NoMembers? {
      RegroupLast(Quote(ms.key) + ": " + Print(ms.value), t);
    } else {
      RegroupMore(Quote(ms.key) + ": " + Print(ms.value), PrintMembers(ms.rest), t);
    }
    KeyParses(ms.key, ms.value, end, more);
    if Depth(ms.value) > lim.depth {
      PrintOverflows(ms.value, end, lim, more);
    } else {
      DeeperLimit(ms.value, lim, more);
      PrintParses(ms.value, end, lim);
      assert rest[0] == '"';
      MembersOverflow(ms.rest, t, lim, more);
      MembersGoTooDeep(s, ms.key, Print(ms.value) + end, ms.value, rest, lim);
    }
  }

  /** Loading what was dumped, under whatever depth limit: the value if it nests within the limit,
      a RecursionError if it does not. */
  lemma {:induction false} DumpedLoads(v: Json, lim: Limits, more: Limits)
    requires WellFormed(v, more) && SameNumbers(more, lim)
    ensures Loads(Print(v), lim) == if Depth(v) <= lim.depth then Value(v) else Overflow
  {
    if Depth(v) <= lim.depth {
      DeeperLimit(v, lim, more);
      RoundTrip(v, lim);
    } else {
      FirstChar(v, more);
      PrintOverflows(v, "", lim, more);
      assert Print(v) + "" == Print(v);
    }
  }

  /** Only a text with an opening mark can overflow, or load as a container: none that starts with
      anything else. */
  lemma OverflowStarts(s: string, lim: Limits)
    requires Loads(s, lim).Overflow? || (Loads(s, lim).Value? && Loads(s, lim).value.Obj?)
    ensures s != "" && (IsJsonSpace(s[0]) || s[0] == '[' || s[0] == '{')
  {
  }

  // ---- A value is no longer than its text ----

  /** The characters a value's text takes at the least. */
  function Weight(v: Json): nat {
    match v
    case Null => 4
    case Bool(b) => if b then 4 else 5
    case Num(lexeme) => |lexeme|
    case Constant(name) => |name|
    case Str(text) => |text| + 2
    case Arr(items) => 1 + ItemsWeight(items)
    case Obj(members) => 1 + MembersWeight(members)
  }

  function ItemsWeight(items: Items): nat {
    if items.NoItems? then 0 else Weight(items.head) + ItemsWeight(items.tail)
  }

  function MembersWeight(ms: Members): nat {
    if ms.NoMembers? then 0 else |ms.key| + Weight(ms.value) + MembersWeight(ms.rest)
  }

  lemma {:induction false} TextFits(s: string)
    ensures ParseText(s).Some? ==> |ParseText(s).value.value| + 1 + |ParseText(s).value.rest| <= |s|
    decreases |s|
  {
    if ParseChar(s).Some? { TextFits(ParseChar(s).value.rest); }
  }

  /** A high surrogate the parser gives for one character has no low one next. */
  lemma CharUnsplit(s: string)
    ensures var p := ParseChar(s);
            p.Some? ==> (IsHigh(p.value.value) ==> !LowNext(p.value.rest)) && (IsLow(p.value.value) ==> LowNext(s))
  {
    if s != "" && s[0] == '\\' && |s| > 1 && s[1] == 'u' {
      assert s[..2] == "\\u" && s[1..][1..] == s[2..];
    }
  }

  lemma {:induction false} TextUnsplit(s: string)
    ensures var p := ParseText(s);
            p.Some? ==> Unsplit(p.value.value) && (p.value.value != [] && IsLow(p.value.value[0]) ==> LowNext(s))
    decreases |s|
  {
    if s != "" && s[0] == '"' {
    } else if ParseChar(s).Some? {
      CharUnsplit(s);
      TextUnsplit(ParseChar(s).value.rest);
      if ParseText(s).Some? { assert ParseText(s).value.value[1..] == ParseText(ParseChar(s).value.rest).value.value; }
    }
  }

  /** What the parser reads is well formed, and weighs no more than the text it was read from. */
  lemma {:induction false} ValueFits(s: string, lim: Limits)
    ensures var p := ParseValue(s, lim);
            p.Got? ==> WellFormed(p.value, lim) && Weight(p.value) + |p.rest| <= |s|
    decreases |s|, 0
  {
    if s != "" {
      if s[0] == '"' {
        TextFits(s[1..]);
        TextUnsplit(s[1..]);
      } else if s[0] == '[' && lim.depth > 0 {
        ItemsFit(SkipSpace(s[1..]), lim.Inside());
      } else if s[0] == '{' && lim.depth > 0 {
        MembersFit(SkipSpace(s[1..]), lim.Inside());
      }
    }
  }

  lemma {:induction false} ItemsFit(s: string, lim: Limits)
    ensures var p := ParseItems(s, lim);
            p.Got? ==> WellFormedItems(p.value, lim) && ItemsWeight(p.value) + |p.rest| <= |s|
    decreases |s|, 1
  {
    ValueFits(s, lim);
    if ParseValue(s, lim).Got? {
      var t := SkipSpace(ParseValue(s, lim).rest);
      if t != "" && t[0] == ',' { ItemsFit(SkipSpace(t[1..]), lim); }
    }
  }

  lemma {:induction false} MembersFit(s: string, lim: Limits)
    ensures var p := ParseMembers(s, lim);
            p.Got? ==> WellFormedMembers(p.value, lim) && MembersWeight(p.value) + |p.rest| <= |s|
    decreases |s|, 1
  {
    KeyFits(s);
    if ParseKey(s).Some? {
      ValueFits(ParseKey(s).value.rest, lim);
      if ParseValue(ParseKey(s).value.rest, lim).Got? {
        var t := SkipSpace(ParseValue(ParseKey(s).value.rest, lim).rest);
        if t != "" && t[0] == ',' { MembersFit(SkipSpace(t[1..]), lim); }
      }
    }
  }

  lemma KeyFits(s: string)
    ensures ParseKey(s).Some? ==>
              Unsplit(ParseKey(s).value.value) && |ParseKey(s).value.value| + |ParseKey(s).value.rest| <= |s|
  {
    if s != "" {
      TextFits(s[1..]);
      TextUnsplit(s[1..]);
    }
  }

  /** A loaded value is well formed and weighs no more than its text. */
  lemma {:induction false} LoadedFits(s: string, lim: Limits)
    requires Loads(s, lim).Value?
    ensures WellFormed(Loads(s, lim).value, lim) && Weight(Loads(s, lim).value) <= |s|
  {
    ValueFits(SkipSpace(s), lim);
  }

  // ---- Some texts ----

  /** How values are printed. */
  lemma PrintSamples()
    ensures Print(Null) == "null" && Print(Bool(true)) == "true" && Print(Bool(false)) == "false"
    ensures Print(Arr(NoItems)) == "[]" && Print(Obj(NoMembers)) == "{}"
  {
  }

  /** Items are separated by a comma and a space. */
  lemma {:induction false} PrintPair(v: Json, w: Json)
    ensures Print(Arr(Item(v, Item(w, NoItems)))) == "[" + (Print(v) + (", " + Print(w))) + "]"
  {
    var one := Item(w, NoItems);
    assert PrintItems(one) == Print(w) + "" == Print(w);
    assert PrintItems(Item(v, one)) == Print(v) + (", " + PrintItems(one));
  }

  /** So are members, and a key from its value by a colon and a space. */
  lemma {:induction false} PrintMemberPair(k: Text, v: Json, l: Text, w: Json)
    ensures Print(Obj(Member(k, v, Member(l, w, NoMembers)))) ==
            "{" + (Quote(k) + ": " + Print(v) + (", " + (Quote(l) + ": " + Print(w)))) + "}"
  {
    var one := Member(l, w, NoMembers);
    var text := Quote(l) + ": " + Print(w);
    assert text + "" == text;
    assert PrintMembers(one) == text;
    assert PrintMembers(Member(k, v, one)) == Quote(k) + ": " + Print(v) + (", " + PrintMembers(one));
  }

  lemma QuotedOne(c: char)
    requires 'a' <= c <= 'z'
    ensures Quote(Points([c])) == "\"" + [c] + "\""
  {
    assert Points([c])[1..] == [];
    assert EscapeAll(Points([c])) == [c] + "";
  }

  /** How characters are escaped. */
  lemma EscapeSamples()
    ensures Escape(0x41) == "A" && Escape(0x22) == "\\\"" && Escape(0x5C) == "\\\\" && Escape(0x2F) == "/"
    ensures Escape(0x0A) == "\\n" && Escape(0x0D) == "\\r" && Escape(0x09) == "\\t"
    ensures Escape(0x08) == "\\b" && Escape(0x0C) == "\\f"
  {
  }

  /** An escape by number has four hexadecimal digits, in lower case. */
  lemma HexSamples()
    ensures Hex4(0xE9) == "00e9" && Hex4(0xD83D) == "d83d" && Hex4(0xDE00) == "de00" && Hex4(0x7F) == "007f"
  {
  }

  /** Characters past the printable ones are escaped by number, those past 0xFFFF as a surrogate pair. */
  lemma NumberedEscapes(p: Point)
    requires p >= 0x7F
    ensures p < 0x10000 ==> Escape(p) == "\\u" + Hex4(p)
    ensures p >= 0x10000 ==>
              Escape(p) ==
              "\\u" + (Hex4(0xD800 + (p - 0x10000) / 1024) + ("\\u" + Hex4(0xDC00 + (p - 0x10000) % 1024)))
  {
    assert ShortEscape(p).None?;
  }

  // ---- The number grammar ----

  predicate IsDigits(s: string) { s != "" && forall i :: 0 <= i < |s| ==> IsDigit(s[i]) }

  /** Digits with no leading zero. */
  predicate IsInteger(s: string) { IsDigits(s) && (s[0] == '0' ==> |s| == 1) }

  predicate IsFraction(s: string) { s == "" || (s[0] == '.' && IsDigits(s[1..])) }

  predicate IsExponent(s: string) {
    || s == ""
    || ((s[0] == 'e' || s[0] == 'E')
        && (IsDigits(s[1..]) || (|s| > 1 && (s[1] == '+' || s[1] == '-') && IsDigits(s[2..]))))
  }

  /** The four parts of a number, as section 6 of RFC 8259 has them. */
  predicate NumberParts(sign: string, whole: string, fraction: string, exponent: string) {
    (sign == "" || sign == "-") && IsInteger(whole) && IsFraction(fraction) && IsExponent(exponent)
  }

  lemma {:induction false} RunStops(digits: string, rest: string)
    requires forall i :: 0 <= i < |digits| ==> IsDigit(digits[i])
    requires rest == "" || !IsDigit(rest[0])
    ensures DigitRun(digits + rest) == |digits|
    decreases |digits|
  {
    if digits == "" {
      assert digits + rest == rest;
    } else {
      assert (digits + rest)[1..] == digits[1..] + rest;
      RunStops(digits[1..], rest);
    }
  }

  lemma {:induction false} AllDigits(s: string)
    requires s != ""
    ensures DigitRun(s) == |s| <==> IsDigits(s)
  {
    DigitRunIsNumber(s);
    if IsDigits(s) {
      RunStops(s, "");
      assert s + "" == s;
    }
  }

  lemma ExponentExactly(s: string)
    ensures DropExponent(s) == "" <==> IsExponent(s)
  {
    if s != "" && (s[0] == 'e' || s[0] == 'E') {
      var t := if |s| > 1 && (s[1] == '+' || s[1] == '-') then s[2..] else s[1..];
      if t != "" { AllDigits(t); }
      if |s| > 1 && (s[1] == '+' || s[1] == '-') { assert s[1..][0] == s[1]; }
    }
  }

  /** A fraction is dropped from the front, and nothing else is. */
  lemma FractionDrops(fraction: string, rest: string)
    requires IsFraction(fraction) && (rest == "" || (!IsDigit(rest[0]) && rest[0] != '.'))
    ensures DropFraction(fraction + rest) == rest
  {
    if fraction == "" {
      assert fraction + rest == rest;
    } else {
      assert (fraction + rest)[1..] == fraction[1..] + rest;
      RunStops(fraction[1..], rest);
      assert (fraction[1..] + rest)[|fraction[1..]|..] == rest;
    }
  }

  lemma FractionSplits(s: string) returns (fraction: string)
    ensures s == fraction + DropFraction(s) && IsFraction(fraction)
  {
    fraction := "";
    if s != "" && s[0] == '.' && DigitRun(s[1..]) > 0 {
      DigitRunIsNumber(s[1..]);
      fraction := s[..1 + DigitRun(s[1..])];
      assert fraction[1..] == s[1..][..DigitRun(s[1..])];
    }
  }

  lemma PartsAreNumber(sign: string, whole: string, fraction: string, exponent: string)
    requires NumberParts(sign, whole, fraction, exponent)
    ensures IsNumber(sign + (whole + (fraction + exponent)))
  {
    var u := fraction + exponent;
    var t := whole + u;
    var s := sign + t;
    assert t[0] == whole[0];
    assert (if s != "" && s[0] == '-' then s[1..] else s) == t;
    assert u == "" || (fraction == "" && u[0] == exponent[0]) || u[0] == fraction[0];
    RunStops(whole, u);
    assert t[|whole|..] == u;
    FractionDrops(fraction, exponent);
    ExponentExactly(exponent);
  }

  lemma UnsignedParts(t: string) returns (whole: string, fraction: string, exponent: string)
    requires DigitRun(t) > 0 && (t[0] == '0' ==> DigitRun(t) == 1)
    requires DropExponent(DropFraction(t[DigitRun(t)..])) == ""
    ensures IsInteger(whole) && IsFraction(fraction) && IsExponent(exponent) && t == whole + (fraction + exponent)
  {
    var n := DigitRun(t);
    DigitRunIsNumber(t);
    whole := t[..n];
    fraction := FractionSplits(t[n..]);
    exponent := DropFraction(t[n..]);
    ExponentExactly(exponent);
    assert t == whole + t[n..];
  }

  lemma NumberHasParts(s: string) returns (sign: string, whole: string, fraction: string, exponent: string)
    requires IsNumber(s)
    ensures NumberParts(sign, whole, fraction, exponent) && s == sign + (whole + (fraction + exponent))
  {
    if s != "" && s[0] == '-' {
      sign := "-";
      whole, fraction, exponent := UnsignedParts(s[1..]);
      assert s == sign + s[1..];
    } else {
      sign := "";
      whole, fraction, exponent := UnsignedParts(s);
      assert s == sign + s;
    }
  }

  /** The texts taken as numbers are those of the grammar: minus, digits with no leading zero, a fraction, an
      exponent. */
  lemma NumberExactly(s: string)
    ensures IsNumber(s) <==>
            exists sign, whole, fraction, exponent ::
              NumberParts(sign, whole, fraction, exponent) && s == sign + (whole + (fraction + exponent))
  {
    if IsNumber(s) {
      var sign, whole, fraction, exponent := NumberHasParts(s);
    }
    if sign, whole, fraction, exponent :|
      NumberParts(sign, whole, fraction, exponent) && s == sign + (whole + (fraction + exponent)) {
      PartsAreNumber(sign, whole, fraction, exponent);
    }
  }

  /** A number has too many digits exactly when it is an integer with more than the limit. */
  lemma TooLongExactly(sign: string, whole: string, fraction: string, exponent: string, digits: nat)
    requires NumberParts(sign, whole, fraction, exponent)
    ensures TooLong(sign + (whole + (fraction + exponent)), digits) <==>
            fraction == "" && exponent == "" && |whole| > digits
  {
    var s, n := sign + (whole + (fraction + exponent)), |sign| + |whole|;
    assert s[|sign|] == whole[0] && (sign != "" ==> s[0] == '-');
    if fraction != "" {
      assert s[n] == '.';
    } else if exponent != "" {
      assert s[n] == exponent[0];
    } else {
      assert forall i :: |sign| <= i < |s| ==> s[i] == whole[i - |sign|];
    }
  }

  /** A comma is followed by another item, items are apart by a comma, and an item is not a member. */
  lemma LooseSamples(lim: Limits)
    requires lim.depth > 0
    ensures Loads("[null,]", lim) == Rejected && Loads("[null null]", lim) == Rejected
    ensures Loads("{null}", lim) == Rejected
  {
    CommaSample(lim);
    ApartSample(lim);
    assert "{null}"[1..] == "null}" && SkipSpace("null}") == "null}" && ParseKey("null}").None?;
    assert ParseMembers("null}", lim.Inside()) == Malformed;
  }

  lemma CommaSample(lim: Limits)
    requires lim.depth > 0
    ensures Loads("[null,]", lim) == Rejected
  {
    CommaLast(lim.Inside());
    assert "[null,]"[1..] == "null,]";
  }

  lemma ApartSample(lim: Limits)
    requires lim.depth > 0
    ensures Loads("[null null]", lim) == Rejected
  {
    NoComma(lim.Inside());
    assert "[null null]"[1..] == "null null]";
  }

  lemma {:induction false} CommaLast(lim: Limits)
    ensures ParseItems("null,]", lim) == Malformed
  {
    assert "null,]"[..4] == "null" && "null,]"[4..] == ",]" && ",]"[1..] == "]";
    assert ParseValue("null,]", lim) == Got(Null, ",]");
    NotAValue(lim);
  }

  lemma {:induction false} NotAValue(lim: Limits)
    ensures ParseValue("]", lim) == Malformed
  {
    assert NumberRun("]") == 0;
  }

  lemma {:induction false} NoComma(lim: Limits)
    ensures ParseItems("null null]", lim) == Malformed
  {
    assert "null null]"[..4] == "null" && "null null]"[4..] == " null]" && " null]"[1..] == "null]";
    assert ParseValue("null null]", lim) == Got(Null, " null]");
  }

  /** Space around the parts of a value is no part of it. */
  lemma SpaceSamples(lim: Limits)
    requires lim.depth > 0 && lim.digits > 0
    ensures Loads(" true\n", lim) == Value(Bool(true)) && Loads("[\tnull ]", lim) == Value(Arr(Item(Null, NoItems)))
    ensures Loads("true,", lim) == Rejected && Loads("", lim) == Rejected && Loads("[null", lim) == Rejected
  {
    TrueSample(lim);
    NullSample(lim);
    UnclosedSample(lim);
  }

  lemma TrueSample(lim: Limits)
    ensures Loads(" true\n", lim) == Value(Bool(true)) && Loads("true,", lim) == Rejected && Loads("", lim) == Rejected
  {
    assert " true\n"[1..] == "true\n" && "true\n"[..4] == "true" && "true\n"[4..] == "\n" && "\n"[1..] == "";
    assert "true,"[..4] == "true" && "true,"[4..] == ",";
    Initials();
  }

  lemma NullSample(lim: Limits)
    requires lim.depth > 0
    ensures Loads("[\tnull ]", lim) == Value(Arr(Item(Null, NoItems)))
  {
    assert "[\tnull ]"[1..] == "\tnull ]" && "\tnull ]"[1..] == "null ]";
    LastItem(lim.Inside());
  }

  lemma {:induction false} LastItem(lim: Limits)
    ensures ParseItems("null ]", lim) == Got(Item(Null, NoItems), "")
  {
    assert "null ]"[..4] == "null" && "null ]"[4..] == " ]" && " ]"[1..] == "]" && "]"[1..] == "";
    assert ParseValue("null ]", lim) == Got(Null, " ]");
  }

  lemma UnclosedSample(lim: Limits)
    requires lim.depth > 0
    ensures Loads("[null", lim) == Rejected
  {
    assert "[null"[1..] == "null" && "null"[..4] == "null" && "null"[4..] == "";
    assert ParseValue("null", lim.Inside()) == Got(Null, "");
  }

  /** A character that is not escaped stands for itself; a quote ends the string, and control characters
      are refused. */
  lemma PlainCharacter(c: char, s: string)
    ensures c >= ' ' && c != '"' && c != '\\' ==> ParseChar([c] + s) == Some(Parsed(c as int, s))
    ensures c < ' ' || c == '"' ==> ParseChar([c] + s).None?
  {
    assert ([c] + s)[1..] == s;
  }

  /** The escapes by letter. */
  lemma EscapedCharacter(c: char, s: string)
    ensures var r := ParseChar(['\\', c] + s);
            && (c == '"' || c == '\\' || c == '/' ==> r == Some(Parsed(c as int, s)))
            && (c == 'n' ==> r == Some(Parsed(0x0A, s))) && (c == 'r' ==> r == Some(Parsed(0x0D, s)))
            && (c == 't' ==> r == Some(Parsed(0x09, s))) && (c == 'b' ==> r == Some(Parsed(0x08, s)))
            && (c == 'f' ==> r == Some(Parsed(0x0C, s)))
            && (c !in ['"', '\\', '/', 'n', 'r', 't', 'b', 'f', 'u'] ==> r.None?)
  {
    assert (['\\', c] + s)[1..] == [c] + s && ([c] + s)[1..] == s;
  }

  /** The escapes by number: four hexadecimal digits of either case. */
  lemma NumberedCharacter(a: char, b: char, c: char, d: char, s: string)
    requires HexValue(a).Some? && HexValue(b).Some? && HexValue(c).Some? && HexValue(d).Some?
    ensures ParseHex4([a, b, c, d] + s) ==
            Some(HexValue(a).value * 4096 + HexValue(b).value * 256 + HexValue(c).value * 16 + HexValue(d).value)
    ensures HexValue('7') == Some(7) && HexValue('b') == HexValue('B') == Some(11)
    ensures HexValue('f') == HexValue('F') == Some(15) && HexValue('g').None?
  {
  }

  /** The space around values is space, tab, line feed and carriage return. */
  lemma {:induction false} SpaceExactly(c: char, s: string)
    ensures SkipSpace([c] + s) ==
            if c as int == 32 || c as int == 9 || c as int == 10 || c as int == 13 then SkipSpace(s) else [c] + s
  {
    assert ([c] + s)[1..] == s;
  }
}
