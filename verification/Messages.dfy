/** Unwrapping kombu's SQS envelope and parsing an event (app/contracts/messages.py). */
module Messages {
  import opened Prelude
  import opened Events
  import opened Base64
  import opened JsonText
  import opened Text
  import Utf8

  /** The interpreter: the text a named encoding reads from bytes, None where the encoding is
      unknown or the bytes are not in it, and the limits of the `json` module. */
  datatype Runtime = Runtime(decode: (Text, seq<byte>) -> Option<Text>, limits: Limits)

  function Utf8Text(bs: seq<byte>): Option<Text> {
    var text := Utf8.Decode(bs);
    if text.None? then None else Some(Points(text.value))
  }

  ghost predicate ReadsUtf8(python: Runtime) {
    forall bs :: python.decode(Points("utf-8"), bs) == Utf8Text(bs)
  }

  /** The value a dictionary built from the members holds for a key: the last one. */
  function Lookup(ms: Members, key: string): Option<Json> {
    if ms.NoMembers? then None
    else if Lookup(ms.rest, key).Some? then Lookup(ms.rest, key)
    else if ms.key == Points(key) then Some(ms.value) else None
  }

  // ---- Truth of a value ----

  function Power(base: nat, n: nat): nat {
    if n == 0 then 1 else base * Power(base, n - 1)
  }

  predicate StartsExponent(s: string) { s == "" || s[0] == 'e' || s[0] == 'E' }

  /** The digits of a number before its exponent, as one number after `acc`. */
  function Mantissa(s: string, acc: nat): nat {
    if StartsExponent(s) then acc
    else if IsDigit(s[0]) then Mantissa(s[1..], 10 * acc + (s[0] as int - '0' as int))
    else Mantissa(s[1..], acc)
  }

  /** How many of those digits stand after the point. */
  function Places(s: string, pointed: bool): nat {
    if StartsExponent(s) then 0
    else if IsDigit(s[0]) then (if pointed then 1 else 0) + Places(s[1..], pointed)
    else Places(s[1..], pointed || s[0] == '.')
  }

  function ExponentOf(s: string): int {
    if s == "" then 0
    else if !StartsExponent(s) then ExponentOf(s[1..])
    else if |s| > 1 && s[1] == '-' then -(Mantissa(s[2..], 0) as int) else Mantissa(s[1..], 0)
  }

  /** The number is read as zero: it is zero, or a float so small that it rounds to zero. */
  predicate IsZero(lexeme: string, tiny: nat) {
    var m, e := Mantissa(lexeme, 0), ExponentOf(lexeme) - Places(lexeme, false);
    m == 0 || (e < 0 && m * Power(2, tiny) <= Power(10, -e))
  }

  predicate Falsy(v: Json, lim: Limits) {
    match v
    case Null => true
    case Bool(b) => !b
    case Num(lexeme) => IsZero(lexeme, lim.tiny)
    case Constant(_) => false
    case Str(text) => text == []
    case Arr(items) => items.NoItems?
    case Obj(members) => members.NoMembers?
  }

  predicate IsEnvelope(v: Json) {
    && v.Obj?
    && Lookup(v.members, "body").Some?
    && Lookup(v.members, "content-type").Some?
    && Lookup(v.members, "properties").Some? && Lookup(v.members, "properties").value.Obj?
  }

  predicate BodyIsBase64(v: Json)
    requires IsEnvelope(v)
  {
    Lookup(Lookup(v.members, "properties").value.members, "body_encoding") == Some(Str(Points("base64")))
  }

  /** The `content-encoding` in force, as the argument of `decode`. */
  function Encoding(v: Json, lim: Limits): Json
    requires IsEnvelope(v)
  {
    var e := Lookup(v.members, "content-encoding");
    if e.None? || Falsy(e.value, lim) then Str(Points("utf-8")) else e.value
  }

  /** What looking for an envelope in a text gives: none there, its payload, or an exception
      from decoding it. */
  datatype Attempt = NotEnvelope | Inner(payload: Text) | Raises

  /** The payload of a loaded value, if it is an envelope. */
  function OpenEnvelope(v: Json, python: Runtime): Attempt {
    if !IsEnvelope(v) then NotEnvelope
    else
      var inner := Lookup(v.members, "body").value;
      if BodyIsBase64(v) then
        var payload := DecodeBody(inner, Encoding(v, python.limits), python);
        if payload.Some? then Inner(payload.value) else Raises
      else if inner.Str? then Inner(inner.text) else Inner(Points(Print(inner)))
  }

  /** `b64decode(inner).decode(encoding)`; None where either raises, as both do on a surrogate. */
  function DecodeBody(inner: Json, encoding: Json, python: Runtime): Option<Text> {
    var bytes := if inner.Str? then TextBytes(inner.text) else None;
    if bytes.Some? && encoding.Str? && IsScalar(encoding.text) then python.decode(encoding.text, bytes.value) else None
  }

  /** `b64decode` of a Python string. */
  function TextBytes(t: Text): Option<seq<byte>> {
    if IsScalar(t) then Base64.Decode(Chars(t), false) else None
  }

  /** `_try_kombu_envelope` */
  function TryEnvelope(text: string, python: Runtime): Attempt {
    match Loads(text, python.limits)
    case Value(v) => OpenEnvelope(v, python)
    case Rejected => NotEnvelope
    case Overflow => Raises
  }

  /** The text inside a whole-message base64 layer. */
  function OuterLayer(text: string): Option<string> {
    var bytes := Base64.Decode(text, true);
    if bytes.None? then None else Utf8.Decode(bytes.value)
  }

  /** `_unwrap_kombu_envelope`; None where it raises. */
  function Unwrap(body: string, python: Runtime): Option<Text> {
    match TryEnvelope(body, python)
    case Inner(payload) => Some(payload)
    case Raises => None
    case NotEnvelope =>
      var decoded := OuterLayer(body);
      if decoded.None? then Some(Points(body))
      else
        match TryEnvelope(decoded.value, python)
        case Inner(payload) => Some(payload)
        case Raises => None
        case NotEnvelope => Some(Points(body))
  }

  /** Parsing returns an event, raises a validation error, or raises something else. */
  datatype ParseOutcome = Accepted(event: Event) | Invalid | Escapes

  /** `parse_event` of a string; `validate` is the contract validation, None where it rejects. Text
      with a surrogate in it is rejected before that. */
  function ParseEvent(body: string, python: Runtime, validate: string -> Option<Event>): ParseOutcome {
    match Unwrap(body, python)
    case None => Escapes
    case Some(payload) =>
      if !IsScalar(payload) || validate(Chars(payload)).None? then Invalid
      else Accepted(validate(Chars(payload)).value)
  }

  // ---- The wire format ----

  function ToBase64(text: string): string { Base64.Encode(Utf8.Encode(text)) }

  /** An object with the three envelope keys that declares its body to be base64 of UTF-8: of no other
      encoding, at least. */
  predicate Base64Envelope(ms: Members, lim: Limits) {
    && Lookup(ms, "body").Some? && Lookup(ms, "content-type").Some?
    && (Lookup(ms, "content-encoding").None?
        || Lookup(ms, "content-encoding") == Some(Str(Points("utf-8")))
        || Falsy(Lookup(ms, "content-encoding").value, lim))
    && Lookup(ms, "properties").Some? && Lookup(ms, "properties").value.Obj?
    && Lookup(Lookup(ms, "properties").value.members, "body_encoding") == Some(Str(Points("base64")))
  }

  /** An envelope carrying a payload, whatever else it holds and in whatever order. */
  predicate Carries(ms: Members, payload: string, lim: Limits) {
    && WellFormed(Obj(ms), lim) && Base64Envelope(ms, lim)
    && Lookup(ms, "body") == Some(Str(Points(ToBase64(payload))))
  }

  lemma BodyDecodes(payload: string, python: Runtime)
    requires ReadsUtf8(python)
    ensures DecodeBody(Str(Points(ToBase64(payload))), Str(Points("utf-8")), python) == Some(Points(payload))
  {
    PointsRoundTrip(ToBase64(payload));
    PointsRoundTrip("utf-8");
    Base64.RoundTrip(Utf8.Encode(payload), false);
    Utf8.RoundTrip(payload);
  }

  lemma {:induction false} PlainEnvelope(ms: Members, payload: string, python: Runtime)
    requires Carries(ms, payload, python.limits) && ReadsUtf8(python)
    ensures TryEnvelope(Print(Obj(ms)), python) == Inner(Points(payload))
  {
    JsonText.RoundTrip(Obj(ms), python.limits);
    BodyDecodes(payload, python);
  }

  lemma ToBase64Opens(text: string)
    ensures OuterLayer(ToBase64(text)) == Some(text)
  {
    Base64.RoundTrip(Utf8.Encode(text), true);
    Utf8.RoundTrip(text);
  }

  /** The text loads as an object, or nests too deep to load. */
  predicate LooksLikeJson(text: string, lim: Limits) {
    Loads(text, lim).Overflow? || (Loads(text, lim).Value? && Loads(text, lim).value.Obj?)
  }

  /** No text is both a JSON object, or overflowing JSON, and strict base64: its first character, a
      space or an opening mark, is no base64. */
  lemma ObjectOrBase64(text: string, lim: Limits)
    ensures !(LooksLikeJson(text, lim) && Base64.Decode(text, true).Some?)
  {
    if LooksLikeJson(text, lim) { OverflowStarts(text, lim); }
  }

  lemma PlainUnwraps(text: string, payload: Text, python: Runtime)
    requires TryEnvelope(text, python) == Inner(payload)
    ensures Unwrap(text, python) == Some(payload)
  {
  }

  lemma WrappedUnwraps(body: string, text: string, payload: Text, python: Runtime)
    requires OuterLayer(body) == Some(text) && TryEnvelope(text, python) == Inner(payload)
    ensures Unwrap(body, python) == Some(payload)
  {
    ObjectOrBase64(body, python.limits);
  }

  /** The wire round trip: for every payload, unwrapping the plain envelope and unwrapping the
      base64 of the envelope both give back exactly the payload. */
  lemma {:induction false} WireRoundTrip(ms: Members, payload: string, python: Runtime)
    requires Carries(ms, payload, python.limits) && ReadsUtf8(python)
    ensures Unwrap(Print(Obj(ms)), python) == Some(Points(payload))
    ensures Unwrap(ToBase64(Print(Obj(ms))), python) == Some(Points(payload))
  {
    var text := Print(Obj(ms));
    PlainEnvelope(ms, payload, python);
    ToBase64Opens(text);
    PlainUnwraps(text, Points(payload), python);
    WrappedUnwraps(ToBase64(text), text, Points(payload), python);
  }

  /** The same unwrapping with the two tests in the other order. */
  function UnwrapBase64First(body: string, python: Runtime): Option<Text> {
    var decoded := OuterLayer(body);
    var inside := if decoded.Some? then TryEnvelope(decoded.value, python) else NotEnvelope;
    match inside
    case Inner(payload) => Some(payload)
    case Raises => None
    case NotEnvelope =>
      match TryEnvelope(body, python)
      case Inner(payload) => Some(payload)
      case Raises => None
      case NotEnvelope => Some(Points(body))
  }

  /** The order of the two tests does not matter, on any text. */
  lemma OrderIrrelevant(body: string, python: Runtime)
    ensures Unwrap(body, python) == UnwrapBase64First(body, python)
  {
    ObjectOrBase64(body, python.limits);
  }

  /** A bare JSON object that lacks any one of the three envelope keys is left alone. */
  lemma BareObjectUnchanged(body: string, python: Runtime)
    requires BareObject(body, python.limits)
    ensures Unwrap(body, python) == Some(Points(body))
  {
    ObjectOrBase64(body, python.limits);
  }

  /** The text is the JSON of an object that lacks some envelope key: a body, a content type, or
      properties that are an object. */
  predicate BareObject(text: string, lim: Limits) {
    Loads(text, lim).Value? && Loads(text, lim).value.Obj?
    && var ms := Loads(text, lim).value.members;
       || Lookup(ms, "body").None? || Lookup(ms, "content-type").None?
       || Lookup(ms, "properties").None? || !Lookup(ms, "properties").value.Obj?
  }

  /** The text is the JSON of an envelope. */
  predicate EnvelopeText(text: string, lim: Limits) { Loads(text, lim).Value? && IsEnvelope(Loads(text, lim).value) }

  /** The text is an envelope, or nests too deep for anyone to tell. */
  predicate NotBare(text: string, lim: Limits) { EnvelopeText(text, lim) || Loads(text, lim).Overflow? }

  /** No encoding makes more characters than it reads bytes. */
  ghost predicate NeverLonger(python: Runtime) {
    forall encoding, bs :: python.decode(encoding, bs).Some? ==> |python.decode(encoding, bs).value| <= |bs|
  }

  lemma {:induction false} LookupFits(ms: Members, key: string, lim: Limits)
    requires Lookup(ms, key).Some? && WellFormedMembers(ms, lim)
    ensures WellFormed(Lookup(ms, key).value, lim)
    ensures Weight(Lookup(ms, key).value) <= MembersWeight(ms) && Depth(Lookup(ms, key).value) <= MembersDepth(ms)
  {
    if Lookup(ms.rest, key).Some? { LookupFits(ms.rest, key, lim); }
  }

  /** The text starts as a printed array or object does. */
  predicate Bracketed(t: Text) { t != [] && (t[0] == '[' as int || t[0] == '{' as int) }

  /** The payload of an envelope is shorter than its text, unless it is the printed form of an
      array or an object, and in that case it is not that text either. */
  lemma PayloadDiffers(text: string, python: Runtime)
    requires NeverLonger(python) && TryEnvelope(text, python).Inner?
    ensures var payload := TryEnvelope(text, python).payload;
            payload != Points(text) && (|payload| < |text| || Bracketed(payload))
  {
    var lim := python.limits;
    var v := Loads(text, lim).value;
    LoadedFits(text, lim);
    LookupFits(v.members, "body", lim.Inside());
    var inner := Lookup(v.members, "body").value;
    if BodyIsBase64(v) {
      Base64.ScanShorter(Chars(inner.text), false, OUTSET);
    } else if inner.Arr? || inner.Obj? {
      LoadsOfInner(inner, lim);
      assert inner != v;
      if Points(Print(inner)) == Points(text) { PointsInjective(Print(inner), text); }
    }
  }

  /** A value well formed inside a container is what its printed form loads as outside it. */
  lemma {:induction false} LoadsOfInner(inner: Json, lim: Limits)
    requires lim.depth > 0 && WellFormed(inner, lim.Inside())
    ensures Loads(Print(inner), lim) == Value(inner)
  {
    DepthWithin(inner, lim.Inside());
    DeeperLimit(inner, lim, lim.Inside());
    JsonText.RoundTrip(inner, lim);
  }

  /** Unwrapping leaves a text as it is exactly when it is no envelope and no base64 of one, and
      neither nests too deep: it never unwraps an envelope to the text it started from. */
  lemma UnchangedExactly(body: string, python: Runtime)
    requires NeverLonger(python)
    ensures Unwrap(body, python) == Some(Points(body)) <==>
            !NotBare(body, python.limits) && !(OuterLayer(body).Some? && NotBare(OuterLayer(body).value, python.limits))
  {
    ObjectOrBase64(body, python.limits);
    if TryEnvelope(body, python).Inner? {
      PayloadDiffers(body, python);
    } else if OuterLayer(body).Some? && TryEnvelope(OuterLayer(body).value, python).Inner? {
      InnerPayloadDiffers(body, python);
    }
  }

  lemma InnerPayloadDiffers(body: string, python: Runtime)
    requires NeverLonger(python) && OuterLayer(body).Some? && TryEnvelope(OuterLayer(body).value, python).Inner?
    ensures TryEnvelope(OuterLayer(body).value, python).payload != Points(body)
  {
    PayloadDiffers(OuterLayer(body).value, python);
    Base64.ScanShorter(body, true, OUTSET);
    Utf8.DecodeShorter(Base64.Decode(body, true).value);
    StrictAlphabet(body, OUTSET);
  }

  /** Parsing the wire form of a bare event is parsing the event. */
  lemma {:induction false} WireParsesAsBare(ms: Members, payload: string, python: Runtime,
                                            validate: string -> Option<Event>)
    requires Carries(ms, payload, python.limits) && ReadsUtf8(python)
    requires BareObject(payload, python.limits)
    ensures ParseEvent(Print(Obj(ms)), python, validate) == ParseEvent(payload, python, validate)
    ensures ParseEvent(ToBase64(Print(Obj(ms))), python, validate) == ParseEvent(payload, python, validate)
    ensures ParseEvent(payload, python, validate) != Escapes
  {
    var wire := Print(Obj(ms));
    WireRoundTrip(ms, payload, python);
    BareObjectUnchanged(payload, python);
    assert Unwrap(payload, python) == Some(Points(payload)) == Unwrap(wire, python) == Unwrap(ToBase64(wire), python);
    SamePayload(wire, payload, python, validate);
    SamePayload(ToBase64(wire), payload, python, validate);
  }

  lemma SamePayload(body: string, other: string, python: Runtime, validate: string -> Option<Event>)
    requires Unwrap(body, python) == Unwrap(other, python)
    ensures ParseEvent(body, python, validate) == ParseEvent(other, python, validate)
  {
  }

  /** The text is the JSON of an envelope whose base64 body cannot be decoded. */
  predicate Undecodable(text: string, python: Runtime) {
    EnvelopeText(text, python.limits)
    && var v := Loads(text, python.limits).value;
       BodyIsBase64(v) && DecodeBody(Lookup(v.members, "body").value, Encoding(v, python.limits), python).None?
  }

  /** The layer cannot be got through: it nests too deep, or its base64 body does not decode. */
  predicate Bursts(text: string, python: Runtime) {
    Loads(text, python.limits).Overflow? || Undecodable(text, python)
  }

  /** When parsing escapes with something other than a validation error: when the text, or what it
      is the base64 of, is an envelope whose base64 body does not decode, or nests too deep for the
      `json` module. Every other text is parsed or rejected. */
  lemma EscapesExactly(body: string, python: Runtime, validate: string -> Option<Event>)
    ensures ParseEvent(body, python, validate) == Escapes <==>
            Bursts(body, python) || (OuterLayer(body).Some? && Bursts(OuterLayer(body).value, python))
  {
    ObjectOrBase64(body, python.limits);
  }

  /** A printed array, or object that is no envelope, escapes exactly when it nests deeper than the
      limit, and so does its base64. */
  lemma {:induction false} DeepTextEscapes(v: Json, python: Runtime, more: Limits, validate: string -> Option<Event>)
    requires WellFormed(v, more) && SameNumbers(more, python.limits) && (v.Arr? || v.Obj?) && !IsEnvelope(v)
    ensures ParseEvent(Print(v), python, validate) == Escapes <==> Depth(v) > python.limits.depth
    ensures ParseEvent(ToBase64(Print(v)), python, validate) == Escapes <==> Depth(v) > python.limits.depth
  {
    var text := Print(v);
    DumpedLoads(v, python.limits, more);
    assert text[0] == '[' || text[0] == '{';
    assert OuterLayer(text).None?;
    ToBase64Opens(text);
    ObjectOrBase64(ToBase64(text), python.limits);
    EscapesExactly(text, python, validate);
    EscapesExactly(ToBase64(text), python, validate);
  }

  /** Enough opening brackets escape. */
  lemma {:induction false} BracketsEscape(n: nat, python: Runtime, validate: string -> Option<Event>)
    requires n > python.limits.depth
    ensures ParseEvent(Brackets(n), python, validate) == Escapes
  {
    BracketsOverflow(n, "", python.limits);
    assert Brackets(n) + "" == Brackets(n);
    assert SkipSpace(Brackets(n)) == Brackets(n);
  }

  /** Among printed UTF-8 base64 envelopes with a string body, the ones that escape, in either
      wire form, are exactly those whose body is not base64 of UTF-8 text, a body with a surrogate in it among
      them. */
  lemma {:induction false} BadInnerEscapes(ms: Members, python: Runtime, validate: string -> Option<Event>)
    requires WellFormed(Obj(ms), python.limits) && ReadsUtf8(python)
    requires Base64Envelope(ms, python.limits)
    requires Lookup(ms, "body").value.Str?
    ensures var bytes := TextBytes(Lookup(ms, "body").value.text);
            var bad := bytes.None? || Utf8.Decode(bytes.value).None?;
            && (ParseEvent(Print(Obj(ms)), python, validate) == Escapes <==> bad)
            && (ParseEvent(ToBase64(Print(Obj(ms))), python, validate) == Escapes <==> bad)
  {
    var text := Print(Obj(ms));
    JsonText.RoundTrip(Obj(ms), python.limits);
    assert TryEnvelope(text, python) == OpenEnvelope(Obj(ms), python);
    BadBody(ms, python);
    ToBase64Opens(text);
    ObjectOrBase64(ToBase64(text), python.limits);
    EscapesExactly(text, python, validate);
    EscapesExactly(ToBase64(text), python, validate);
    ObjectOrBase64(text, python.limits);
  }

  lemma {:induction false} BadBody(ms: Members, python: Runtime)
    requires ReadsUtf8(python)
    requires Base64Envelope(ms, python.limits)
    requires Lookup(ms, "body").value.Str?
    ensures var bytes := TextBytes(Lookup(ms, "body").value.text);
            OpenEnvelope(Obj(ms), python) == Raises <==> bytes.None? || Utf8.Decode(bytes.value).None?
  {
  }

  /** A body of one base64 character escapes. */
  lemma {:induction false} TruncatedBodyEscapes(ms: Members, python: Runtime, validate: string -> Option<Event>)
    requires WellFormed(Obj(ms), python.limits) && ReadsUtf8(python)
    requires Base64Envelope(ms, python.limits)
    requires Lookup(ms, "body") == Some(Str(Points("A")))
    ensures ParseEvent(Print(Obj(ms)), python, validate) == Escapes
  {
    OneCharacterBody();
    PointsRoundTrip("A");
    BadInnerEscapes(ms, python, validate);
  }

  lemma OneCharacterBody()
    ensures Base64.Decode("A", false).None?
  {
    assert "A"[1..] == "";
  }

  /** A base64 body with an unpaired surrogate in it escapes. */
  lemma {:induction false} SurrogateBodyEscapes(ms: Members, python: Runtime, validate: string -> Option<Event>)
    requires WellFormed(Obj(ms), python.limits) && ReadsUtf8(python)
    requires Base64Envelope(ms, python.limits)
    requires Lookup(ms, "body") == Some(Str([0xD800]))
    ensures ParseEvent(Print(Obj(ms)), python, validate) == Escapes
  {
    BadInnerEscapes(ms, python, validate);
  }

  /** As a plain body it is unwrapped and rejected. */
  lemma {:induction false} SurrogatePayloadRejected(ms: Members, python: Runtime, validate: string -> Option<Event>)
    requires WellFormed(Obj(ms), python.limits) && Lookup(ms, "content-type").Some?
    requires Lookup(ms, "properties").Some? && Lookup(ms, "properties").value.Obj?
    requires Lookup(Lookup(ms, "properties").value.members, "body_encoding") != Some(Str(Points("base64")))
    requires Lookup(ms, "body") == Some(Str([0xD800]))
    ensures Unwrap(Print(Obj(ms)), python) == Some([0xD800])
    ensures ParseEvent(Print(Obj(ms)), python, validate) == Invalid
  {
    JsonText.RoundTrip(Obj(ms), python.limits);
    var payload: Text := [0xD800];
    assert IsHigh(payload[0]) && !IsScalar(payload);
  }

  // ---- The message the producer sends ----

  /** The production message: whatever else its envelope holds, an envelope with a base64 body of a
      payload, plain or as a whole in base64, unwraps to the payload, and parses as the event if the
      payload validates. */
  lemma {:induction false} ProductionMessage(ms: Members, props: Members, payload: string, python: Runtime,
                                             validate: string -> Option<Event>)
    requires WellFormed(Obj(ms), python.limits) && ReadsUtf8(python)
    requires Lookup(ms, "body") == Some(Str(Points(ToBase64(payload)))) && Lookup(ms, "content-type").Some?
    requires Lookup(ms, "content-encoding").None? || Lookup(ms, "content-encoding") == Some(Str(Points("utf-8")))
    requires Lookup(ms, "properties") == Some(Obj(props))
    requires Lookup(props, "body_encoding") == Some(Str(Points("base64")))
    ensures Unwrap(Print(Obj(ms)), python) == Some(Points(payload))
    ensures Unwrap(ToBase64(Print(Obj(ms))), python) == Some(Points(payload))
    ensures var outcome := if validate(payload).Some? then Accepted(validate(payload).value) else Invalid;
            && ParseEvent(Print(Obj(ms)), python, validate) == outcome
            && ParseEvent(ToBase64(Print(Obj(ms))), python, validate) == outcome
  {
    WireRoundTrip(ms, payload, python);
    Validates(Print(Obj(ms)), payload, python, validate);
    Validates(ToBase64(Print(Obj(ms))), payload, python, validate);
  }

  lemma Validates(body: string, payload: string, python: Runtime, validate: string -> Option<Event>)
    requires Unwrap(body, python) == Some(Points(payload))
    ensures ParseEvent(body, python, validate) ==
            if validate(payload).Some? then Accepted(validate(payload).value) else Invalid
  {
    PointsRoundTrip(payload);
  }

  /** A bare event parses if it validates. */
  lemma BareEventParses(payload: string, python: Runtime, validate: string -> Option<Event>)
    requires BareObject(payload, python.limits)
    ensures ParseEvent(payload, python, validate) ==
            if validate(payload).Some? then Accepted(validate(payload).value) else Invalid
  {
    BareObjectUnchanged(payload, python);
    Validates(payload, payload, python, validate);
  }

  function Quoted(t: string): string { "\"" + t + "\"" }

  function Pair(key: string, text: string): string { "\"" + key + "\": " + text }

  /** An object with three texts and an object with one. */
  datatype Layout = Layout(key0: string, text0: string, key1: string, text1: string, key2: string, text2: string,
                           key3: string, key4: string, text4: string) {
    function Inner(): Members { Member(Points(key4), Str(Points(text4)), NoMembers) }

    function Third(): Members { Member(Points(key3), Obj(Inner()), NoMembers) }

    function Second(): Members { Member(Points(key2), Str(Points(text2)), Third()) }

    function First(): Members { Member(Points(key1), Str(Points(text1)), Second()) }

    function All(): Members { Member(Points(key0), Str(Points(text0)), First()) }

    function Text(): string {
      "{" + (Pair(key0, Quoted(text0)) + (", " + (Pair(key1, Quoted(text1)) + (", " + (Pair(key2, Quoted(text2))
      + (", " + Pair(key3, "{" + Pair(key4, Quoted(text4)) + "}"))))))) + "}"
    }

    ghost predicate Valid() {
      && Plain(key0) && Plain(text0) && Plain(key1) && Plain(text1) && Plain(key2) && Plain(text2)
      && Plain(key3) && Plain(key4) && Plain(text4)
    }
  }

  function Production(payload: string): Layout {
    Layout("body", ToBase64(payload), "content-encoding", "utf-8", "content-type", "application/json",
           "properties", "body_encoding", "base64")
  }

  /** The wire text the producer's serializer makes of a payload. */
  function WireText(payload: string): string { Production(payload).Text() }

  /** Text that is printed as it is. */
  predicate Plain(s: string) { forall i :: 0 <= i < |s| ==> ' ' <= s[i] <= '~' && s[i] != '"' && s[i] != '\\' }

  lemma {:induction false} PlainEscapes(s: string)
    requires Plain(s)
    ensures EscapeAll(Points(s)) == s
    decreases |s|
  {
    if s == "" {
    } else {
      PlainEscapes(s[1..]);
      assert Points(s)[1..] == Points(s[1..]);
      assert Escape(Points(s)[0]) == [s[0]];
      assert s == [s[0]] + s[1..];
    }
  }

  lemma {:induction false} ScalarUnsplit(t: Text)
    requires IsScalar(t)
    ensures Unsplit(t)
    decreases |t|
  {
    if |t| < 2 {
    } else {
      ScalarUnsplit(t[1..]);
    }
  }

  lemma PlainIsQuoted(s: string)
    requires Plain(s)
    ensures Quote(Points(s)) == Quoted(s) && Unsplit(Points(s))
  {
    PlainEscapes(s);
    PointsRoundTrip(s);
    ScalarUnsplit(Points(s));
  }

  lemma WireIsPlain(payload: string)
    ensures Plain(ToBase64(payload))
  {
    var text := ToBase64(payload);
    Base64.RoundTrip(Utf8.Encode(payload), true);
    StrictAlphabet(text, OUTSET);
    forall i | 0 <= i < |text| ensures ' ' <= text[i] <= '~' && text[i] != '"' && text[i] != '\\' {
      assert InAlphabet(text[i]);
    }
  }

  lemma {:induction false} PrintedMember(key: string, value: Json, rest: Members)
    requires Plain(key)
    ensures PrintMembers(Member(Points(key), value, rest)) ==
            Pair(key, Print(value)) + if rest.NoMembers? then "" else ", " + PrintMembers(rest)
  {
    PlainIsQuoted(key);
    assert Quoted(key) + ": " == "\"" + key + "\": ";
  }

  lemma {:induction false} PrintedText(key: string, text: string, rest: Members)
    requires Plain(key) && Plain(text)
    ensures PrintMembers(Member(Points(key), Str(Points(text)), rest)) ==
            Pair(key, Quoted(text)) + if rest.NoMembers? then "" else ", " + PrintMembers(rest)
  {
    PrintedMember(key, Str(Points(text)), rest);
    PlainIsQuoted(text);
  }

  lemma {:induction false} InnerPrinted(l: Layout)
    requires l.Valid()
    ensures PrintMembers(l.Third()) == Pair(l.key3, "{" + Pair(l.key4, Quoted(l.text4)) + "}")
  {
    var inner, all := Pair(l.key4, Quoted(l.text4)), Pair(l.key3, Print(Obj(l.Inner())));
    PrintedText(l.key4, l.text4, NoMembers);
    PrintedMember(l.key3, Obj(l.Inner()), NoMembers);
    assert inner + "" == inner && all + "" == all;
  }

  lemma {:induction false} LayoutPrinted(l: Layout)
    requires l.Valid()
    ensures Print(Obj(l.All())) == l.Text()
  {
    InnerPrinted(l);
    PrintedText(l.key2, l.text2, l.Third());
    PrintedText(l.key1, l.text1, l.Second());
    PrintedText(l.key0, l.text0, l.First());
  }

  lemma {:induction false} TextMember(key: string, text: string, rest: Members, lim: Limits)
    requires WellFormedMembers(rest, lim)
    ensures WellFormedMembers(Member(Points(key), Str(Points(text)), rest), lim)
  {
    PointsRoundTrip(key);
    PointsRoundTrip(text);
    ScalarUnsplit(Points(key));
    ScalarUnsplit(Points(text));
  }

  lemma {:induction false} LayoutWellFormed(l: Layout, lim: Limits)
    requires lim.depth >= 2
    ensures WellFormed(Obj(l.All()), lim)
  {
    TextMember(l.key4, l.text4, NoMembers, lim.Inside().Inside());
    PointsRoundTrip(l.key3);
    ScalarUnsplit(Points(l.key3));
    TextMember(l.key2, l.text2, l.Third(), lim.Inside());
    TextMember(l.key1, l.text1, l.Second(), lim.Inside());
    TextMember(l.key0, l.text0, l.First(), lim.Inside());
  }

  lemma {:induction false} LayoutLookups(l: Layout)
    requires |l.key0| != |l.key1| && |l.key0| != |l.key2| && |l.key0| != |l.key3|
    requires |l.key1| != |l.key2| && |l.key1| != |l.key3| && |l.key2| != |l.key3|
    ensures Lookup(l.All(), l.key0) == Some(Str(Points(l.text0)))
    ensures Lookup(l.All(), l.key1) == Some(Str(Points(l.text1)))
    ensures Lookup(l.All(), l.key2) == Some(Str(Points(l.text2)))
    ensures Lookup(l.All(), l.key3) == Some(Obj(l.Inner())) && Lookup(l.Inner(), l.key4) == Some(Str(Points(l.text4)))
  {
    assert Lookup(l.Third(), l.key3) == Some(Obj(l.Inner()));
    assert Lookup(l.Second(), l.key3) == Some(Obj(l.Inner()));
    assert Lookup(l.First(), l.key3) == Some(Obj(l.Inner()));
    LookupNext(l.key0, l.key1, Str(Points(l.text1)), l.Second());
    LookupNext(l.key0, l.key2, Str(Points(l.text2)), l.Third());
    LookupNext(l.key0, l.key3, Obj(l.Inner()), NoMembers);
    LookupNext(l.key1, l.key2, Str(Points(l.text2)), l.Third());
    LookupNext(l.key1, l.key3, Obj(l.Inner()), NoMembers);
    LookupNext(l.key2, l.key3, Obj(l.Inner()), NoMembers);
    assert Lookup(l.Second(), l.key2) == Some(Str(Points(l.text2)));
    assert Lookup(l.First(), l.key2) == Some(Str(Points(l.text2)));
    assert Lookup(l.First(), l.key1) == Some(Str(Points(l.text1)));
  }

  lemma {:induction false} LookupNext(key: string, other: string, value: Json, rest: Members)
    requires |key| != |other|
    ensures Lookup(Member(Points(other), value, rest), key) == Lookup(rest, key)
  {
    assert |Points(key)| == |key| && |Points(other)| == |other|;
  }

  lemma PlainKeys()
    ensures Plain("body") && Plain("content-encoding") && Plain("content-type")
  {
  }

  lemma PlainNames()
    ensures Plain("properties") && Plain("body_encoding")
  {
  }

  lemma PlainTexts()
    ensures Plain("utf-8") && Plain("application/json") && Plain("base64")
  {
  }

  lemma ProductionValid(payload: string)
    ensures Production(payload).Valid()
  {
    WireIsPlain(payload);
    PlainKeys();
    PlainNames();
    PlainTexts();
  }

  /** The very text on the wire, and its base64, parse as the event. */
  lemma WireTextParses(payload: string, python: Runtime, validate: string -> Option<Event>)
    requires ReadsUtf8(python) && python.limits.depth >= 2
    ensures var outcome := if validate(payload).Some? then Accepted(validate(payload).value) else Invalid;
            && ParseEvent(WireText(payload), python, validate) == outcome
            && ParseEvent(ToBase64(WireText(payload)), python, validate) == outcome
  {
    var l := Production(payload);
    ProductionValid(payload);
    LayoutPrinted(l);
    LayoutWellFormed(l, python.limits);
    LayoutLookups(l);
    ProductionMessage(l.All(), l.Inner(), payload, python, validate);
  }

  // ---- Envelopes, by their keys ----

  /** What unwrapping looks at in an object. */
  lemma {:induction false} EnvelopeByKeys(ms: Members, lim: Limits)
    ensures IsEnvelope(Obj(ms)) <==>
            && Lookup(ms, "body").Some? && Lookup(ms, "content-type").Some?
            && Lookup(ms, "properties").Some? && Lookup(ms, "properties").value.Obj?
    ensures IsEnvelope(Obj(ms)) ==>
              var props, encoding := Lookup(ms, "properties").value.members, Lookup(ms, "content-encoding");
              && (BodyIsBase64(Obj(ms)) <==> Lookup(props, "body_encoding") == Some(Str(Points("base64"))))
              && (encoding.None? || Falsy(encoding.value, lim) ==> Encoding(Obj(ms), lim) == Str(Points("utf-8")))
              && (encoding.Some? && !Falsy(encoding.value, lim) ==> Encoding(Obj(ms), lim) == encoding.value)
  {
  }

  /** An envelope whose body is not declared to be base64 unwraps to its body: the text itself if it is a
      string, and its printed form if it is anything else. */
  lemma {:induction false} OtherBodyUnwraps(ms: Members, props: Members, python: Runtime)
    requires WellFormed(Obj(ms), python.limits)
    requires Lookup(ms, "body").Some? && Lookup(ms, "content-type").Some?
    requires Lookup(ms, "properties") == Some(Obj(props))
    requires Lookup(props, "body_encoding") != Some(Str(Points("base64")))
    ensures var body := Lookup(ms, "body").value;
            Unwrap(Print(Obj(ms)), python) == Some(if body.Str? then body.text else Points(Print(body)))
  {
    JsonText.RoundTrip(Obj(ms), python.limits);
  }

  /** The keys and values of an object, in order. */
  function Pairs(ms: Members): seq<(Text, Json)> {
    if ms.NoMembers? then [] else [(ms.key, ms.value)] + Pairs(ms.rest)
  }

  ghost predicate Absent(pairs: seq<(Text, Json)>, key: Text) { forall i :: 0 <= i < |pairs| ==> pairs[i].0 != key }

  /** The last pair with the key has the value. */
  ghost predicate LastHas(pairs: seq<(Text, Json)>, key: Text, v: Json) {
    exists i :: 0 <= i < |pairs| && pairs[i] == (key, v) && Absent(pairs[i + 1..], key)
  }

  lemma OneMorePair(first: (Text, Json), rest: seq<(Text, Json)>, key: Text)
    ensures Absent(rest, key) && first.0 != key ==> Absent([first] + rest, key)
    ensures Absent(rest, key) && first.0 == key ==> LastHas([first] + rest, key, first.1)
    ensures forall v :: LastHas(rest, key, v) ==> LastHas([first] + rest, key, v)
  {
    var all := [first] + rest;
    assert all[0] == first && all[1..] == rest;
    forall v | LastHas(rest, key, v) ensures LastHas(all, key, v) {
      var i :| 0 <= i < |rest| && rest[i] == (key, v) && Absent(rest[i + 1..], key);
      assert all[i + 1] == rest[i] && all[i + 1 + 1..] == rest[i + 1..];
    }
  }

  /** A lookup finds the last value of a key. */
  lemma {:induction false} LookupIsLast(ms: Members, key: string)
    ensures match Lookup(ms, key)
            case None => Absent(Pairs(ms), Points(key))
            case Some(v) => LastHas(Pairs(ms), Points(key), v)
  {
    if ms.NoMembers? {
    } else {
      LookupIsLast(ms.rest, key);
      OneMorePair((ms.key, ms.value), Pairs(ms.rest), Points(key));
    }
  }

  // ---- Falsy values and zeros ----

  /** The values that are false: null, false, the empty string, the empty containers, and the numbers read as
      zero. */
  lemma FalsyExactly(v: Json, lim: Limits)
    ensures Falsy(v, lim) <==>
            v == Null || v == Bool(false) || v == Str([]) || v == Arr(NoItems) || v == Obj(NoMembers)
            || (v.Num? && IsZero(v.lexeme, lim.tiny))
  {
  }

  lemma {:induction false} MantissaZero(s: string, acc: nat)
    ensures Mantissa(s, acc) == 0 <==> acc == 0 && Mantissa(s, 0) == 0
    decreases |s|
  {
    if StartsExponent(s) {
    } else {
      MantissaZero(s[1..], if IsDigit(s[0]) then 10 * acc + (s[0] as int - '0' as int) else acc);
      MantissaZero(s[1..], if IsDigit(s[0]) then s[0] as int - '0' as int else 0);
    }
  }

  /** A number is read as zero if its digits before the exponent are zeros; and one tenth, written either
      way, only if the smallest float is that large. */
  lemma {:induction false} ZeroSamples(tiny: nat)
    ensures IsZero("0", tiny) && IsZero("-0.00", tiny) && IsZero("0e5", tiny)
    ensures !IsZero("1", tiny) && !IsZero("20", tiny) && !IsZero("3e0", tiny)
    ensures IsZero("1e-1", tiny) <==> Power(2, tiny) <= 10
    ensures IsZero("0.1", tiny) <==> Power(2, tiny) <= 10
  {
    ZeroDigits();
    SomeDigits();
    OneTenth();
    assert Power(10, 1) == 10 * Power(10, 0);
  }

  lemma ZeroDigits()
    ensures Mantissa("0", 0) == 0 && Mantissa("-0.00", 0) == 0 && Mantissa("0e5", 0) == 0
  {
    assert "0"[1..] == "" && "0e5"[1..] == "e5";
    assert "-0.00"[1..] == "0.00" && "0.00"[1..] == ".00" && ".00"[1..] == "00" && "00"[1..] == "0";
  }

  lemma SomeDigits()
    ensures Mantissa("1", 0) == 1 && ExponentOf("1") == 0 && Places("1", false) == 0
    ensures Mantissa("20", 0) == 20 && ExponentOf("20") == 0 && Places("20", false) == 0
    ensures Mantissa("3e0", 0) == 3 && ExponentOf("3e0") == 0 && Places("3e0", false) == 0
  {
    assert "1"[1..] == "" && "20"[1..] == "0" && "0"[1..] == "" && "3e0"[1..] == "e0" && "e0"[1..] == "0";
  }

  lemma OneTenth()
    ensures Mantissa("1e-1", 0) == 1 && ExponentOf("1e-1") == -1 && Places("1e-1", false) == 0
    ensures Mantissa("0.1", 0) == 1 && ExponentOf("0.1") == 0 && Places("0.1", false) == 1
  {
    assert "1e-1"[1..] == "e-1" && "e-1"[2..] == "1" && "1"[1..] == "";
    assert "0.1"[1..] == ".1" && ".1"[1..] == "1";
  }
}
