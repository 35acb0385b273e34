/** Python strings: sequences of code points, unpaired surrogates included. Text that has been decoded
    from UTF-8 has none of those and is a `string` here. */
module Text {
  type Point = n: int | 0 <= n < 0x110000

  type Text = seq<Point>

  predicate IsHigh(p: int) { 0xD800 <= p < 0xDC00 }

  predicate IsLow(p: int) { 0xDC00 <= p < 0xE000 }

  function Points(s: string): Text { seq(|s|, i requires 0 <= i < |s| => s[i] as int) }

  /** The text has no surrogates. */
  predicate IsScalar(t: Text) { forall i :: 0 <= i < |t| ==> !IsHigh(t[i]) && !IsLow(t[i]) }

  function Chars(t: Text): string
    requires IsScalar(t)
  {
    seq(|t|, i requires 0 <= i < |t| => t[i] as char)
  }

  lemma PointsRoundTrip(s: string)
    ensures IsScalar(Points(s)) && Chars(Points(s)) == s
  {
  }

  lemma CharsRoundTrip(t: Text)
    requires IsScalar(t)
    ensures Points(Chars(t)) == t
  {
  }

  lemma PointsInjective(s: string, t: string)
    requires Points(s) == Points(t)
    ensures s == t
  {
    PointsRoundTrip(s);
    PointsRoundTrip(t);
  }
}
