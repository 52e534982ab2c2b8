/**
 * Date text versus day number.
 *
 * The service writes a date with `LocalDate.toString` and reads one back with
 * `LocalDate.parse`. Calendar text is not modelled: a `DateCodec` is any pair of
 * functions between day numbers and text that behaves like that pair in the ways
 * the range format relies on (`ValidCodec`). `DecimalCodec` is one such pair,
 * writing a day number in signed decimal, and shows the conditions can be met.
 */
module DateText {
  import opened Wrappers

  /** A way of writing day numbers as text and reading them back. */
  datatype DateCodec = DateCodec(format: int -> string, parse: string -> Option<int>)

  /** The characters an ISO local date is written with: digits, '-' and a leading '+'. */
  predicate DateChar(c: char) {
    ('0' <= c <= '9') || c == '-' || c == '+'
  }

  predicate AllDateChars(s: string) {
    forall i :: 0 <= i < |s| ==> DateChar(s[i])
  }

  /**
   * What the range format needs of date text: it is never empty, it uses none of
   * the delimiters '[', ',', ')' or ' ', and parsing it gives the date back.
   */
  ghost predicate ValidCodec(codec: DateCodec) {
    forall d: int ::
      && |codec.format(d)| > 0
      && AllDateChars(codec.format(d))
      && codec.parse(codec.format(d)) == Some(d)
  }

  lemma ValidCodecFacts(codec: DateCodec, d: int)
    requires ValidCodec(codec)
    ensures |codec.format(d)| > 0
    ensures ',' !in codec.format(d) && '[' !in codec.format(d)
    ensures ')' !in codec.format(d) && ' ' !in codec.format(d)
    ensures codec.parse(codec.format(d)) == Some(d)
  {
    assert AllDateChars(codec.format(d));
  }

  // ---------------------------------------------------------------------------
  // A concrete codec: signed decimal day numbers.

  predicate IsDigit(c: char) {
    '0' <= c <= '9'
  }

  function DigitChar(n: nat): (c: char)
    requires n < 10
    ensures IsDigit(c) && c as int - '0' as int == n
  {
    (48 + n) as char
  }

  /** The decimal digits of `n`, most significant first. */
  function Digits(n: nat): (s: string)
    ensures |s| > 0
    ensures forall i :: 0 <= i < |s| ==> IsDigit(s[i])
    decreases n
  {
    if n < 10 then [DigitChar(n)] else Digits(n / 10) + [DigitChar(n % 10)]
  }

  /** Reads a non-empty run of decimal digits. */
  function ParseDigits(s: string): (r: Option<nat>)
    ensures r.Some? ==> |s| > 0
    decreases |s|
  {
    if |s| == 0 || !IsDigit(s[|s| - 1]) then None
    else
      var last := s[|s| - 1] as int - '0' as int;
      if |s| == 1 then Some(last)
      else match ParseDigits(s[..|s| - 1])
        case None => None
        case Some(high) => Some(10 * high + last)
  }

  lemma {:induction false} DigitsRoundTrip(n: nat)
    ensures ParseDigits(Digits(n)) == Some(n)
    decreases n
  {
    if n >= 10 {
      var s := Digits(n);
      assert s[..|s| - 1] == Digits(n / 10);
      DigitsRoundTrip(n / 10);
    }
  }

  function FormatDay(d: int): string {
    if d < 0 then "-" + Digits(-d) else Digits(d)
  }

  function ParseDay(s: string): Option<int> {
    if |s| > 0 && s[0] == '-' then
      match ParseDigits(s[1..])
      case None => None
      case Some(v) => Some(-(v as int))
    else
      match ParseDigits(s)
      case None => None
      case Some(v) => Some(v as int)
  }

  lemma DayRoundTrip(d: int)
    ensures |FormatDay(d)| > 0 && AllDateChars(FormatDay(d))
    ensures ParseDay(FormatDay(d)) == Some(d)
  {
    if d < 0 {
      assert FormatDay(d)[1..] == Digits(-d);
      DigitsRoundTrip(-d);
    } else {
      DigitsRoundTrip(d);
      assert Digits(d)[0] != '-';
    }
  }

  function DecimalCodec(): (codec: DateCodec)
    ensures ValidCodec(codec)
  {
    var c := DateCodec(FormatDay, ParseDay);
    assert ValidCodec(c) by {
      forall d: int
        ensures |c.format(d)| > 0 && AllDateChars(c.format(d)) && c.parse(c.format(d)) == Some(d)
      {
        DayRoundTrip(d);
      }
    }
    c
  }
}
