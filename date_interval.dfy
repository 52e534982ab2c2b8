/**
 * The `DateInterval` value of the service: a pair of dates read as the half-open
 * range `[start, end)`, and its text form `"[start,end)"`.
 */
module DateIntervals {
  import opened DateText

  /**
   * A start and an end day. The class is a plain two-field value whose equality
   * is field by field; a Dafny datatype has exactly that equality.
   */
  datatype DateInterval = DateInterval(start: int, end: int)

  lemma IntervalEquality(a: DateInterval, b: DateInterval)
    ensures a == b <==> (a.start == b.start && a.end == b.end)
  {
  }

  /** `toString`: an opening bracket, the start, a comma, the end and a closing parenthesis. */
  function ToText(codec: DateCodec, interval: DateInterval): (text: string)
    ensures |text| >= 3 && text[0] == '[' && text[|text| - 1] == ')'
  {
    "[" + codec.format(interval.start) + "," + codec.format(interval.end) + ")"
  }

  /** The number of occurrences of `c` in `s`. */
  function CountChar(s: string, c: char): (n: nat)
    ensures n <= |s|
    ensures n == 0 <==> c !in s
  {
    if s == [] then 0 else (if s[0] == c then 1 else 0) + CountChar(s[1..], c)
  }

  lemma {:induction false} CountCharConcat(a: string, b: string, c: char)
    ensures CountChar(a + b, c) == CountChar(a, c) + CountChar(b, c)
    decreases |a|
  {
    if a == [] {
      assert a + b == b;
    } else {
      assert (a + b)[1..] == a[1..] + b;
      CountCharConcat(a[1..], b, c);
    }
  }

  /**
   * When neither date text holds a comma, the text holds exactly one comma, and it
   * sits between the start text and the end text.
   */
  lemma ToTextSingleComma(codec: DateCodec, interval: DateInterval)
    requires ',' !in codec.format(interval.start) && ',' !in codec.format(interval.end)
    ensures var text := ToText(codec, interval);
      var k := |codec.format(interval.start)| + 1;
      && CountChar(text, ',') == 1
      && text[k] == ','
      && text[1..k] == codec.format(interval.start)
      && text[k + 1..|text| - 1] == codec.format(interval.end)
  {
    var s, e := codec.format(interval.start), codec.format(interval.end);
    var opening, closing := "[" + s + ",", e + ")";
    var text := ToText(codec, interval);
    assert text == opening + closing by {
      assert text == opening + e + ")";
      ConcatAssoc(opening, e, ")");
    }
    CountCharConcat(opening, closing, ',');
    CountCharConcat("[" + s, ",", ',');
    CountCharConcat("[", s, ',');
    CountCharConcat(e, ")", ',');
    var k := |s| + 1;
    assert text[..|opening|] == opening;
    assert text[|opening|..] == closing;
    assert opening[1..k] == s;
    assert closing[..|e|] == e;
  }

  lemma ConcatAssoc(a: string, b: string, c: string)
    ensures a + b + c == a + (b + c)
  {
  }

  /** With a valid codec the comma-separation always holds. */
  lemma ValidCodecSingleComma(codec: DateCodec, interval: DateInterval)
    requires ValidCodec(codec)
    ensures CountChar(ToText(codec, interval), ',') == 1
  {
    ValidCodecFacts(codec, interval.start);
    ValidCodecFacts(codec, interval.end);
    ToTextSingleComma(codec, interval);
  }
}
