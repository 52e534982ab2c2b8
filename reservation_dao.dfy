/**
 * Reading a stored date range back from its text form `"[start,end)"`
 * (`ReservationDAO.parsePeriodFromDateRangeString`). The text functions of
 * `java.lang.String` that it uses are modelled on `seq<char>`: `replace` with an
 * empty replacement and `split` on a single ordinary character.
 */
module ReservationDAO {
  import opened Wrappers
  import opened DateText
  import opened DateIntervals

  /** `s.replace(c, "")`: every occurrence of `c` removed, the other characters kept in order. */
  function RemoveAll(s: string, c: char): (r: string)
    ensures c !in r
    ensures |r| <= |s|
    decreases |s|
  {
    if s == [] then [] else (if s[0] == c then [] else [s[0]]) + RemoveAll(s[1..], c)
  }

  /** Every other character occurs in the result exactly when it occurs in the input. */
  lemma {:induction false} RemoveAllMembers(s: string, c: char, x: char)
    requires x != c
    ensures x in RemoveAll(s, c) <==> x in s
    decreases |s|
  {
    if s != [] {
      RemoveAllMembers(s[1..], c, x);
      assert s == [s[0]] + s[1..];
    }
  }

  lemma {:induction false} RemoveAllConcat(a: string, b: string, c: char)
    ensures RemoveAll(a + b, c) == RemoveAll(a, c) + RemoveAll(b, c)
    decreases |a|
  {
    if a == [] {
      assert a + b == b;
    } else {
      var head := if a[0] == c then [] else [a[0]];
      assert (a + b)[0] == a[0];
      assert (a + b)[1..] == a[1..] + b;
      calc {
        RemoveAll(a + b, c);
        head + RemoveAll(a[1..] + b, c);
        { RemoveAllConcat(a[1..], b, c); }
        head + (RemoveAll(a[1..], c) + RemoveAll(b, c));
        { ConcatAssoc(head, RemoveAll(a[1..], c), RemoveAll(b, c)); }
        RemoveAll(a, c) + RemoveAll(b, c);
      }
    }
  }

  /** Removing a character that does not occur changes nothing. */
  lemma {:induction false} RemoveAllAbsent(s: string, c: char)
    requires c !in s
    ensures RemoveAll(s, c) == s
    decreases |s|
  {
    if s != [] {
      RemoveAllAbsent(s[1..], c);
    }
  }

  /** The pieces of `s` separated by `sep`, including empty ones. */
  function Pieces(s: string, sep: char): (r: seq<string>)
    ensures |r| == CountChar(s, sep) + 1
    ensures forall i :: 0 <= i < |r| ==> sep !in r[i]
    ensures Join(r, sep) == s
    decreases |s|
  {
    if s == [] then [""]
    else
      var rest := Pieces(s[1..], sep);
      if s[0] == sep then
        assert Join([""] + rest, sep) == [sep] + s[1..];
        [""] + rest
      else
        var r := [[s[0]] + rest[0]] + rest[1..];
        assert r[1..] == rest[1..];
        assert Join(r, sep) == [s[0]] + Join(rest, sep);
        r
  }

  /** The partner of `Pieces`: the pieces put back together with the separator between them. */
  function Join(pieces: seq<string>, sep: char): string
    decreases |pieces|
  {
    if |pieces| == 0 then ""
    else if |pieces| == 1 then pieces[0]
    else pieces[0] + [sep] + Join(pieces[1..], sep)
  }

  lemma {:induction false} PiecesAfterSeparator(a: string, sep: char, b: string)
    requires sep !in a
    ensures Pieces(a + [sep] + b, sep) == [a] + Pieces(b, sep)
    decreases |a|
  {
    var s := a + [sep] + b;
    if a == [] {
      assert s[1..] == b;
    } else {
      assert s[0] == a[0] && s[1..] == a[1..] + [sep] + b;
      PiecesAfterSeparator(a[1..], sep, b);
      var rest := Pieces(s[1..], sep);
      assert rest == [a[1..]] + Pieces(b, sep);
      assert rest[0] == a[1..] && rest[1..] == Pieces(b, sep);
      assert [a[0]] + a[1..] == a;
    }
  }

  /** Splitting undoes joining pieces that hold no separator. */
  lemma {:induction false} PiecesOfJoin(pieces: seq<string>, sep: char)
    requires |pieces| >= 1
    requires forall i :: 0 <= i < |pieces| ==> sep !in pieces[i]
    ensures Pieces(Join(pieces, sep), sep) == pieces
    decreases |pieces|
  {
    if |pieces| == 1 {
      var r := Pieces(pieces[0], sep);
      assert |r| == 1;
    } else {
      PiecesOfJoin(pieces[1..], sep);
      PiecesAfterSeparator(pieces[0], sep, Join(pieces[1..], sep));
      assert [pieces[0]] + pieces[1..] == pieces;
    }
  }

  /** The trailing empty strings of `pieces` removed. */
  function DropTrailingEmpty(pieces: seq<string>): (r: seq<string>)
    ensures |r| <= |pieces| && r == pieces[..|r|]
    ensures |r| == 0 || r[|r| - 1] != ""
    ensures forall i :: |r| <= i < |pieces| ==> pieces[i] == ""
    decreases |pieces|
  {
    if |pieces| > 0 && pieces[|pieces| - 1] == "" then DropTrailingEmpty(pieces[..|pieces| - 1])
    else pieces
  }

  /**
   * `s.split(sep)` for a separator that is not a regular-expression metacharacter:
   * a text without the separator is its own single piece (even the empty text);
   * otherwise the pieces, with trailing empty pieces dropped.
   */
  function Split(s: string, sep: char): (r: seq<string>)
    ensures sep !in s ==> r == [s]
    ensures forall i :: 0 <= i < |r| ==> sep !in r[i]
    ensures sep in s ==> var p := Pieces(s, sep);
      && |r| <= |p| && r == p[..|r|]
      && (|r| == 0 || r[|r| - 1] != "")
      && (forall i :: |r| <= i < |p| ==> p[i] == "")
  {
    if sep !in s then [s] else DropTrailingEmpty(Pieces(s, sep))
  }

  /** The date texts of a range text: brackets removed, then split on commas. */
  function DatePieces(dateRange: string): (r: seq<string>)
    ensures forall i :: 0 <= i < |r| ==> '[' !in r[i] && ')' !in r[i]
    ensures ',' !in dateRange ==> |r| == 1
  {
    var cleaned := RemoveAll(RemoveAll(dateRange, '['), ')');
    var r := Split(cleaned, ',');
    RemoveAllMembers(RemoveAll(dateRange, '['), ')', '[');
    RemoveAllMembers(dateRange, '[', ',');
    RemoveAllMembers(RemoveAll(dateRange, '['), ')', ',');
    PiecesHaveNoOtherChars(cleaned, ',', '[');
    PiecesHaveNoOtherChars(cleaned, ',', ')');
    r
  }

  /** A character missing from a text is missing from each of its pieces. */
  lemma PiecesHaveNoOtherChars(s: string, sep: char, c: char)
    requires c !in s
    ensures forall i :: 0 <= i < |Pieces(s, sep)| ==> c !in Pieces(s, sep)[i]
  {
    var p := Pieces(s, sep);
    forall i | 0 <= i < |p|
      ensures c !in p[i]
    {
      JoinContainsPieces(p, sep, i);
    }
  }

  lemma {:induction false} JoinContainsPieces(pieces: seq<string>, sep: char, i: nat)
    requires i < |pieces|
    ensures forall x :: x in pieces[i] ==> x in Join(pieces, sep)
    decreases |pieces|
  {
    if |pieces| > 1 && i > 0 {
      JoinContainsPieces(pieces[1..], sep, i - 1);
    }
  }

  /** Why a range text could not be read. */
  datatype ParseError =
    | MissingPiece(index: nat)        // `stringDates[index]` is out of bounds
    | UnparsableDate(text: string)    // `LocalDate.parse` rejected the text

  /**
   * `parsePeriodFromDateRangeString`: the first piece is the start; the second
   * piece is the exclusive end, so the interval it returns ends one day earlier.
   * Failures come in source order: piece 0, its parse, piece 1, its parse.
   */
  function ParsePeriod(codec: DateCodec, dateRange: string): (r: Result<DateInterval, ParseError>)
    ensures var p := DatePieces(dateRange);
      r.Success? <==> |p| >= 2 && codec.parse(p[0]).Some? && codec.parse(p[1]).Some?
    ensures var p := DatePieces(dateRange);
      r.Success? ==> r.value == DateInterval(codec.parse(p[0]).value, codec.parse(p[1]).value - 1)
    ensures var p := DatePieces(dateRange);
      |p| == 0 ==> r == Failure(MissingPiece(0))
    ensures var p := DatePieces(dateRange);
      |p| == 1 && codec.parse(p[0]).Some? ==> r == Failure(MissingPiece(1))
  {
    var stringDates := DatePieces(dateRange);
    if |stringDates| == 0 then Failure(MissingPiece(0))
    else match codec.parse(stringDates[0])
      case None => Failure(UnparsableDate(stringDates[0]))
      case Some(start) =>
        if |stringDates| < 2 then Failure(MissingPiece(1))
        else match codec.parse(stringDates[1])
          case None => Failure(UnparsableDate(stringDates[1]))
          case Some(end) => Success(DateInterval(start, end - 1))
  }

  /** A text without a comma never yields an interval: there is no second piece. */
  lemma ParseWithoutCommaFails(codec: DateCodec, dateRange: string)
    requires ',' !in dateRange
    ensures ParsePeriod(codec, dateRange).Failure?
  {
  }

  /** Reading back what `toString` wrote gives the same start and the inclusive end. */
  lemma ParseToTextRoundTrip(codec: DateCodec, interval: DateInterval)
    requires ValidCodec(codec)
    ensures ParsePeriod(codec, ToText(codec, interval)) == Success(DateInterval(interval.start, interval.end - 1))
  {
    var s, e := codec.format(interval.start), codec.format(interval.end);
    ValidCodecFacts(codec, interval.start);
    ValidCodecFacts(codec, interval.end);
    DatePiecesOfText(s, e);
  }

  /** The range text of two date texts without delimiters splits into exactly those two texts. */
  lemma DatePiecesOfText(s: string, e: string)
    requires '[' !in s && ')' !in s && ',' !in s
    requires '[' !in e && ')' !in e && ',' !in e && e != ""
    ensures DatePieces("[" + s + "," + e + ")") == [s, e]
  {
    var cleaned := s + [','] + e;
    StripBrackets(s, e);
    assert cleaned == Join([s, e], ',');
    PiecesOfJoin([s, e], ',');
    assert cleaned[|s|] == ',';
  }

  /** The two `replace` calls turn `"[s,e)"` into `"s,e"` when `s` and `e` hold no bracket. */
  lemma StripBrackets(s: string, e: string)
    requires '[' !in s && ')' !in s && '[' !in e && ')' !in e
    ensures RemoveAll(RemoveAll("[" + s + "," + e + ")", '['), ')') == s + [','] + e
  {
    var mid := s + [','] + e;
    var tail := mid + [')'];
    calc {
      "[" + s + "," + e + ")";
      { ConcatAssoc("[", s, ","); }
      "[" + (s + ",") + e + ")";
      { ConcatAssoc("[", s + ",", e); }
      "[" + mid + ")";
      { ConcatAssoc("[", mid, ")"); }
      ['['] + tail;
    }
    StripOpening(tail);
    StripClosing(mid);
  }

  lemma StripOpening(tail: string)
    requires '[' !in tail
    ensures RemoveAll(['['] + tail, '[') == tail
  {
    assert (['['] + tail)[1..] == tail;
    RemoveAllAbsent(tail, '[');
  }

  lemma StripClosing(mid: string)
    requires ')' !in mid
    ensures RemoveAll(mid + [')'], ')') == mid
  {
    RemoveAllConcat(mid, [')'], ')');
    RemoveAllAbsent(mid, ')');
  }

  /**
   * The exclusive-to-inclusive conversion: an inclusive interval `p`, written with
   * its exclusive end `p.end + 1`, is read back as `p`.
   */
  lemma ParseInclusiveRoundTrip(codec: DateCodec, p: DateInterval)
    requires ValidCodec(codec)
    ensures ParsePeriod(codec, ToText(codec, DateInterval(p.start, p.end + 1))) == Success(p)
  {
    ParseToTextRoundTrip(codec, DateInterval(p.start, p.end + 1));
  }
}
