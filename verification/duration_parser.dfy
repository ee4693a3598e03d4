/**
 * `parse_duration` (bike.py:104-129): a typed duration in hours, given as a
 * plain number, as `H:M` or as `HhM`.
 */
module DurationParser {
  import opened Results
  import opened Digits
  import Floats

  /** `MINUTES_PER_HOUR` (bike.py:46). */
  const MinutesPerHour: real := 60.0

  /** `ValueError('Invalid duration string')`, or the ValueError of `float()`. */
  datatype DurationError = InvalidDurationString | NotANumber

  // ----- str.split with an explicit separator -----

  /** `s.split(sep)`: the pieces between occurrences of `sep`. */
  function Split(s: string, sep: char): (parts: seq<string>)
    ensures parts != []
    ensures forall i :: 0 <= i < |parts| ==> sep !in parts[i]
    decreases |s|
  {
    if sep !in s then [s]
    else
      var i := Floats.IndexOf(s, sep);
      [s[..i]] + Split(s[i + 1..], sep)
  }

  /** `sep.join(parts)`. */
  function Join(parts: seq<string>, sep: char): string
    requires parts != []
  {
    if |parts| == 1 then parts[0] else parts[0] + [sep] + Join(parts[1..], sep)
  }

  lemma {:induction false} JoinSplit(s: string, sep: char)
    ensures Join(Split(s, sep), sep) == s
    decreases |s|
  {
    if sep in s {
      var i := Floats.IndexOf(s, sep);
      JoinSplit(s[i + 1..], sep);
      assert s == s[..i] + [sep] + s[i + 1..];
    }
  }

  lemma {:induction false} SplitJoin(parts: seq<string>, sep: char)
    requires parts != []
    requires forall i :: 0 <= i < |parts| ==> sep !in parts[i]
    ensures Split(Join(parts, sep), sep) == parts
  {
    if |parts| > 1 {
      var s := Join(parts, sep);
      Floats.IndexOfAfterPrefix(parts[0], sep, Join(parts[1..], sep));
      assert s[..|parts[0]|] == parts[0];
      assert s[|parts[0]| + 1..] == Join(parts[1..], sep);
      SplitJoin(parts[1..], sep);
    }
  }

  /** The separator occurs in the text, so `split` gives at least two pieces:
      the one-piece branch of `parse_duration` (bike.py:124-125) is dead. */
  lemma SplitAtSeparator(s: string, sep: char)
    requires sep in s
    ensures |Split(s, sep)| >= 2
  {
  }

  // ----- parse_duration -----

  /** The first piece, or nothing when there is none. */
  function First(parts: seq<string>): string {
    if parts == [] then "" else parts[0]
  }

  /** `float(hours) + float(minutes) / MINUTES_PER_HOUR`; the sum becomes a float,
      so it is rounded. */
  function HoursAndMinutes(hours: string, minutes: string): Result<Floats.Float, DurationError> {
    match Floats.Parse(hours)
    case None => Err(NotANumber)
    case Some(h) =>
      match Floats.Parse(minutes)
      case None => Err(NotANumber)
      case Some(m) => Ok(Hours(h, m))
  }

  /** `hours + minutes / 60` as a float: within rounding distance of the exact sum. */
  function Hours(hours: Floats.Float, minutes: Floats.Float): (r: Floats.Float)
    ensures var exact := hours.Value() + minutes.Value() / MinutesPerHour;
      -1.0 / (2 * Floats.GridSteps) as real <= r.Value() - exact <= 1.0 / (2 * Floats.GridSteps) as real
  {
    Floats.Round(hours.Value() + minutes.Value() / MinutesPerHour)
  }

  function ParseDuration(text: string): (r: Result<Floats.Float, DurationError>)
    ensures Floats.Parse(Floats.Strip(text)).Some? ==> r == Ok(Floats.Parse(Floats.Strip(text)).value)
    ensures r.Ok? && Floats.Parse(Floats.Strip(text)).None? ==>
              ':' in Floats.Strip(text) || 'h' in Floats.Strip(text)
  {
    var s := Floats.Strip(text);
    match Floats.Parse(s)
    case Some(d) => Ok(d)
    case None =>
      if ':' in s || 'h' in s then
        var sep := if ':' in s then ':' else 'h';
        var parts := Split(s, sep);
        if |parts| == 2 then HoursAndMinutes(parts[0], parts[1])
        else if |parts| == 1 then
          // minutes default to 0.0; never taken, see SplitAtSeparator
          match Floats.Parse(First(parts))
          case None => Err(NotANumber)
          case Some(h) => Ok(Floats.Round(h.Value()))
        else Err(InvalidDurationString)
      else Err(InvalidDurationString)
  }

  // ----- what it accepts and rejects -----

  /** A character that cannot occur in decimal notation. */
  predicate Foreign(c: char) {
    !IsDigit(c) && c != '.' && c != '-' && c != '+' && !Floats.IsSpace(c)
  }

  lemma UnsignedRejects(body: string, k: nat)
    requires k < |body| && Foreign(body[k])
    ensures Floats.Unsigned(body) == None
  {
    if '.' in body {
      var i := Floats.IndexOf(body, '.');
      if k < i {
        assert body[..i][k] == body[k];
      } else {
        assert body[i + 1..][k - i - 1] == body[k];
      }
    }
  }

  /** Text holding a character foreign to decimal notation is not a float. */
  lemma ParseRejects(s: string, k: nat)
    requires Floats.Trimmed(s) && k < |s| && Foreign(s[k])
    ensures Floats.Parse(s) == None
  {
    if s[0] == '-' || s[0] == '+' {
      assert k > 0;
      assert s[1..][k - 1] == s[k];
      UnsignedRejects(s[1..], k - 1);
      Floats.StripUnchanged(s);
      ParseSignedBody(s);
    } else {
      UnsignedRejects(s, k);
      Floats.StripUnchanged(s);
      ParseUnsignedBody(s);
    }
  }

  lemma ParseSignedBody(s: string)
    requires Floats.Strip(s) == s && s != [] && (s[0] == '-' || s[0] == '+')
    requires Floats.Unsigned(s[1..]) == None
    ensures Floats.Parse(s) == None
  {
  }

  lemma ParseUnsignedBody(s: string)
    requires Floats.Strip(s) == s && s != [] && s[0] != '-' && s[0] != '+'
    requires Floats.Unsigned(s) == None
    ensures Floats.Parse(s) == None
  {
  }

  lemma ShowHasNoSeparator(d: Floats.Float, sep: char)
    requires sep == ':' || sep == 'h'
    ensures sep !in Floats.Show(d)
  {
    var ip, fp := Floats.IntPart(d), Floats.FracPart(d);
    assert Floats.Magnitude(d) == ip + "." + fp;
    assert sep !in ip && sep !in fp;
  }

  lemma TrimmedJoin(a: string, b: string)
    requires Floats.Trimmed(a) && (b == [] || !Floats.IsSpace(b[|b| - 1]))
    ensures Floats.Trimmed(a + b)
  {
    var s := a + b;
    assert s[0] == a[0];
    if b != [] {
      assert s[|s| - 1] == b[|b| - 1];
    }
  }

  lemma ShowEnds(d: Floats.Float)
    ensures Floats.Trimmed(Floats.Show(d))
  {
    var m := Floats.Magnitude(d);
    var s := Floats.Show(d);
    if d.mantissa < 0 {
      assert s == "-" + m && s[|s| - 1] == m[|m| - 1];
    }
  }

  /** A number of hours written as `str` of a float is returned unchanged. */
  lemma ParsePlainNumber(d: Floats.Float)
    ensures ParseDuration(Floats.Show(d)) == Ok(d)
  {
    ShowEnds(d);
    Floats.StripUnchanged(Floats.Show(d));
    Floats.ParseShow(d);
  }

  /** Text made of two pieces around one separator is split there and both
      pieces are read as floats. */
  lemma TwoPieces(a: string, b: string, sep: char)
    requires sep == ':' || sep == 'h'
    requires sep !in a && sep !in b && (sep == 'h' ==> ':' !in a && ':' !in b)
    requires Floats.Trimmed(a + [sep] + b)
    ensures ParseDuration(a + [sep] + b) == HoursAndMinutes(a, b)
  {
    var s := a + [sep] + b;
    assert s[|a|] == sep;
    ParseRejects(s, |a|);
    Floats.StripUnchanged(s);
    if sep == 'h' {
      assert ':' !in s;
    }
    SplitJoin([a, b], sep);
    assert Join([a, b], sep) == s;
  }

  lemma HoursAndMinutesOfShow(h: Floats.Float, m: Floats.Float)
    ensures HoursAndMinutes(Floats.Show(h), Floats.Show(m)) == Ok(Hours(h, m))
  {
    Floats.ParseShow(h);
    Floats.ParseShow(m);
  }

  /** `str` of two floats around a separator meets the conditions of `TwoPieces`. */
  lemma ShowPieces(h: Floats.Float, b: string, sep: char)
    requires sep == ':' || sep == 'h'
    requires sep !in b && ':' !in b && (b == [] || !Floats.IsSpace(b[|b| - 1]))
    ensures var a := Floats.Show(h);
      && sep !in a && (sep == 'h' ==> ':' !in a)
      && Floats.Trimmed(a + [sep] + b)
  {
    var a := Floats.Show(h);
    ShowEnds(h);
    TrimmedJoin(a, [sep] + b);
    assert a + [sep] + b == a + ([sep] + b);
    ShowHasNoSeparator(h, ':');
    ShowHasNoSeparator(h, sep);
  }

  /** `H:M` and `HhM` give H + M/60 hours (rounded to a float). */
  lemma ParseHoursMinutes(h: Floats.Float, m: Floats.Float, sep: char)
    requires sep == ':' || sep == 'h'
    ensures ParseDuration(Floats.Show(h) + [sep] + Floats.Show(m)) == Ok(Hours(h, m))
  {
    var b := Floats.Show(m);
    ShowEnds(m);
    ShowHasNoSeparator(m, ':');
    ShowHasNoSeparator(m, sep);
    ShowPieces(h, b, sep);
    TwoPieces(Floats.Show(h), b, sep);
    HoursAndMinutesOfShow(h, m);
  }

  /** `HHh` and `HH:` are rejected: the empty minutes piece is not a float. The
      doc-comment of `parse_duration` (bike.py:107-108) promises otherwise. */
  lemma EmptyMinutesRejected(h: Floats.Float, sep: char)
    requires sep == ':' || sep == 'h'
    ensures ParseDuration(Floats.Show(h) + [sep]) == Err(NotANumber)
  {
    var a := Floats.Show(h);
    ShowPieces(h, "", sep);
    assert a + [sep] + "" == a + [sep];
    TwoPieces(a, "", sep);
    Floats.ParseShow(h);
    assert Floats.Strip("") == "";
  }

  /** More than one separator: rejected. */
  lemma ThreePiecesRejected(s: string, sep: char)
    requires sep == ':' || sep == 'h'
    requires Floats.Trimmed(s) && Floats.Parse(s) == None
    requires sep in s && |Split(s, sep)| > 2
    requires sep == 'h' ==> ':' !in s
    ensures ParseDuration(s) == Err(InvalidDurationString)
  {
    Floats.StripUnchanged(s);
  }

  /** Neither separator and not a number: rejected. */
  lemma NoSeparatorRejected(s: string)
    requires Floats.Parse(Floats.Strip(s)) == None
    requires ':' !in Floats.Strip(s) && 'h' !in Floats.Strip(s)
    ensures ParseDuration(s) == Err(InvalidDurationString)
  {
  }

  // ----- examples -----

  lemma ExamplePlain()
    ensures ParseDuration(" 1.5 ") == Ok(Floats.Dec(15, 1))
  {
    var d := Floats.Dec(15, 1);
    ShowOneAndHalf();
    Floats.ParseShow(d);
    StripOneAndHalf();
  }

  lemma ShowOneAndHalf()
    ensures Floats.Show(Floats.Dec(15, 1)) == "1.5"
  {
    var d := Floats.Dec(15, 1);
    assert Floats.Whole(15, 1) == 1 && Floats.Fraction(15, 1) == 5;
    assert Floats.IntPart(d) == "1" && Floats.FracPart(d) == "5";
  }

  lemma StripOneAndHalf()
    ensures Floats.Strip(" 1.5 ") == "1.5"
  {
    assert Floats.StripLeft(" 1.5 ") == "1.5 ";
    assert Floats.StripRight("1.5 ") == "1.5";
  }

  lemma HoursExample()
    ensures Hours(Floats.Dec(1, 0), Floats.Dec(30, 0)).Value() == 1.5
  {
    var one, thirty := Floats.Dec(1, 0), Floats.Dec(30, 0);
    assert one.Value() == 1.0 && thirty.Value() == 30.0;
    Floats.RoundExact(1.5, 1500000000000);
    assert Hours(one, thirty) == Floats.Round(1.5);
  }

  lemma ParseOne()
    ensures Floats.Parse("1") == Some(Floats.Dec(1, 0))
  {
    Floats.StripUnchanged("1");
    assert Floats.Unsigned("1") == Some(Floats.Dec(1, 0));
  }

  lemma ParseThirty()
    ensures Floats.Parse("30") == Some(Floats.Dec(30, 0))
  {
    Floats.StripUnchanged("30");
    assert Floats.Unsigned("30") == Some(Floats.Dec(30, 0));
  }

  /** "1:30" and "1h30" are an hour and a half. */
  lemma ExampleHalfPast(sep: char)
    requires sep == ':' || sep == 'h'
    ensures ParseDuration("1" + [sep] + "30").Ok?
    ensures ParseDuration("1" + [sep] + "30").value.Value() == 1.5
  {
    var s := "1" + [sep] + "30";
    assert Floats.Trimmed(s) by {
      assert s[0] == '1' && s[|s| - 1] == '0';
    }
    TwoPieces("1", "30", sep);
    ParseOne();
    ParseThirty();
    HoursExample();
  }

  /** "1h": an hour count with no minutes is refused. */
  lemma ExampleHoursOnly()
    ensures ParseDuration("1h") == Err(NotANumber)
  {
    var s := "1" + ['h'] + "";
    assert s == "1h";
    assert Floats.Trimmed(s) by {
      assert s[0] == '1' && s[|s| - 1] == 'h';
    }
    TwoPieces("1", "", 'h');
    ParseOne();
    assert Floats.Strip("") == "";
  }

  lemma ExampleWord()
    ensures ParseDuration("abc") == Err(InvalidDurationString)
  {
    assert Floats.Trimmed("abc");
    assert "abc"[0] == 'a';
    ParseRejects("abc", 0);
    Floats.StripUnchanged("abc");
  }
}
