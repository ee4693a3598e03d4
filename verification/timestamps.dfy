/**
 * Ride timestamps in the fixed layout `TIMESTR = "%Y-%m-%d %H:%M:%S"`
 * (bike.py:45), as written by `strftime` and read by `strptime`.
 */
module Timestamps {
  import opened Results
  import opened Digits

  datatype Timestamp = Timestamp(year: int, month: int, day: int, hour: int, minute: int, second: int)

  /** The ranges `time.strptime` accepts for `%Y %m %d %H %M %S`
      (a second of 60 or 61 included, for leap seconds). */
  predicate InRange(t: Timestamp) {
    && 1 <= t.year <= 9999
    && 1 <= t.month <= 12
    && 1 <= t.day <= 31
    && 0 <= t.hour <= 23
    && 0 <= t.minute <= 59
    && 0 <= t.second <= 61
  }

  type Stamp = t: Timestamp | InRange(t) witness Timestamp(1970, 1, 1, 0, 0, 0)

  /** `t.strftime(TIMESTR)`: 19 characters, every field zero-padded. */
  function Format(t: Stamp): (s: string)
    ensures |s| == 19
  {
    Padded(t.year, 4) + "-" + Padded(t.month, 2) + "-" + Padded(t.day, 2) + " "
      + Padded(t.hour, 2) + ":" + Padded(t.minute, 2) + ":" + Padded(t.second, 2)
  }

  /** `%Y-%m-%d`, the date shown in the GUI's ride list. */
  function DateText(t: Stamp): (s: string)
    ensures |s| == 10 && s == Format(t)[..10]
  {
    Format(t)[..10]
  }

  /** `%Y-%m-%d %H:%M`, the date shown by the `rides` command. */
  function MinuteText(t: Stamp): (s: string)
    ensures |s| == 16 && s == Format(t)[..16]
  {
    Format(t)[..16]
  }

  /** Digits and separators where `TIMESTR` puts them. */
  predicate Layout(s: string) {
    && |s| == 19
    && s[4] == '-' && s[7] == '-' && s[10] == ' ' && s[13] == ':' && s[16] == ':'
    && AllDigits(s[0..4]) && AllDigits(s[5..7]) && AllDigits(s[8..10])
    && AllDigits(s[11..13]) && AllDigits(s[14..16]) && AllDigits(s[17..19])
  }

  /** `time.strptime(s, TIMESTR)`; `None` where it raises ValueError. */
  function Parse(s: string): (r: Option<Stamp>)
    ensures r.Some? ==> Layout(s)
  {
    if !Layout(s) then None
    else
      var t := Timestamp(Value(s[0..4]), Value(s[5..7]), Value(s[8..10]),
                         Value(s[11..13]), Value(s[14..16]), Value(s[17..19]));
      if InRange(t) then Some(t) else None
  }

  /** `datetime.datetime.strptime(s, TIMESTR)`, used by the GUI dialog: unlike
      `time.strptime` it refuses a second of 60 or 61. */
  function ParseDateTime(s: string): (r: Option<Stamp>)
    ensures r.Some? <==> Parse(s).Some? && Parse(s).value.second <= 59
    ensures r.Some? ==> r == Parse(s)
  {
    match Parse(s)
    case Some(t) => if t.second <= 59 then Some(t) else None
    case None => None
  }

  lemma FormatFields(t: Stamp)
    ensures var s := Format(t);
      && s[0..4] == Padded(t.year, 4) && s[5..7] == Padded(t.month, 2)
      && s[8..10] == Padded(t.day, 2) && s[11..13] == Padded(t.hour, 2)
      && s[14..16] == Padded(t.minute, 2) && s[17..19] == Padded(t.second, 2)
      && s[4] == '-' && s[7] == '-' && s[10] == ' ' && s[13] == ':' && s[16] == ':'
  {
    Pieces(Padded(t.year, 4), Padded(t.month, 2), Padded(t.day, 2),
           Padded(t.hour, 2), Padded(t.minute, 2), Padded(t.second, 2));
  }

  /** Where each field of the layout lands. */
  lemma Pieces(y: string, mo: string, d: string, h: string, mi: string, se: string)
    requires |y| == 4 && |mo| == 2 && |d| == 2 && |h| == 2 && |mi| == 2 && |se| == 2
    ensures var s := y + "-" + mo + "-" + d + " " + h + ":" + mi + ":" + se;
      && |s| == 19
      && s[0..4] == y && s[5..7] == mo && s[8..10] == d
      && s[11..13] == h && s[14..16] == mi && s[17..19] == se
      && s[4] == '-' && s[7] == '-' && s[10] == ' ' && s[13] == ':' && s[16] == ':'
  {
  }

  /** Writing a timestamp and reading it back gives the same timestamp. */
  lemma ParseFormat(t: Stamp)
    ensures Parse(Format(t)) == Some(t)
  {
    FormatFields(t);
    assert Pow10(4) == 10000 && Pow10(2) == 100;
    ValueOfPadded(t.year, 4);
    ValueOfPadded(t.month, 2);
    ValueOfPadded(t.day, 2);
    ValueOfPadded(t.hour, 2);
    ValueOfPadded(t.minute, 2);
    ValueOfPadded(t.second, 2);
  }

  /** A text `strptime` accepts is exactly what `strftime` writes for the result:
      the layout is fixed-width, so nothing is lost in between. */
  lemma FormatParse(s: string)
    requires Parse(s).Some?
    ensures Format(Parse(s).value) == s
  {
    var t := Parse(s).value;
    assert Layout(s);
    assert t == Timestamp(Value(s[0..4]), Value(s[5..7]), Value(s[8..10]),
                          Value(s[11..13]), Value(s[14..16]), Value(s[17..19]));
    FormatFields(t);
    SameText(Format(t), s);
  }

  /** A text in `TIMESTR` layout is determined by the values of its fields. */
  lemma SameText(f: string, s: string)
    requires Layout(s) && |f| == 19
    requires f[0..4] == Padded(Value(s[0..4]), 4) && f[5..7] == Padded(Value(s[5..7]), 2)
    requires f[8..10] == Padded(Value(s[8..10]), 2) && f[11..13] == Padded(Value(s[11..13]), 2)
    requires f[14..16] == Padded(Value(s[14..16]), 2) && f[17..19] == Padded(Value(s[17..19]), 2)
    requires f[4] == '-' && f[7] == '-' && f[10] == ' ' && f[13] == ':' && f[16] == ':'
    ensures f == s
  {
    SameField(f, s, 0, 4);
    SameField(f, s, 5, 7);
    SameField(f, s, 8, 10);
    SameField(f, s, 11, 13);
    SameField(f, s, 14, 16);
    SameField(f, s, 17, 19);
    assert forall i | 0 <= i < 19 :: f[i] == s[i];
  }

  /** The field of `s` between `lo` and `hi` is written back unchanged. */
  lemma SameField(f: string, s: string, lo: nat, hi: nat)
    requires lo <= hi <= |f| && hi <= |s| && AllDigits(s[lo..hi])
    requires f[lo..hi] == Padded(Value(s[lo..hi]), hi - lo)
    ensures forall i | lo <= i < hi :: f[i] == s[i]
  {
    PaddedOfValue(s[lo..hi]);
    forall i | lo <= i < hi ensures f[i] == s[i] {
      assert f[i] == f[lo..hi][i - lo] && s[i] == s[lo..hi][i - lo];
    }
  }
}
