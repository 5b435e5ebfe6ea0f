/**
 * The calendar fields of a pandas timestamp and their rendering with
 * `strftime("%Y-%m-%d %H:%M:%S")`, which drops the sub-second part.
 */
module Calendar {
  import opened Wrappers
  import opened Numerals

  datatype DateTime = DateTime(year: nat, month: nat, day: nat, hour: nat, minute: nat, second: nat, microsecond: nat)

  predicate IsLeapYear(year: nat)
  {
    year % 4 == 0 && (year % 100 != 0 || year % 400 == 0)
  }

  function DaysInMonth(year: nat, month: nat): (n: nat)
    requires 1 <= month <= 12
    ensures 28 <= n <= 31
  {
    if month == 2 then (if IsLeapYear(year) then 29 else 28)
    else if month == 4 || month == 6 || month == 9 || month == 11 then 30
    else 31
  }

  /** A proleptic Gregorian date and time of day with a four-digit year. */
  predicate Valid(dt: DateTime)
  {
    && 1000 <= dt.year <= 9999
    && 1 <= dt.month <= 12
    && 1 <= dt.day <= DaysInMonth(dt.year, dt.month)
    && dt.hour < 24 && dt.minute < 60 && dt.second < 60
    && dt.microsecond < 1_000_000
  }

  type Timestamp = dt: DateTime | Valid(dt) witness DateTime(2000, 1, 1, 0, 0, 0, 0)

  /** A cell of the timestamp column: a time, or `NaT` when the cell could not be read as one. */
  datatype Stamp = At(time: Timestamp) | NaT

  /** The positions of the separators in a formatted timestamp. */
  predicate IsSeparatorPosition(i: int)
  {
    i == 4 || i == 7 || i == 10 || i == 13 || i == 16
  }

  /** `t.strftime("%Y-%m-%d %H:%M:%S")`. */
  function Format(t: Timestamp): (s: string)
    ensures |s| == 19
    ensures s[4] == '-' && s[7] == '-' && s[10] == ' ' && s[13] == ':' && s[16] == ':'
  {
    Digits(t.year, 10, 4) + "-" + Digits(t.month, 10, 2) + "-" + Digits(t.day, 10, 2) + " "
      + Digits(t.hour, 10, 2) + ":" + Digits(t.minute, 10, 2) + ":" + Digits(t.second, 10, 2)
  }

  /** A field rendered at positions `lo..lo+width` makes each of those positions a decimal digit. */
  lemma FieldDigits(s: string, lo: nat, v: nat, width: nat)
    requires lo + width <= |s| && s[lo..lo + width] == Digits(v, 10, width)
    ensures forall i :: lo <= i < lo + width ==> IsDigit(s[i], 10)
  {
    DigitsAreDigits(v, 10, width);
    forall i | lo <= i < lo + width ensures IsDigit(s[i], 10) {
      assert s[i] == s[lo..lo + width][i - lo];
    }
  }

  /** Every other position of a formatted timestamp holds a decimal digit, and every character is ASCII. */
  lemma FormatLayout(t: Timestamp)
    ensures forall i :: 0 <= i < 19 && !IsSeparatorPosition(i) ==> IsDigit(Format(t)[i], 10)
    ensures forall i :: 0 <= i < 19 ==> Format(t)[i] as int < 0x80
  {
    var s := Format(t);
    assert s[0..4] == Digits(t.year, 10, 4);
    FieldDigits(s, 0, t.year, 4);
    assert s[5..7] == Digits(t.month, 10, 2);
    FieldDigits(s, 5, t.month, 2);
    assert s[8..10] == Digits(t.day, 10, 2);
    FieldDigits(s, 8, t.day, 2);
    assert s[11..13] == Digits(t.hour, 10, 2);
    FieldDigits(s, 11, t.hour, 2);
    assert s[14..16] == Digits(t.minute, 10, 2);
    FieldDigits(s, 14, t.minute, 2);
    assert s[17..19] == Digits(t.second, 10, 2);
    FieldDigits(s, 17, t.second, 2);
  }

  /** The separator layout `YYYY-mm-dd HH:MM:SS`. */
  predicate HasLayout(s: string)
  {
    |s| == 19 && s[4] == '-' && s[7] == '-' && s[10] == ' ' && s[13] == ':' && s[16] == ':'
  }

  /** Reads back a formatted timestamp, to whole seconds. */
  function Parse(s: string): (r: Option<Timestamp>)
    ensures r.Some? ==> HasLayout(s) && r.value.microsecond == 0
  {
    if !HasLayout(s) then None
    else
      var y, mo, d := ParseDigits(s[0..4], 10), ParseDigits(s[5..7], 10), ParseDigits(s[8..10], 10);
      var h, mi, se := ParseDigits(s[11..13], 10), ParseDigits(s[14..16], 10), ParseDigits(s[17..19], 10);
      if y.None? || mo.None? || d.None? || h.None? || mi.None? || se.None? then None
      else
        var dt := DateTime(y.value, mo.value, d.value, h.value, mi.value, se.value, 0);
        if Valid(dt) then Some(dt) else None
  }

  /** The field values fit their widths, so each renders without loss. */
  lemma FieldsFit(t: Timestamp)
    ensures ParseDigits(Digits(t.year, 10, 4), 10) == Some(t.year)
    ensures ParseDigits(Digits(t.month, 10, 2), 10) == Some(t.month)
    ensures ParseDigits(Digits(t.day, 10, 2), 10) == Some(t.day)
    ensures ParseDigits(Digits(t.hour, 10, 2), 10) == Some(t.hour)
    ensures ParseDigits(Digits(t.minute, 10, 2), 10) == Some(t.minute)
    ensures ParseDigits(Digits(t.second, 10, 2), 10) == Some(t.second)
  {
    assert Pow(10, 2) == 100;
    assert Pow(10, 4) == 10000;
    DigitsInjective(t.year, 10, 4);
    DigitsInjective(t.month, 10, 2);
    DigitsInjective(t.day, 10, 2);
    DigitsInjective(t.hour, 10, 2);
    DigitsInjective(t.minute, 10, 2);
    DigitsInjective(t.second, 10, 2);
  }

  /** The formatted text determines the timestamp to the second. */
  lemma ParseFormat(t: Timestamp)
    ensures Parse(Format(t)) == Some(t.(microsecond := 0))
  {
    var s := Format(t);
    assert s[0..4] == Digits(t.year, 10, 4);
    assert s[5..7] == Digits(t.month, 10, 2);
    assert s[8..10] == Digits(t.day, 10, 2);
    assert s[11..13] == Digits(t.hour, 10, 2);
    assert s[14..16] == Digits(t.minute, 10, 2);
    assert s[17..19] == Digits(t.second, 10, 2);
    FieldsFit(t);
  }

  /** Two timestamps format alike exactly when they agree down to the second. */
  lemma FormatDropsOnlySubseconds(t: Timestamp, u: Timestamp)
    ensures Format(t) == Format(u) <==> t.(microsecond := 0) == u.(microsecond := 0)
  {
    if Format(t) == Format(u) {
      ParseFormat(t);
      ParseFormat(u);
    }
  }
}
