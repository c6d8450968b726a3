/**
 * The timer label: `format_time` splits a second count into days, hours,
 * minutes and seconds by repeated divmod and renders one of three layouts,
 * `MM:SS`, `HH:MM:SS` or `Dd HH:MM:SS`.  `ParseTime` reads a label back,
 * which is how the layouts are shown to lose nothing.
 */
module TimeFormat {

  /** The four fields produced by the divmod chain. */
  datatype Clock = Clock(days: nat, hours: nat, mins: nat, secs: nat)

  /** divmod by 60, 60 and 24 in turn (Python's divmod agrees with Dafny's on non-negative operands). */
  function Split(seconds: nat): (c: Clock)
    ensures c.secs < 60 && c.mins < 60 && c.hours < 24
    ensures c.days * 86400 + c.hours * 3600 + c.mins * 60 + c.secs == seconds
  {
    var totalMins, secs := seconds / 60, seconds % 60;
    var totalHours, mins := totalMins / 60, totalMins % 60;
    var days, hours := totalHours / 24, totalHours % 24;
    Clock(days, hours, mins, secs)
  }

  function DigitChar(d: nat): (c: char)
    requires d < 10
    ensures '0' <= c <= '9'
  {
    "0123456789"[d]
  }

  function DigitValue(c: char): nat
  {
    if '0' <= c <= '9' then (c as int - '0' as int) as nat else 0
  }

  predicate IsDigits(s: string)
  {
    forall i :: 0 <= i < |s| ==> '0' <= s[i] <= '9'
  }

  /** `str(n)` for a non-negative integer: decimal digits, no padding. */
  function Decimal(n: nat): (r: string)
    ensures 1 <= |r| && IsDigits(r)
    ensures n >= 10 ==> |r| >= 2
    ensures n > 0 ==> r[0] != '0'
  {
    if n < 10 then [DigitChar(n)] else Decimal(n / 10) + [DigitChar(n % 10)]
  }

  /** The value of a string of decimal digits. */
  function DecimalValue(s: string): nat
  {
    if s == [] then 0 else 10 * DecimalValue(s[..|s| - 1]) + DigitValue(s[|s| - 1])
  }

  /** `f"{n:02}"` for 0 <= n < 100. */
  function Pad2(n: nat): (r: string)
    requires n < 100
    ensures |r| == 2 && IsDigits(r)
  {
    [DigitChar(n / 10), DigitChar(n % 10)]
  }

  /** The `HH:MM:SS` layout. */
  function Hms(h: nat, m: nat, sec: nat): (r: string)
    requires h < 100 && m < 100 && sec < 100
    ensures |r| == 8
  {
    Pad2(h) + ":" + Pad2(m) + ":" + Pad2(sec)
  }

  /** The `MM:SS` layout. */
  function Ms(m: nat, sec: nat): (r: string)
    requires m < 100 && sec < 100
    ensures |r| == 5
  {
    Pad2(m) + ":" + Pad2(sec)
  }

  /** `format_time(seconds)`. */
  function FormatTime(seconds: nat): (r: string)
    ensures seconds < 3600 ==> |r| == 5
    ensures 3600 <= seconds < 86400 ==> |r| == 8
    ensures 86400 <= seconds ==> |r| >= 11
  {
    var c := Split(seconds);
    if c.days > 0 then Decimal(c.days) + "d " + Hms(c.hours, c.mins, c.secs)
    else if c.hours > 0 then Hms(c.hours, c.mins, c.secs)
    else Ms(c.mins, c.secs)
  }

  /** The value of the two-digit field starting at position `i`. */
  function TwoDigits(text: string, i: nat): nat
    requires i + 2 <= |text|
  {
    10 * DigitValue(text[i]) + DigitValue(text[i + 1])
  }

  /** Positions i and i+1 of `text` are two digits spelling `v`. */
  predicate Field(text: string, i: nat, v: nat)
  {
    i + 2 <= |text| && IsDigits(text[i..i + 2]) && TwoDigits(text, i) == v
  }

  /** Reads `MM:SS` back into seconds. */
  function ParseMinutes(text: string): nat
    requires |text| == 5
  {
    60 * TwoDigits(text, 0) + TwoDigits(text, 3)
  }

  /** Reads `HH:MM:SS` back into seconds. */
  function ParseHours(text: string): nat
    requires |text| == 8
  {
    3600 * TwoDigits(text, 0) + 60 * TwoDigits(text, 3) + TwoDigits(text, 6)
  }

  /** Reads a label back into seconds; the layout is told apart by its length. */
  function ParseTime(text: string): nat
  {
    if |text| == 5 then ParseMinutes(text)
    else if |text| == 8 then ParseHours(text)
    else if |text| >= 11 then 86400 * DecimalValue(text[..|text| - 10]) + ParseHours(text[|text| - 8..])
    else 0
  }

  lemma DigitRoundTrip(d: nat)
    requires d < 10
    ensures DigitValue(DigitChar(d)) == d
  {
  }

  lemma {:induction false} DecimalRoundTrip(n: nat)
    ensures DecimalValue(Decimal(n)) == n
  {
    DigitRoundTrip(n % 10);
    if n >= 10 {
      var r := Decimal(n);
      assert r[..|r| - 1] == Decimal(n / 10);
      DecimalRoundTrip(n / 10);
    }
  }

  lemma Pad2RoundTrip(n: nat)
    requires n < 100
    ensures TwoDigits(Pad2(n), 0) == n
  {
    DigitRoundTrip(n / 10);
    DigitRoundTrip(n % 10);
  }

  /** The divmod chain agrees with plain division: days, hours of the day, minutes of the hour, seconds. */
  lemma SplitByDivision(seconds: nat)
    ensures Split(seconds) == Clock(seconds / 86400, seconds / 3600 % 24, seconds / 60 % 60, seconds % 60)
  {
    var c := Split(seconds);
    assert seconds == 60 * (c.days * 1440 + c.hours * 60 + c.mins) + c.secs;
    assert seconds / 60 == c.days * 1440 + c.hours * 60 + c.mins;
    assert seconds == 3600 * (c.days * 24 + c.hours) + (c.mins * 60 + c.secs);
    assert seconds / 3600 == c.days * 24 + c.hours;
  }

  lemma MsFields(m: nat, sec: nat)
    requires m < 100 && sec < 100
    ensures var r := Ms(m, sec); r[2] == ':' && Field(r, 0, m) && Field(r, 3, sec)
  {
    var r := Ms(m, sec);
    Pad2RoundTrip(m);
    Pad2RoundTrip(sec);
    assert r[0..2] == Pad2(m) && r[3..5] == Pad2(sec);
  }

  lemma HmsFields(h: nat, m: nat, sec: nat)
    requires h < 100 && m < 100 && sec < 100
    ensures var r := Hms(h, m, sec);
      r[2] == ':' && r[5] == ':' && Field(r, 0, h) && Field(r, 3, m) && Field(r, 6, sec)
  {
    var r := Hms(h, m, sec);
    Pad2RoundTrip(h);
    Pad2RoundTrip(m);
    Pad2RoundTrip(sec);
    assert r[0..2] == Pad2(h) && r[3..5] == Pad2(m) && r[6..8] == Pad2(sec);
  }

  /** A field keeps its value when text is put in front of it. */
  lemma FieldShift(prefix: string, text: string, i: nat, v: nat)
    requires Field(text, i, v)
    ensures Field(prefix + text, |prefix| + i, v)
  {
    var r := prefix + text;
    assert r[|prefix| + i..|prefix| + i + 2] == text[i..i + 2];
  }

  /** Under an hour: `MM:SS`, minutes then seconds, both padded to two digits. */
  lemma MinutesLayout(seconds: nat)
    requires seconds < 3600
    ensures var r := FormatTime(seconds);
      |r| == 5 && r[2] == ':' && Field(r, 0, seconds / 60) && Field(r, 3, seconds % 60)
  {
    SplitByDivision(seconds);
    MsFields(seconds / 60 % 60, seconds % 60);
  }

  /** Under a day: `HH:MM:SS`, each field padded to two digits. */
  lemma HoursLayout(seconds: nat)
    requires 3600 <= seconds < 86400
    ensures var r := FormatTime(seconds);
      && |r| == 8 && r[2] == ':' && r[5] == ':'
      && Field(r, 0, seconds / 3600) && Field(r, 3, seconds / 60 % 60) && Field(r, 6, seconds % 60)
  {
    SplitByDivision(seconds);
    HmsFields(seconds / 3600 % 24, seconds / 60 % 60, seconds % 60);
  }

  /** The fields of a `Dd HH:MM:SS` label, counted from the end of the day count. */
  lemma DaysFields(d: nat, h: nat, m: nat, sec: nat)
    requires h < 100 && m < 100 && sec < 100
    ensures var r := Decimal(d) + "d " + Hms(h, m, sec);
      var n := |r| - 10;
      && n == |Decimal(d)| && r[..n] == Decimal(d)
      && r[n..n + 2] == "d " && r[n + 4] == ':' && r[n + 7] == ':'
      && Field(r, n + 2, h) && Field(r, n + 5, m) && Field(r, n + 8, sec)
  {
    var dd := Decimal(d);
    var tail := Hms(h, m, sec);
    var prefix := dd + "d ";
    var r := prefix + tail;
    assert r[..|dd|] == dd;
    assert r[|dd|..|dd| + 2] == "d ";
    HmsFields(h, m, sec);
    assert r[|dd| + 4] == tail[2] && r[|dd| + 7] == tail[5];
    FieldShift(prefix, tail, 0, h);
    FieldShift(prefix, tail, 3, m);
    FieldShift(prefix, tail, 6, sec);
  }

  /**
   * A day or more: the day count unpadded (digits, no leading zero), then
   * `d `, then `HH:MM:SS` with the hour of the day.
   */
  lemma DaysLayout(seconds: nat)
    requires 86400 <= seconds
    ensures var r := FormatTime(seconds);
      var n := |r| - 10;
      && n >= 1 && r[..n] == Decimal(seconds / 86400) && IsDigits(r[..n]) && r[0] != '0'
      && r[n..n + 2] == "d " && r[n + 4] == ':' && r[n + 7] == ':'
      && Field(r, n + 2, seconds / 3600 % 24) && Field(r, n + 5, seconds / 60 % 60) && Field(r, n + 8, seconds % 60)
  {
    SplitByDivision(seconds);
    var d := seconds / 86400;
    DaysFields(d, seconds / 3600 % 24, seconds / 60 % 60, seconds % 60);
    var r := FormatTime(seconds);
    assert r[0] == Decimal(d)[0];
  }

  /** Which layout is chosen for every count, and what each field holds. */
  lemma FormatLayout(seconds: nat)
    ensures seconds < 3600 ==>
      var r := FormatTime(seconds);
      |r| == 5 && r[2] == ':' && Field(r, 0, seconds / 60) && Field(r, 3, seconds % 60)
    ensures 3600 <= seconds < 86400 ==>
      var r := FormatTime(seconds);
      && |r| == 8 && r[2] == ':' && r[5] == ':'
      && Field(r, 0, seconds / 3600) && Field(r, 3, seconds / 60 % 60) && Field(r, 6, seconds % 60)
    ensures 86400 <= seconds ==>
      var r := FormatTime(seconds);
      var n := |r| - 10;
      && n >= 1 && r[..n] == Decimal(seconds / 86400) && IsDigits(r[..n]) && r[0] != '0'
      && r[n..n + 2] == "d " && r[n + 4] == ':' && r[n + 7] == ':'
      && Field(r, n + 2, seconds / 3600 % 24) && Field(r, n + 5, seconds / 60 % 60) && Field(r, n + 8, seconds % 60)
  {
    if seconds < 3600 {
      MinutesLayout(seconds);
    } else if seconds < 86400 {
      HoursLayout(seconds);
    } else {
      DaysLayout(seconds);
    }
  }

  lemma ParseShort(mm: string, ss: string)
    requires |mm| == 2 && |ss| == 2
    ensures ParseTime(mm + ":" + ss) == 60 * TwoDigits(mm, 0) + TwoDigits(ss, 0)
  {
    var r := mm + ":" + ss;
    assert r[0] == mm[0] && r[1] == mm[1] && r[3] == ss[0] && r[4] == ss[1];
  }

  lemma ParseLong(hh: string, mm: string, ss: string)
    requires |hh| == 2 && |mm| == 2 && |ss| == 2
    ensures ParseHours(hh + ":" + mm + ":" + ss) ==
      3600 * TwoDigits(hh, 0) + 60 * TwoDigits(mm, 0) + TwoDigits(ss, 0)
  {
    var r := hh + ":" + mm + ":" + ss;
    assert r[0] == hh[0] && r[1] == hh[1];
    assert r[3] == mm[0] && r[4] == mm[1];
    assert r[6] == ss[0] && r[7] == ss[1];
  }

  lemma ParseWithDays(dd: string, rest: string)
    requires |dd| >= 1 && |rest| == 8
    ensures ParseTime(dd + "d " + rest) == 86400 * DecimalValue(dd) + ParseHours(rest)
  {
    var r := dd + "d " + rest;
    assert |r| == |dd| + 10 && |r| >= 11;
    assert r[..|r| - 10] == dd by {
      assert forall k :: 0 <= k < |dd| ==> r[k] == dd[k];
    }
    assert r[|r| - 8..] == rest by {
      assert forall k :: 0 <= k < 8 ==> r[|dd| + 2 + k] == rest[k];
    }
  }

  /** `HH:MM:SS` reads back to its value. */
  lemma LongRoundTrip(h: nat, m: nat, sec: nat)
    requires h < 24 && m < 60 && sec < 60
    ensures ParseHours(Hms(h, m, sec)) == 3600 * h + 60 * m + sec
  {
    Pad2RoundTrip(h);
    Pad2RoundTrip(m);
    Pad2RoundTrip(sec);
    ParseLong(Pad2(h), Pad2(m), Pad2(sec));
  }

  /** `MM:SS` reads back to its value. */
  lemma ShortRoundTrip(m: nat, sec: nat)
    requires m < 60 && sec < 60
    ensures ParseTime(Ms(m, sec)) == 60 * m + sec
  {
    Pad2RoundTrip(m);
    Pad2RoundTrip(sec);
    ParseShort(Pad2(m), Pad2(sec));
  }

  /** `Dd HH:MM:SS` reads back to its value. */
  lemma DaysRoundTrip(d: nat, h: nat, m: nat, sec: nat)
    requires h < 24 && m < 60 && sec < 60
    ensures ParseTime(Decimal(d) + "d " + Hms(h, m, sec)) == 86400 * d + 3600 * h + 60 * m + sec
  {
    LongRoundTrip(h, m, sec);
    DecimalRoundTrip(d);
    ParseWithDays(Decimal(d), Hms(h, m, sec));
  }

  /** Nothing is lost: every label reads back to the second count it was made from. */
  lemma FormatParseRoundTrip(seconds: nat)
    ensures ParseTime(FormatTime(seconds)) == seconds
  {
    var c := Split(seconds);
    if c.days > 0 {
      DaysRoundTrip(c.days, c.hours, c.mins, c.secs);
    } else if c.hours > 0 {
      LongRoundTrip(c.hours, c.mins, c.secs);
    } else {
      ShortRoundTrip(c.mins, c.secs);
    }
  }

  /** Under an hour: `MM:SS`, both fields padded. */
  lemma FormatMinutesExample()
    ensures FormatTime(65) == "01:05"
    ensures FormatTime(1500) == "25:00"
  {
    assert Split(65) == Clock(0, 0, 1, 5);
    assert Pad2(1) == "01" && Pad2(5) == "05";
    assert Split(1500) == Clock(0, 0, 25, 0);
    assert Pad2(25) == "25" && Pad2(0) == "00";
  }

  /** Under a day: `HH:MM:SS`. */
  lemma FormatHoursExample()
    ensures FormatTime(3665) == "01:01:05"
  {
    assert Split(3665) == Clock(0, 1, 1, 5);
    assert Pad2(1) == "01" && Pad2(5) == "05";
  }

  /** A day or more: unpadded days, then `d ` and `HH:MM:SS`. */
  lemma FormatDaysExample()
    ensures FormatTime(90065) == "1d 01:01:05"
  {
    assert Split(90065) == Clock(1, 1, 1, 5);
    assert Decimal(1) == "1";
    assert Pad2(1) == "01" && Pad2(5) == "05";
  }
}
