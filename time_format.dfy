/** The 24-hour to 12-hour clock conversions shared by the task boards and the
    calendar: `formatTime` ("HH:MM" to "H:MM AM|PM") and `convertTo24Hour` (back). */
module TimeFormat {
  import opened JsText

  /** A value of an `<input type="time">`: two digits, a colon, two digits. */
  predicate IsTimeInput(t: string) {
    |t| == 5 && IsDigit(t[0]) && IsDigit(t[1]) && t[2] == ':' && IsDigit(t[3]) && IsDigit(t[4])
  }

  /** The hour a time input denotes (00..99; a browser only produces 00..23). */
  function HourOf(t: string): nat
    requires IsTimeInput(t)
  {
    DigitsValue(t[..2])
  }

  /** The minute digits of a time input. */
  function MinutesOf(t: string): string
    requires IsTimeInput(t)
  {
    t[3..]
  }

  /** A 12-hour clock string: one or two hour digits, a colon, two minute digits,
      a space and a meridiem, as `formatTime` writes and the seed tasks hold. */
  predicate IsClock12(t: string) {
    (|t| == 7 || |t| == 8) &&
    var h := |t| - 6;
    AllDigits(t[..h]) && t[h] == ':' && IsDigit(t[h + 1]) && IsDigit(t[h + 2]) && t[h + 3] == ' ' &&
    (t[h + 4..] == "AM" || t[h + 4..] == "PM")
  }

  lemma SplitTimeInput(t: string)
    requires IsTimeInput(t)
    ensures Split(t, ':') == [t[..2], t[3..]]
  {
    assert t == t[..2] + [':'] + t[3..];
    SplitFirst(t[..2], ':', t[3..]);
    SplitNone(t[3..], ':');
  }

  /** `formatTime(time24)`: the empty string stays empty; otherwise the hour is taken
      modulo 12 (0 shown as 12) and "PM" is chosen from hour 12 on. */
  function FormatTime(time24: string): (r: string)
    requires time24 == "" || IsTimeInput(time24)
    ensures r == "" <==> time24 == ""
  {
    if time24 == "" then ""
    else
      SplitTimeInput(time24);
      var parts := Split(time24, ':');
      var hours := DigitsValue(parts[0]);  // `hours % 12` and `hours >= 12` read the digits as a number
      var hour12 := if hours % 12 == 0 then 12 else hours % 12;
      var ampm := if hours >= 12 then "PM" else "AM";
      Decimal(hour12) + ":" + parts[1] + " " + ampm
  }

  /** `convertTo24Hour(time12)`: the empty string becomes "12:00"; otherwise hour "12"
      becomes "00", "PM" adds 12, and the hour is padded to two digits. */
  function ConvertTo24Hour(time12: string): (r: string)
    requires time12 == "" || IsClock12(time12)
    ensures time12 == "" ==> r == "12:00"
  {
    if time12 == "" then "12:00"
    else
      SplitClock12(time12);
      var halves := Split(time12, ' ');
      var clock := Split(halves[0], ':');
      var hours := if clock[0] == "12" then "00" else clock[0];
      var shown := if halves[1] == "PM" then IntToString(DigitsValue(hours) + 12) else hours;
      PadStart2(shown) + ":" + clock[1]
  }

  /** Splitting at the only separator in a string gives the two sides. */
  lemma SplitOnce(t: string, i: nat, c: char)
    requires i < |t| && t[i] == c
    requires forall k :: 0 <= k < |t| && k != i ==> t[k] != c
    ensures Split(t, c) == [t[..i], t[i + 1..]]
  {
    assert t == t[..i] + [c] + t[i + 1..];
    SplitFirst(t[..i], c, t[i + 1..]);
    SplitNone(t[i + 1..], c);
  }

  lemma SplitClock12(t: string)
    requires IsClock12(t)
    ensures var h := |t| - 6;
            Split(t, ' ') == [t[..h + 3], t[h + 4..]] &&
            Split(t[..h + 3], ':') == [t[..h], t[h + 1..h + 3]] &&
            AllDigits(t[..h])
  {
    SplitClock12Space(t);
    SplitClock12Colon(t);
  }

  /** The only space of a 12-hour clock string is before the meridiem. */
  lemma SplitClock12Space(t: string)
    requires IsClock12(t)
    ensures var h := |t| - 6;
            Split(t, ' ') == [t[..h + 3], t[h + 4..]]
  {
    var h := |t| - 6;
    ClockChars(t);
    SplitOnce(t, h + 3, ' ');
  }

  /** Character by character: digits, a colon, two digits, a space, `A` or
      `P`, and `M`. */
  lemma ClockChars(t: string)
    requires IsClock12(t)
    ensures var h := |t| - 6;
            (forall k :: 0 <= k < h ==> IsDigit(t[k])) && t[h] == ':' && IsDigit(t[h + 1]) &&
            IsDigit(t[h + 2]) && t[h + 3] == ' ' && (t[h + 4] == 'A' || t[h + 4] == 'P') && t[h + 5] == 'M'
  {
    var h := |t| - 6;
    var m := t[h + 4..];
    assert m[0] == t[h + 4] && m[1] == t[h + 5];
    forall k | 0 <= k < h
      ensures IsDigit(t[k])
    {
      assert t[k] == t[..h][k];
    }
  }

  /** The only colon of a 12-hour clock string is after the hour digits. */
  lemma SplitClock12Colon(t: string)
    requires IsClock12(t)
    ensures var h := |t| - 6;
            Split(t[..h + 3], ':') == [t[..h], t[h + 1..h + 3]]
  {
    var h := |t| - 6;
    var c := t[..h + 3];
    ClockChars(t);
    forall k | 0 <= k < |c| && k != h
      ensures c[k] != ':'
    {
      assert c[k] == t[k];
    }
    SplitOnce(c, h, ':');
    assert c[..h] == t[..h];
    assert c[h + 1..] == t[h + 1..h + 3];
  }

  /** Two decimal digits are the padded print of the number they denote. */
  lemma TwoDigitsCanonical(s: string)
    requires |s| == 2 && AllDigits(s)
    ensures DigitsValue(s) < 100 && s == PadStart2(Decimal(DigitsValue(s)))
  {
    var x, y := DigitValue(s[0]), DigitValue(s[1]);
    TwoDigitsValue(s);
    PaddedTwoDigits(x, y);
    DigitCharOfValue(s[0]);
    DigitCharOfValue(s[1]);
    assert s == [s[0], s[1]];
  }

  lemma DigitCharOfValue(c: char)
    requires IsDigit(c)
    ensures DigitChar(DigitValue(c)) == c
  {
  }

  /** Two digits denote ten times the first plus the second. */
  lemma TwoDigitsValue(s: string)
    requires |s| == 2 && AllDigits(s)
    ensures DigitsValue(s) == DigitValue(s[0]) * 10 + DigitValue(s[1])
  {
    var p := s[..1];
    assert p == [s[0]] && p[..0] == [] && s[..|s| - 1] == p;
    assert DigitsValue(p) == DigitValue(s[0]);
  }

  /** The number with digits `x` and `y`, padded to two digits, prints them. */
  lemma PaddedTwoDigits(x: nat, y: nat)
    requires x < 10 && y < 10
    ensures PadStart2(Decimal(x * 10 + y)) == [DigitChar(x), DigitChar(y)]
  {
    var v := x * 10 + y;
    if x == 0 {
      assert v == y;
    } else {
      assert v / 10 == x && v % 10 == y;
      assert Decimal(v) == Decimal(x) + [DigitChar(y)];
    }
  }

  lemma DecimalTwelve()
    ensures Decimal(12) == "12"
  {
    assert Decimal(12) == Decimal(1) + [DigitChar(2)];
  }

  /** Only 12 prints as "12". */
  lemma DecimalIsTwelve(n: nat)
    requires Decimal(n) == "12"
    ensures n == 12
  {
    DecimalValue(n);
    assert "12"[..1] == "1";
  }

  /** What `formatTime` shows for each hour of the day: 0 as 12 AM, 1..11 as
      themselves AM, 12 as 12 PM, 13..23 as the hour less 12 PM; the minute digits
      are copied. */
  lemma FormatTimeHours(t: string)
    requires IsTimeInput(t) && HourOf(t) < 24
    ensures var h := HourOf(t);
            1 <= Hour12(h) <= 12 && (h == 0 || h == 12 <==> Hour12(h) == 12) &&
            (1 <= h <= 12 ==> Hour12(h) == h) && (h > 12 ==> Hour12(h) == h - 12) &&
            FormatTime(t) == Decimal(Hour12(h)) + ":" + MinutesOf(t) + " " + (if h < 12 then "AM" else "PM")
  {
    FormatTimeClock(t);
    Hour12Mod(HourOf(t));
  }

  /** `formatTime` on a time input, read off its hour and minute digits. */
  lemma FormatTimeClock(t: string)
    requires IsTimeInput(t)
    ensures var h := HourOf(t);
            FormatTime(t) == Clock12(Decimal(if h % 12 == 0 then 12 else h % 12), MinutesOf(t), h >= 12)
  {
    SplitTimeInput(t);
  }

  /** For an hour of the day, the hour modulo 12 with 0 shown as 12 is `Hour12`. */
  lemma Hour12Mod(h: nat)
    requires h < 24
    ensures (if h % 12 == 0 then 12 else h % 12) == Hour12(h)
  {
  }

  /** The 12-hour string put together from its parts, as `formatTime` builds it. */
  function Clock12(hour: string, minutes: string, pm: bool): string {
    hour + ":" + minutes + " " + (if pm then "PM" else "AM")
  }

  /** What `convertTo24Hour` makes of a 12-hour string, read off its parts. */
  lemma ConvertParts(hour: string, minutes: string, pm: bool)
    requires 1 <= |hour| <= 2 && AllDigits(hour) && |minutes| == 2 && AllDigits(minutes)
    ensures IsClock12(Clock12(hour, minutes, pm))
    ensures ConvertTo24Hour(Clock12(hour, minutes, pm)) == PadStart2(Hour24Digits(hour, pm)) + ":" + minutes
  {
    var t := Clock12(hour, minutes, pm);
    ClockSlices(hour, minutes, pm);
    ConvertOfClock(t);
    assert (t[|hour| + 4..] == "PM") == pm;
  }

  /** `convertTo24Hour` on a 12-hour clock string, read off its hour digits,
      its minute digits and its meridiem. */
  lemma ConvertOfClock(t: string)
    requires IsClock12(t)
    ensures var h := |t| - 6;
            AllDigits(t[..h]) &&
            ConvertTo24Hour(t) == PadStart2(Hour24Digits(t[..h], t[h + 4..] == "PM")) + ":" + t[h + 1..h + 3]
  {
    var h := |t| - 6;
    SplitClock12(t);
    var halves := Split(t, ' ');
    var clock := Split(halves[0], ':');
    assert halves[0] == t[..h + 3] && halves[1] == t[h + 4..];
    assert clock[0] == t[..h] && clock[1] == t[h + 1..h + 3];
  }

  /** The pieces of a 12-hour clock string put together from its parts. */
  lemma ClockSlices(hour: string, minutes: string, pm: bool)
    requires 1 <= |hour| <= 2 && AllDigits(hour) && |minutes| == 2 && AllDigits(minutes)
    ensures var t, h := Clock12(hour, minutes, pm), |hour|;
            IsClock12(t) && |t| == h + 6 && t[..h] == hour && t[h + 1..h + 3] == minutes &&
            t[h + 4..] == (if pm then "PM" else "AM") && t[..h + 3] == hour + ":" + minutes
  {
    var t := Clock12(hour, minutes, pm);
    var h := |hour|;
    assert t[..h] == hour;
    assert t[h + 1..h + 3] == minutes;
    assert t[h + 4..] == (if pm then "PM" else "AM");
    assert t[..h + 3] == hour + ":" + minutes;
  }

  /** The hour `formatTime` shows for hour `h` of the day. */
  function Hour12(h: nat): nat {
    if h == 0 then 12 else if h <= 12 then h else h - 12
  }

  /** The hour digits `convertTo24Hour` writes for a shown hour, before padding. */
  function Hour24Digits(hour: string, pm: bool): string
    requires AllDigits(hour)
  {
    var hours := if hour == "12" then "00" else hour;
    if pm then IntToString(DigitsValue(hours) + 12) else hours
  }

  /** Every hour of the day comes back from its 12-hour print. */
  lemma HourRoundTrip(h: nat)
    requires h < 24
    ensures PadStart2(Hour24Digits(Decimal(Hour12(h)), h >= 12)) == PadStart2(Decimal(h))
  {
    var shown := Hour12(h);
    var d := Decimal(shown);
    if shown == 12 {
      DecimalTwelve();
      assert DigitsValue("00") == 0 by { assert "00"[..1] == "0"; assert "0"[..0] == ""; }
      if h == 12 {
        assert IntToString(12) == Decimal(12);
      } else {
        assert Decimal(0) == "0";
      }
    } else {
      if d == "12" {
        DecimalIsTwelve(shown);
      }
      DecimalValue(shown);
      if h > 12 {
        assert IntToString(h) == Decimal(h);
      }
    }
  }

  lemma ConvertFormatted(t: string)
    requires IsTimeInput(t) && HourOf(t) < 24
    ensures IsClock12(FormatTime(t))
    ensures ConvertTo24Hour(FormatTime(t)) ==
              PadStart2(Hour24Digits(Decimal(Hour12(HourOf(t))), HourOf(t) >= 12)) + ":" + t[3..]
  {
    var h := HourOf(t);
    FormatTimeClock(t);
    Hour12Mod(h);
    ConvertParts(Decimal(Hour12(h)), MinutesOf(t), h >= 12);
  }

  lemma ReprintedHour(t: string)
    requires IsTimeInput(t) && HourOf(t) < 24
    ensures PadStart2(Hour24Digits(Decimal(Hour12(HourOf(t))), HourOf(t) >= 12)) + ":" + t[3..] == t
  {
    var h := HourOf(t);
    var p := PadStart2(Hour24Digits(Decimal(Hour12(h)), h >= 12));
    HourRoundTrip(h);
    assert p == PadStart2(Decimal(h));
    TwoDigitsCanonical(t[..2]);
    assert p == t[..2];
    assert t == t[..2] + ":" + t[3..];
  }

  /** Converting a formatted time back gives the time input that was formatted. */
  lemma FormatThenConvert(t: string)
    requires IsTimeInput(t) && HourOf(t) < 24
    ensures IsClock12(FormatTime(t)) && ConvertTo24Hour(FormatTime(t)) == t
  {
    ConvertFormatted(t);
    ReprintedHour(t);
  }

  /** The hour of the day a 12-hour clock hour `k` denotes. */
  function Hour24(k: nat, pm: bool): nat {
    if k == 12 then (if pm then 12 else 0) else (if pm then k + 12 else k)
  }

  lemma ConvertClock(k: nat, minutes: string, pm: bool)
    requires 1 <= k <= 12 && |minutes| == 2 && AllDigits(minutes)
    ensures IsClock12(Clock12(Decimal(k), minutes, pm))
    ensures ConvertTo24Hour(Clock12(Decimal(k), minutes, pm)) == PadStart2(Decimal(Hour24(k, pm))) + ":" + minutes
  {
    ConvertParts(Decimal(k), minutes, pm);
    var h := Hour24(k, pm);
    assert Hour12(h) == k && (h >= 12 <==> pm);
    HourRoundTrip(h);
    assert PadStart2(Hour24Digits(Decimal(k), pm)) == PadStart2(Decimal(h));
  }

  lemma TimeInputOf(h: nat, minutes: string)
    requires h < 24 && |minutes| == 2 && AllDigits(minutes)
    ensures var c := PadStart2(Decimal(h)) + ":" + minutes;
            IsTimeInput(c) && HourOf(c) == h && MinutesOf(c) == minutes
  {
    TwoDigitValue(h);
    var p := PadStart2(Decimal(h));
    var c := p + ":" + minutes;
    assert c[..2] == p;
    assert c[3..] == minutes;
  }

  /** A 12-hour time written the way `formatTime` writes it (hour 1..12 without a
      leading zero) survives the trip to 24-hour form and back. */
  lemma ConvertThenFormat(k: nat, minutes: string, pm: bool)
    requires 1 <= k <= 12 && |minutes| == 2 && AllDigits(minutes)
    ensures var t := Clock12(Decimal(k), minutes, pm);
            IsClock12(t) && IsTimeInput(ConvertTo24Hour(t)) && FormatTime(ConvertTo24Hour(t)) == t
  {
    ConvertClock(k, minutes, pm);
    var h := Hour24(k, pm);
    TimeInputOf(h, minutes);
    var c := PadStart2(Decimal(h)) + ":" + minutes;
    FormatTimeHours(c);
    assert Hour12(h) == k && (h >= 12 <==> pm);
  }
}
