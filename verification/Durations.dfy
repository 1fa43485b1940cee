/** Durations written as H:M:S, with an optional number of days before it. */
module Durations {
  import opened Common
  import opened Text

  // ----- digits

  ghost predicate AllDigits(s: string) { forall i :: 0 <= i < |s| ==> IsDigit(s[i]) }

  /** The number a string of digits stands for. */
  function Value(s: string): nat {
    if s == "" then 0 else Value(s[..|s| - 1]) * 10 + DigitValue(s[|s| - 1])
  }

  function DigitValue(c: char): nat { if IsDigit(c) then (c - '0') as nat else 0 }

  lemma {:induction false} ValueOfDecimal(n: nat)
    ensures Value(Decimal(n)) == n
  {
    var digit := ['0' + (n % 10) as char];
    assert Value(digit) == n % 10 by { assert digit[..0] == ""; }
    if n >= 10 {
      ValueOfDecimal(n / 10);
      assert Decimal(n)[..|Decimal(n)| - 1] == Decimal(n / 10);
    }
  }

  lemma {:induction false} LeadingZero(s: string)
    ensures Value("0" + s) == Value(s)
  {
    if s == "" {
      assert "0" + s == "0" && "0"[..0] == "";
    } else {
      var n := |s| - 1;
      LeadingZero(s[..n]);
      assert ("0" + s)[..n + 1] == "0" + s[..n];
    }
  }

  /** How many digits a text starts with. */
  function Digits(s: string): (n: nat)
    ensures n <= |s|
  {
    if s == "" || !IsDigit(s[0]) then 0 else 1 + Digits(s[1..])
  }

  lemma {:induction false} DigitsAreDigits(s: string)
    ensures AllDigits(s[..Digits(s)])
  {
    if s != "" && IsDigit(s[0]) {
      DigitsAreDigits(s[1..]);
      assert s[..Digits(s)] == [s[0]] + s[1..][..Digits(s) - 1];
    }
  }

  lemma {:induction false} DigitsThen(d: string, rest: string)
    requires AllDigits(d) && (rest != "" ==> !IsDigit(rest[0]))
    ensures Digits(d + rest) == |d|
  {
    if d == "" {
      assert d + rest == rest;
    } else {
      DigitsThen(d[1..], rest);
      assert (d + rest)[1..] == d[1..] + rest;
    }
  }

  // ----- parsing

  datatype Clock = Clock(hours: nat, minutes: nat, seconds: nat)

  /** A text split after the digits it starts with. */
  function TakeDigits(s: string): (string, string) { (s[..Digits(s)], s[Digits(s)..]) }

  lemma TakenDigits(s: string)
    ensures var r := TakeDigits(s); AllDigits(r.0) && s == r.0 + r.1
  {
    DigitsAreDigits(s);
  }

  predicate Starts(s: string, c: char) { s != "" && s[0] == c }

  /** Hours, minutes and seconds, each one digit or more, to the end of the text. */
  function ParseClock(s: string): Option<Clock> {
    var (hours, afterHours) := TakeDigits(s);
    if hours == "" || !Starts(afterHours, ':') then None else
      var (minutes, afterMinutes) := TakeDigits(afterHours[1..]);
      if minutes == "" || !Starts(afterMinutes, ':') then None else
        var (seconds, end) := TakeDigits(afterMinutes[1..]);
        if seconds == "" || end != "" then None
        else Some(Clock(Value(hours), Value(minutes), Value(seconds)))
  }

  datatype Duration = Duration(seconds: nat, nonCanonical: bool)

  function Total(days: nat, c: Option<Clock>): Option<Duration> {
    match c
    case None => None
    case Some(Clock(hours, minutes, seconds)) =>
      Some(Duration(days * 86400 + hours * 3600 + minutes * 60 + seconds,
                    (days > 0 && hours >= 24) || minutes > 59 || seconds > 59))
  }

  function ParseDuration(value: string): Option<Duration> {
    var raw := Strip(value);
    var (days, afterDays) := TakeDigits(raw);
    var rest := LStrip(afterDays);
    if days == "" || !(Starts(rest, 'd') || Starts(rest, 'D')) then Total(0, ParseClock(raw))
    else if |rest| == 1 || !IsSpace(rest[1]) then None
    else Total(Value(days), ParseClock(LStrip(rest[1..])))
  }

  // ----- the language of durations

  /** The parts of a duration; without `days` the gaps and the letter are not written. */
  datatype Parts = Parts(days: string, gap: string, letter: char, space: string,
                           hours: string, minutes: string, seconds: string)

  ghost predicate Proper(p: Parts) {
    && AllDigits(p.days) && AllSpaces(p.gap) && AllSpaces(p.space) && p.space != ""
    && (p.letter == 'd' || p.letter == 'D')
    && AllDigits(p.hours) && AllDigits(p.minutes) && AllDigits(p.seconds)
    && p.hours != "" && p.minutes != "" && p.seconds != ""
  }

  function Colon(s: string): (r: string)
    ensures Starts(r, ':') && r[1..] == s
  {
    ":" + s
  }

  function ClockText(p: Parts): string { p.hours + Colon(p.minutes + Colon(p.seconds)) }

  function Lettered(letter: char, s: string): (r: string)
    ensures Starts(r, letter) && r[1..] == s
  {
    [letter] + s
  }

  function Written(p: Parts): string {
    if p.days == "" then ClockText(p) else p.days + (p.gap + Lettered(p.letter, p.space + ClockText(p)))
  }

  /** The seconds that the parts stand for: a day is 24 hours, an hour 60 minutes, a minute 60
      seconds. */
  ghost function Seconds(p: Parts): nat {
    60 * (60 * (24 * Value(p.days) + Value(p.hours)) + Value(p.minutes)) + Value(p.seconds)
  }

  /** Whether a part exceeds what its place can hold; hours may, but not after days. */
  ghost predicate Overflows(p: Parts) {
    Value(p.minutes) >= 60 || Value(p.seconds) >= 60 || (Value(p.days) >= 1 && Value(p.hours) >= 24)
  }

  lemma TotalOfParts(p: Parts)
    ensures Total(Value(p.days), Some(Clock(Value(p.hours), Value(p.minutes), Value(p.seconds))))
      == Some(Duration(Seconds(p), Overflows(p)))
  {
    hide Value;
  }

  lemma TakesDigits(d: string, rest: string)
    requires AllDigits(d) && (rest != "" ==> !IsDigit(rest[0]))
    ensures TakeDigits(d + rest) == (d, rest)
  {
    DigitsThen(d, rest);
  }

  lemma ClockParses(p: Parts)
    requires Proper(p)
    ensures ParseClock(ClockText(p)) == Some(Clock(Value(p.hours), Value(p.minutes), Value(p.seconds)))
  {
    hide TakeDigits, Colon, Value;
    var last := Colon(p.seconds);
    var more := Colon(p.minutes + last);
    TakesDigits(p.hours, more);
    TakesDigits(p.minutes, last);
    TakesDigits(p.seconds, "");
    assert p.seconds + "" == p.seconds;
  }

  lemma DigitEnds(d: string, rest: string)
    requires AllDigits(d) && d != ""
    ensures d + rest != "" && IsDigit((d + rest)[0]) && !IsSpace((d + rest)[0])
    ensures rest + d != "" && IsDigit((rest + d)[|rest + d| - 1]) && !IsSpace((rest + d)[|rest + d| - 1])
  {
    assert (d + rest)[0] == d[0] && (rest + d)[|rest + d| - 1] == d[|d| - 1];
  }

  lemma ClockEnds(p: Parts)
    requires Proper(p)
    ensures var c := ClockText(p); c != "" && IsDigit(c[0]) && !IsSpace(c[0]) && !IsSpace(c[|c| - 1])
  {
    var more := Colon(p.minutes + Colon(p.seconds));
    DigitEnds(p.hours, more);
    DigitEnds(p.seconds, p.hours + (":" + (p.minutes + ":")));
    assert ClockText(p) == p.hours + (":" + (p.minutes + ":")) + p.seconds;
  }

  lemma WrittenEnds(p: Parts)
    requires Proper(p)
    ensures var s := Written(p); s != "" && !IsSpace(s[0]) && !IsSpace(s[|s| - 1])
  {
    hide ClockText, Lettered;
    ClockEnds(p);
    if p.days != "" {
      var clock := ClockText(p);
      var tail := p.gap + Lettered(p.letter, p.space + clock);
      DigitEnds(p.days, tail);
      assert tail[|tail| - 1] == Lettered(p.letter, p.space + clock)[1..][|p.space| + |clock| - 1]
        == clock[|clock| - 1];
    }
  }

  lemma ClockHasNoDays(p: Parts, raw: string)
    requires Proper(p) && p.days == "" && raw == Written(p)
    ensures var rest := LStrip(TakeDigits(raw).1); Starts(rest, ':')
  {
    hide TakeDigits, Colon;
    var more := Colon(p.minutes + Colon(p.seconds));
    TakesDigits(p.hours, more);
    LStripThen("", more);
    assert "" + more == more;
  }

  lemma DaysParse(p: Parts, raw: string)
    requires Proper(p) && p.days != "" && raw == Written(p)
    ensures TakeDigits(raw).0 == p.days
    ensures LStrip(TakeDigits(raw).1) == Lettered(p.letter, p.space + ClockText(p))
    ensures LStrip(p.space + ClockText(p)) == ClockText(p)
  {
    hide TakeDigits, ClockText, Lettered, LStrip;
    var rest := Lettered(p.letter, p.space + ClockText(p));
    assert !IsDigit((p.gap + rest)[0]) by {
      if p.gap != "" { assert (p.gap + rest)[0] == p.gap[0]; } else { assert p.gap + rest == rest; }
    }
    TakesDigits(p.days, p.gap + rest);
    LStripThen(p.gap, rest);
    ClockEnds(p);
    LStripThen(p.space, ClockText(p));
  }

  /** Every text of the language, with any white space around it, parses to the seconds it stands
      for, flagged exactly if a part overflows. */
  lemma WrittenParses(before: string, p: Parts, after: string)
    requires Proper(p) && AllSpaces(before) && AllSpaces(after)
    ensures ParseDuration(before + (Written(p) + after)) == Some(Duration(Seconds(p), Overflows(p)))
  {
    hide TakeDigits, ParseClock, ClockText, Strip, LStrip, Value, Lettered, Total, Seconds, Overflows;
    var raw := Written(p);
    TotalOfParts(p);
    WrittenEnds(p);
    StripAround(before, raw, after);
    ClockParses(p);
    if p.days == "" {
      ClockHasNoDays(p, raw);
      NoDays();
    } else {
      DaysParse(p, raw);
      var rest := Lettered(p.letter, p.space + ClockText(p));
      assert rest[1] == rest[1..][0] == p.space[0];
    }
  }

  lemma NoDays()
    ensures Value("") == 0
  {
  }

  lemma ClockSound(s: string) returns (h: string, m: string, n: string)
    requires ParseClock(s).Some?
    ensures AllDigits(h) && AllDigits(m) && AllDigits(n) && h != "" && m != "" && n != ""
    ensures s == h + Colon(m + Colon(n)) && ParseClock(s) == Some(Clock(Value(h), Value(m), Value(n)))
  {
    hide TakeDigits, Value;
    var hours := TakeDigits(s);
    var minutes := TakeDigits(hours.1[1..]);
    var seconds := TakeDigits(minutes.1[1..]);
    TakenDigits(s);
    TakenDigits(hours.1[1..]);
    TakenDigits(minutes.1[1..]);
    h, m, n := hours.0, minutes.0, seconds.0;
    assert seconds.0 + "" == seconds.0;
    assert minutes.1 == Colon(n) && hours.1 == Colon(m + Colon(n));
  }

  lemma {:induction false} GapIsSpaces(s: string, i: nat)
    requires i < |s| - |LStrip(s)|
    ensures IsSpace(s[i])
  {
    if i > 0 { GapIsSpaces(s[1..], i - 1); }
  }

  lemma LStripGap(s: string) returns (gap: string)
    ensures AllSpaces(gap) && s == gap + LStrip(s)
    ensures s != "" && IsSpace(s[0]) ==> gap != ""
  {
    LStripIsSuffix(s);
    gap := s[..|s| - |LStrip(s)|];
    forall i | 0 <= i < |gap| ensures IsSpace(gap[i]) { GapIsSpaces(s, i); }
  }

  /** Whatever parses is a text of the language, and parses to the seconds it stands for. */
  lemma ParsedIsWritten(value: string) returns (p: Parts)
    requires ParseDuration(value).Some?
    ensures Proper(p) && Strip(value) == Written(p) && ParseDuration(value) == Some(Duration(Seconds(p), Overflows(p)))
  {
    hide TakeDigits, ParseClock, Strip, LStrip, Value;
    var raw := Strip(value);
    var (days, afterDays) := TakeDigits(raw);
    var rest := LStrip(afterDays);
    TakenDigits(raw);
    if days == "" || !(Starts(rest, 'd') || Starts(rest, 'D')) {
      var h, m, n := ClockSound(raw);
      p := Parts("", "", 'd', " ", h, m, n);
      NoDays();
      TotalOfParts(p);
    } else {
      var gap := LStripGap(afterDays);
      var space := LStripGap(rest[1..]);
      var h, m, n := ClockSound(LStrip(rest[1..]));
      p := Parts(days, gap, rest[0], space, h, m, n);
      assert rest == Lettered(rest[0], space + ClockText(p));
      TotalOfParts(p);
    }
  }

  // ----- printing

  function TwoDigits(n: nat): string { if n < 10 then "0" + Decimal(n) else Decimal(n) }

  lemma {:induction false} DecimalDigits(n: nat)
    ensures Decimal(n) != "" && AllDigits(Decimal(n))
  {
    if n >= 10 { DecimalDigits(n / 10); }
  }

  function FormatWhole(total: nat): string {
    TwoDigits(total / 3600) + ":" + TwoDigits(total % 3600 / 60) + ":" + TwoDigits(total % 60)
  }

  /** A number of seconds as H:M:S, its fraction cut off. */
  function FormatSeconds(total: real): string
    requires total >= 0.0
  {
    FormatWhole(total.Floor)
  }

  lemma ValueOfTwoDigits(n: nat)
    ensures Value(TwoDigits(n)) == n && TwoDigits(n) != "" && AllDigits(TwoDigits(n))
  {
    DecimalDigits(n);
    ValueOfDecimal(n);
    LeadingZero(Decimal(n));
  }

  lemma WholeParses(total: nat)
    ensures ParseDuration(FormatWhole(total)) == Some(Duration(total, false))
  {
    hide ParseDuration, TwoDigits, Written, Value, FormatWhole;
    var h, m, s := total / 3600, total % 3600 / 60, total % 60;
    var p := Parts("", "", 'd', " ", TwoDigits(h), TwoDigits(m), TwoDigits(s));
    ValueOfTwoDigits(h);
    ValueOfTwoDigits(m);
    ValueOfTwoDigits(s);
    WrittenParses("", p, "");
    PrintedIsWritten(total, p);
    NoDays();
    Fields(total);
  }

  /** Parsing a printed number of seconds gives its whole seconds, flagged canonical: the very
      number if it is whole, and in any case less than a second below it. */
  lemma PrintedParses(total: real) returns (whole: nat)
    requires total >= 0.0
    ensures ParseDuration(FormatSeconds(total)) == Some(Duration(whole, false))
    ensures whole as real <= total < whole as real + 1.0
  {
    whole := total.Floor;
    WholeParses(whole);
  }

  lemma Fields(total: nat)
    ensures total == total / 3600 * 3600 + total % 3600 / 60 * 60 + total % 60
    ensures total % 3600 / 60 <= 59 && total % 60 <= 59
  {
    var hours, rest := total / 3600, total % 3600;
    assert total == 60 * (60 * hours + rest / 60) + rest % 60;
    Remainder(60 * hours + rest / 60, rest % 60);
  }

  lemma Remainder(minutes: nat, seconds: nat)
    requires seconds < 60
    ensures (60 * minutes + seconds) % 60 == seconds
  {
  }

  lemma PrintedIsWritten(total: nat, p: Parts)
    requires p == Parts("", "", 'd', " ", TwoDigits(total / 3600), TwoDigits(total % 3600 / 60), TwoDigits(total % 60))
    ensures "" + (Written(p) + "") == FormatWhole(total)
  {
    hide TwoDigits;
    assert Written(p) == FormatWhole(total);
  }

  lemma TwoDigitsLong(n: nat)
    ensures |TwoDigits(n)| >= 2 && (n < 100 ==> |TwoDigits(n)| == 2)
  {
    if n >= 10 {
      DecimalDigits(n / 10);
      if n < 100 { assert n / 10 < 10; }
    }
  }

  /** A printed number of seconds has two digits for its minutes and two for its seconds, and
      two or more for its hours. */
  lemma PrintedInTwoDigits(total: real) returns (hours: string, minutes: string, seconds: string)
    requires total >= 0.0
    ensures FormatSeconds(total) == hours + ":" + minutes + ":" + seconds
    ensures AllDigits(hours) && AllDigits(minutes) && AllDigits(seconds)
    ensures |hours| >= 2 && |minutes| == 2 && |seconds| == 2
  {
    hide TwoDigits, Value;
    var whole: nat := total.Floor;
    hours, minutes, seconds := TwoDigits(whole / 3600), TwoDigits(whole % 3600 / 60), TwoDigits(whole % 60);
    Fields(whole);
    TwoDigitsLong(whole / 3600);
    TwoDigitsLong(whole % 3600 / 60);
    TwoDigitsLong(whole % 60);
    ValueOfTwoDigits(whole / 3600);
    ValueOfTwoDigits(whole % 3600 / 60);
    ValueOfTwoDigits(whole % 60);
  }
}
