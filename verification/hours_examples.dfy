/** Worked inputs for the operating-hours scanner: backtracking inside one match. */
module HoursExamples {
  import opened Wrappers
  import opened Text
  import opened Hours

  /** "830PM": two hour digits would leave "0PM", so backtracking takes the hour 8 with
      minutes 30, giving 20:30. */
  lemma BacktrackingExample830(s: string)
    requires s == "830PM"
    ensures MatchPrefix(s) == Some(TimeToken("8", false, "30", "", "PM"))
    ensures Clock24(MatchPrefix(s).value) == "20:30"
  {
    Match830(s);
    Clock830();
  }

  lemma Match830(s: string)
    requires s == "830PM"
    ensures MatchPrefix(s) == Some(TimeToken("8", false, "30", "", "PM"))
  {
    assert s[0] == '8' && s[1] == '3' && s[2] == '0' && s[3] == 'P' && s[4] == 'M';
    OneDigitHourWithMinutes(s);
    assert s[..1] == "8" && s[1..3] == "30" && s[3..5] == "PM";
  }

  /** Three digits then AM or PM: backtracking gives the first digit to the hour and the
      other two to the minutes. */
  lemma OneDigitHourWithMinutes(x: string)
    requires 5 <= |x| && IsDigit(x[0]) && IsDigit(x[1]) && IsDigit(x[2])
    requires IsPeriodLead(x[3]) && IsM(x[4])
    ensures MatchPrefix(x) == Some(TimeToken(x[..1], false, x[1..3], "", x[3..5]))
  {
    NoTwoDigitHourBeforePeriod(x);
    MatchFromSkip(x, 4);
    MatchFromSkip(x, 5);
    ThreeDigitsFitShape(x);
  }

  lemma ThreeDigitsFitShape(x: string)
    requires 5 <= |x| && IsDigit(x[0]) && IsDigit(x[1]) && IsDigit(x[2])
    requires IsPeriodLead(x[3]) && IsM(x[4])
    ensures TryShape(x, Shapes[6]) == Some(TimeToken(x[..1], false, x[1..3], "", x[3..5]))
  {
    var t := TimeToken(x[..1], false, x[1..3], "", x[3..5]);
    assert TokenText(t) == x[..5];
    TryShapeComplete(x, t);
    assert ShapeOf(t) == Shapes[6];
  }

  /** With a digit after the first one and no colon, the two-digit-hour shapes and the
      colon shapes all fail on three digits followed by AM or PM. */
  lemma NoTwoDigitHourBeforePeriod(x: string)
    requires 5 <= |x| && IsDigit(x[0]) && IsDigit(x[1]) && IsDigit(x[2])
    requires IsPeriodLead(x[3])
    ensures MatchFrom(x, 0) == MatchFrom(x, 4)
    ensures TryShape(x, Shapes[4]).None? && TryShape(x, Shapes[5]).None?
  {
    ColonAbsent(x, Shapes[0]);
    ColonAbsent(x, Shapes[1]);
    NoTwoDigitHourWithoutColon(x);
    MatchFromSkip(x, 0);
    MatchFromSkip(x, 1);
    MatchFromSkip(x, 2);
    MatchFromSkip(x, 3);
    ColonAbsent(x, Shapes[4]);
    ColonAbsent(x, Shapes[5]);
  }

  lemma NoTwoDigitHourWithoutColon(x: string)
    requires 5 <= |x| && IsDigit(x[2]) && IsPeriodLead(x[3])
    ensures TryShape(x, Shapes[2]).None? && TryShape(x, Shapes[3]).None?
  {
    assert x[2..4][1] == x[3];
    assert SpaceRun(x[2..]) == 0;
  }

  /** A shape with a colon fails where the character after the hour is not one. */
  lemma ColonAbsent(x: string, sh: Shape)
    requires sh.colon
    requires (if sh.twoDigitHour then 2 else 1) < |x|
    requires x[if sh.twoDigitHour then 2 else 1] != ':'
    ensures TryShape(x, sh).None?
  {
  }

  /** A shape that does not fit passes the choice on to the next one. */
  lemma MatchFromSkip(x: string, rank: nat)
    requires rank < 8 && TryShape(x, Shapes[rank]).None?
    ensures MatchFrom(x, rank) == MatchFrom(x, rank + 1)
  {
  }

  lemma Clock830()
    ensures Clock24(TimeToken("8", false, "30", "", "PM")) == "20:30"
  {
    var t := TimeToken("8", false, "30", "", "PM");
    assert HourValue(t) == 8 && IsPm(t) && MinuteText(t) == "30";
    ClockTextDigits(20, "30");
  }

  /** "1030AM": two hour digits and two minute digits, giving 10:30. */
  lemma BacktrackingExample1030(s: string)
    requires s == "1030AM"
    ensures MatchPrefix(s) == Some(TimeToken("10", false, "30", "", "AM"))
    ensures Clock24(MatchPrefix(s).value) == "10:30"
  {
    Match1030(s);
    Clock1030(MatchPrefix(s).value);
  }

  lemma Match1030(s: string)
    requires s == "1030AM"
    ensures MatchPrefix(s) == Some(TimeToken("10", false, "30", "", "AM"))
  {
    assert s[0] == '1' && s[1] == '0' && s[2] == '3' && s[3] == '0' && s[4] == 'A' && s[5] == 'M';
    TwoDigitHourWithMinutes(s);
    assert s[..2] == "10" && s[2..4] == "30" && s[4..6] == "AM";
  }

  /** Four digits then AM or PM: two hour digits and two minute digits. */
  lemma TwoDigitHourWithMinutes(x: string)
    requires 6 <= |x| && IsDigit(x[0]) && IsDigit(x[1]) && IsDigit(x[2]) && IsDigit(x[3])
    requires IsPeriodLead(x[4]) && IsM(x[5])
    ensures MatchPrefix(x) == Some(TimeToken(x[..2], false, x[2..4], "", x[4..6]))
  {
    ColonAbsent(x, Shapes[0]);
    ColonAbsent(x, Shapes[1]);
    MatchFromSkip(x, 0);
    MatchFromSkip(x, 1);
    FourDigitsFitShape(x);
  }

  lemma FourDigitsFitShape(x: string)
    requires 6 <= |x| && IsDigit(x[0]) && IsDigit(x[1]) && IsDigit(x[2]) && IsDigit(x[3])
    requires IsPeriodLead(x[4]) && IsM(x[5])
    ensures TryShape(x, Shapes[2]) == Some(TimeToken(x[..2], false, x[2..4], "", x[4..6]))
  {
    var t := TimeToken(x[..2], false, x[2..4], "", x[4..6]);
    assert TokenText(t) == x[..6];
    TryShapeComplete(x, t);
    assert ShapeOf(t) == Shapes[2];
  }

  lemma Clock1030(t: TimeToken)
    requires t == TimeToken("10", false, "30", "", "AM")
    ensures Clock24(t) == "10:30"
  {
    HourTen(t);
    var h := To24(HourValue(t), IsPm(t));
    assert h == 10;
    ClockTextDigits(h, MinuteText(t));
    assert DigitChar(1) == '1' && DigitChar(0) == '0';
    assert MinuteText(t) == "30";
  }

  lemma HourTen(t: TimeToken)
    requires t == TimeToken("10", false, "30", "", "AM")
    ensures WellFormed(t) && HourValue(t) == 10
  {
    DecimalValueOfTwo(t.hourText);
  }

  /** "12:00 AM": midnight, the one AM hour that changes, reads as 00:00. */
  lemma MidnightExample(s: string)
    requires s == "12:00 AM"
    ensures MatchPrefix(s) == Some(TimeToken("12", true, "00", " ", "AM"))
    ensures Clock24(MatchPrefix(s).value) == "00:00"
  {
    var t := TimeToken("12", true, "00", " ", "AM");
    HourTwelve(t);
    assert TokenText(t) == s;
    FullTokenMatchesItself(t);
    MidnightClock(t);
  }

  lemma MidnightClock(t: TimeToken)
    requires t == TimeToken("12", true, "00", " ", "AM")
    ensures Clock24(t) == "00:00"
  {
    HourTwelve(t);
    var h := To24(HourValue(t), IsPm(t));
    assert h == 0;
    ClockTextDigits(h, MinuteText(t));
    assert DigitChar(0) == '0';
    assert MinuteText(t) == "00";
  }

  lemma HourTwelve(t: TimeToken)
    requires t == TimeToken("12", true, "00", " ", "AM")
    ensures WellFormed(t) && HourValue(t) == 12
  {
    DecimalValueOfTwo(t.hourText);
  }

  /** "Mon-Fri 8AM-5PM, Sat 9AM-1PM" holds four matches; the opening time comes from the
      first (8AM) and the closing time from the last (1PM), so 5PM and 9AM play no part. */
  lemma WeekExample(s: string)
    requires s == "Mon-Fri 8AM-5PM, Sat 9AM-1PM"
    ensures ParseOperatingHours(s) == OpeningHours("08:00", "13:00")
  {
    WeekText(s);
    WeekRule(s);
    OneDigitClock(s, 8, 8, false);
    OneDigitClock(s, 25, 1, true);
    EightAm(To24(8, false));
    OnePm(To24(1, true));
  }

  /** "Open 9AM daily" holds a single time, and one time is not enough: the hours are the
      default pair, not 09:00 to 09:00. */
  lemma SingleTimeGivesDefault(s: string)
    requires s == "Open 9AM daily"
    ensures |Scan(s)| == 1
    ensures ParseOperatingHours(s) == DefaultHours
  {
    assert NoDigits(s, 0, 5) && OneDigitAt(s, 5) && NoDigits(s, 8, 14);
    ScanSkipsNonDigits(s, 0, 5);
    OneDigitStep(s, 5);
    ScanSkipsNonDigits(s, 8, 14);
    assert Matches(s, 14) == [];
  }

  /** Text without digits from p up to q. */
  predicate NoDigits(s: string, p: nat, q: nat) {
    p <= q <= |s| && forall i :: p <= i < q ==> !IsDigit(s[i])
  }

  /** One digit and AM or PM at p, as in "8AM". */
  predicate OneDigitAt(s: string, p: nat) {
    p + 3 <= |s| && IsDigit(s[p]) && IsPeriodLead(s[p + 1]) && IsM(s[p + 2])
  }

  function OneDigitToken(s: string, p: nat): TimeToken
    requires p + 3 <= |s|
  {
    TimeToken(s[p..p + 1], false, "", "", s[p + 1..p + 3])
  }

  /** The layout of the week text: four one-digit times separated by text without digits. */
  predicate WeekShape(s: string) {
    && |s| == 28
    && NoDigits(s, 0, 8) && OneDigitAt(s, 8)
    && NoDigits(s, 11, 12) && OneDigitAt(s, 12)
    && NoDigits(s, 15, 21) && OneDigitAt(s, 21)
    && NoDigits(s, 24, 25) && OneDigitAt(s, 25)
  }

  lemma WeekText(s: string)
    requires s == "Mon-Fri 8AM-5PM, Sat 9AM-1PM"
    ensures WeekShape(s)
    ensures DigitValue(s[8]) == 8 && s[9] == 'A' && DigitValue(s[25]) == 1 && s[26] == 'P'
  {
  }

  /** Text laid out as WeekShape gets its hours from its first and fourth times. */
  lemma WeekRule(s: string)
    requires WeekShape(s)
    ensures WellFormed(OneDigitToken(s, 8)) && WellFormed(OneDigitToken(s, 25))
    ensures ParseOperatingHours(s) == OpeningHours(Clock24(OneDigitToken(s, 8)), Clock24(OneDigitToken(s, 25)))
  {
    WeekHead(s);
    var tail := WeekTail(s);
    FourMatchHours(s, [TimeMatch(8, OneDigitToken(s, 8))] + ([TimeMatch(12, OneDigitToken(s, 12))] + tail));
  }

  lemma WeekHead(s: string)
    requires WeekShape(s)
    ensures Matches(s, 0)
      == [TimeMatch(8, OneDigitToken(s, 8))] + ([TimeMatch(12, OneDigitToken(s, 12))] + Matches(s, 15))
  {
    ScanSkipsNonDigits(s, 0, 8);
    OneDigitStep(s, 8);
    ScanSkipsNonDigits(s, 11, 12);
    OneDigitStep(s, 12);
  }

  lemma WeekTail(s: string) returns (tail: seq<TimeMatch>)
    requires WeekShape(s)
    ensures tail == [TimeMatch(21, OneDigitToken(s, 21)), TimeMatch(25, OneDigitToken(s, 25))]
    ensures Matches(s, 15) == tail
  {
    var m3, m4 := TimeMatch(21, OneDigitToken(s, 21)), TimeMatch(25, OneDigitToken(s, 25));
    tail := [m3, m4];
    ScanSkipsNonDigits(s, 15, 21);
    OneDigitStep(s, 21);
    ScanSkipsNonDigits(s, 24, 25);
    OneDigitStep(s, 25);
    assert Matches(s, 28) == [];
    assert [m3] + ([m4] + []) == tail;
  }

  /** The scan takes a one-digit time at p as its next match and continues after it. */
  lemma OneDigitStep(s: string, p: nat)
    requires OneDigitAt(s, p)
    ensures WellFormed(OneDigitToken(s, p))
    ensures Matches(s, p) == [TimeMatch(p, OneDigitToken(s, p))] + Matches(s, p + 3)
  {
    var x := s[p..];
    DigitThenPeriod(x);
    assert x[..1] == s[p..p + 1] && x[1..3] == s[p + 1..p + 3];
    assert |TokenText(OneDigitToken(s, p))| == 3;
  }

  lemma FourMatchHours(s: string, ms: seq<TimeMatch>)
    requires Scan(s) == ms && |ms| == 4
    ensures ParseOperatingHours(s) == OpeningHours(Clock24(ms[0].token), Clock24(ms[3].token))
  {
  }

  /** The 24-hour text of a one-digit time. */
  lemma OneDigitClock(s: string, p: nat, d: nat, pm: bool)
    requires OneDigitAt(s, p) && DigitValue(s[p]) == d && s[p + 1] == (if pm then 'P' else 'A')
    ensures Clock24(OneDigitToken(s, p)) == ClockText(To24(d, pm), "00")
  {
    var t := OneDigitToken(s, p);
    OneDigitValue(t.hourText, s[p]);
    assert HourValue(t) == d && IsPm(t) == pm && MinuteText(t) == "00";
  }

  lemma OneDigitValue(h: string, c: char)
    requires h == [c] && IsDigit(c)
    ensures AllDigits(h) && DecimalValue(h) == DigitValue(c)
  {
    assert h[..0] == [];
  }

  lemma EightAm(h: nat)
    requires h == 8
    ensures ClockText(h, "00") == "08:00"
  {
    ClockTextDigits(h, "00");
  }

  lemma OnePm(h: nat)
    requires h == 13
    ensures ClockText(h, "00") == "13:00"
  {
    ClockTextDigits(h, "00");
  }
}
