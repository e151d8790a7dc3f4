/** The display helpers of the restaurant card: the 12-hour time label, the open-now
    badge, the star counts, the price colour and the cuisine emoji. The clock is not
    read here: the current minute of the day is a parameter. */
module RestaurantCard {
  import opened Wrappers
  import opened Text
  import opened Hours
  import opened Price
  import opened Catalog

  /** parseInt(s, 10): leading white space, an optional sign, then the longest run of
      decimal digits. None stands for NaN (no digit where the run must start). A "-0"
      reads as 0, which the card cannot tell from +0 since it only compares the hour
      with === 0 and >= 12. */
  function ParseInt(s: string): (r: Option<int>)
    ensures r.Some? ==> exists q :: 0 <= q < |s| && IsDigit(s[q])
  {
    var p := LeadingSpaces(s);
    var signed := p < |s| && (s[p] == '-' || s[p] == '+');
    var q := if signed then p + 1 else p;
    var e := DigitEnd(s, q);
    if e == q then None
    else
      assert IsDigit(s[q]);
      var v: int := DecimalValue(s[q..e]);
      Some(if signed && s[p] == '-' then -v else v)
  }

  /** A digit run followed by anything that is not a digit reads as the run's value. */
  lemma ParseIntOfDigits(d: string, rest: string)
    requires 1 <= |d| && AllDigits(d) && (rest == [] || !IsDigit(rest[0]))
    ensures ParseInt(d + rest) == Some(DecimalValue(d))
  {
    var s := d + rest;
    DigitsFirst(d, rest);
    ParseIntFromStart(s, |d|);
    assert s[0..|d|] == d;
  }

  /** d + rest starts with the digit run d and nothing else of it. */
  lemma DigitsFirst(d: string, rest: string)
    requires 1 <= |d| && AllDigits(d) && (rest == [] || !IsDigit(rest[0]))
    ensures var s := d + rest;
      && (forall k :: 0 <= k < |d| ==> IsDigit(s[k]))
      && (|d| == |s| || !IsDigit(s[|d|]))
  {
    var s := d + rest;
    forall k | 0 <= k < |d|
      ensures IsDigit(s[k])
    {
      assert s[k] == d[k];
    }
    if |d| < |s| {
      assert s[|d|] == rest[0];
    }
  }

  /** A text that opens with a digit run ending at n reads as that run. */
  lemma ParseIntFromStart(s: string, n: nat)
    requires 1 <= n <= |s| && (forall k :: 0 <= k < n ==> IsDigit(s[k]))
    requires n == |s| || !IsDigit(s[n])
    ensures AllDigits(s[..n]) && ParseInt(s) == Some(DecimalValue(s[..n]))
  {
    assert IsDigit(s[0]);
    assert LeadingSpaces(s) == 0;
    DigitEndAt(s, 0, n);
    assert s[0..n] == s[..n];
  }

  lemma DigitEndAt(s: string, q: nat, n: nat)
    requires q <= n <= |s| && (forall k :: q <= k < n ==> IsDigit(s[k]))
    requires n == |s| || !IsDigit(s[n])
    ensures DigitEnd(s, q) == n
  {
  }

  /** parseInt reads back what Number.prototype.toString writes. */
  lemma ParseIntOfNumeral(n: nat)
    ensures ParseInt(NatToString(n)) == Some(n)
  {
    NatToStringValue(n);
    ParseIntOfDigits(NatToString(n), "");
    assert NatToString(n) + "" == NatToString(n);
  }

  /** `${n}` for an integer. */
  function IntToString(n: int): (r: string)
    ensures 1 <= |r|
  {
    if n < 0 then "-" + NatToString(-n) else NatToString(n)
  }

  /** The hour formatTime shows: 0 becomes 12, 13 and above lose 12, the rest stay. */
  function DisplayHour(hour: int): (d: int)
    ensures 0 <= hour <= 23 ==> 1 <= d <= 12 && To24(d as nat, hour >= 12) == hour
  {
    if hour == 0 then 12 else if hour > 12 then hour - 12 else hour
  }

  /** hour >= 12 ? 'PM' : 'AM', where NaN compares false. */
  function PeriodOf(hour: Option<int>): (p: string)
    ensures p == "AM" || p == "PM"
  {
    if hour.Some? && hour.value >= 12 then "PM" else "AM"
  }

  /** formatTime: the text before the first colon read by parseInt, the text between the
      first and second colon as the minutes ("undefined" when there is no colon), and the
      period. The hour is not padded and the minutes are not checked. */
  function FormatTime(time: string): (r: string)
    ensures 5 <= |r| && r[|r| - 3] == ' ' && (r[|r| - 2..] == "AM" || r[|r| - 2..] == "PM")
  {
    LabelOf(Split(time, ':'))
  }

  /** The label built from the pieces of the time between colons. */
  function LabelOf(parts: seq<string>): (r: string)
    requires 1 <= |parts|
    ensures 5 <= |r| && r[|r| - 3] == ' ' && (r[|r| - 2..] == "AM" || r[|r| - 2..] == "PM")
  {
    var hour := ParseInt(parts[0]);
    var minutes := if 2 <= |parts| then parts[1] else "undefined";
    var shown := match hour
      case None => "NaN"
      case Some(h) => IntToString(DisplayHour(h));
    LabelEnds(shown + ":" + minutes, PeriodOf(hour));
    Label(shown, minutes, PeriodOf(hour))
  }

  /** The shown hour, a colon, the minutes, one space and the period. */
  function Label(shown: string, minutes: string, period: string): string {
    shown + ":" + minutes + " " + period
  }

  lemma LabelEnds(x: string, p: string)
    requires |p| == 2
    ensures var r := x + " " + p; r[|r| - 3] == ' ' && r[|r| - 2..] == p
  {
    var r := x + " " + p;
    assert r[|r| - 2..] == p;
  }

  /** The label formatTime gives a two-digit hour field hh and a colon-free minute field. */
  lemma FormatTimeOfFields(hh: string, minute: string)
    requires |hh| == 2 && AllDigits(hh) && ':' !in minute
    ensures var h := DecimalValue(hh);
      FormatTime(hh + ":" + minute) == Label(NatToString(DisplayHour(h)), minute, if h >= 12 then "PM" else "AM")
  {
    NoColonInDigits(hh);
    SplitTwo(hh, minute);
    LabelOfDigits(hh, minute);
  }

  /** Two colon-free pieces joined by a colon split back into those pieces. */
  lemma SplitTwo(a: string, b: string)
    requires ':' !in a && ':' !in b
    ensures Split(a + ":" + b, ':') == [a, b]
  {
    SplitUnique([a, b], ':');
    assert Join([a, b], ':') == a + ":" + b;
  }

  lemma LabelOfDigits(hh: string, minute: string)
    requires |hh| == 2 && AllDigits(hh)
    ensures var h := DecimalValue(hh);
      LabelOf([hh, minute]) == Label(NatToString(DisplayHour(h)), minute, if h >= 12 then "PM" else "AM")
  {
    ParseIntOfDigits(hh, "");
    assert hh + "" == hh;
  }

  /** For the hours 0..23 of a 24-hour clock the shown hour is in 1..12, the period is PM
      exactly from 12 on, and 0 shows as 12 AM, 12 as 12 PM and 13..23 as the hour
      minus 12. */
  lemma DisplayHourRange(h: nat)
    requires h <= 23
    ensures 1 <= DisplayHour(h) <= 12
    ensures h == 0 ==> DisplayHour(h) == 12
    ensures h == 12 ==> DisplayHour(h) == 12
    ensures 13 <= h ==> DisplayHour(h) == h - 12
    ensures 1 <= h <= 12 ==> DisplayHour(h) == h
  {
  }

  /** formatTime undoes the ingestion script's 12-to-24-hour rule: feeding the shown hour
      and period back into that rule gives the hour of the 24-hour clock again. */
  lemma DisplayHourRoundTrip(h: nat)
    requires h <= 23
    ensures To24(DisplayHour(h), h >= 12) == h
  {
  }

  /** Conversely, the 24-hour value of a 12-hour clock time shows as that clock time. */
  lemma To24RoundTrip(hour: nat, pm: bool)
    requires 1 <= hour <= 12
    ensures DisplayHour(To24(hour, pm)) == hour && (To24(hour, pm) >= 12 <==> pm)
  {
  }

  /** The ingestion token that formatTime's label spells: the shown hour, a colon, the
      minutes, one space and the period. */
  function CardToken(h: nat, minute: string): (t: TimeToken)
    requires h <= 23 && |minute| == 2 && AllDigits(minute)
    ensures WellFormed(t)
  {
    var d := DisplayHour(h);
    TimeToken(NatToString(d), true, minute, " ", if h >= 12 then "PM" else "AM")
  }

  /** Cross-file round trip: formatTime applied to a time the ingestion script stored
      spells a well-formed time token, and the script's conversion of that token gives the
      stored time back. */
  lemma FormatTimeRoundTrip(h: nat, minute: string)
    requires h <= 23 && |minute| == 2 && AllDigits(minute)
    ensures TokenText(CardToken(h, minute)) == FormatTime(ClockText(h, minute))
    ensures Clock24(CardToken(h, minute)) == ClockText(h, minute)
    ensures MatchPrefix(FormatTime(ClockText(h, minute))) == Some(CardToken(h, minute))
  {
    var t := CardToken(h, minute);
    ClockTextDigits(h, minute);
    var hh := PadStart2(NatToString(h));
    PaddedTwoDigits(h);
    HourDigits(h);
    assert ClockText(h, minute) == hh + ":" + minute;
    assert ':' !in minute by {
      forall k | 0 <= k < |minute|
        ensures minute[k] != ':'
      {
        assert IsDigit(minute[k]);
      }
    }
    FormatTimeOfFields(hh, minute);
    CardTokenClock(h, minute);
    FullTokenMatchesItself(t);
  }

  /** The script reads the card's token back as the stored hour and minutes. */
  lemma CardTokenClock(h: nat, minute: string)
    requires h <= 23 && |minute| == 2 && AllDigits(minute)
    ensures Clock24(CardToken(h, minute)) == ClockText(h, minute)
  {
    var t := CardToken(h, minute);
    NatToStringValue(DisplayHour(h));
    assert HourValue(t) == DisplayHour(h);
    assert IsPm(t) == (h >= 12);
    assert MinuteText(t) == minute;
    DisplayHourRoundTrip(h);
    assert To24(HourValue(t), IsPm(t)) == h;
  }

  /** A morning hour is shown with a single digit and no padding: "09:30" is "9:30 AM". */
  lemma MorningHourUnpadded(hh: string, minute: string)
    requires |hh| == 2 && AllDigits(hh) && 1 <= DecimalValue(hh) <= 9 && ':' !in minute
    ensures FormatTime(hh + ":" + minute) == Label([DigitChar(DecimalValue(hh))], minute, "AM")
  {
    FormatTimeOfFields(hh, minute);
    NatToStringOneDigit(DecimalValue(hh));
  }

  /** Midnight is shown as twelve in the morning: "00:00" is "12:00 AM". */
  lemma MidnightIsTwelve(hh: string, minute: string)
    requires |hh| == 2 && AllDigits(hh) && DecimalValue(hh) == 0 && ':' !in minute
    ensures FormatTime(hh + ":" + minute) == Label("12", minute, "AM")
  {
    FormatTimeOfFields(hh, minute);
    TwelveText(DisplayHour(DecimalValue(hh)));
  }

  lemma TwelveText(n: nat)
    requires n == 12
    ensures NatToString(n) == "12"
  {
    NatToStringTwoDigits(n);
  }

  /** Number(s) for the texts a time field can hold: white space around an optional sign
      and decimal digits, "" (after trimming) reading as 0; anything else is NaN (None). */
  function ToNumber(s: string): (r: Option<int>)
    ensures Trim(s) == "" ==> r == Some(0)
    ensures r.Some? && Trim(s) != "" ==> IsDigit(Trim(s)[|Trim(s)| - 1])
  {
    var t := Trim(s);
    if t == "" then Some(0)
    else if AllDigits(t) then Some(DecimalValue(t))
    else if 2 <= |t| && (t[0] == '+' || t[0] == '-') && AllDigits(t[1..]) then
      var v: int := DecimalValue(t[1..]);
      Some(if t[0] == '-' then -v else v)
    else None
  }

  /** A digit string reads as its decimal value. */
  lemma ToNumberOfDigits(d: string)
    requires AllDigits(d)
    ensures ToNumber(d) == Some(DecimalValue(d))
  {
    if d != [] {
      assert IsDigit(d[0]) && IsDigit(d[|d| - 1]);
    }
    TrimmedIffFixed(d);
  }

  /** The minute of the day isOpenNow computes from "H:M": split at ":", Number of each
      side, hour * 60 + minute. Without a colon the minute is undefined and the sum NaN. */
  function MinuteOfDay(time: string): (m: Option<int>)
    ensures m.Some? ==> ':' in time
  {
    SplitWithoutSeparatorIsOne(time);
    MinuteOfParts(Split(time, ':'))
  }

  /** [hour, minute] = parts, then hour * 60 + minute. */
  function MinuteOfParts(parts: seq<string>): (m: Option<int>)
    ensures m.Some? ==> 2 <= |parts|
  {
    if |parts| < 2 then None
    else
      var h := ToNumber(parts[0]);
      var mi := ToNumber(parts[1]);
      if h.Some? && mi.Some? then Some(60 * h.value + mi.value) else None
  }

  lemma SplitWithoutSeparatorIsOne(s: string)
    ensures ':' !in s ==> |Split(s, ':')| == 1
  {
    if ':' !in s {
      SplitWithoutSeparator(s, ':');
    }
  }

  /** isOpenNow with the current minute of the day as a parameter: open from the opening
      minute up to, but not including, the closing minute. NaN on either side compares
      false and so reads as closed. */
  function IsOpenNow(openingHours: string, closingHours: string, now: int): (open: bool)
    ensures open ==> MinuteOfDay(openingHours).Some? && MinuteOfDay(closingHours).Some?
  {
    var o := MinuteOfDay(openingHours);
    var c := MinuteOfDay(closingHours);
    o.Some? && c.Some? && now >= o.value && now < c.value
  }

  /** For a canonical HH:MM time, isOpenNow's minute of the day is the one the ingestion
      script means by it. */
  lemma MinuteOfDayOfClock(s: string)
    requires IsClock(s)
    ensures MinuteOfDay(s) == Some(ClockMinutes(s))
  {
    var a, b := ClockFields(s);
    MinuteOfDayValue(s, a, b, ClockMinutes(s));
  }

  /** The same, for a value x given by the two fields. */
  lemma MinuteOfDayValue(s: string, a: string, b: string, x: int)
    requires Split(s, ':') == [a, b] && AllDigits(a) && AllDigits(b)
    requires x == 60 * DecimalValue(a) + DecimalValue(b)
    ensures MinuteOfDay(s).Some? && MinuteOfDay(s).value == x
  {
    MinuteOfDayOfFields(s, a, b);
  }

  /** A canonical time splits at its colon into two digit fields, whose values make up
      its minute of the day. */
  lemma ClockFields(s: string) returns (a: string, b: string)
    requires IsClock(s)
    ensures Split(s, ':') == [a, b] && AllDigits(a) && AllDigits(b)
    ensures ClockMinutes(s) == 60 * DecimalValue(a) + DecimalValue(b)
  {
    a, b := s[..2], s[3..];
    ClockSplit(s);
  }

  lemma MinuteOfDayOfFields(s: string, a: string, b: string)
    requires Split(s, ':') == [a, b] && AllDigits(a) && AllDigits(b)
    ensures MinuteOfDay(s) == Some(60 * DecimalValue(a) + DecimalValue(b))
  {
    MinuteOfDayIsParts(s, a, b);
    MinuteOfDigitParts(a, b);
  }

  lemma MinuteOfDayIsParts(s: string, a: string, b: string)
    requires Split(s, ':') == [a, b]
    ensures MinuteOfDay(s) == MinuteOfParts([a, b])
  {
  }

  lemma MinuteOfDigitParts(a: string, b: string)
    requires AllDigits(a) && AllDigits(b)
    ensures MinuteOfParts([a, b]) == Some(60 * DecimalValue(a) + DecimalValue(b))
  {
    ToNumberOfDigits(a);
    ToNumberOfDigits(b);
    MinuteOfTwo(a, b, DecimalValue(a), DecimalValue(b));
  }

  lemma MinuteOfTwo(a: string, b: string, x: int, y: int)
    requires ToNumber(a) == Some(x) && ToNumber(b) == Some(y)
    ensures MinuteOfParts([a, b]) == Some(60 * x + y)
  {
  }

  /** A canonical time splits at its colon into the hour and minute digits. */
  lemma ClockSplit(s: string)
    requires IsClock(s)
    ensures Split(s, ':') == [s[..2], s[3..]]
  {
    var a, b := s[..2], s[3..];
    NoColonInDigits(a);
    NoColonInDigits(b);
    SplitUnique([a, b], ':');
    assert Join([a, b], ':') == s;
  }

  lemma NoColonInDigits(d: string)
    requires AllDigits(d)
    ensures ':' !in d
  {
    forall k | 0 <= k < |d|
      ensures d[k] != ':'
    {
      assert IsDigit(d[k]);
    }
  }

  /** Between two canonical times the card shows Open exactly from the opening minute up
      to, but not including, the closing minute. */
  lemma OpenIffWithinWindow(o: string, c: string, now: int)
    requires IsClock(o) && IsClock(c)
    ensures IsOpenNow(o, c, now) <==> ClockMinutes(o) <= now < ClockMinutes(c)
  {
    MinuteOfDayOfClock(o);
    MinuteOfDayOfClock(c);
  }

  /** It is Closed at the closing minute itself. */
  lemma ClosedAtClosingMinute(o: string, c: string)
    requires IsClock(o) && IsClock(c)
    ensures !IsOpenNow(o, c, ClockMinutes(c))
  {
    OpenIffWithinWindow(o, c, ClockMinutes(c));
  }

  /** A window that closes no later than it opens, an overnight one such as 22:00 to
      02:00 included, is never shown as open. */
  lemma OvernightNeverOpen(o: string, c: string, now: int)
    requires IsClock(o) && IsClock(c) && ClockMinutes(c) <= ClockMinutes(o)
    ensures !IsOpenNow(o, c, now)
  {
    OpenIffWithinWindow(o, c, now);
  }

  /** The default 11:00 to 22:00 window is open for the minutes 660 to 1319. */
  lemma DefaultWindow(now: int)
    ensures IsOpenNow(DefaultHours.opening, DefaultHours.closing, now) <==> 660 <= now < 1320
  {
    DefaultClock("11:00", 11);
    DefaultClock("22:00", 22);
    OpenIffWithinWindow(DefaultHours.opening, DefaultHours.closing, now);
  }

  lemma DefaultClock(s: string, h: nat)
    requires (s == "11:00" && h == 11) || (s == "22:00" && h == 22)
    ensures IsClock(s) && ClockMinutes(s) == 60 * h
  {
    assert s[..2] == [DigitChar(h / 10), DigitChar(h % 10)];
    assert s[3..] == "00";
    DecimalValueOfTwo(s[..2]);
    DecimalValueOfTwo(s[3..]);
  }

  /** The counts renderStars draws: full stars, whether a half star follows, and empty
      stars. */
  datatype StarCounts = StarCounts(full: int, half: bool, empty: int)

  /** Math.trunc, which the remainder operator rounds by. */
  function Trunc(x: real): (t: int)
    ensures x >= 0.0 ==> t as real <= x < t as real + 1.0
    ensures x < 0.0 ==> t as real - 1.0 < x <= t as real
  {
    if x >= 0.0 then x.Floor else -((-x).Floor)
  }

  /** rating % 1: the remainder keeps the sign of the rating. */
  function RemOne(x: real): (r: real)
    ensures -1.0 < r < 1.0
    ensures x >= 0.0 ==> 0.0 <= r
    ensures x < 0.0 ==> r <= 0.0
    ensures (x - r).Floor as real == x - r
  {
    x - Trunc(x) as real
  }

  /** renderStars: Math.floor(rating) full stars, a half star when rating % 1 >= 0.5, and
      the rest of five as empty stars. */
  function Stars(rating: real): (s: StarCounts)
    ensures s.full + (if s.half then 1 else 0) + s.empty == 5
    ensures s.full as real <= rating < s.full as real + 1.0
  {
    var full := rating.Floor;
    var half := RemOne(rating) >= 0.5;
    StarCounts(full, half, 5 - full - (if half then 1 else 0))
  }

  /** For a non-negative rating the stars show it rounded down to a half: the shown value
      is at most the rating and less than half a star below it. */
  lemma StarsRoundDownToHalf(rating: real)
    requires 0.0 <= rating
    ensures var s := Stars(rating);
      var shown := s.full as real + (if s.half then 0.5 else 0.0);
      shown <= rating < shown + 0.5
  {
  }

  /** A negative rating never gets a half star, because its remainder is not positive. */
  lemma NegativeRatingHasNoHalf(rating: real)
    requires rating < 0.0
    ensures !Stars(rating).half && Stars(rating).full < 0
  {
  }

  /** String.prototype.repeat for a count already known to be non-negative. */
  function Repeat(c: char, n: nat): (r: string)
    ensures |r| == n && forall i :: 0 <= i < n ==> r[i] == c
  {
    seq(n, _ => c)
  }

  /** The star text, or None where repeat throws a RangeError on a negative count. */
  function StarText(rating: real): (r: Option<string>)
    ensures r.Some? ==> |r.value| == 5
  {
    var s := Stars(rating);
    if s.full < 0 || s.empty < 0 then None
    else Some(Repeat('★', s.full) + (if s.half then "½" else "") + Repeat('☆', s.empty))
  }

  /** The star text can be drawn exactly for the ratings 0 up to, but not including, 5.5:
      from 5.5 on the empty count goes negative, and below 0 the full count does. */
  lemma StarTextDefinedIff(rating: real)
    ensures StarText(rating).Some? <==> 0.0 <= rating < 5.5
  {
    var s := Stars(rating);
    if 5.5 <= rating {
      if rating < 6.0 {
        assert s.full == 5 && RemOne(rating) >= 0.5;
      }
    }
    if 0.0 <= rating < 5.5 {
      if 5.0 <= rating {
        assert s.full == 5 && RemOne(rating) < 0.5;
      }
    }
  }

  /** The drawn text holds exactly the full stars first, then at most one half star, then
      the empty stars. */
  lemma StarTextContents(rating: real)
    requires 0.0 <= rating < 5.5
    ensures var s := Stars(rating);
      var t := StarText(rating).value;
      && (forall i :: 0 <= i < s.full ==> t[i] == '★')
      && (s.half <==> (s.full < 5 && t[s.full] == '½'))
      && (forall i :: 5 - s.empty <= i < 5 ==> t[i] == '☆')
  {
    StarTextDefinedIff(rating);
    var s := Stars(rating);
    var t := StarText(rating).value;
    var a := Repeat('★', s.full);
    var b: string := if s.half then "½" else "";
    var c := Repeat('☆', s.empty);
    assert t == a + b + c;
    if s.full < 5 {
      assert t[s.full] == (b + c)[0];
    }
    forall i | 5 - s.empty <= i < 5
      ensures t[i] == '☆'
    {
      assert t[i] == c[i - |a| - |b|];
    }
  }

  const Green := "text-green-600"
  const Yellow := "text-yellow-600"
  const Orange := "text-orange-600"
  const Red := "text-red-600"
  const Gray := "text-gray-600"

  /** getPriceColor: strict string equality against the four tiers, gray otherwise. */
  function PriceColor(priceRange: string): (cls: string)
    ensures cls in {Green, Yellow, Orange, Red, Gray}
  {
    if priceRange == "$" then Green
    else if priceRange == "$$" then Yellow
    else if priceRange == "$$$" then Orange
    else if priceRange == "$$$$" then Red
    else Gray
  }

  /** The four tiers get four different colours. */
  lemma TierColorsDistinct()
    ensures PriceColor("$") == Green && PriceColor("$$") == Yellow
    ensures PriceColor("$$$") == Orange && PriceColor("$$$$") == Red
    ensures |{Green, Yellow, Orange, Red}| == 4
    ensures Gray !in {Green, Yellow, Orange, Red}
  {
    assert Green[5] == 'g' && Yellow[5] == 'y' && Orange[5] == 'o' && Red[5] == 'r' && Gray[5] == 'g';
    assert Green[6] == 'r' && Gray[6] == 'r' && Green[7] == 'e' && Gray[7] == 'a';
  }

  /** A tier spelled with n dollar signs. */
  lemma TierIsDollars(p: string)
    requires IsTier(p)
    ensures p == Dollars(|p|)
  {
  }

  /** A price text is coloured (not gray) exactly when it is a tier of one to four
      dollar signs. */
  lemma ColoredIffTier(p: string)
    ensures PriceColor(p) != Gray <==> IsTier(p)
  {
    TierColorsDistinct();
    if IsTier(p) {
      TierIsDollars(p);
      assert Dollars(1) == "$" && Dollars(2) == "$$" && Dollars(3) == "$$$" && Dollars(4) == "$$$$";
    }
    if PriceColor(p) != Gray {
      assert IsTier("$") && IsTier("$$") && IsTier("$$$") && IsTier("$$$$");
    }
  }

  /** Every tier the ingestion script writes is shown in colour. */
  lemma ImportedTierColored(priceText: string)
    ensures PriceColor(ConvertPriceRange(priceText)) != Gray
  {
    ColoredIffTier(ConvertPriceRange(priceText));
  }

  /** One entry of cuisineEmojis. */
  datatype CuisineEntry = CuisineEntry(cuisine: string, emoji: string)

  /** cuisineEmojis in the order it is written. */
  const CuisineEmojis: seq<CuisineEntry> := [
    CuisineEntry("Chinese", "\U{1F961}"),
    CuisineEntry("Italian", "\U{1F35D}"),
    CuisineEntry("Mexican", "\U{1F32E}"),
    CuisineEntry("Japanese", "\U{1F363}"),
    CuisineEntry("American", "\U{1F354}"),
    CuisineEntry("Indian", "\U{1F35B}"),
    CuisineEntry("Vietnamese", "\U{1F35C}"),
    CuisineEntry("Mediterranean", "\U{1F959}"),
    CuisineEntry("Korean", "\U{1F372}"),
    CuisineEntry("French", "\U{1F950}"),
    CuisineEntry("Thai", "\U{1F35C}"),
    CuisineEntry("Vegan", "\U{1F957}"),
    CuisineEntry("Seafood", "\U{1F990}"),
    CuisineEntry("Greek", "\U{1F959}"),
    CuisineEntry("Ethiopian", "\U{1F372}"),
    CuisineEntry("Brazilian", "\U{1F969}"),
    CuisineEntry("Peruvian", "\U{1F41F}"),
    CuisineEntry("Spanish", "\U{1F958}")
  ]

  /** The fork-and-knife plate with its emoji presentation selector. */
  const FallbackEmoji := "\U{1F37D}\U{FE0F}"

  /** cuisineEmojis[cuisine]: the emoji of the entry whose key equals cuisine, if any. */
  function LookupFrom(table: seq<CuisineEntry>, cuisine: string, i: nat): (r: Option<string>)
    requires i <= |table|
    ensures r.Some? ==> exists k :: i <= k < |table| && table[k].cuisine == cuisine && table[k].emoji == r.value
    ensures r.None? <==> forall k :: i <= k < |table| ==> table[k].cuisine != cuisine
    decreases |table| - i
  {
    if i == |table| then None
    else if table[i].cuisine == cuisine then Some(table[i].emoji)
    else LookupFrom(table, cuisine, i + 1)
  }

  /** getCuisineEmoji: the looked-up emoji, or the fallback when there is none or it is
      the empty string (both are falsy for ||). */
  function CuisineEmoji(cuisine: string): (e: string)
    ensures e == FallbackEmoji
      || exists k :: 0 <= k < |CuisineEmojis| && CuisineEmojis[k].cuisine == cuisine && CuisineEmojis[k].emoji == e
  {
    match LookupFrom(CuisineEmojis, cuisine, 0)
    case Some(v) => if v == "" then FallbackEmoji else v
    case None => FallbackEmoji
  }

  /** Every emoji in the table is one code point, so none is empty and none is the
      two-code-point fallback. */
  lemma EmojisAreSingle()
    ensures forall k :: 0 <= k < |CuisineEmojis| ==> |CuisineEmojis[k].emoji| == 1
  {
  }

  /** The fallback is shown exactly for a cuisine that is not a key of the table. */
  lemma FallbackIffUnlisted(cuisine: string)
    ensures CuisineEmoji(cuisine) == FallbackEmoji <==>
      forall k :: 0 <= k < |CuisineEmojis| ==> CuisineEmojis[k].cuisine != cuisine
  {
    EmojisAreSingle();
  }

  /** A listed cuisine gets the emoji of its first entry. */
  lemma ListedEmoji(cuisine: string, k: nat)
    requires k < |CuisineEmojis| && CuisineEmojis[k].cuisine == cuisine
    requires forall j :: 0 <= j < k ==> CuisineEmojis[j].cuisine != cuisine
    ensures CuisineEmoji(cuisine) == CuisineEmojis[k].emoji
  {
    EmojisAreSingle();
    FirstLookup(CuisineEmojis, cuisine, 0, k);
  }

  lemma {:induction false} FirstLookup(table: seq<CuisineEntry>, cuisine: string, i: nat, k: nat)
    requires i <= k < |table| && table[k].cuisine == cuisine
    requires forall j :: i <= j < k ==> table[j].cuisine != cuisine
    ensures LookupFrom(table, cuisine, i) == Some(table[k].emoji)
    decreases k - i
  {
    if i < k {
      FirstLookup(table, cuisine, i + 1, k);
    }
  }

  /** Every key of the table starts with a capital letter. */
  lemma KeysCapitalised()
    ensures forall k :: 0 <= k < |CuisineEmojis| ==>
      0 < |CuisineEmojis[k].cuisine| && 'A' <= CuisineEmojis[k].cuisine[0] <= 'Z'
  {
  }

  /** The lookup is case-sensitive: a cuisine written with a lower-case first letter,
      "thai" say, gets the fallback. */
  lemma LowerCaseGetsFallback(cuisine: string)
    requires 0 < |cuisine| && 'a' <= cuisine[0] <= 'z'
    ensures CuisineEmoji(cuisine) == FallbackEmoji
  {
    KeysCapitalised();
    FallbackIffUnlisted(cuisine);
  }

  /** Thai and Vietnamese share the steaming bowl. */
  lemma ThaiSharesWithVietnamese(thai: string, vietnamese: string)
    requires thai == "Thai" && vietnamese == "Vietnamese"
    ensures CuisineEmoji(thai) == CuisineEmoji(vietnamese) == "\U{1F35C}"
  {
    ThaiEmoji(thai);
    VietnameseEmoji(vietnamese);
  }

  lemma ThaiEmoji(thai: string)
    requires thai == "Thai"
    ensures CuisineEmoji(thai) == "\U{1F35C}"
  {
    forall j | 0 <= j < 10
      ensures CuisineEmojis[j].cuisine != thai
    {
      assert CuisineEmojis[j].cuisine[0] != 'T' || |CuisineEmojis[j].cuisine| != 4;
    }
    ListedEmoji(thai, 10);
  }

  lemma VietnameseEmoji(vietnamese: string)
    requires vietnamese == "Vietnamese"
    ensures CuisineEmoji(vietnamese) == "\U{1F35C}"
  {
    forall j | 0 <= j < 6
      ensures CuisineEmojis[j].cuisine != vietnamese
    {
      assert CuisineEmojis[j].cuisine[0] != 'V';
    }
    ListedEmoji(vietnamese, 6);
  }

  /** The cuisine the ingestion script fills in for an empty field has its own emoji. */
  lemma DefaultCuisineListed()
    ensures CuisineEmoji(DefaultCuisine) == "\U{1F35B}"
  {
    forall j | 0 <= j < 5
      ensures CuisineEmojis[j].cuisine != DefaultCuisine
    {
      assert CuisineEmojis[j].cuisine[1] != 'n';
    }
    ListedEmoji(DefaultCuisine, 5);
  }
}
