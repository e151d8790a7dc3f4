/** parseOperatingHours of the CSV ingestion script: a left-to-right scan for the pattern
    /(\d{1,2}):?(\d{2})?\s*(AM|PM)/gi, a 12-to-24-hour conversion of every match, and
    the choice of the first and the last match as opening and closing time. */
module Hours {
  import opened Text
  import opened Wrappers

  /** The pieces of one match of the pattern, as they appear in the text: the hour
      digits, whether a colon follows, the minute digits ("" when the optional group
      did not take part), the white space before the period, and the period letters. */
  datatype TimeToken = TimeToken(hourText: string, colon: bool, minuteText: string, gap: string, period: string)

  /** The matched text. */
  function TokenText(t: TimeToken): string {
    t.hourText + (if t.colon then ":" else "") + t.minuteText + t.gap + t.period
  }

  /** First letter of AM or PM under the i flag. */
  predicate IsPeriodLead(c: char) {
    c == 'A' || c == 'a' || c == 'P' || c == 'p'
  }

  predicate IsM(c: char) {
    c == 'M' || c == 'm'
  }

  /** The token is one the pattern can produce. */
  predicate WellFormed(t: TimeToken) {
    && 1 <= |t.hourText| <= 2 && AllDigits(t.hourText)
    && (|t.minuteText| == 0 || (|t.minuteText| == 2 && AllDigits(t.minuteText)))
    && AllSpaces(t.gap)
    && |t.period| == 2 && IsPeriodLead(t.period[0]) && IsM(t.period[1])
  }

  /** The pattern can match s at position 0 producing t. */
  predicate OccursAtStart(s: string, t: TimeToken) {
    WellFormed(t) && TokenText(t) <= s
  }

  /** One way through the pattern's optional parts: two hour digits or one, with or
      without the colon, with or without the minute group. */
  datatype Shape = Shape(twoDigitHour: bool, colon: bool, minutes: bool)

  function ShapeOf(t: TimeToken): Shape {
    Shape(|t.hourText| == 2, t.colon, |t.minuteText| == 2)
  }

  /** The order in which backtracking tries the shapes: two hour digits before one,
      the colon before none, the minute group before skipping it. */
  function ShapeRank(sh: Shape): nat {
    (if sh.twoDigitHour then 0 else 4) + (if sh.colon then 0 else 2) + (if sh.minutes then 0 else 1)
  }

  function Rank(t: TimeToken): nat {
    ShapeRank(ShapeOf(t))
  }

  /** The shapes in backtracking order. */
  const Shapes: seq<Shape> := [
    Shape(true, true, true), Shape(true, true, false), Shape(true, false, true), Shape(true, false, false),
    Shape(false, true, true), Shape(false, true, false), Shape(false, false, true), Shape(false, false, false)]

  lemma ShapesInRankOrder(k: nat)
    requires k < 8
    ensures ShapeRank(Shapes[k]) == k
  {
  }

  /** Length of the white-space run \s* takes at the start of s. */
  function SpaceRun(s: string): nat {
    if 0 < |s| && IsSpace(s[0]) then 1 + SpaceRun(s[1..]) else 0
  }

  /** \s* is greedy and the period letters are not white space: the run before a period
      is the whole white-space prefix. */
  lemma {:induction false} SpaceRunBeforePeriod(x: string, gap: string)
    requires AllSpaces(gap) && gap <= x && |gap| < |x| && !IsSpace(x[|gap|])
    ensures SpaceRun(x) == |gap|
  {
    if |gap| > 0 {
      assert gap[0] == x[0];
      SpaceRunBeforePeriod(x[1..], gap[1..]);
    }
  }

  lemma {:induction false} SpaceRunIsSpaces(x: string)
    ensures SpaceRun(x) <= |x| && AllSpaces(x[..SpaceRun(x)])
  {
    if 0 < |x| && IsSpace(x[0]) {
      SpaceRunIsSpaces(x[1..]);
      assert x[..SpaceRun(x)] == [x[0]] + x[1..][..SpaceRun(x[1..])];
    }
  }

  /** Where a shape's hour digits end, its minute digits start and its white space
      starts. */
  function HourEnd(sh: Shape): nat {
    if sh.twoDigitHour then 2 else 1
  }

  function MinuteStart(sh: Shape): nat {
    HourEnd(sh) + (if sh.colon then 1 else 0)
  }

  function GapStart(sh: Shape): nat {
    MinuteStart(sh) + (if sh.minutes then 2 else 0)
  }

  /** One shape tried at the start of s. */
  function TryShape(s: string, sh: Shape): Option<TimeToken> {
    var hourLen := HourEnd(sh);
    var m0 := MinuteStart(sh);
    var g0 := GapStart(sh);
    if |s| < g0 || !AllDigits(s[..hourLen]) || (sh.colon && s[hourLen] != ':') || !AllDigits(s[m0..g0]) then None
    else
      var rest := s[g0..];
      SpaceRunIsSpaces(rest);
      var n := SpaceRun(rest);
      if n + 2 <= |rest| && IsPeriodLead(rest[n]) && IsM(rest[n + 1]) then
        Some(TimeToken(s[..hourLen], sh.colon, s[m0..g0], rest[..n], rest[n..n + 2]))
      else None
  }

  lemma TryShapeSound(s: string, sh: Shape)
    requires TryShape(s, sh).Some?
    ensures OccursAtStart(s, TryShape(s, sh).value)
    ensures ShapeOf(TryShape(s, sh).value) == sh
  {
    TryShapeWellFormed(s, sh);
    TryShapeText(s, sh);
  }

  lemma TryShapeWellFormed(s: string, sh: Shape)
    requires TryShape(s, sh).Some?
    ensures WellFormed(TryShape(s, sh).value)
  {
    var g0 := GapStart(sh);
    var x := s[g0..];
    var n := SpaceRun(x);
    SpaceRunIsSpaces(x);
    TryShapeParts(s, sh);
    SliceOfSuffix(s, g0, 0, n);
    assert s[g0 + n] == x[n] && s[g0 + n + 1] == x[n + 1];
  }

  /** The token of a fitting shape is made of consecutive blocks of s. */
  lemma TryShapeParts(s: string, sh: Shape)
    requires TryShape(s, sh).Some?
    ensures var g0 := GapStart(sh);
      var g1 := g0 + SpaceRun(s[g0..]);
      && g1 + 2 <= |s| && (sh.colon ==> s[HourEnd(sh)] == ':')
      && TryShape(s, sh).value == TimeToken(s[..HourEnd(sh)], sh.colon, s[MinuteStart(sh)..g0], s[g0..g1], s[g1..g1 + 2])
  {
    var g0 := GapStart(sh);
    var n := SpaceRun(s[g0..]);
    SliceOfSuffix(s, g0, 0, n);
    SliceOfSuffix(s, g0, n, n + 2);
  }

  lemma TryShapeText(s: string, sh: Shape)
    requires TryShape(s, sh).Some?
    ensures TokenText(TryShape(s, sh).value) <= s
  {
    var t := TryShape(s, sh).value;
    TryShapeParts(s, sh);
    var h, m0, g0 := HourEnd(sh), MinuteStart(sh), GapStart(sh);
    var g1 := g0 + SpaceRun(s[g0..]);
    SlicePieces(s, h, m0, g0, g1, g1 + 2);
    assert (if sh.colon then ":" else "") == s[h..m0];
    assert TokenText(t) == s[..g1 + 2];
  }

  /** Adjacent blocks of a string concatenate to the block they span. */
  lemma SlicePieces(s: string, a: nat, b: nat, c: nat, d: nat, e: nat)
    requires a <= b <= c <= d <= e <= |s|
    ensures s[..a] + s[a..b] + s[b..c] + s[c..d] + s[d..e] == s[..e]
    ensures s[c..][..d - c] == s[c..d] && s[c..][d - c..e - c] == s[d..e]
  {
    assert s[..a] + s[a..b] == s[..b];
    assert s[..b] + s[b..c] == s[..c];
    assert s[..c] + s[c..d] == s[..d];
    assert s[..d] + s[d..e] == s[..e];
  }

  /** Where the pieces of an occurring token sit in the text, at the offsets of its
      shape. */
  lemma TokenPieces(s: string, t: TimeToken)
    requires OccursAtStart(s, t)
    ensures var sh := ShapeOf(t);
            var g1 := GapStart(sh) + |t.gap|;
            && g1 + 2 <= |s|
            && s[..HourEnd(sh)] == t.hourText
            && (t.colon ==> s[HourEnd(sh)] == ':')
            && s[MinuteStart(sh)..GapStart(sh)] == t.minuteText
            && s[GapStart(sh)..g1] == t.gap
            && s[g1..g1 + 2] == t.period
  {
    var text := TokenText(t);
    var sh := ShapeOf(t);
    var g1 := GapStart(sh) + |t.gap|;
    TokenTextPieces(t);
    SliceOfPrefix(s, text, 0, HourEnd(sh));
    SliceOfPrefix(s, text, MinuteStart(sh), GapStart(sh));
    SliceOfPrefix(s, text, GapStart(sh), g1);
    SliceOfPrefix(s, text, g1, g1 + 2);
    if t.colon {
      assert s[HourEnd(sh)] == text[HourEnd(sh)];
    }
  }

  /** Where the pieces of a well-formed token sit in its own text. */
  lemma TokenTextPieces(t: TimeToken)
    requires WellFormed(t)
    ensures var text := TokenText(t);
            var sh := ShapeOf(t);
            var g1 := GapStart(sh) + |t.gap|;
            && |text| == g1 + 2
            && text[0..HourEnd(sh)] == t.hourText
            && (t.colon ==> text[HourEnd(sh)] == ':')
            && text[MinuteStart(sh)..GapStart(sh)] == t.minuteText
            && text[GapStart(sh)..g1] == t.gap
            && text[g1..|text|] == t.period
  {
    var sh := ShapeOf(t);
    var c := if t.colon then ":" else "";
    ConcatPieces(t.hourText, c, t.minuteText, t.gap, t.period);
    assert HourEnd(sh) == |t.hourText|;
    assert MinuteStart(sh) == |t.hourText| + |c|;
    assert GapStart(sh) == MinuteStart(sh) + |t.minuteText|;
  }

  /** The five parts of a concatenation sit back to back in it. */
  lemma ConcatPieces(a: string, b: string, c: string, d: string, e: string)
    ensures var x := a + b + c + d + e;
            var i1 := |a|;
            var i2 := i1 + |b|;
            var i3 := i2 + |c|;
            var i4 := i3 + |d|;
            && |x| == i4 + |e|
            && x[0..i1] == a && x[i1..i2] == b && x[i2..i3] == c && x[i3..i4] == d
            && x[i4..|x|] == e
  {
    var x := a + b + c + d + e;
    var i1, i2 := |a|, |a| + |b|;
    var i3, i4 := i2 + |c|, i2 + |c| + |d|;
    assert x[0..i1] == a;
    assert x[i1..i2] == b;
    assert x[i2..i3] == c;
    assert x[i3..i4] == d;
  }

  /** A block of a prefix of s is the same block of s. */
  lemma SliceOfPrefix(s: string, a: string, i: nat, j: nat)
    requires a <= s && i <= j <= |a|
    ensures s[i..j] == a[i..j]
  {
    assert s[..|a|] == a;
  }

  lemma TryShapeComplete(s: string, t: TimeToken)
    requires OccursAtStart(s, t)
    ensures TryShape(s, ShapeOf(t)) == Some(t)
  {
    var sh := ShapeOf(t);
    var g0, n := GapStart(sh), |t.gap|;
    TokenPieces(s, t);
    assert IsPeriodLead(s[g0 + n]) && IsM(s[g0 + n + 1]) by {
      assert s[g0 + n] == t.period[0] && s[g0 + n + 1] == t.period[1];
    }
    GapSpaceRun(s, g0, t.gap, t.period);
    TryShapeFits(s, sh, n);
  }

  /** \s* at g0 takes exactly the white space that is followed by the period. */
  lemma GapSpaceRun(s: string, g0: nat, gap: string, period: string)
    requires AllSpaces(gap) && |period| == 2 && IsPeriodLead(period[0])
    requires g0 + |gap| + 2 <= |s| && s[g0..g0 + |gap|] == gap && s[g0 + |gap|..g0 + |gap| + 2] == period
    ensures SpaceRun(s[g0..]) == |gap|
  {
    SliceOfSuffix(s, g0, 0, |gap|);
    assert s[g0..][|gap|] == period[0];
    SpaceRunBeforePeriod(s[g0..], gap);
  }

  /** The shape fits when its digits, its colon and a period after the white space are
      where it expects them. */
  lemma TryShapeFits(s: string, sh: Shape, n: nat)
    requires GapStart(sh) + n + 2 <= |s| && AllDigits(s[..HourEnd(sh)])
    requires sh.colon ==> s[HourEnd(sh)] == ':'
    requires AllDigits(s[MinuteStart(sh)..GapStart(sh)]) && SpaceRun(s[GapStart(sh)..]) == n
    requires IsPeriodLead(s[GapStart(sh) + n]) && IsM(s[GapStart(sh) + n + 1])
    ensures TryShape(s, sh)
         == Some(TimeToken(s[..HourEnd(sh)], sh.colon, s[MinuteStart(sh)..GapStart(sh)],
                           s[GapStart(sh)..GapStart(sh) + n], s[GapStart(sh) + n..GapStart(sh) + n + 2]))
  {
    var g0 := GapStart(sh);
    SliceOfSuffix(s, g0, 0, n);
    SliceOfSuffix(s, g0, n, n + 2);
  }

  /** Two occurrences of the same shape are the same token. */
  lemma OccurrenceUniqueByShape(s: string, t1: TimeToken, t2: TimeToken)
    requires OccursAtStart(s, t1) && OccursAtStart(s, t2) && ShapeOf(t1) == ShapeOf(t2)
    ensures t1 == t2
  {
    TryShapeComplete(s, t1);
    TryShapeComplete(s, t2);
  }

  lemma ShapeFromRank(t: TimeToken, k: nat)
    requires k < 8 && Rank(t) == k
    ensures ShapeOf(t) == Shapes[k]
  {
  }

  /** The choices from rank onwards, in backtracking order; the first that fits wins. */
  function MatchFrom(s: string, rank: nat): Option<TimeToken>
    requires rank <= 8
    decreases 8 - rank
  {
    if rank == 8 then None
    else match TryShape(s, Shapes[rank])
      case Some(t) => Some(t)
      case None => MatchFrom(s, rank + 1)
  }

  lemma {:induction false} MatchFromSpec(s: string, rank: nat)
    requires rank <= 8
    ensures MatchFrom(s, rank).Some? ==>
      OccursAtStart(s, MatchFrom(s, rank).value) && rank <= Rank(MatchFrom(s, rank).value)
    ensures forall t :: OccursAtStart(s, t) && rank <= Rank(t) ==>
      MatchFrom(s, rank).Some? && Rank(MatchFrom(s, rank).value) <= Rank(t)
    decreases 8 - rank
  {
    if rank < 8 {
      ShapesInRankOrder(rank);
      match TryShape(s, Shapes[rank])
      case Some(t0) =>
        TryShapeSound(s, Shapes[rank]);
      case None =>
        MatchFromSpec(s, rank + 1);
        forall t | OccursAtStart(s, t) && rank <= Rank(t)
          ensures rank + 1 <= Rank(t)
        {
          if Rank(t) == rank {
            ShapeFromRank(t, rank);
            TryShapeComplete(s, t);
          }
        }
    }
  }

  /** The match of the pattern at the start of s, if any: the first token backtracking
      finds. */
  function MatchPrefix(s: string): (r: Option<TimeToken>)
    ensures r.Some? ==> OccursAtStart(s, r.value) && 3 <= |TokenText(r.value)|
  {
    MatchFromSpec(s, 0);
    MatchFrom(s, 0)
  }

  /** The match at the start of s is the occurring token of least rank, and there is no
      match exactly when no token occurs there. */
  lemma MatchPrefixIsLeastRank(s: string)
    ensures MatchPrefix(s).Some? ==> forall t :: OccursAtStart(s, t) ==> Rank(MatchPrefix(s).value) <= Rank(t)
    ensures MatchPrefix(s).None? ==> forall t :: !OccursAtStart(s, t)
  {
    MatchFromSpec(s, 0);
  }

  /** A token with a colon and minutes, written out on its own, is what the pattern
      matches at the start of its text: no other shape comes earlier in backtracking, since
      with one hour digit the colon stands where a second digit would have to be. */
  lemma FullTokenMatchesItself(t: TimeToken)
    requires WellFormed(t) && t.colon && |t.minuteText| == 2
    ensures MatchPrefix(TokenText(t)) == Some(t)
  {
    var s := TokenText(t);
    assert OccursAtStart(s, t);
    MatchPrefixBeats(s, t);
    var r := MatchPrefix(s).value;
    if |t.hourText| == 2 {
      ShapeFromRank(t, 0);
      ShapeFromRank(r, 0);
    } else {
      OneHourDigitBeforeColon(s, r);
      ShapeFromRank(t, 4);
      ShapeFromRank(r, 4);
    }
    OccurrenceUniqueByShape(s, r, t);
  }

  /** When some token occurs at the start, the pattern matches there, with a rank no
      later than that token's. */
  lemma MatchPrefixBeats(s: string, t: TimeToken)
    requires OccursAtStart(s, t)
    ensures MatchPrefix(s).Some? && Rank(MatchPrefix(s).value) <= Rank(t)
  {
    MatchPrefixIsLeastRank(s);
  }

  /** A token that occurs where the second character is a colon has one hour digit. */
  lemma OneHourDigitBeforeColon(s: string, r: TimeToken)
    requires OccursAtStart(s, r) && 2 <= |s| && s[1] == ':'
    ensures |r.hourText| == 1
  {
    assert TokenText(r)[1] == s[1];
  }

  /** A match starting at position start of the scanned text. */
  datatype TimeMatch = TimeMatch(start: nat, token: TimeToken)

  function End(m: TimeMatch): nat {
    m.start + |TokenText(m.token)|
  }

  /** A matcher tries the pattern at the start of a string. The scan below is stated for
      any matcher whose matches are occurrences of a token, so that its proofs do not
      depend on how MatchPrefix backtracks. */
  type Matcher = string -> Option<TimeToken>

  ghost predicate Sticky(f: Matcher) {
    forall x :: f(x).Some? ==> OccursAtStart(x, f(x).value)
  }

  lemma MatchPrefixSticky()
    ensures Sticky(MatchPrefix)
  {
  }

  /** A token spans at least its hour digit and its two period letters. */
  lemma WellFormedWidth(t: TimeToken)
    requires WellFormed(t)
    ensures 3 <= |TokenText(t)|
  {
  }

  /** exec with the g flag from lastIndex p: try the pattern at p, p+1, ...; after a
      match, continue at its end. */
  function ScanFrom(f: Matcher, s: string, p: nat): (ms: seq<TimeMatch>)
    requires Sticky(f) && p <= |s|
    ensures forall i :: 0 <= i < |ms| ==> p <= ms[i].start && End(ms[i]) <= |s| && WellFormed(ms[i].token)
    decreases |s| - p
  {
    if p == |s| then []
    else
      var m := f(s[p..]);
      if m.None? then ScanFrom(f, s, p + 1)
      else
        WellFormedWidth(m.value);
        [TimeMatch(p, m.value)] + ScanFrom(f, s, p + |TokenText(m.value)|)
  }

  /** The matches of the pattern in s from lastIndex p on, left to right. */
  function Matches(s: string, p: nat): (ms: seq<TimeMatch>)
    requires p <= |s|
    ensures forall i :: 0 <= i < |ms| ==> p <= ms[i].start && End(ms[i]) <= |s| && WellFormed(ms[i].token)
  {
    MatchPrefixSticky();
    ScanFrom(MatchPrefix, s, p)
  }

  /** All the matches of the pattern in s, as exec with the g flag finds them from
      lastIndex 0. */
  function Scan(s: string): (ms: seq<TimeMatch>)
    ensures forall i :: 0 <= i < |ms| ==> End(ms[i]) <= |s| && WellFormed(ms[i].token)
  {
    Matches(s, 0)
  }

  /** No match starts at a position in [lo, hi). */
  predicate NoMatchIn(f: Matcher, s: string, lo: nat, hi: nat) {
    forall q :: lo <= q < hi && q <= |s| ==> f(s[q..]).None?
  }

  /** The matches exec finds with the g flag from lastIndex p: the first is the match at
      the leftmost position from p on, the rest are a global scan from where it ends, and
      when there are none the rest of the text holds no match. */
  ghost predicate IsGlobalScan(f: Matcher, s: string, p: nat, ms: seq<TimeMatch>)
    decreases |ms|
  {
    if |ms| == 0 then NoMatchIn(f, s, p, |s|)
    else
      && p <= ms[0].start <= |s|
      && NoMatchIn(f, s, p, ms[0].start)
      && f(s[ms[0].start..]) == Some(ms[0].token)
      && IsGlobalScan(f, s, End(ms[0]), ms[1..])
  }

  lemma {:induction false} ScanFromIsGlobalScan(f: Matcher, s: string, p: nat)
    requires Sticky(f) && p <= |s|
    ensures IsGlobalScan(f, s, p, ScanFrom(f, s, p))
    decreases |s| - p
  {
    if p < |s| {
      var m := f(s[p..]);
      if m.None? {
        ScanFromIsGlobalScan(f, s, p + 1);
        GlobalScanSkip(f, s, p, ScanFrom(f, s, p + 1));
      } else {
        WellFormedWidth(m.value);
        var e := p + |TokenText(m.value)|;
        var ms := [TimeMatch(p, m.value)] + ScanFrom(f, s, e);
        ScanFromIsGlobalScan(f, s, e);
        assert ms[1..] == ScanFrom(f, s, e);
      }
    }
  }

  /** Skipping a position where the pattern does not match keeps a global scan. */
  lemma GlobalScanSkip(f: Matcher, s: string, p: nat, ms: seq<TimeMatch>)
    requires p < |s| && f(s[p..]).None?
    requires IsGlobalScan(f, s, p + 1, ms)
    ensures IsGlobalScan(f, s, p, ms)
  {
    var x := if |ms| == 0 then |s| else ms[0].start;
    assert NoMatchIn(f, s, p + 1, x);
    forall q | p <= q < x && q <= |s|
      ensures f(s[q..]).None?
    {
      if q > p {
        assert p + 1 <= q;
      }
    }
  }

  /** The hour as parseInt reads the one or two digits. */
  function HourValue(t: TimeToken): nat
    requires WellFormed(t)
  {
    DecimalValue(t.hourText)
  }

  function IsPm(t: TimeToken): bool
    requires WellFormed(t)
  {
    t.period[0] == 'P' || t.period[0] == 'p'
  }

  /** match[2] || '00': the two minute digits verbatim, or "00". */
  function MinuteText(t: TimeToken): (m: string)
    requires WellFormed(t)
    ensures |m| == 2 && AllDigits(m)
    ensures t.minuteText != "" ==> m == t.minuteText
    ensures t.minuteText == "" ==> m == "00"
  {
    if t.minuteText == "" then "00" else t.minuteText
  }

  /** The 12-to-24-hour rule: 12 AM is 0, 12 PM stays 12, other PM hours gain 12,
      other AM hours are unchanged. */
  function To24(hour: nat, pm: bool): (h: nat)
    ensures hour == 12 ==> h == (if pm then 12 else 0)
    ensures 1 <= hour <= 12 && !pm ==> h <= 11
    ensures 1 <= hour <= 12 && pm ==> 12 <= h <= 23
    ensures h % 12 == hour % 12
    ensures hour != 12 ==> h == hour + (if pm then 12 else 0)
  {
    if pm && hour != 12 then hour + 12
    else if !pm && hour == 12 then 0
    else hour
  }

  /** Within one period the rule is one-to-one on the clock hours 1..12. */
  lemma To24Injective(a: nat, b: nat, pm: bool)
    requires 1 <= a <= 12 && 1 <= b <= 12 && To24(a, pm) == To24(b, pm)
    ensures a == b
  {
  }

  /** r spells hour24 padded to two digits and no further, then a colon, then the two
      minute characters; it is five characters long exactly when the hour is below 100,
      and a longer hour field has no leading zero. */
  predicate IsClockFor(r: string, hour24: nat, minute: string) {
    && 5 <= |r| && r[|r| - 3] == ':' && r[|r| - 2..] == minute
    && AllDigits(r[..|r| - 3]) && DecimalValue(r[..|r| - 3]) == hour24
    && (|r| == 5 <==> hour24 < 100)
    && (|r| > 5 ==> r[0] != '0')
  }

  /** `${hour24.toString().padStart(2, '0')}:${minute}` */
  function ClockText(hour24: nat, minute: string): (r: string)
    requires |minute| == 2
    ensures IsClockFor(r, hour24, minute)
  {
    var hh := PadStart2(NatToString(hour24));
    HourDigits(hour24);
    ClockPieces(hh, minute, hour24);
    hh + [':'] + minute
  }

  /** Joining an hour field and a two-character minute with a colon keeps both readable
      at fixed distances from the end. */
  lemma ClockPieces(hh: string, minute: string, hour24: nat)
    requires 2 <= |hh| && AllDigits(hh) && DecimalValue(hh) == hour24
    requires (|hh| == 2 <==> hour24 < 100) && |minute| == 2
    requires |hh| > 2 ==> hh[0] != '0'
    ensures IsClockFor(hh + [':'] + minute, hour24, minute)
  {
    var r := hh + [':'] + minute;
    assert r[..|r| - 3] == hh;
    assert r[|r| - 2..] == minute;
  }

  /** The text pushed for one match: the 24-hour value padded to two digits, a colon,
      the minutes. */
  function Clock24(t: TimeToken): (r: string)
    requires WellFormed(t)
    ensures IsClockFor(r, To24(HourValue(t), IsPm(t)), MinuteText(t))
  {
    ClockText(To24(HourValue(t), IsPm(t)), MinuteText(t))
  }

  /** The padded hour is at least two digits, exactly two below 100, has no leading
      zero when longer, and reads back as the hour. */
  lemma HourDigits(hour24: nat)
    ensures var hh := PadStart2(NatToString(hour24));
      && 2 <= |hh| && (|hh| == 2 <==> hour24 < 100)
      && AllDigits(hh) && DecimalValue(hh) == hour24
      && (|hh| > 2 ==> hh[0] != '0')
  {
    NatToStringValue(hour24);
    PaddedValue(NatToString(hour24));
  }

  /** Below 100 the hour part is exactly the two decimal digits of the value. */
  lemma ClockTextDigits(hour24: nat, minute: string)
    requires hour24 < 100 && |minute| == 2
    ensures ClockText(hour24, minute) == [DigitChar(hour24 / 10), DigitChar(hour24 % 10), ':'] + minute
  {
    PaddedTwoDigits(hour24);
  }

  lemma PaddedTwoDigits(hour24: nat)
    requires hour24 < 100
    ensures PadStart2(NatToString(hour24)) == [DigitChar(hour24 / 10), DigitChar(hour24 % 10)]
  {
    if hour24 < 10 {
      NatToStringOneDigit(hour24);
    } else {
      NatToStringTwoDigits(hour24);
    }
  }

  /** Left zero padding keeps the value of a digit string. */
  lemma PaddedValue(s: string)
    requires 1 <= |s| && AllDigits(s)
    ensures AllDigits(PadStart2(s)) && DecimalValue(PadStart2(s)) == DecimalValue(s)
  {
    if |s| == 1 {
      DecimalValueOfTwo(PadStart2(s));
      assert s[..0] == [];
    }
  }

  /** A canonical HH:MM time in [00:00, 23:59]. */
  predicate IsClock(s: string) {
    && |s| == 5 && s[2] == ':' && AllDigits(s[..2]) && AllDigits(s[3..])
    && DecimalValue(s[..2]) <= 23 && DecimalValue(s[3..]) <= 59
  }

  /** Minutes since midnight of a canonical time. */
  function ClockMinutes(s: string): nat
    requires IsClock(s)
  {
    60 * DecimalValue(s[..2]) + DecimalValue(s[3..])
  }

  /** The pushed text is a canonical time exactly when the 24-hour value is at most 23
      (an AM hour up to 23, a PM hour up to 12) and the minutes are at most 59:
      "13PM" gives "25:00", "9:75 PM" gives "21:75", "13AM" gives "13:00". */
  lemma Clock24Valid(t: TimeToken)
    requires WellFormed(t)
    ensures IsClock(Clock24(t)) <==> To24(HourValue(t), IsPm(t)) <= 23 && DecimalValue(MinuteText(t)) <= 59
  {
    ClockTextValid(To24(HourValue(t), IsPm(t)), MinuteText(t));
  }

  /** The 24-hour value is at most 23 exactly for PM hours up to 12 and AM hours up to 23. */
  lemma To24AtMost23(hour: nat, pm: bool)
    ensures To24(hour, pm) <= 23 <==> hour <= (if pm then 12 else 23)
  {
  }

  lemma ClockTextValid(h: nat, minute: string)
    requires |minute| == 2 && AllDigits(minute)
    ensures IsClock(ClockText(h, minute)) <==> h <= 23 && DecimalValue(minute) <= 59
  {
    ClockIff(ClockText(h, minute), h, minute);
  }

  /** A text of hour digits, a colon and two minute digits is a canonical time exactly
      when it has five characters, the hour is at most 23 and the minutes at most 59. */
  lemma ClockIff(r: string, h: nat, minute: string)
    requires |minute| == 2 && AllDigits(minute) && 5 <= |r| && r[|r| - 3] == ':'
    requires r[|r| - 2..] == minute && AllDigits(r[..|r| - 3]) && DecimalValue(r[..|r| - 3]) == h
    requires |r| == 5 <==> h < 100
    ensures IsClock(r) <==> h <= 23 && DecimalValue(minute) <= 59
  {
    if |r| == 5 {
      assert r[..2] == r[..|r| - 3];
      assert r[3..] == minute;
    }
  }

  /** r is the 24-hour text of the matched time t: its hour converted by the 12-to-24
      rule, its minutes as matched or "00". */
  predicate IsClockOf(r: string, t: TimeToken)
    requires WellFormed(t)
  {
    IsClockFor(r, To24(HourValue(t), IsPm(t)), MinuteText(t))
  }

  /** The opening and closing times parseOperatingHours returns. */
  datatype OpeningHours = OpeningHours(opening: string, closing: string)

  /** The fixed pair used when fewer than two times are found. */
  const DefaultHours := OpeningHours("11:00", "22:00")

  /** parseOperatingHours: with two or more matches, the first gives the opening time and
      the last the closing time (middle ones are ignored); otherwise 11:00 and 22:00. */
  function ParseOperatingHours(hoursText: string): (r: OpeningHours)
    ensures |Scan(hoursText)| < 2 ==> r == DefaultHours
    ensures var ms := Scan(hoursText);
      |ms| >= 2 ==> IsClockOf(r.opening, ms[0].token) && IsClockOf(r.closing, ms[|ms| - 1].token)
  {
    var ms := Scan(hoursText);
    if |ms| >= 2 then OpeningHours(Clock24(ms[0].token), Clock24(ms[|ms| - 1].token))
    else DefaultHours
  }

  /** The scan from p is the scan of the matches from p; its first match is the leftmost
      position holding a match, so the opening time comes from the leftmost match. */
  lemma OpeningIsLeftmostMatch(s: string, q: nat)
    requires 2 <= |Scan(s)|
    requires q <= |s| && MatchPrefix(s[q..]).Some? && NoMatchIn(MatchPrefix, s, 0, q)
    ensures ParseOperatingHours(s).opening == Clock24(MatchPrefix(s[q..]).value)
  {
    var ms := Scan(s);
    MatchPrefixSticky();
    ScanFromIsGlobalScan(MatchPrefix, s, 0);
    var start := ms[0].start;
    assert MatchPrefix(s[start..]).Some?;
    assert !(start < q);
    assert !(q < start);
  }

  /** The closing time comes from the last match, after whose end the text holds no
      further match; the matches between the first and the last play no part. */
  lemma ClosingIsLastMatch(s: string)
    requires 2 <= |Scan(s)|
    ensures ParseOperatingHours(s).closing == Clock24(Scan(s)[|Scan(s)| - 1].token)
    ensures NoMatchIn(MatchPrefix, s, End(Scan(s)[|Scan(s)| - 1]), |s|)
  {
    NothingAfterLastMatch(s, Scan(s));
  }

  lemma NothingAfterLastMatch(s: string, ms: seq<TimeMatch>)
    requires ms == Scan(s) && 0 < |ms|
    ensures NoMatchIn(MatchPrefix, s, End(ms[|ms| - 1]), |s|)
  {
    MatchPrefixSticky();
    ScanFromIsGlobalScan(MatchPrefix, s, 0);
    GlobalScanLast(MatchPrefix, s, 0, ms);
  }

  /** In a global scan the last match is a match, and no match follows it. */
  lemma {:induction false} GlobalScanLast(f: Matcher, s: string, p: nat, ms: seq<TimeMatch>)
    requires 0 < |ms| && IsGlobalScan(f, s, p, ms)
    ensures var last := ms[|ms| - 1];
      last.start <= |s| && f(s[last.start..]) == Some(last.token) && NoMatchIn(f, s, End(last), |s|)
    decreases |ms|
  {
    if 1 < |ms| {
      GlobalScanLast(f, s, End(ms[0]), ms[1..]);
      assert ms[1..][|ms| - 2] == ms[|ms| - 1];
    }
  }

  /** Every match starts with a digit. */
  lemma MatchStartsWithDigit(s: string)
    ensures MatchPrefix(s).Some? ==> 0 < |s| && IsDigit(s[0])
  {
    if MatchPrefix(s).Some? {
      var t := MatchPrefix(s).value;
      assert TokenText(t)[0] == t.hourText[0];
    }
  }

  /** Where the text does not start with a digit there is no match. */
  lemma NoMatchWithoutDigit(s: string)
    requires |s| == 0 || !IsDigit(s[0])
    ensures MatchPrefix(s).None?
  {
    MatchStartsWithDigit(s);
  }

  /** Text without digits holds no match, so the scan steps over it. */
  lemma {:induction false} ScanSkipsNonDigits(s: string, p: nat, q: nat)
    requires p <= q <= |s|
    requires forall i :: p <= i < q ==> !IsDigit(s[i])
    ensures Matches(s, p) == Matches(s, q)
    decreases q - p
  {
    if p < q {
      NoMatchWithoutDigit(s[p..]);
      ScanSkipsNonDigits(s, p + 1, q);
    }
  }

  /** A string without digits has fewer than two times, so its hours are the default. */
  lemma NoDigitsGiveDefault(s: string)
    requires forall i :: 0 <= i < |s| ==> !IsDigit(s[i])
    ensures ParseOperatingHours(s) == DefaultHours
  {
    ScanSkipsNonDigits(s, 0, |s|);
  }

  /** Backtracking stops at the first shape that fits. */
  lemma {:induction false} MatchFromFirstFit(s: string, j: nat, k: nat, t: TimeToken)
    requires j <= k < 8
    requires forall i :: j <= i < k ==> TryShape(s, Shapes[i]).None?
    requires TryShape(s, Shapes[k]) == Some(t)
    ensures MatchFrom(s, j) == Some(t)
    decreases k - j
  {
    if j < k {
      MatchFromFirstFit(s, j + 1, k, t);
    }
  }

  /** One digit directly followed by AM or PM ("8AM") is a match of one hour digit with
      no minutes. */
  lemma DigitThenPeriod(x: string)
    requires 3 <= |x| && IsDigit(x[0]) && IsPeriodLead(x[1]) && IsM(x[2])
    ensures MatchPrefix(x) == Some(TimeToken(x[..1], false, "", "", x[1..3]))
  {
    var t := TimeToken(x[..1], false, "", "", x[1..3]);
    assert TokenText(t) == x[..3];
    forall i | 0 <= i < 7
      ensures TryShape(x, Shapes[i]).None?
    {
      assert !IsDigit(x[1]) && x[1] != ':';
      assert !AllDigits(x[1..3]);
    }
    TryShapeComplete(x, t);
    MatchFromFirstFit(x, 0, 7, t);
  }
}
