/** The price-range conversion of the CSV import: the first "$low-high" in the text, the
    average of the two amounts, and a tier of one to four dollar signs. */
module Price {
  import opened Wrappers
  import opened Text

  /** End of the run of decimal digits that starts at i (i itself when there is none). */
  function DigitEnd(s: string, i: nat): (j: nat)
    requires i <= |s|
    ensures i <= j <= |s|
    ensures forall k :: i <= k < j ==> IsDigit(s[k])
    ensures j == |s| || !IsDigit(s[j])
    decreases |s| - i
  {
    if i == |s| || !IsDigit(s[i]) then i else DigitEnd(s, i + 1)
  }

  /** A match of /\$(\d+)-(\d+)/: where it starts and the two captured digit groups. */
  datatype PriceMatch = PriceMatch(start: nat, low: string, high: string)

  /** "$", then low, "-", high, spelled out at position p, both groups non-empty digits. */
  predicate PriceAt(s: string, p: nat, low: string, high: string) {
    && 1 <= |low| && 1 <= |high| && AllDigits(low) && AllDigits(high)
    && p + |low| + |high| + 2 <= |s|
    && s[p] == '$'
    && s[p + 1..p + 1 + |low|] == low
    && s[p + 1 + |low|] == '-'
    && s[p + 2 + |low|..p + 2 + |low| + |high|] == high
  }

  /** The pattern tried at position p. The first \d+ is greedy, and giving digits back
      cannot help because a digit is never the "-" that must follow, so it takes the whole
      run; the second \d+ has nothing after it and takes the whole run too. */
  function MatchPriceAt(s: string, p: nat): (r: Option<PriceMatch>)
    requires p <= |s|
    ensures r.Some? ==> r.value.start == p && PriceAt(s, p, r.value.low, r.value.high)
  {
    if p == |s| || s[p] != '$' then None
    else
      var e1 := DigitEnd(s, p + 1);
      if e1 == p + 1 || e1 == |s| || s[e1] != '-' then None
      else
        var e2 := DigitEnd(s, e1 + 1);
        if e2 == e1 + 1 then None
        else Some(PriceMatch(p, s[p + 1..e1], s[e1 + 1..e2]))
  }

  /** Any spelled-out "$low-high" at p is found there: the first group is exactly low, and
      the second group extends high to the end of its digit run. */
  lemma MatchPriceAtComplete(s: string, p: nat, low: string, high: string)
    requires PriceAt(s, p, low, high)
    ensures MatchPriceAt(s, p).Some?
    ensures MatchPriceAt(s, p).value.low == low
    ensures high <= MatchPriceAt(s, p).value.high
  {
    var e1 := DigitEnd(s, p + 1);
    forall k | p + 1 <= k < p + 1 + |low|
      ensures IsDigit(s[k])
    {
      assert s[k] == low[k - p - 1];
    }
    assert e1 == p + 1 + |low|;
    var e2 := DigitEnd(s, e1 + 1);
    forall k | e1 + 1 <= k < e1 + 1 + |high|
      ensures IsDigit(s[k])
    {
      assert s[k] == high[k - e1 - 1];
    }
    assert s[e1 + 1..e2][..|high|] == high;
  }

  /** The second group runs to the end of its digits. */
  lemma MatchPriceAtGreedy(s: string, p: nat)
    requires p <= |s| && MatchPriceAt(s, p).Some?
    ensures var m := MatchPriceAt(s, p).value;
      var e := p + 2 + |m.low| + |m.high|;
      e == |s| || !IsDigit(s[e])
  {
  }

  /** String.prototype.match without the g flag: the match at the leftmost position. */
  function FindPriceFrom(s: string, p: nat): (r: Option<PriceMatch>)
    requires p <= |s|
    ensures r.Some? ==> p <= r.value.start <= |s| && MatchPriceAt(s, r.value.start) == r
    ensures r.Some? ==> forall q :: p <= q < r.value.start ==> MatchPriceAt(s, q).None?
    ensures r.None? ==> forall q :: p <= q <= |s| ==> MatchPriceAt(s, q).None?
    decreases |s| - p
  {
    if p == |s| then None
    else if MatchPriceAt(s, p).Some? then MatchPriceAt(s, p)
    else FindPriceFrom(s, p + 1)
  }

  function FindPrice(s: string): (r: Option<PriceMatch>)
    ensures r.Some? ==> r.value.start <= |s| && MatchPriceAt(s, r.value.start) == r
    ensures r.Some? ==> forall q :: 0 <= q < r.value.start ==> MatchPriceAt(s, q).None?
    ensures r.None? ==> forall q :: 0 <= q <= |s| ==> MatchPriceAt(s, q).None?
  {
    FindPriceFrom(s, 0)
  }

  /** A tier is a run of one to four dollar signs. */
  predicate IsTier(t: string) {
    1 <= |t| <= 4 && forall i :: 0 <= i < |t| ==> t[i] == '$'
  }

  /** convertPriceRange: the average of the two amounts below 15, 25, 35 or otherwise
      gives "$" to "$$$$"; text without a range gives "$$". parseInt of a digit group is
      its decimal value. */
  function ConvertPriceRange(priceText: string): (tier: string)
    ensures IsTier(tier)
    ensures FindPrice(priceText).None? ==> tier == "$$"
  {
    match FindPrice(priceText)
    case None => "$$"
    case Some(m) =>
      var avg := (DecimalValue(m.low) + DecimalValue(m.high)) as real / 2.0;
      if avg < 15.0 then "$"
      else if avg < 25.0 then "$$"
      else if avg < 35.0 then "$$$"
      else "$$$$"
  }

  /** The tier as a count of dollar signs, from the integer sum of the two amounts: the
      average is below 15, 25 or 35 exactly when the sum is below 30, 50 or 70. */
  function TierOfSum(sum: nat): (n: nat) {
    if sum < 30 then 1 else if sum < 50 then 2 else if sum < 70 then 3 else 4
  }

  function Dollars(n: nat): (t: string)
    ensures |t| == n && forall i :: 0 <= i < n ==> t[i] == '$'
  {
    seq(n, _ => '$')
  }

  /** The tier depends only on the sum of the two amounts of the leftmost range, through
      the integer thresholds 30, 50 and 70. */
  lemma TierFromSum(priceText: string)
    requires FindPrice(priceText).Some?
    ensures var m := FindPrice(priceText).value;
      ConvertPriceRange(priceText) == Dollars(TierOfSum(DecimalValue(m.low) + DecimalValue(m.high)))
  {
    var m := FindPrice(priceText).value;
    var sum := DecimalValue(m.low) + DecimalValue(m.high);
    var n := TierOfSum(sum);
    var avg := sum as real / 2.0;
    assert avg < 15.0 <==> sum < 30;
    assert avg < 25.0 <==> sum < 50;
    assert avg < 35.0 <==> sum < 70;
    assert Dollars(1) == "$";
    assert Dollars(2) == "$$";
    assert Dollars(3) == "$$$";
    assert Dollars(4) == "$$$$";
  }

  /** The sum of the two amounts of a match. */
  function RangeSum(m: PriceMatch): nat
    requires AllDigits(m.low) && AllDigits(m.high)
  {
    DecimalValue(m.low) + DecimalValue(m.high)
  }

  /** A dearer range never gets fewer dollar signs. */
  lemma TierMonotone(x: string, y: string)
    requires FindPrice(x).Some? && FindPrice(y).Some?
    requires RangeSum(FindPrice(x).value) <= RangeSum(FindPrice(y).value)
    ensures |ConvertPriceRange(x)| <= |ConvertPriceRange(y)|
  {
    TierFromSum(x);
    TierFromSum(y);
  }

  /** A text that is exactly one range "$low-high" is priced by the sum of its two
      amounts. */
  lemma WholeRangeTier(s: string, low: string, high: string)
    requires PriceAt(s, 0, low, high) && |s| == 2 + |low| + |high|
    ensures ConvertPriceRange(s) == Dollars(TierOfSum(DecimalValue(low) + DecimalValue(high)))
  {
    MatchPriceAtComplete(s, 0, low, high);
    MatchPriceAtGreedy(s, 0);
    var m := MatchPriceAt(s, 0).value;
    assert m.high == high;
    assert FindPrice(s) == Some(m);
    TierFromSum(s);
  }

  /** The tier boundaries sit at averages 15, 25 and 35, and a range at a boundary goes
      up: "$10-20" is "$$", "$20-30" is "$$$" and "$30-40" is "$$$$". */
  lemma TierBoundaries(a: string, b: string, c: string)
    requires a == "$10-20" && b == "$20-30" && c == "$30-40"
    ensures ConvertPriceRange(a) == "$$"
    ensures ConvertPriceRange(b) == "$$$"
    ensures ConvertPriceRange(c) == "$$$$"
  {
    TierAt(a, "10", "20", 2);
    TierAt(b, "20", "30", 3);
    TierAt(c, "30", "40", 4);
  }

  lemma TierAt(s: string, low: string, high: string, n: nat)
    requires (s, low, high, n) in {("$10-20", "10", "20", 2), ("$20-30", "20", "30", 3), ("$30-40", "30", "40", 4)}
    ensures ConvertPriceRange(s) == Dollars(n)
  {
    assert s == "$" + low + "-" + high;
    RangeExample(s, low, high, n);
  }

  lemma RangeExample(s: string, low: string, high: string, n: nat)
    requires |low| == 2 && |high| == 2 && AllDigits(low) && AllDigits(high)
    requires s == "$" + low + "-" + high
    requires n == TierOfSum(10 * DigitValue(low[0]) + DigitValue(low[1]) + 10 * DigitValue(high[0]) + DigitValue(high[1]))
    ensures ConvertPriceRange(s) == Dollars(n)
  {
    assert s[1..3] == low && s[4..6] == high;
    DecimalValueOfTwo(low);
    DecimalValueOfTwo(high);
    WholeRangeTier(s, low, high);
  }

  /** Text whose every "$" is followed by something other than a digit run and a "-"
      holds no range; a space inside the range ("$15 - 25") is such a case, so the tier
      falls back to "$$". */
  lemma SpacedRangeIsDefault(s: string)
    requires s == "$15 - 25"
    ensures ConvertPriceRange(s) == "$$"
  {
    assert s[0] == '$' && s[1] == '1' && s[2] == '5' && s[3] == ' ';
    assert DigitEnd(s, 1) == 3;
    assert MatchPriceAt(s, 0).None?;
    forall q | 1 <= q <= |s|
      ensures MatchPriceAt(s, q).None?
    {
      assert q == |s| || s[q] != '$';
    }
  }
}
