/** Character and string operations of ECMAScript that the restaurant code relies on:
    white space, trimming, decimal digits, splitting, substring search and lower-casing. */
module Text {

  /** The characters ECMAScript treats as white space or line terminators: the set that
      String.prototype.trim strips and that the regular-expression class \s matches. */
  predicate IsSpace(c: char) {
    || c == '\t' || c == '\n' || c == '\U{000B}' || c == '\U{000C}' || c == '\r' || c == ' '
    || c == '\U{00A0}' || c == '\U{1680}' || ('\U{2000}' <= c <= '\U{200A}')
    || c == '\U{2028}' || c == '\U{2029}' || c == '\U{202F}' || c == '\U{205F}'
    || c == '\U{3000}' || c == '\U{FEFF}'
  }

  predicate AllSpaces(s: string) {
    forall i :: 0 <= i < |s| ==> IsSpace(s[i])
  }

  /** The regular-expression class \d without the u flag: ASCII digits only. */
  predicate IsDigit(c: char) {
    '0' <= c <= '9'
  }

  predicate AllDigits(s: string) {
    forall i :: 0 <= i < |s| ==> IsDigit(s[i])
  }

  function DigitValue(c: char): nat
    requires IsDigit(c)
  {
    (c as int) - ('0' as int)
  }

  function DigitChar(d: nat): (c: char)
    requires d < 10
    ensures IsDigit(c) && DigitValue(c) == d
  {
    (('0' as int) + d) as char
  }

  /** The value of a decimal digit string, most significant digit first; "" has value 0. */
  function DecimalValue(s: string): nat
    requires AllDigits(s)
  {
    if |s| == 0 then 0 else 10 * DecimalValue(s[..|s| - 1]) + DigitValue(s[|s| - 1])
  }

  /** Number.prototype.toString for a non-negative integer: decimal, no leading zeros. */
  function NatToString(n: nat): (r: string)
    ensures 1 <= |r| && AllDigits(r)
    ensures n < 10 ==> |r| == 1
    ensures 10 <= n < 100 ==> |r| == 2
    ensures 100 <= n ==> 3 <= |r|
    ensures r[0] == '0' ==> n == 0
  {
    if n < 10 then [DigitChar(n)]
    else
      var prefix := NatToString(n / 10);
      var r := prefix + [DigitChar(n % 10)];
      assert r[..|r| - 1] == prefix;
      r
  }

  /** The spelling reads back as the number. */
  lemma {:induction false} NatToStringValue(n: nat)
    ensures DecimalValue(NatToString(n)) == n
  {
    if 10 <= n {
      var r := NatToString(n);
      NatToStringValue(n / 10);
      assert r[..|r| - 1] == NatToString(n / 10);
    }
  }

  /** Distinct numbers render as distinct strings. */
  lemma NatToStringInjective(a: nat, b: nat)
    ensures NatToString(a) == NatToString(b) <==> a == b
  {
    NatToStringValue(a);
    NatToStringValue(b);
  }

  /** Two digits are the value of the string they form. */
  lemma DecimalValueOfTwo(s: string)
    requires |s| == 2 && AllDigits(s)
    ensures DecimalValue(s) == 10 * DigitValue(s[0]) + DigitValue(s[1])
  {
    assert s[..1][..0] == [];
    assert s[..|s| - 1] == s[..1];
    assert DecimalValue(s[..1]) == DigitValue(s[0]);
  }

  /** String.prototype.padStart(2, '0'). */
  function PadStart2(s: string): (r: string)
    ensures |r| == if |s| < 2 then 2 else |s|
    ensures r[|r| - |s|..] == s
    ensures forall i :: 0 <= i < |r| - |s| ==> r[i] == '0'
  {
    if 2 <= |s| then s else if |s| == 1 then "0" + s else "00"
  }

  /** Integer.prototype.toString followed by padStart(2, '0') is the canonical two-digit
      spelling of a value below 100: it gives back any two-digit string of that value. */
  lemma PadStart2OfValue(s: string)
    requires |s| == 2 && AllDigits(s)
    ensures PadStart2(NatToString(DecimalValue(s))) == s
  {
    DecimalValueOfTwo(s);
    var hi, lo := DigitValue(s[0]), DigitValue(s[1]);
    var n := DecimalValue(s);
    DigitCharOfValue(s[0]);
    DigitCharOfValue(s[1]);
    if hi == 0 {
      NatToStringOneDigit(n);
    } else {
      assert n == 10 * hi + lo;
      assert n / 10 == hi && n % 10 == lo;
      NatToStringTwoDigits(n);
    }
  }

  /** The decimal spelling of a value below 100 is its one or two digits. */
  lemma NatToStringOneDigit(n: nat)
    requires n < 10
    ensures NatToString(n) == [DigitChar(n)]
  {
  }

  lemma NatToStringTwoDigits(n: nat)
    requires 10 <= n < 100
    ensures NatToString(n) == [DigitChar(n / 10), DigitChar(n % 10)]
  {
    assert NatToString(n / 10) == [DigitChar(n / 10)];
  }

  lemma DigitCharOfValue(c: char)
    requires IsDigit(c)
    ensures DigitChar(DigitValue(c)) == c
  {
  }

  /** A block of a suffix of s is a block of s, shifted. */
  lemma SliceOfSuffix(s: string, k: nat, i: nat, j: nat)
    requires k <= |s| && i <= j <= |s| - k
    ensures s[k..][i..j] == s[k + i..k + j]
  {
  }

  lemma PrefixOfSuffix(s: string, k: nat, m: nat)
    requires k + m <= |s|
    ensures s[k..][..m] == s[k..k + m] && s[k..][m..] == s[k + m..]
  {
  }

  /** End of the run of white space that starts at p. */
  function SpacesFrom(s: string, p: nat): (e: nat)
    requires p <= |s|
    ensures p <= e <= |s| && (forall m :: p <= m < e ==> IsSpace(s[m]))
    ensures e == |s| || !IsSpace(s[e])
    decreases |s| - p
  {
    if p < |s| && IsSpace(s[p]) then SpacesFrom(s, p + 1) else p
  }

  /** Start of the run of white space that ends just before q. */
  function SpacesBefore(s: string, q: nat): (b: nat)
    requires q <= |s|
    ensures b <= q && (forall m :: b <= m < q ==> IsSpace(s[m]))
    ensures b == 0 || !IsSpace(s[b - 1])
  {
    if 0 < q && IsSpace(s[q - 1]) then SpacesBefore(s, q - 1) else q
  }

  /** Number of white-space characters at the start of s. */
  function LeadingSpaces(s: string): (n: nat)
    ensures n <= |s| && (forall m :: 0 <= m < n ==> IsSpace(s[m]))
    ensures n == |s| || !IsSpace(s[n])
  {
    SpacesFrom(s, 0)
  }

  /** Number of white-space characters at the end of s. */
  function TrailingSpaces(s: string): (n: nat)
    ensures n <= |s| && (forall m :: |s| - n <= m < |s| ==> IsSpace(s[m]))
    ensures n == |s| || !IsSpace(s[|s| - n - 1])
  {
    |s| - SpacesBefore(s, |s|)
  }

  /** String.prototype.trimStart: drops the leading white space. */
  function TrimStart(s: string): string {
    s[LeadingSpaces(s)..]
  }

  /** String.prototype.trimEnd: drops the trailing white space. */
  function TrimEnd(s: string): string {
    s[..|s| - TrailingSpaces(s)]
  }

  /** String.prototype.trim. */
  function Trim(s: string): (r: string)
    ensures |r| <= |s| && IsTrimmed(r)
  {
    var a := TrimStart(s);
    var n := TrailingSpaces(a);
    assert a == [] || !IsSpace(a[0]);
    assert n == |a| || !IsSpace(a[|a| - n - 1]);
    TrimEnd(a)
  }

  /** Trim keeps a contiguous block s[i..j] of the input and removes only white space
      around it; the block neither starts nor ends with white space. */
  lemma TrimIsInnerBlock(s: string) returns (i: nat, j: nat)
    ensures i <= j <= |s| && Trim(s) == s[i..j]
    ensures forall m :: 0 <= m < i ==> IsSpace(s[m])
    ensures forall m :: j <= m < |s| ==> IsSpace(s[m])
    ensures Trim(s) == [] || (!IsSpace(Trim(s)[0]) && !IsSpace(Trim(s)[|Trim(s)| - 1]))
  {
    i := LeadingSpaces(s);
    var k := TrailingSpaces(s[i..]);
    j := |s| - k;
    TrimBlockAt(s, i, k);
    if i < j {
      assert Trim(s)[0] == s[i];
      assert Trim(s)[|Trim(s)| - 1] == s[j - 1];
    }
  }

  /** The block trim keeps, in terms of the leading spaces of s and the trailing spaces
      of what follows them. */
  lemma TrimBlockAt(s: string, i: nat, k: nat)
    requires i == LeadingSpaces(s) && k == TrailingSpaces(s[i..])
    ensures i <= |s| - k && Trim(s) == s[i..|s| - k]
    ensures forall m :: 0 <= m < i ==> IsSpace(s[m])
    ensures forall m :: |s| - k <= m < |s| ==> IsSpace(s[m])
    ensures i == |s| - k || (!IsSpace(s[i]) && !IsSpace(s[|s| - k - 1]))
  {
    var a := s[i..];
    var j := |s| - k;
    assert TrimStart(s) == a;
    assert TrimEnd(a) == a[..j - i];
    PrefixOfSuffix(s, i, j - i);
    forall m | j <= m < |s|
      ensures IsSpace(s[m])
    {
      assert s[m] == a[m - i];
    }
    if i < j {
      assert s[j - 1] == a[j - i - 1];
    }
  }

  /** Neither starts nor ends with white space. */
  predicate IsTrimmed(s: string) {
    s == [] || (!IsSpace(s[0]) && !IsSpace(s[|s| - 1]))
  }

  /** The strings trim leaves unchanged are exactly the trimmed ones, and trim always
      yields one. */
  lemma TrimmedIffFixed(s: string)
    ensures IsTrimmed(Trim(s))
    ensures Trim(s) == s <==> IsTrimmed(s)
  {
    var i, j := TrimIsInnerBlock(s);
    if IsTrimmed(s) {
      TrimKeepsTrimmed(s);
    }
  }

  lemma TrimKeepsTrimmed(s: string)
    requires IsTrimmed(s)
    ensures Trim(s) == s
  {
    if s != [] {
      assert LeadingSpaces(s) == 0;
      assert s[0..] == s;
      assert TrailingSpaces(s) == 0;
    }
  }

  /** A string trims to "" exactly when it is all white space. */
  lemma TrimEmptyIffSpaces(s: string)
    ensures Trim(s) == [] <==> AllSpaces(s)
  {
    var i, j := TrimIsInnerBlock(s);
    if AllSpaces(s) && i < |s| {
      assert IsSpace(s[i]);
    }
    if Trim(s) == [] {
      assert s == s[..i] + s[j..];
    }
  }

  /** Trimming twice trims nothing more. */
  lemma TrimIdempotent(s: string)
    ensures Trim(Trim(s)) == Trim(s)
  {
    TrimmedIffFixed(s);
    TrimKeepsTrimmed(Trim(s));
  }

  /** Number of occurrences of c in s. */
  function Count(s: string, c: char): nat {
    if |s| == 0 then 0 else (if s[0] == c then 1 else 0) + Count(s[1..], c)
  }

  /** Array.prototype.join with a one-character separator. */
  function Join(parts: seq<string>, sep: char): string {
    if |parts| == 0 then ""
    else if |parts| == 1 then parts[0]
    else parts[0] + [sep] + Join(parts[1..], sep)
  }

  /** String.prototype.split with a one-character separator: the pieces between separators,
      always at least one, none containing the separator, joining back to the input. */
  function Split(s: string, sep: char): (r: seq<string>)
    ensures 1 <= |r|
    ensures forall i :: 0 <= i < |r| ==> sep !in r[i]
    ensures Join(r, sep) == s
  {
    if |s| == 0 then [""]
    else
      var rest := Split(s[1..], sep);
      if s[0] == sep then
        assert s == [sep] + s[1..];
        [""] + rest
      else
        var r := [[s[0]] + rest[0]] + rest[1..];
        assert r[1..] == rest[1..];
        assert s == [s[0]] + s[1..];
        r
  }

  /** There is one piece more than there are separators. */
  lemma {:induction false} SplitCount(s: string, sep: char)
    ensures |Split(s, sep)| == 1 + Count(s, sep)
  {
    if |s| > 0 {
      SplitCount(s[1..], sep);
    }
  }

  /** Splitting at one separator splits the two sides independently. */
  lemma {:induction false} SplitConcat(a: string, b: string, sep: char)
    ensures Split(a + [sep] + b, sep) == Split(a, sep) + Split(b, sep)
  {
    if |a| == 0 {
      assert a + [sep] + b == [sep] + b;
      assert ([sep] + b)[1..] == b;
    } else {
      assert (a + [sep] + b)[1..] == a[1..] + [sep] + b;
      SplitConcat(a[1..], b, sep);
    }
  }

  /** A string without the separator is one piece. */
  lemma {:induction false} SplitWithoutSeparator(s: string, sep: char)
    requires sep !in s
    ensures Split(s, sep) == [s]
  {
    if |s| > 0 {
      assert sep !in s[1..];
      SplitWithoutSeparator(s[1..], sep);
      assert s == [s[0]] + s[1..];
    }
  }

  /** Split returns the only separator-free list of pieces that joins back to its input. */
  lemma {:induction false} SplitUnique(parts: seq<string>, sep: char)
    requires 1 <= |parts|
    requires forall i :: 0 <= i < |parts| ==> sep !in parts[i]
    ensures Split(Join(parts, sep), sep) == parts
  {
    if |parts| == 1 {
      SplitWithoutSeparator(parts[0], sep);
    } else {
      SplitUnique(parts[1..], sep);
      SplitWithoutSeparator(parts[0], sep);
      SplitConcat(parts[0], Join(parts[1..], sep), sep);
      assert parts == [parts[0]] + parts[1..];
    }
  }

  /** The piece before the first separator: a prefix of the input that is either all of it
      or is followed by the separator. */
  lemma FirstPiece(s: string, sep: char)
    ensures Split(s, sep)[0] <= s
    ensures sep !in Split(s, sep)[0]
    ensures |Split(s, sep)[0]| == |s| || s[|Split(s, sep)[0]|] == sep
  {
    var r := Split(s, sep);
    if |r| > 1 {
      assert s == r[0] + [sep] + Join(r[1..], sep);
    }
  }

  /** String.prototype.includes: k occurs as a contiguous block of s. */
  predicate Contains(s: string, k: string) {
    k <= s || (0 < |s| && Contains(s[1..], k))
  }

  /** k is the block of s that starts at position i. */
  predicate OccursAt(s: string, k: string, i: nat) {
    i + |k| <= |s| && s[i..i + |k|] == k
  }

  /** Contains means "k is the block of s at some position". */
  lemma {:induction false} ContainsAt(s: string, k: string)
    ensures Contains(s, k) <==> exists i: nat :: OccursAt(s, k, i)
  {
    if k <= s {
      assert OccursAt(s, k, 0);
    } else if 0 < |s| {
      ContainsAt(s[1..], k);
      if exists i: nat :: OccursAt(s, k, i) {
        var i: nat :| OccursAt(s, k, i);
        assert i != 0;
        SliceOfSuffix(s, 1, i - 1, i - 1 + |k|);
        assert OccursAt(s[1..], k, i - 1);
      }
      if Contains(s[1..], k) {
        var i: nat :| OccursAt(s[1..], k, i);
        SliceOfSuffix(s, 1, i, i + |k|);
        assert OccursAt(s, k, i + 1);
      }
    }
  }

  /** Whatever contains a string contains each block of it. */
  lemma ContainsBlock(s: string, k: string, i: nat, j: nat)
    requires Contains(s, k) && i <= j <= |k|
    ensures Contains(s, k[i..j])
  {
    ContainsAt(s, k);
    var p: nat :| OccursAt(s, k, p);
    forall t | 0 <= t < j - i
      ensures s[p + i..p + j][t] == k[i..j][t]
    {
      assert s[p + i + t] == s[p..p + |k|][i + t];
    }
    assert OccursAt(s, k[i..j], p + i);
    ContainsAt(s, k[i..j]);
  }

  /** The ASCII part of String.prototype.toLowerCase. */
  function LowerChar(c: char): char {
    if 'A' <= c <= 'Z' then ((c as int) + 32) as char else c
  }

  function ToLower(s: string): (r: string)
    ensures |r| == |s|
    ensures forall i :: 0 <= i < |s| && 'A' <= s[i] <= 'Z' ==> r[i] as int == s[i] as int + 32
    ensures forall i :: 0 <= i < |r| ==> !('A' <= r[i] <= 'Z')
    ensures forall i :: 0 <= i < |s| && !('A' <= s[i] <= 'Z') ==> r[i] == s[i]
  {
    seq(|s|, i requires 0 <= i < |s| => LowerChar(s[i]))
  }

  /** Lower-casing a lower-cased string changes nothing. */
  lemma ToLowerIdempotent(s: string)
    ensures ToLower(ToLower(s)) == ToLower(s)
  {
  }
}
