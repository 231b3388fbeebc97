/** Day 2: product-id ranges `lo-hi`.  Part 1 sums the ids in a range that are
    a block of digits written twice (1212, 55); part 2 sums the ids whose digits
    are any block written two or more times (121212, 777). */
module Day02 {
  import opened Decimal
  import opened GoArith

  /** One parsed range, with the digit prefixes part 1 iterates between. */
  datatype IdRange = IdRange(lo: int, hi: int, loPrefix: int, hiPrefix: int) {
    predicate InRange(val: int) { val >= lo && val <= hi }
  }

  /** `n%2 == 0` with Go's remainder, which is negative for odd negative n. */
  function IsEven(n: int): (b: bool)
    ensures b <==> n % 2 == 0
  {
    GoMod(n, 2) == 0
  }

  /** t written n times in a row. */
  function Repeat(t: string, n: nat): string
    decreases n
  {
    if n == 0 then [] else Repeat(t, n - 1) + t
  }

  lemma {:induction false} RepeatAdd(t: string, a: nat, b: nat)
    ensures Repeat(t, a + b) == Repeat(t, a) + Repeat(t, b)
    decreases b
  {
    if b > 0 {
      RepeatAdd(t, a, b - 1);
    }
  }

  lemma {:induction false} RepeatLength(t: string, n: nat)
    ensures |Repeat(t, n)| == n * |t|
    decreases n
  {
    if n > 0 {
      RepeatLength(t, n - 1);
    }
  }

  /** s is its first p characters written a whole number of times. */
  ghost predicate IsRepetitionOf(s: string, p: nat)
    requires 1 <= p <= |s|
  {
    exists n: nat :: s == Repeat(s[..p], n)
  }

  /** What part 2 looks for: a block of at most half the length, written
      len/p times (so at least twice). */
  ghost predicate IsRepetition(s: string) {
    exists p :: 1 <= p <= |s| / 2 && IsRepetitionOf(s, p)
  }

  /** Inside a repetition of t, the chunk after c copies of t is t again. */
  lemma RepetitionChunk(s: string, t: string, n: nat, c: nat)
    requires s == Repeat(t, n)
    requires |Repeat(t, c)| < |s|
    ensures |Repeat(t, c)| + |t| <= |s|
    ensures s[|Repeat(t, c)|..|Repeat(t, c)| + |t|] == t
  {
    if c >= n {
      RepeatLonger(t, n, c);
      assert false;
    }
    var rest := Repeat(t, n - c - 1);
    RepeatSplit(t, n, c);
    ChunkAt(Repeat(t, c), t, rest);
  }

  lemma RepeatLonger(t: string, n: nat, c: nat)
    requires n <= c
    ensures |Repeat(t, n)| <= |Repeat(t, c)|
  {
    RepeatAdd(t, n, c - n);
  }

  /** n copies are c copies, one more, and the remaining n-c-1. */
  lemma RepeatSplit(t: string, n: nat, c: nat)
    requires c < n
    ensures Repeat(t, n) == Repeat(t, c) + (t + Repeat(t, n - c - 1))
  {
    RepeatAdd(t, c, n - c);
    RepeatAdd(t, 1, n - c - 1);
    assert Repeat(t, 1) == t;
  }

  lemma ChunkAt(head: string, t: string, rest: string)
    ensures (head + (t + rest))[|head|..|head| + |t|] == t
  {
  }

  /** A chunk that differs from the block (or is cut short) rules out p. */
  lemma ChunkMismatch(s: string, p: nat, c: nat, i: nat, end: nat)
    requires 1 <= p <= |s| && i < |s|
    requires i == |Repeat(s[..p], c)|
    requires end == if i + p > |s| then |s| else i + p
    requires s[i..end] != s[..p]
    ensures !IsRepetitionOf(s, p)
  {
    if IsRepetitionOf(s, p) {
      var n: nat :| s == Repeat(s[..p], n);
      RepetitionChunk(s, s[..p], n, c);
    }
  }

  /** isSequence: tries every block length p from 1 to len/2 and compares the
      chunks s[i:i+p] (the last one cut short at the end) with the first. */
  method IsSequence(val: int) returns (b: bool)
    ensures b <==> IsRepetition(Itoa(val))
    ensures 0 <= val < 10 ==> !b
  {
    var s := Itoa(val);
    var sequenceLength := 1;
    label lengths: while sequenceLength <= |s| / 2
      invariant 1 <= sequenceLength
      invariant forall q :: 1 <= q < sequenceLength && q <= |s| / 2 ==> !IsRepetitionOf(s, q)
    {
      var sequence := s[..sequenceLength];
      var i := 0;
      ghost var c: nat := 0;
      while i < |s|
        invariant 0 <= i <= |s|
        invariant i == |Repeat(sequence, c)| && s[..i] == Repeat(sequence, c)
      {
        var end := i + sequenceLength;
        if end > |s| {
          end := |s|;
        }
        if s[i..end] != sequence {
          ChunkMismatch(s, sequenceLength, c, i, end);
          sequenceLength := sequenceLength + 1;
          continue lengths;
        }
        assert s[..end] == s[..i] + s[i..end];
        c := c + 1;
        i := end;
      }
      assert s[..i] == s;
      assert IsRepetitionOf(s, sequenceLength);
      return true;
    }
    return false;
  }

  /** The id part 1 builds from v: the decimal text of v written twice, read
      back with Atoi. */
  function Doubled(v: int): int {
    AtoiOrZero(Itoa(v) + Itoa(v))
  }

  /** Writing the d digits of v twice is v * (10^d + 1). */
  lemma DoubledValue(v: nat)
    ensures Doubled(v) == v * (Pow10(NumDigits(v)) + 1)
  {
    DoubledSplit(v);
    Distribute(v, Pow10(NumDigits(v)));
  }

  lemma Distribute(v: int, p: int)
    ensures v * p + v == v * (p + 1)
  {
  }

  /** The text Atoi reads in Doubled(v) and its value. */
  lemma DoubledText(v: nat)
    ensures Itoa(v) == NatToString(v)
    ensures AllDigits(NatToString(v) + NatToString(v))
    ensures Doubled(v) == DigitsValue(NatToString(v) + NatToString(v))
    ensures AllDigits(NatToString(v))
    ensures DigitsValue(NatToString(v)) == v && |NatToString(v)| >= 1
    ensures NatToString(v)[0] == '0' <==> v == 0
  {
    var t := NatToString(v);
    NatToStringIsCanonical(v);
    DigitsValueConcat(t, t);
    AtoiOfDigits(t + t);
  }

  /** Every doubled id of a positive v is a repetition in part 2's sense, so
      part 2 counts everything part 1 can find. */
  lemma DoubledIsRepetition(v: nat)
    requires v >= 1
    ensures IsRepetition(Itoa(Doubled(v)))
  {
    var t := NatToString(v);
    DoubledText(v);
    var tt := t + t;
    assert tt[0] == t[0];
    CanonicalDigits(tt);
    assert Itoa(Doubled(v)) == tt;
    assert Repeat(t, 2) == tt by {
      assert Repeat(t, 1) == t;
    }
    assert tt[..|t|] == t;
    assert IsRepetitionOf(tt, |t|);
  }

  /** Distinct v give distinct doubled ids, so part 1 never adds an id twice
      within one range. */
  lemma DoubledInjective(v: nat, w: nat)
    requires Doubled(v) == Doubled(w)
    ensures v == w
  {
    var t, u := NatToString(v), NatToString(w);
    DoubledText(v);
    DoubledText(w);
    if v >= 1 && w >= 1 {
      assert (t + t)[0] == t[0] && (u + u)[0] == u[0];
      CanonicalDigits(t + t);
      CanonicalDigits(u + u);
      assert t + t == u + u;
      assert t == (t + t)[..|t|] == (u + u)[..|u|] == u;
    } else if v >= 1 || w >= 1 {
      DoubledSign(v);
      DoubledSign(w);
    }
  }

  lemma DoubledSign(v: nat)
    ensures v == 0 <==> Doubled(v) == 0
  {
    DoubledSplit(v);
    if v >= 1 {
      MulMonotone(1, v, Pow10(NumDigits(v)));
    }
  }

  /** The range readRanges builds from the texts of lo and hi, keeping the
      first loKeep digits of lo and hiKeep digits of hi as the prefixes;
      each number is read with Atoi. */
  function RangeWithPrefixes(loText: string, hiText: string, loKeep: nat, hiKeep: nat): (r: IdRange)
    requires AllDigits(loText) && AllDigits(hiText) && loKeep <= |loText| && hiKeep <= |hiText|
    ensures r.lo == DigitsValue(loText) && r.hi == DigitsValue(hiText)
    ensures r.loPrefix == DigitsValue(loText[..loKeep]) && r.hiPrefix == DigitsValue(hiText[..hiKeep])
    ensures r.loPrefix == r.lo / Pow10(|loText| - loKeep) && r.hiPrefix == r.hi / Pow10(|hiText| - hiKeep)
  {
    PrefixIsQuotient(loText, loKeep);
    PrefixIsQuotient(hiText, hiKeep);
    AtoiOfDigits(loText);
    AtoiOfDigits(hiText);
    AtoiOfDigits(loText[..loKeep]);
    AtoiOfDigits(hiText[..hiKeep]);
    IdRange(AtoiOrZero(loText), AtoiOrZero(hiText), AtoiOrZero(loText[..loKeep]), AtoiOrZero(hiText[..hiKeep]))
  }

  /** The leading k digits of a digit text are its value divided by 10^(len-k). */
  lemma PrefixIsQuotient(text: string, k: nat)
    requires AllDigits(text) && k <= |text|
    ensures AllDigits(text[..k])
    ensures DigitsValue(text[..k]) == DigitsValue(text) / Pow10(|text| - k)
  {
    LeadingDigits(text, k);
    QuotientOf(DigitsValue(text), DigitsValue(text[..k]), Pow10(|text| - k), DigitsValue(text[k..]));
  }

  /** The prefix rule of readRanges as written: when lo has an odd and hi an
      even number of digits, the first floor(len/2) digits of each; otherwise
      the first ceil(len/2) digits of each. */
  function MakeRangeAsWritten(loText: string, hiText: string): (r: IdRange)
    requires |loText| >= 1 && |hiText| >= 1 && AllDigits(loText) && AllDigits(hiText)
    ensures r.lo == DigitsValue(loText) && r.hi == DigitsValue(hiText)
    ensures !IsEven(|loText|) && IsEven(|hiText|) ==>
      r.loPrefix == r.lo / Pow10(|loText| - |loText| / 2) && r.hiPrefix == r.hi / Pow10(|hiText| - |hiText| / 2)
    ensures !(!IsEven(|loText|) && IsEven(|hiText|)) ==>
      r.loPrefix == r.lo / Pow10(|loText| / 2) && r.hiPrefix == r.hi / Pow10(|hiText| / 2)
  {
    var loLen, hiLen := |loText|, |hiText|;
    if !IsEven(loLen) && IsEven(hiLen) then
      RangeWithPrefixes(loText, hiText, loLen / 2, hiLen / 2)
    else
      RangeWithPrefixes(loText, hiText, loLen - loLen / 2, hiLen - hiLen / 2)
  }

  lemma QuotientOf(x: int, a: nat, p: nat, r: nat)
    requires x == a * p + r && r < p
    ensures x / p == a
  {
    DivOfSum(a, p, r);
  }

  /** The corrected prefix rule: the first floor(len/2) digits of lo and the
      first ceil(len/2) digits of hi. */
  function MakeRange(loText: string, hiText: string): (r: IdRange)
    requires |loText| >= 1 && |hiText| >= 1 && AllDigits(loText) && AllDigits(hiText)
    ensures r.lo == DigitsValue(loText) && r.hi == DigitsValue(hiText)
    ensures r.loPrefix == r.lo / Pow10(|loText| - |loText| / 2)
    ensures r.hiPrefix == r.hi / Pow10(|hiText| / 2)
  {
    RangeWithPrefixes(loText, hiText, |loText| / 2, |hiText| - |hiText| / 2)
  }

  /** A positive v of d digits doubles to an id of exactly 2d digits. */
  lemma DoubledBounds(v: nat)
    requires v >= 1
    ensures Pow10(NumDigits(v) - 1) <= v < Pow10(NumDigits(v))
    ensures Doubled(v) == v * Pow10(NumDigits(v)) + v
    ensures Pow10(2 * NumDigits(v) - 1) <= Doubled(v) < Pow10(2 * NumDigits(v))
  {
    NumDigitsBounds(v);
    DoubledSplit(v);
    TwiceTheDigits(v, NumDigits(v), Doubled(v));
  }

  /** v of d digits next to itself: the digits of v, then d more. */
  lemma DoubledSplit(v: nat)
    ensures Doubled(v) == v * Pow10(NumDigits(v)) + v
  {
    var t := NatToString(v);
    DoubledText(v);
    DigitsValueConcat(t, t);
  }

  /** v of d digits written twice has 2d digits. */
  lemma TwiceTheDigits(v: int, d: nat, x: int)
    requires d >= 1 && Pow10(d - 1) <= v < Pow10(d) && x == v * Pow10(d) + v
    ensures Pow10(2 * d - 1) <= x < Pow10(2 * d)
  {
    var q, p := Pow10(d - 1), Pow10(d);
    Pow10Add(d, d - 1);
    Pow10Add(d, d);
    assert d + (d - 1) == 2 * d - 1 && d + d == 2 * d;
    DoubledRange(v, q, p);
  }

  lemma DoubledRange(v: int, q: int, p: int)
    requires 1 <= q <= v < p
    ensures q * p <= v * p + v < p * p
  {
    MulMonotone(q, v, p);
    MulMonotone(v, p - 1, p);
  }

  /** If v written twice is at most a followed by fewer than p, then v <= a. */
  lemma UpperHalf(v: int, a: int, r: int, p: int)
    requires 0 <= v && 0 <= r < p && v * p + v <= a * p + r
    ensures v <= a
  {
    if v > a {
      MulMonotone(a + 1, v, p);
    }
  }

  /** If a followed by r is at most v written twice, with v < p, then a <= v. */
  lemma LowerHalf(v: int, a: int, r: int, p: int)
    requires 0 <= v < p && 0 <= r && a * p + r <= v * p + v
    ensures a <= v
  {
    if v < a {
      MulMonotone(v + 1, a, p);
    }
  }

  /** Part 1 reaches up to every doubled id x <= hi: x is v of d digits
      written twice, and v is at most the number formed by the first
      ceil(len/2) digits of hi. */
  lemma HiPrefixBound(hiText: string, v: nat, d: nat, x: int)
    requires |hiText| >= 1 && AllDigits(hiText) && hiText[0] != '0' && d >= 1
    requires v < Pow10(d) && x == v * Pow10(d) + v
    requires Pow10(2 * d - 1) <= x <= DigitsValue(hiText)
    ensures v <= DigitsValue(hiText[..|hiText| - |hiText| / 2])
  {
    if 2 * d == |hiText| {
      HalfOfDouble(d);
      SameLengthUpper(hiText, v, d, x);
    } else {
      ShorterUpper(hiText, v, d, x);
    }
  }

  lemma HalfOfDouble(d: nat)
    ensures (2 * d) / 2 == d && 2 * d - (2 * d) / 2 == d
  {
  }

  /** The case where v has fewer digits than the first half of hi. */
  lemma ShorterUpper(hiText: string, v: nat, d: nat, x: int)
    requires |hiText| >= 1 && AllDigits(hiText) && hiText[0] != '0' && d >= 1
    requires v < Pow10(d) && Pow10(2 * d - 1) <= x <= DigitsValue(hiText)
    requires 2 * d != |hiText|
    ensures v <= DigitsValue(hiText[..|hiText| - |hiText| / 2])
  {
    var n := |hiText|;
    var pre := hiText[..n - n / 2];
    assert |pre| == n - n / 2;
    DigitsValueBounds(hiText);
    assert pre[0] == hiText[0];
    DigitsValueBounds(pre);
    UpperExponents(v, d, n, x, DigitsValue(hiText), DigitsValue(pre));
  }

  lemma UpperExponents(v: int, d: nat, n: nat, x: int, hi: int, pre: int)
    requires 1 <= d && v < Pow10(d) && Pow10(2 * d - 1) <= x <= hi < Pow10(n)
    requires n >= 1 && Pow10(n - (n / 2) - 1) <= pre && 2 * d != n
    ensures v <= pre
  {
    if 2 * d - 1 >= n {
      Pow10Monotone(n, 2 * d - 1);
    }
    Pow10Monotone(d, n - n / 2 - 1);
  }

  /** The case where v has as many digits as the first half of hi. */
  lemma SameLengthUpper(hiText: string, v: nat, d: nat, x: int)
    requires AllDigits(hiText) && 2 * d == |hiText|
    requires x == v * Pow10(d) + v && x <= DigitsValue(hiText)
    ensures v <= DigitsValue(hiText[..d])
  {
    LeadingDigits(hiText, d);
    UpperHalf(v, DigitsValue(hiText[..d]), DigitsValue(hiText[d..]), Pow10(d));
  }

  /** Part 1 starts low enough for every doubled id x >= lo: x is v of d
      digits written twice, and v is at least the number formed by the first
      floor(len/2) digits of lo. */
  lemma LoPrefixBound(loText: string, v: nat, d: nat, x: int)
    requires |loText| >= 1 && AllDigits(loText) && loText[0] != '0' && d >= 1
    requires Pow10(d - 1) <= v < Pow10(d) && x == v * Pow10(d) + v
    requires DigitsValue(loText) <= x < Pow10(2 * d)
    ensures DigitsValue(loText[..|loText| / 2]) <= v
  {
    if 2 * d == |loText| {
      HalfOfDouble(d);
      SameLengthLower(loText, v, d, x);
    } else {
      ShorterLower(loText, v, d, x);
    }
  }

  /** The case where lo has fewer digits than v written twice. */
  lemma ShorterLower(loText: string, v: nat, d: nat, x: int)
    requires |loText| >= 1 && AllDigits(loText) && loText[0] != '0' && d >= 1
    requires Pow10(d - 1) <= v && DigitsValue(loText) <= x < Pow10(2 * d)
    requires 2 * d != |loText|
    ensures DigitsValue(loText[..|loText| / 2]) <= v
  {
    var n := |loText|;
    var pre := loText[..n / 2];
    assert |pre| == n / 2;
    DigitsValueBounds(loText);
    DigitsValueBounds(pre);
    LowerExponents(v, d, n, x, DigitsValue(loText), DigitsValue(pre));
  }

  lemma LowerExponents(v: int, d: nat, n: nat, x: int, lo: int, pre: int)
    requires 1 <= d && 1 <= n && 2 * d != n
    requires Pow10(d - 1) <= v && Pow10(n - 1) <= lo <= x < Pow10(2 * d) && pre < Pow10(n / 2)
    ensures pre <= v
  {
    if n - 1 >= 2 * d {
      Pow10Monotone(2 * d, n - 1);
    }
    Pow10Monotone(n / 2, d - 1);
  }

  /** The case where lo has exactly twice as many digits as v. */
  lemma SameLengthLower(loText: string, v: nat, d: nat, x: int)
    requires AllDigits(loText) && 2 * d == |loText| && v < Pow10(d)
    requires x == v * Pow10(d) + v && DigitsValue(loText) <= x
    ensures DigitsValue(loText[..d]) <= v
  {
    LeadingDigits(loText, d);
    LowerHalf(v, DigitsValue(loText[..d]), DigitsValue(loText[d..]), Pow10(d));
  }

  /** With the corrected rule, part 1's loop over v in [loPrefix, hiPrefix]
      meets every doubled id of the range. */
  lemma PrefixRuleFindsEveryDoubledId(loText: string, hiText: string, v: nat)
    requires |loText| >= 1 && AllDigits(loText) && loText[0] != '0'
    requires |hiText| >= 1 && AllDigits(hiText) && hiText[0] != '0'
    requires v >= 1 && MakeRange(loText, hiText).InRange(Doubled(v))
    ensures MakeRange(loText, hiText).loPrefix <= v <= MakeRange(loText, hiText).hiPrefix
  {
    DoubledBounds(v);
    LoPrefixBound(loText, v, NumDigits(v), Doubled(v));
    HiPrefixBound(hiText, v, NumDigits(v), Doubled(v));
  }

  /** With the rule as written, the range 123-99999 gets prefixes 12..999,
      yet the doubled id 1010 of v = 10 lies in the range. */
  lemma AsWrittenMissesDoubledId()
    ensures var r := MakeRangeAsWritten("123", "99999");
      r.InRange(Doubled(10)) && 10 < r.loPrefix
  {
    var r := MakeRangeAsWritten("123", "99999");
    assert DigitsValue("123") == 123 by {
      assert "123"[..2] == "12" && "12"[..1] == "1" && "1"[..0] == "";
    }
    assert DigitsValue("99999") == 99999 by {
      assert "99999"[..4] == "9999" && "9999"[..3] == "999";
      assert "999"[..2] == "99" && "99"[..1] == "9" && "9"[..0] == "";
    }
    assert NumDigits(10) == 2 by {
      assert NatToString(10) == NatToString(1) + [DigitChar(0)];
    }
    DoubledValue(10);
  }

  /** Part 1's sum for one range over v in [a, b): each doubled id that
      lies in the range. */
  function DoubledSum(r: IdRange, a: int, b: int): int
    decreases b - a
  {
    if b <= a then 0
    else DoubledSum(r, a, b - 1) + (if r.InRange(Doubled(b - 1)) then Doubled(b - 1) else 0)
  }

  function Part1Total(ranges: seq<IdRange>): int {
    if ranges == [] then 0
    else
      var r := ranges[|ranges| - 1];
      Part1Total(ranges[..|ranges| - 1]) + DoubledSum(r, r.loPrefix, r.hiPrefix + 1)
  }

  /** part1: for each range and each v from loPrefix to hiPrefix, adds the
      doubled id of v when the range contains it. */
  method Part1(ranges: seq<IdRange>) returns (total: int)
    ensures total == Part1Total(ranges)
  {
    total := 0;
    for i := 0 to |ranges|
      invariant total == Part1Total(ranges[..i])
    {
      var r := ranges[i];
      ghost var before := total;
      var v := r.loPrefix;
      while v <= r.hiPrefix
        invariant v == r.loPrefix || r.loPrefix <= v <= r.hiPrefix + 1
        invariant total == before + DoubledSum(r, r.loPrefix, v)
      {
        var vs := Itoa(v);
        var vv := AtoiOrZero(vs + vs);
        if r.InRange(vv) {
          total := total + vv;
        }
        v := v + 1;
      }
      assert ranges[..i + 1][..i] == ranges[..i];
    }
    assert ranges[..|ranges|] == ranges;
  }

  /** Part 2's sum over v in [a, b): each v whose decimal text is a
      repetition. */
  ghost function RepetitionSum(a: int, b: int): int
    decreases b - a
  {
    if b <= a then 0
    else RepetitionSum(a, b - 1) + (if IsRepetition(Itoa(b - 1)) then b - 1 else 0)
  }

  ghost function Part2Total(ranges: seq<IdRange>): int {
    if ranges == [] then 0
    else
      var r := ranges[|ranges| - 1];
      Part2Total(ranges[..|ranges| - 1]) + RepetitionSum(r.lo, r.hi + 1)
  }

  /** part2: for each range, the sum of the ids in [lo, hi] that isSequence
      accepts. */
  method Part2(ranges: seq<IdRange>) returns (total: int)
    ensures total == Part2Total(ranges)
  {
    total := 0;
    for i := 0 to |ranges|
      invariant total == Part2Total(ranges[..i])
    {
      var r := ranges[i];
      ghost var before := total;
      var v := r.lo;
      while v <= r.hi
        invariant v == r.lo || r.lo <= v <= r.hi + 1
        invariant total == before + RepetitionSum(r.lo, v)
      {
        var found := IsSequence(v);
        if found {
          total := total + v;
        }
        assert total == before + RepetitionSum(r.lo, v + 1);
        v := v + 1;
      }
      assert ranges[..i + 1][..i] == ranges[..i];
    }
    assert ranges[..|ranges|] == ranges;
  }
}
