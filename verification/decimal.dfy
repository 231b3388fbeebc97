/** Decimal text and integers: the parts of Go's strconv.Atoi/Itoa and of
    fmt.Sscanf("%d") that the solvers rely on.  Integers are unbounded, so the
    64-bit range errors of the Go library are not part of this module. */
module Decimal {
  import opened Wrappers
  import opened UnicodeSpace

  predicate IsDigit(c: char) { '0' <= c <= '9' }

  predicate AllDigits(s: string) { forall i :: 0 <= i < |s| ==> IsDigit(s[i]) }

  function DigitValue(c: char): (d: nat)
    requires IsDigit(c)
    ensures d < 10
  {
    c as int - '0' as int
  }

  function DigitChar(d: nat): (c: char)
    requires d < 10
    ensures IsDigit(c) && DigitValue(c) == d
  {
    ('0' as int + d) as char
  }

  function Pow10(k: nat): (p: nat)
    ensures p >= 1
  {
    if k == 0 then 1 else 10 * Pow10(k - 1)
  }

  /** The value of a string of decimal digits, most significant digit first. */
  function DigitsValue(s: string): nat
    requires AllDigits(s)
    decreases |s|
  {
    if s == [] then 0 else DigitsValue(s[..|s| - 1]) * 10 + DigitValue(s[|s| - 1])
  }

  /** Go strconv.Atoi: an optional '+' or '-' followed by at least one decimal
      digit and nothing else; any other text is a syntax error (None). */
  function Atoi(s: string): Option<int> {
    if |s| > 0 && (s[0] == '+' || s[0] == '-') then
      if |s| > 1 && AllDigits(s[1..]) then
        var v: int := DigitsValue(s[1..]);
        Some(if s[0] == '-' then -v else v)
      else None
    else if |s| > 0 && AllDigits(s) then Some(DigitsValue(s))
    else None
  }

  /** The text Atoi accepts. */
  predicate IsIntegerText(s: string) {
    var body := if |s| > 0 && (s[0] == '+' || s[0] == '-') then s[1..] else s;
    |body| > 0 && AllDigits(body)
  }

  /** Atoi succeeds exactly on the text it accepts. */
  lemma AtoiAccepts(s: string)
    ensures Atoi(s).Some? <==> IsIntegerText(s)
  {
  }

  /** `v, _ := strconv.Atoi(s)`: on a syntax error Go returns 0. */
  function AtoiOrZero(s: string): int {
    match Atoi(s)
    case Some(v) => v
    case None => 0
  }

  /** Go strconv.Itoa on a non-negative value: its shortest decimal form. */
  function NatToString(n: nat): (s: string)
    ensures |s| >= 1
    decreases n
  {
    if n < 10 then [DigitChar(n)] else NatToString(n / 10) + [DigitChar(n % 10)]
  }

  /** Go strconv.Itoa: a '-' sign in front of the digits of a negative value. */
  function Itoa(n: int): string {
    if n < 0 then "-" + NatToString(-n) else NatToString(n)
  }

  /** The number of decimal digits of n. */
  function NumDigits(n: nat): (k: nat)
    ensures k >= 1
  {
    |NatToString(n)|
  }

  lemma {:induction false} NatToStringIsCanonical(n: nat)
    ensures |NatToString(n)| >= 1 && AllDigits(NatToString(n))
    ensures DigitsValue(NatToString(n)) == n
    ensures NatToString(n)[0] == '0' <==> n == 0
    decreases n
  {
    var s := NatToString(n);
    if n >= 10 {
      NatToStringIsCanonical(n / 10);
      assert s[..|s| - 1] == NatToString(n / 10);
    }
  }

  /** Reading back what Itoa wrote gives the value again. */
  lemma AtoiItoa(n: int)
    ensures Atoi(Itoa(n)) == Some(n)
  {
    if n < 0 {
      var t := NatToString(-n);
      NatToStringIsCanonical(-n);
      var s := "-" + t;
      assert s[0] == '-' && s[1..] == t;
      var v: int := DigitsValue(t);
      assert Atoi(s) == Some(-v);
    } else {
      NatToStringIsCanonical(n);
    }
  }

  /** Writing two digit strings side by side multiplies the first by a power of ten. */
  lemma {:induction false} DigitsValueConcat(a: string, b: string)
    requires AllDigits(a) && AllDigits(b)
    ensures AllDigits(a + b)
    ensures DigitsValue(a + b) == DigitsValue(a) * Pow10(|b|) + DigitsValue(b)
    decreases |b|
  {
    var ab := a + b;
    if b == [] {
      assert ab == a;
    } else {
      var b' := b[..|b| - 1];
      assert ab[..|ab| - 1] == a + b';
      DigitsValueConcat(a, b');
      ShiftDigit(DigitsValue(a), Pow10(|b'|), DigitsValue(b'), DigitValue(b[|b| - 1]));
    }
  }

  lemma ShiftDigit(x: int, p: int, y: int, d: int)
    ensures (x * p + y) * 10 + d == x * (10 * p) + (y * 10 + d)
  {
  }

  lemma {:induction false} Pow10Add(a: nat, b: nat)
    ensures Pow10(a + b) == Pow10(a) * Pow10(b)
    decreases b
  {
    if b > 0 {
      Pow10Add(a, b - 1);
    }
  }

  lemma Pow10Monotone(a: nat, b: nat)
    requires a <= b
    ensures Pow10(a) <= Pow10(b)
  {
    Pow10Add(a, b - a);
  }

  /** A text of k digits is below 10^k, and at least 10^(k-1) when it does
      not start with '0'. */
  lemma {:induction false} DigitsValueBounds(s: string)
    requires AllDigits(s)
    ensures DigitsValue(s) < Pow10(|s|)
    ensures |s| >= 1 && s[0] != '0' ==> Pow10(|s| - 1) <= DigitsValue(s)
    decreases |s|
  {
    if s != [] {
      var init := s[..|s| - 1];
      DigitsValueBounds(init);
      if |s| >= 2 {
        assert init[0] == s[0];
      }
    }
  }

  /** The number of digits of n >= 1 places it between two powers of ten. */
  lemma NumDigitsBounds(n: nat)
    ensures NumDigits(n) >= 1
    ensures n < Pow10(NumDigits(n))
    ensures n >= 1 ==> Pow10(NumDigits(n) - 1) <= n
  {
    NatToStringIsCanonical(n);
    DigitsValueBounds(NatToString(n));
  }

  /** A digit text without a leading zero is the shortest form of its value. */
  lemma {:induction false} CanonicalDigits(s: string)
    requires |s| >= 1 && AllDigits(s) && s[0] != '0'
    ensures NatToString(DigitsValue(s)) == s
    decreases |s|
  {
    var init := s[..|s| - 1];
    var d := DigitValue(s[|s| - 1]);
    if |s| >= 2 {
      assert init[0] == s[0];
      CanonicalDigits(init);
      DigitsValueBounds(init);
      Pow10Monotone(0, |init| - 1);
      var n := DigitsValue(s);
      assert n / 10 == DigitsValue(init) && n % 10 == d;
      assert s == init + [s[|s| - 1]];
    } else {
      assert s == [s[0]];
    }
  }

  /** Atoi on a plain digit text is its value; the empty text gives 0. */
  lemma AtoiOfDigits(s: string)
    requires AllDigits(s)
    ensures AtoiOrZero(s) == DigitsValue(s)
  {
  }

  /** Splitting a digit text after its first k digits. */
  lemma LeadingDigits(s: string, k: nat)
    requires AllDigits(s) && k <= |s|
    ensures AllDigits(s[..k]) && AllDigits(s[k..])
    ensures DigitsValue(s) == DigitsValue(s[..k]) * Pow10(|s| - k) + DigitsValue(s[k..])
    ensures DigitsValue(s[k..]) < Pow10(|s| - k)
  {
    var a, b := s[..k], s[k..];
    assert s == a + b;
    assert AllDigits(a) && AllDigits(b);
    DigitsValueConcat(a, b);
    DigitsValueBounds(b);
  }

  lemma MulMonotone(a: int, b: int, c: nat)
    requires a <= b
    ensures a * c <= b * c
  {
  }

  lemma DivOfSum(q: nat, p: nat, r: nat)
    requires r < p
    ensures (q * p + r) / p == q
  {
    var x := q * p + r;
    var d, m := x / p, x % p;
    assert x == d * p + m;
    if d > q {
      MulMonotone(q + 1, d, p);
    } else if d < q {
      MulMonotone(d + 1, q, p);
    }
  }

  /** The length of the longest all-digit prefix of s. */
  function DigitRunLength(s: string): (k: nat)
    ensures k <= |s| && AllDigits(s[..k])
    ensures k < |s| ==> !IsDigit(s[k])
  {
    if s == [] || !IsDigit(s[0]) then 0
    else
      var k := 1 + DigitRunLength(s[1..]);
      assert s[..k] == [s[0]] + s[1..][..k - 1];
      k
  }

  /** The number the %d verb reads once the leading white space is gone: an
      optional sign and the longest run of digits after it; None when no
      digit follows the sign. */
  function ScanNumber(t: string): (r: Option<int>)
    ensures |t| > 0 && AllDigits(t) ==> r == Some(DigitsValue(t))
    ensures |t| == 0 || !(IsDigit(t[0]) || (|t| > 1 && t[0] in "+-" && IsDigit(t[1]))) ==> r.None?
  {
    var signed := |t| > 0 && (t[0] == '+' || t[0] == '-');
    var body := if signed then t[1..] else t;
    var k := DigitRunLength(body);
    if k == 0 then None
    else
      var v: int := DigitsValue(body[..k]);
      assert !signed && AllDigits(t) ==> body[..k] == t;
      Some(if signed && t[0] == '-' then -v else v)
  }

  /** The white space fmt skips before a verb: unicode.IsSpace, except that
      Sscanf treats a newline as an error rather than as space. */
  predicate ScanSkips(c: char) {
    GoIsSpace(c) && c != '\n'
  }

  /** fmt.Sscanf(s, "%d", &num) as the solvers use it: leading white space is
      skipped, a newline there is an error, and then a number is read.  None
      when the scan fails, in which case the caller's `num` keeps its 0. */
  function ScanInt(s: string): (r: Option<int>)
    ensures |s| > 0 && AllDigits(s) ==> r == Some(DigitsValue(s))
    ensures (forall i :: 0 <= i < |s| ==> !IsDigit(s[i])) ==> r.None?
    decreases |s|
  {
    if s != [] && ScanSkips(s[0]) then ScanInt(s[1..])
    else if s != [] && s[0] == '\n' then None
    else ScanNumber(s)
  }

  /** Any run of white space other than newlines before the number is
      skipped. */
  lemma {:induction false} ScanSkipsSpace(pre: string, t: string)
    requires forall i :: 0 <= i < |pre| ==> ScanSkips(pre[i])
    requires t == [] || !GoIsSpace(t[0])
    ensures ScanInt(pre + t) == ScanNumber(t)
    decreases |pre|
  {
    if pre == [] {
      assert pre + t == t;
    } else {
      assert (pre + t)[0] == pre[0] && (pre + t)[1..] == pre[1..] + t;
      ScanSkipsSpace(pre[1..], t);
    }
  }

  /** A newline after the leading white space makes the scan fail. */
  lemma {:induction false} ScanNewlineFails(pre: string, t: string)
    requires forall i :: 0 <= i < |pre| ==> ScanSkips(pre[i])
    ensures ScanInt(pre + "\n" + t).None?
    decreases |pre|
  {
    if pre == [] {
      assert pre + "\n" + t == "\n" + t;
    } else {
      assert (pre + "\n" + t)[0] == pre[0] && (pre + "\n" + t)[1..] == pre[1..] + "\n" + t;
      ScanNewlineFails(pre[1..], t);
    }
  }

  /** The value Sscanf leaves in a variable initialised to 0. */
  function ScanIntOrZero(s: string): int {
    match ScanInt(s)
    case Some(v) => v
    case None => 0
  }
}
