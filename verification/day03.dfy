/** Day 3: from each line of digits pick `numdigits` of them, in order, so
    that the number they form is as large as possible, and sum the numbers. */
module Day03 {
  import opened Decimal
  import opened GoArith

  /** The last element of `sort.Strings` over the characters of s: its
      largest character. */
  function MaxChar(s: string): (c: char)
    requires |s| > 0
    ensures c in s
    ensures forall i :: 0 <= i < |s| ==> s[i] <= c
  {
    if |s| == 1 then s[0]
    else
      var m := MaxChar(s[1..]);
      if s[0] >= m then s[0] else m
  }

  /** strings.Index for a one-character pattern that occurs in s. */
  function FirstIndex(s: string, c: char): (i: nat)
    requires c in s
    ensures i < |s| && s[i] == c
    ensures forall j :: 0 <= j < i ==> s[j] != c
  {
    if s[0] == c then 0 else 1 + FirstIndex(s[1..], c)
  }

  /** The digits solve collects from line while n counts down to 0: the
      largest character that still leaves n characters after it, its first
      occurrence, and so on in the rest of the line; a line of n characters
      or fewer is taken whole. */
  function Greedy(line: string, n: int): (r: string)
    ensures n >= 0 && |line| <= n ==> r == line
    ensures |line| >= n + 1 && n >= -1 ==> |r| == n + 1
    decreases if n < 0 then 0 else n + 1
  {
    if n < 0 then ""
    else if |line| <= n then line
    else
      var c := MaxChar(line[..|line| - n]);
      var p := FirstIndex(line, c);
      [c] + Greedy(line[p + 1..], n - 1)
  }

  /** One round of the greedy pick: the largest character that leaves n after
      it, then the picks from the rest of the line. */
  lemma GreedyStep(line: string, n: int, c: char, p: nat)
    requires 0 <= n < |line|
    requires c == MaxChar(line[..|line| - n]) && p == FirstIndex(line, c)
    ensures Greedy(line, n) == [c] + Greedy(line[p + 1..], n - 1)
  {
  }

  /** t can be obtained from s by deleting characters. */
  predicate IsSubsequence(t: string, s: string)
    decreases |s|
  {
    t == [] || (s != [] && ((t[0] == s[0] && IsSubsequence(t[1..], s[1..])) || IsSubsequence(t, s[1..])))
  }

  /** Lexicographic order on strings of the same length. */
  predicate LexLe(a: string, b: string)
    requires |a| == |b|
  {
    a == [] || a[0] < b[0] || (a[0] == b[0] && LexLe(a[1..], b[1..]))
  }

  lemma {:induction false} SubsequenceRefl(s: string)
    ensures IsSubsequence(s, s)
    decreases |s|
  {
    if s != [] {
      SubsequenceRefl(s[1..]);
    }
  }

  /** Choosing s[p] and then a subsequence of what follows it. */
  lemma {:induction false} SubsequenceCons(t: string, s: string, p: nat)
    requires p < |s| && IsSubsequence(t, s[p + 1..])
    ensures IsSubsequence([s[p]] + t, s)
    decreases p
  {
    if p == 0 {
      assert ([s[p]] + t)[1..] == t;
    } else {
      assert s[1..][p..] == s[p + 1..];
      SubsequenceCons(t, s[1..], p - 1);
    }
  }

  /** The first character of a subsequence occurs at some index i, and the
      rest of the subsequence lies after i. */
  lemma {:induction false} SubsequenceHead(t: string, s: string) returns (i: nat)
    requires IsSubsequence(t, s) && |t| >= 1
    ensures i < |s| && s[i] == t[0] && IsSubsequence(t[1..], s[i + 1..])
    decreases |s|
  {
    if t[0] == s[0] && IsSubsequence(t[1..], s[1..]) {
      i := 0;
    } else {
      var j := SubsequenceHead(t, s[1..]);
      assert s[1..][j + 1..] == s[j + 2..];
      i := j + 1;
    }
  }

  lemma {:induction false} SubsequenceLength(t: string, s: string)
    requires IsSubsequence(t, s)
    ensures |t| <= |s|
    decreases |s|
  {
    if t != [] {
      if t[0] == s[0] && IsSubsequence(t[1..], s[1..]) {
        SubsequenceLength(t[1..], s[1..]);
      } else {
        SubsequenceLength(t, s[1..]);
      }
    }
  }

  /** A subsequence of a suffix of s is a subsequence of every longer suffix. */
  lemma {:induction false} SubsequenceOfLongerSuffix(u: string, s: string, a: nat, b: nat)
    requires a <= b <= |s| && IsSubsequence(u, s[b..])
    ensures IsSubsequence(u, s[a..])
    decreases b - a
  {
    if a < b {
      SubsequenceOfLongerSuffix(u, s, a + 1, b);
      assert s[a..][1..] == s[a + 1..];
    }
  }

  lemma {:induction false} SubsequenceChars(t: string, s: string)
    requires IsSubsequence(t, s)
    ensures forall i :: 0 <= i < |t| ==> t[i] in s
    decreases |s|
  {
    if t != [] {
      if t[0] == s[0] && IsSubsequence(t[1..], s[1..]) {
        SubsequenceChars(t[1..], s[1..]);
        forall i | 1 <= i < |t| ensures t[i] in s {
          assert t[1..][i - 1] == t[i];
        }
      } else {
        SubsequenceChars(t, s[1..]);
      }
    }
  }

  /** What solve builds for a line is a subsequence of the line. */
  lemma {:induction false} GreedyIsSubsequence(line: string, n: int)
    ensures IsSubsequence(Greedy(line, n), line)
    decreases if n < 0 then 0 else n + 1
  {
    if n < 0 {
    } else if |line| <= n {
      SubsequenceRefl(line);
    } else {
      var c := MaxChar(line[..|line| - n]);
      var p := FirstIndex(line, c);
      GreedyIsSubsequence(line[p + 1..], n - 1);
      GreedyStep(line, n, c, p);
      SubsequenceCons(Greedy(line[p + 1..], n - 1), line, p);
    }
  }

  /** The first character of a subsequence of n+1 characters comes from the
      part of the line that leaves n characters after it. */
  lemma HeadInWindow(line: string, n: nat, t: string) returns (i: nat)
    requires |t| == n + 1 && IsSubsequence(t, line)
    ensures i < |line| - n && line[i] == t[0] && IsSubsequence(t[1..], line[i + 1..])
    ensures t[0] <= MaxChar(line[..|line| - n])
  {
    i := SubsequenceHead(t, line);
    SubsequenceLength(t[1..], line[i + 1..]);
    assert line[..|line| - n][i] == line[i];
  }

  /** Among all subsequences of n+1 characters, the greedy choice is the
      largest in lexicographic order. */
  lemma {:induction false} GreedyIsLexMax(line: string, n: nat, t: string)
    requires |line| >= n + 1 && |t| == n + 1 && IsSubsequence(t, line)
    ensures LexLe(t, Greedy(line, n))
    decreases n, 1
  {
    var c := MaxChar(line[..|line| - n]);
    var p := FirstIndex(line, c);
    GreedyStep(line, n, c, p);
    var i := HeadInWindow(line, n, t);
    if t[0] == c {
      SameHeadTail(line, n, t, p, i);
    }
    LexLeCons(t, c, Greedy(line[p + 1..], n - 1));
  }

  /** When t starts with the greedy character, the rest of t is no larger
      than the greedy picks after its first occurrence. */
  lemma {:induction false} SameHeadTail(line: string, n: nat, t: string, p: nat, i: nat)
    requires |t| == n + 1 && i < |line| - n && p <= i
    requires IsSubsequence(t[1..], line[i + 1..])
    ensures LexLe(t[1..], Greedy(line[p + 1..], n - 1))
    decreases n, 0
  {
    SubsequenceOfLongerSuffix(t[1..], line, p + 1, i + 1);
    if n > 0 {
      GreedyIsLexMax(line[p + 1..], n - 1, t[1..]);
    }
  }

  lemma LexLeCons(t: string, c: char, rest: string)
    requires |t| == |rest| + 1 && t[0] <= c
    requires t[0] == c ==> LexLe(t[1..], rest)
    ensures LexLe(t, [c] + rest)
  {
    assert ([c] + rest)[1..] == rest;
  }

  /** For digit strings of the same length the lexicographic order is the
      order of their values. */
  lemma {:induction false} LexLeValue(a: string, b: string)
    requires |a| == |b| && AllDigits(a) && AllDigits(b) && LexLe(a, b)
    ensures DigitsValue(a) <= DigitsValue(b)
    decreases |a|
  {
    if a != [] {
      var p := Pow10(|a| - 1);
      LeadingDigits(a, 1);
      LeadingDigits(b, 1);
      assert a[..1] == [a[0]] && b[..1] == [b[0]];
      assert DigitsValue([a[0]]) == DigitValue(a[0]);
      assert DigitsValue([b[0]]) == DigitValue(b[0]);
      if a[0] < b[0] {
        HeadDominates(DigitValue(a[0]), DigitsValue(a[1..]), DigitValue(b[0]), DigitsValue(b[1..]), p);
      } else {
        LexLeValue(a[1..], b[1..]);
      }
    }
  }

  lemma HeadDominates(x: int, xs: int, y: int, ys: int, p: int)
    requires 0 <= xs < p && 0 <= ys && x < y
    ensures x * p + xs <= y * p + ys
  {
    MulMonotone(x + 1, y, p);
  }

  /** The number solve forms from a digit line of at least k digits is the
      largest number any k of its digits, kept in order, can form. */
  lemma PickIsLargest(line: string, k: nat, t: string)
    requires AllDigits(line) && 1 <= k <= |line|
    requires |t| == k && IsSubsequence(t, line)
    ensures AllDigits(t) && AllDigits(Greedy(line, k - 1))
    ensures DigitsValue(t) <= DigitsValue(Greedy(line, k - 1))
  {
    var g := Greedy(line, k - 1);
    GreedyIsSubsequence(line, k - 1);
    SubsequenceChars(g, line);
    SubsequenceChars(t, line);
    GreedyIsLexMax(line, k - 1, t);
    LexLeValue(t, g);
  }

  /** The sum solve returns: each line's picked digits read with Atoi, a
      failed read (an empty line, say) counting 0. */
  function SolveTotal(lines: seq<string>, numdigits: int): int {
    if lines == [] then 0
    else SolveTotal(lines[..|lines| - 1], numdigits) + AtoiOrZero(Greedy(lines[|lines| - 1], numdigits - 1))
  }

  /** The inner loop of solve for one line, counting n down from numdigits-1. */
  method PickDigits(line0: string, numdigits: int) returns (digits: string)
    ensures digits == Greedy(line0, numdigits - 1)
  {
    var line := line0;
    digits := "";
    var n := numdigits - 1;
    while n >= 0
      invariant n >= -1 || n == numdigits - 1
      invariant digits + Greedy(line, n) == Greedy(line0, numdigits - 1)
      decreases n
    {
      if |line| <= n {
        digits := digits + line;
        return;
      }
      var maxdigit := MaxChar(line[..|line| - n]);
      var p := FirstIndex(line, maxdigit);
      GreedyStep(line, n, maxdigit, p);
      line := line[p + 1..];
      AppendAssoc(digits, [maxdigit], Greedy(line, n - 1));
      digits := digits + [maxdigit];
      n := n - 1;
    }
    assert digits + "" == digits;
  }

  lemma AppendAssoc(a: string, b: string, c: string)
    ensures (a + b) + c == a + (b + c)
  {
  }

  /** solve: the sum over the lines of the picked digits read with Atoi. */
  method Solve(lines: seq<string>, numdigits: int) returns (total: int)
    ensures total == SolveTotal(lines, numdigits)
  {
    total := 0;
    for i := 0 to |lines|
      invariant total == SolveTotal(lines[..i], numdigits)
    {
      var digits := PickDigits(lines[i], numdigits);
      var value := AtoiOrZero(digits);
      total := total + value;
      assert lines[..i + 1][..i] == lines[..i];
    }
    assert lines[..|lines|] == lines;
  }
}
