/** Day 6: a worksheet of numbers with a row of operators underneath.  Part 1
    reads it as whitespace-separated fields, one problem per field column;
    part 2 rotates the character grid and reads it column by column. */
module Day06 {
  import opened Wrappers
  import opened UnicodeSpace
  import opened Decimal

  function Sum(xs: seq<int>): int {
    if xs == [] then 0 else Sum(xs[..|xs| - 1]) + xs[|xs| - 1]
  }

  function Product(xs: seq<int>): int {
    if xs == [] then 1 else Product(xs[..|xs| - 1]) * xs[|xs| - 1]
  }

  // ------------------------------------------------------------------ part 1

  /** Every row has a field number i. */
  predicate HasColumn(rows: seq<seq<string>>, i: nat) {
    forall j :: 0 <= j < |rows| ==> i < |rows[j]|
  }

  /** Field i of every row, read with Sscanf("%d"); a failed read leaves 0. */
  function Column(rows: seq<seq<string>>, i: nat): (c: seq<int>)
    requires HasColumn(rows, i)
  {
    seq(|rows|, j requires 0 <= j < |rows| => ScanIntOrZero(rows[j][i]))
  }

  /** Column i can be worked out: its operator is known and no row is short
      of it (a short row is an index-out-of-range panic). */
  predicate ColumnOk(rows: seq<seq<string>>, ops: seq<string>, i: nat)
    requires i < |ops|
  {
    (ops[i] == "+" || ops[i] == "*") && HasColumn(rows, i)
  }

  /** The answer to problem i: the sum or the product of its column. */
  function Answer(rows: seq<seq<string>>, ops: seq<string>, i: nat): int
    requires i < |ops| && HasColumn(rows, i)
  {
    if ops[i] == "+" then Sum(Column(rows, i)) else Product(Column(rows, i))
  }

  /** The sum of the answers to the first n problems, or Failed when one of
      them has an unknown operator (log.Fatalf) or a short row (a panic). */
  function GrandTotal(rows: seq<seq<string>>, ops: seq<string>, n: nat): Result<int>
    requires n <= |ops|
  {
    if n == 0 then Ok(0)
    else
      var before := GrandTotal(rows, ops, n - 1);
      if before.Failed? || !ColumnOk(rows, ops, n - 1) then Failed
      else Ok(before.value + Answer(rows, ops, n - 1))
  }

  /** part1's answer for a worksheet whose last row holds the operators. */
  function Worksheet(lines: seq<seq<string>>): Result<int>
    requires |lines| >= 1
  {
    var ops := lines[|lines| - 1];
    GrandTotal(lines[..|lines| - 1], ops, |ops|)
  }

  /** The worksheet has an answer exactly when every operator is '+' or '*'
      and every number row has a field under every operator. */
  lemma {:induction false} GrandTotalOk(rows: seq<seq<string>>, ops: seq<string>, n: nat)
    requires n <= |ops|
    ensures GrandTotal(rows, ops, n).Ok? <==> forall i :: 0 <= i < n ==> ColumnOk(rows, ops, i)
  {
    if n > 0 {
      GrandTotalOk(rows, ops, n - 1);
    }
  }

  /** Once a problem has failed, so has every longer prefix of the worksheet. */
  lemma {:induction false} FailedStays(rows: seq<seq<string>>, ops: seq<string>, m: nat, n: nat)
    requires m <= n <= |ops| && GrandTotal(rows, ops, m).Failed?
    ensures GrandTotal(rows, ops, n).Failed?
    decreases n - m
  {
    if m < n {
      FailedStays(rows, ops, m + 1, n);
    }
  }

  /** One more row in the prefix of the rows that have a field i. */
  lemma ColumnSnoc(rows: seq<seq<string>>, i: nat, k: nat)
    requires k < |rows| && HasColumn(rows[..k], i) && i < |rows[k]|
    ensures HasColumn(rows[..k + 1], i)
    ensures Column(rows[..k + 1], i) == Column(rows[..k], i) + [ScanIntOrZero(rows[k][i])]
  {
    assert rows[..k + 1] == rows[..k] + [rows[k]];
  }

  /** The '+' loop of part1 over column i: None when a row is too short. */
  method SumColumn(rows: seq<seq<string>>, i: nat) returns (r: Option<int>)
    ensures HasColumn(rows, i) ==> r == Some(Sum(Column(rows, i)))
    ensures !HasColumn(rows, i) ==> r.None?
  {
    var total := 0;
    for k := 0 to |rows|
      invariant HasColumn(rows[..k], i) && total == Sum(Column(rows[..k], i))
    {
      if |rows[k]| <= i {
        return None;
      }
      var num := ScanIntOrZero(rows[k][i]);
      ColumnSnoc(rows, i, k);
      total := total + num;
    }
    assert rows[..|rows|] == rows;
    return Some(total);
  }

  /** The '*' loop of part1 over column i: None when a row is too short. */
  method ProductColumn(rows: seq<seq<string>>, i: nat) returns (r: Option<int>)
    ensures HasColumn(rows, i) ==> r == Some(Product(Column(rows, i)))
    ensures !HasColumn(rows, i) ==> r.None?
  {
    var product := 1;
    for k := 0 to |rows|
      invariant HasColumn(rows[..k], i) && product == Product(Column(rows[..k], i))
    {
      if |rows[k]| <= i {
        return None;
      }
      var num := ScanIntOrZero(rows[k][i]);
      ColumnSnoc(rows, i, k);
      product := product * num;
    }
    assert rows[..|rows|] == rows;
    return Some(product);
  }

  /** One problem of part1 worked out, or the first one that fails. */
  lemma GrandTotalStep(rows: seq<seq<string>>, ops: seq<string>, i: nat, t: int, value: Option<int>)
    requires i < |ops| && GrandTotal(rows, ops, i) == Ok(t)
    requires ColumnOk(rows, ops, i) ==> value == Some(Answer(rows, ops, i))
    requires !ColumnOk(rows, ops, i) ==> value.None?
    ensures value.Some? ==> GrandTotal(rows, ops, i + 1) == Ok(t + value.value)
    ensures value.None? ==> GrandTotal(rows, ops, |ops|).Failed?
  {
    if value.None? {
      FailedStays(rows, ops, i + 1, |ops|);
    }
  }

  /** part1: the sum over the operator row of each column's sum or product. */
  method Part1(lines: seq<seq<string>>) returns (r: Result<int>)
    requires |lines| >= 1
    ensures r == Worksheet(lines)
  {
    var ops := lines[|lines| - 1];
    var rows := lines[..|lines| - 1];
    var grandtotal := 0;
    for i := 0 to |ops|
      invariant GrandTotal(rows, ops, i) == Ok(grandtotal)
    {
      var op := ops[i];
      var value: Option<int>;
      if op == "+" {
        value := SumColumn(rows, i);
      } else if op == "*" {
        value := ProductColumn(rows, i);
      } else {
        value := None;
      }
      GrandTotalStep(rows, ops, i, grandtotal, value);
      if value.None? {
        return Failed;
      }
      grandtotal := grandtotal + value.value;
    }
    return Ok(grandtotal);
  }

  // ------------------------------------------------- splitting into fields

  /** The class `\s` of Go's regexp syntax: [\t\n\f\r ]. */
  predicate IsReSpace(c: char) {
    c == ' ' || c == '\t' || c == '\n' || c == '\r' || c == '\U{000C}'
  }

  function LeadingSpaces(s: string): (k: nat)
    ensures k <= |s| && (forall i :: 0 <= i < k ==> GoIsSpace(s[i]))
    ensures k < |s| ==> !GoIsSpace(s[k])
  {
    if s == [] || !GoIsSpace(s[0]) then 0 else 1 + LeadingSpaces(s[1..])
  }

  function TrailingSpaces(s: string): (k: nat)
    ensures k <= |s| && (forall i :: |s| - k <= i < |s| ==> GoIsSpace(s[i]))
    ensures k < |s| ==> !GoIsSpace(s[|s| - 1 - k])
  {
    if s == [] || !GoIsSpace(s[|s| - 1]) then 0 else 1 + TrailingSpaces(s[..|s| - 1])
  }

  /** strings.TrimSpace: the part of s between its leading and trailing white space. */
  function TrimSpace(s: string): (t: string)
    ensures t == [] || (!GoIsSpace(t[0]) && !GoIsSpace(t[|t| - 1]))
    ensures exists a, b ::
              0 <= a <= b <= |s| && t == s[a..b] &&
              (forall i :: 0 <= i < a ==> GoIsSpace(s[i])) &&
              (forall i :: b <= i < |s| ==> GoIsSpace(s[i]))
  {
    var a := LeadingSpaces(s);
    var rest := s[a..];
    var k := TrailingSpaces(rest);
    var b := |s| - k;
    assert forall i :: b <= i < |s| ==> s[i] == rest[i - a];
    assert forall i :: b <= i < |s| ==> GoIsSpace(s[i]);
    s[a..b]
  }

  function WordLength(s: string): (k: nat)
    ensures k <= |s| && (forall i :: 0 <= i < k ==> !IsReSpace(s[i]))
    ensures k < |s| ==> IsReSpace(s[k])
  {
    if s == [] || IsReSpace(s[0]) then 0 else 1 + WordLength(s[1..])
  }

  /** The maximal runs of characters outside `\s`, in order. */
  function Words(s: string): seq<string>
    decreases |s|
  {
    if s == [] then []
    else if IsReSpace(s[0]) then Words(s[1..])
    else
      var k := WordLength(s);
      [s[..k]] + Words(s[k..])
  }

  /** regexp `\s+` Split(t, -1) for a trimmed t: no `\s` at either end of t,
      so no match is at its start or end, and the pieces are the words of t;
      an empty t gives the single empty string. */
  function SplitFields(t: string): seq<string> {
    if t == [] then [""] else Words(t)
  }

  /** The row splitLinesByBlanks makes from a non-empty line. */
  function Row(line: string): seq<string> {
    SplitFields(TrimSpace(line))
  }

  /** `\s` leaves a vertical tab inside a field, and Sscanf skips it as
      white space: the line "1 \v2" has the fields "1" and "\v2", and the
      second reads as 2. */
  lemma VerticalTabField()
    ensures Row("1 \U{000B}2") == ["1", "\U{000B}2"]
    ensures ScanIntOrZero("\U{000B}2") == 2
  {
    TabRow("1 \U{000B}2");
    TabScan("\U{000B}2");
  }

  lemma TabRow(line: string)
    requires line == "1 \U{000B}2"
    ensures Row(line) == ["1", "\U{000B}2"]
  {
    assert LeadingSpaces(line) == 0;
    assert TrailingSpaces(line) == 0;
    assert TrimSpace(line) == line by { assert line[0..|line|] == line; }
    var tail := line[2..];
    assert WordLength(tail[2..]) == 0 && Words(tail[2..]) == [];
    assert WordLength(tail) == 2 && tail[..2] == tail;
    assert Words(tail) == [tail];
    assert Words(line[1..]) == Words(tail) by { assert line[1..][1..] == tail; }
    assert WordLength(line) == 1;
    assert Words(line) == [line[..1]] + Words(line[1..]);
    assert line[..1] == "1" && tail == "\U{000B}2";
  }

  lemma TabScan(field: string)
    requires field == "\U{000B}2"
    ensures ScanIntOrZero(field) == 2
  {
    var digit := field[1..];
    assert field == field[..1] + digit;
    ScanSkipsSpace(field[..1], digit);
    assert DigitsValue(digit) == 2 by { assert digit[..0] == []; }
  }

  /** splitLinesByBlanks: a row for every line that is not empty. */
  function Rows(lines: seq<string>): seq<seq<string>> {
    if lines == [] then []
    else
      var init := Rows(lines[..|lines| - 1]);
      if lines[|lines| - 1] == "" then init else init + [Row(lines[|lines| - 1])]
  }

  function Concat(ws: seq<string>): string {
    if ws == [] then [] else ws[0] + Concat(ws[1..])
  }

  /** The characters of s that are not `\s`. */
  function NonSpace(s: string): string {
    if s == [] then [] else (if IsReSpace(s[0]) then [] else [s[0]]) + NonSpace(s[1..])
  }

  predicate IsField(w: string) {
    w != [] && forall i :: 0 <= i < |w| ==> !IsReSpace(w[i])
  }

  lemma {:induction false} NonSpaceConcat(a: string, b: string)
    ensures NonSpace(a + b) == NonSpace(a) + NonSpace(b)
    decreases |a|
  {
    if a != [] {
      var h := if IsReSpace(a[0]) then [] else [a[0]];
      assert (a + b)[0] == a[0] && (a + b)[1..] == a[1..] + b;
      NonSpaceConcat(a[1..], b);
      calc {
        NonSpace(a + b);
        h + NonSpace(a[1..] + b);
        h + (NonSpace(a[1..]) + NonSpace(b));
        (h + NonSpace(a[1..])) + NonSpace(b);
      }
    } else {
      assert a + b == b;
    }
  }

  lemma {:induction false} NonSpaceOfWord(w: string)
    requires forall i :: 0 <= i < |w| ==> !IsReSpace(w[i])
    ensures NonSpace(w) == w
    decreases |w|
  {
    if w != [] {
      NonSpaceOfWord(w[1..]);
    }
  }

  /** Splitting on white space loses nothing but the white space, and every
      piece is a non-empty run of non-space characters. */
  lemma {:induction false} WordsAreFields(s: string)
    ensures forall i :: 0 <= i < |Words(s)| ==> IsField(Words(s)[i])
    ensures Concat(Words(s)) == NonSpace(s)
    decreases |s|
  {
    if s != [] {
      if IsReSpace(s[0]) {
        WordsAreFields(s[1..]);
      } else {
        var k := WordLength(s);
        WordsAreFields(s[k..]);
        assert s == s[..k] + s[k..];
        NonSpaceConcat(s[..k], s[k..]);
        NonSpaceOfWord(s[..k]);
        var ws := Words(s);
        assert ws[1..] == Words(s[k..]);
      }
    }
  }

  /** Every row splitLinesByBlanks makes is either the single empty field of
      a line holding only white space, or non-empty fields holding the
      line's non-space characters in order. */
  lemma RowFields(line: string)
    ensures var r := Row(line);
      (r == [""] && TrimSpace(line) == []) ||
      (TrimSpace(line) != [] && (forall i :: 0 <= i < |r| ==> IsField(r[i])) && Concat(r) == NonSpace(TrimSpace(line)))
  {
    WordsAreFields(TrimSpace(line));
  }

  /** splitLinesByBlanks drops exactly the empty lines and keeps the order. */
  lemma {:induction false} RowsKeepNonEmptyLines(lines: seq<string>)
    ensures |Rows(lines)| == |set i | 0 <= i < |lines| && lines[i] != ""|
    decreases |lines|
  {
    if lines != [] {
      var n := |lines| - 1;
      RowsKeepNonEmptyLines(lines[..n]);
      var before := set i | 0 <= i < n && lines[..n][i] != "";
      var after := set i | 0 <= i < |lines| && lines[i] != "";
      if lines[n] == "" {
        assert after == before;
      } else {
        assert after == before + {n};
      }
    }
  }

  /** splitLinesByBlanks. */
  method SplitLinesByBlanks(lines: seq<string>) returns (data: seq<seq<string>>)
    ensures data == Rows(lines)
  {
    data := [];
    for i := 0 to |lines|
      invariant data == Rows(lines[..i])
    {
      assert lines[..i + 1][..i] == lines[..i];
      var line := lines[i];
      if line == "" {
        continue;
      }
      line := TrimSpace(line);
      var row := SplitFields(line);
      data := data + [row];
    }
    assert lines[..|lines|] == lines;
  }

  // ------------------------------------------------------------- rotation

  /** The length of the longest line. */
  function MaxLen(lines: seq<string>): (m: nat)
    ensures forall j :: 0 <= j < |lines| ==> |lines[j]| <= m
    ensures lines == [] ==> m == 0
    ensures lines != [] ==> exists j :: 0 <= j < |lines| && |lines[j]| == m
  {
    if lines == [] then 0
    else
      var m := MaxLen(lines[..|lines| - 1]);
      if |lines[|lines| - 1]| > m then |lines[|lines| - 1]| else m
  }

  function Spaces(n: nat): string {
    seq(n, _ => ' ')
  }

  /** Every line filled out with trailing spaces to width w. */
  function Pad(lines: seq<string>, w: nat): seq<string>
    requires forall j :: 0 <= j < |lines| ==> |lines[j]| <= w
  {
    seq(|lines|, j requires 0 <= j < |lines| => lines[j] + Spaces(w - |lines[j]|))
  }

  predicate Rectangular(g: seq<string>, w: nat) {
    forall j :: 0 <= j < |g| ==> |g[j]| == w
  }

  /** Character c of every line, top to bottom. */
  function CharColumn(g: seq<string>, c: nat): string
    requires forall j :: 0 <= j < |g| ==> c < |g[j]|
  {
    seq(|g|, j requires 0 <= j < |g| => g[j][c])
  }

  /** The grid turned a quarter to the left: its last column first. */
  function Rotate(g: seq<string>, w: nat): seq<string>
    requires Rectangular(g, w)
  {
    seq(w, k requires 0 <= k < w => CharColumn(g, w - 1 - k))
  }

  function Reverse(s: string): string {
    seq(|s|, i requires 0 <= i < |s| => s[|s| - 1 - i])
  }

  /** Padding keeps every line as a prefix and makes the grid rectangular. */
  lemma PadShape(lines: seq<string>, w: nat)
    requires forall j :: 0 <= j < |lines| ==> |lines[j]| <= w
    ensures Rectangular(Pad(lines, w), w)
    ensures forall j :: 0 <= j < |lines| ==> Pad(lines, w)[j][..|lines[j]|] == lines[j]
    ensures forall j, c :: 0 <= j < |lines| && |lines[j]| <= c < w ==> Pad(lines, w)[j][c] == ' '
  {
  }

  /** The rotated grid has a line per column, each as long as the grid is
      high, and character j of line k is character w-1-k of line j. */
  lemma RotateShape(g: seq<string>, w: nat)
    requires Rectangular(g, w)
    ensures |Rotate(g, w)| == w && Rectangular(Rotate(g, w), |g|)
    ensures forall k, j :: 0 <= k < w && 0 <= j < |g| ==> Rotate(g, w)[k][j] == g[j][w - 1 - k]
  {
    forall k | 0 <= k < w ensures Rotate(g, w)[k] == CharColumn(g, w - 1 - k) {
    }
  }

  /** The grid turned upside down with every line mirrored. */
  function Flip(g: seq<string>): seq<string> {
    seq(|g|, j requires 0 <= j < |g| => Reverse(g[|g| - 1 - j]))
  }

  /** Rotating twice turns the grid upside down and mirrors every line. */
  lemma RotateTwice(g: seq<string>, w: nat)
    requires Rectangular(g, w)
    ensures Rectangular(Rotate(g, w), |g|)
    ensures Rotate(Rotate(g, w), |g|) == Flip(g)
  {
    RotateShape(g, w);
    var r := Rotate(g, w);
    RotateShape(r, |g|);
    var rr := Rotate(r, |g|);
    var expected := Flip(g);
    forall a | 0 <= a < |g| ensures rr[a] == expected[a] {
      assert expected[a] == Reverse(g[|g| - 1 - a]);
      assert |rr[a]| == w == |expected[a]|;
      forall b | 0 <= b < w ensures rr[a][b] == expected[a][b] {
        assert rr[a][b] == r[b][|g| - 1 - a];
      }
    }
    assert rr == expected;
  }

  lemma FlipTwice(g: seq<string>)
    ensures Flip(Flip(g)) == g
  {
    var ff := Flip(Flip(g));
    forall a | 0 <= a < |g| ensures ff[a] == g[a] {
      assert ff[a] == Reverse(Reverse(g[a]));
    }
  }

  /** Four rotations give the grid back. */
  lemma RotateFour(g: seq<string>, w: nat)
    requires Rectangular(g, w)
    ensures Rectangular(Rotate(g, w), |g|)
    ensures Rectangular(Rotate(Rotate(g, w), |g|), w)
    ensures Rectangular(Rotate(Rotate(Rotate(g, w), |g|), w), |g|)
    ensures Rotate(Rotate(Rotate(Rotate(g, w), |g|), w), |g|) == g
  {
    RotateTwice(g, w);
    var f := Flip(g);
    forall j | 0 <= j < |f| ensures |f[j]| == w {
      assert f[j] == Reverse(g[|g| - 1 - j]);
    }
    RotateTwice(f, w);
    FlipTwice(g);
  }

  /** The first loop of rotateLines: the length of the longest line. */
  method LongestLine(lines: array<string>) returns (maxlen: nat)
    ensures maxlen == MaxLen(lines[..])
  {
    maxlen := 0;
    for i := 0 to lines.Length
      invariant maxlen == MaxLen(lines[..i])
    {
      assert lines[..i + 1][..i] == lines[..i];
      if |lines[i]| > maxlen {
        maxlen := |lines[i]|;
      }
    }
    assert lines[..lines.Length] == lines[..];
  }

  /** The second loop of rotateLines: fill every shorter line out with spaces. */
  method PadLines(lines: array<string>, maxlen: nat)
    requires forall j :: 0 <= j < lines.Length ==> |lines[j]| <= maxlen
    modifies lines
    ensures lines[..] == Pad(old(lines[..]), maxlen)
  {
    for i := 0 to lines.Length
      invariant forall j :: 0 <= j < i ==> lines[j] == old(lines[j]) + Spaces(maxlen - |old(lines[j])|)
      invariant forall j :: i <= j < lines.Length ==> lines[j] == old(lines[j])
    {
      var line := lines[i];
      if |line| < maxlen {
        lines[i] := line + Spaces(maxlen - |line|);
      } else {
        assert line + Spaces(maxlen - |line|) == line;
      }
    }
  }

  /** The inner loop of rotateLines: character i of every line. */
  method ReadColumn(lines: array<string>, i: nat) returns (s: string)
    requires forall j :: 0 <= j < lines.Length ==> i < |lines[j]|
    ensures s == CharColumn(lines[..], i)
  {
    s := "";
    for j := 0 to lines.Length
      invariant |s| == j && forall t :: 0 <= t < j ==> s[t] == lines[t][i]
    {
      s := s + [lines[j][i]];
    }
  }

  /** The last loop of rotateLines: the columns from the last to the first. */
  method ReadColumns(lines: array<string>, maxlen: nat) returns (rotated: seq<string>)
    requires Rectangular(lines[..], maxlen)
    ensures rotated == Rotate(lines[..], maxlen)
  {
    rotated := [];
    var i := maxlen - 1;
    while i >= 0
      invariant -1 <= i < maxlen
      invariant |rotated| == maxlen - 1 - i
      invariant forall k :: 0 <= k < |rotated| ==> rotated[k] == CharColumn(lines[..], maxlen - 1 - k)
    {
      var s := ReadColumn(lines, i);
      rotated := rotated + [s];
      i := i - 1;
    }
  }

  /** rotateLines: pads the caller's lines in place and returns the columns
      of the padded grid, last column first. */
  method RotateLines(lines: array<string>) returns (rotated: seq<string>)
    modifies lines
    ensures lines[..] == Pad(old(lines[..]), MaxLen(old(lines[..])))
    ensures Rectangular(lines[..], MaxLen(old(lines[..])))
    ensures rotated == Rotate(lines[..], MaxLen(old(lines[..])))
  {
    var maxlen := LongestLine(lines);
    PadLines(lines, maxlen);
    rotated := ReadColumns(lines, maxlen);
  }

  // ------------------------------------------------------------------ part 2

  /** What the pattern `\s*(\d+)\s*([+*]?)` captures in a line: the first
      run of digits, and the '+' or '*' that follows it after white space,
      if there is one.  The leftmost match starts at the white space just
      before the first digit, so it captures the first run of digits. */
  datatype Entry = Entry(digits: string, op: Option<char>)

  function SpaceRunLength(s: string): (k: nat)
    ensures k <= |s| && (forall i :: 0 <= i < k ==> IsReSpace(s[i]))
    ensures k < |s| ==> !IsReSpace(s[k])
  {
    if s == [] || !IsReSpace(s[0]) then 0 else 1 + SpaceRunLength(s[1..])
  }

  function MatchEntry(s: string): (e: Option<Entry>)
    ensures e.None? <==> forall i :: 0 <= i < |s| ==> !IsDigit(s[i])
    ensures e.Some? ==> |e.value.digits| > 0 && AllDigits(e.value.digits)
    ensures e.Some? && e.value.op.Some? ==> e.value.op.value == '+' || e.value.op.value == '*'
  {
    if s == [] then None
    else if IsDigit(s[0]) then
      var k := DigitRunLength(s);
      var rest := s[k..];
      var m := SpaceRunLength(rest);
      var op := if m < |rest| && (rest[m] == '+' || rest[m] == '*') then Some(rest[m]) else None;
      Some(Entry(s[..k], op))
    else
      var e := MatchEntry(s[1..]);
      assert forall i | 0 <= i < |s| - 1 :: s[1..][i] == s[i + 1];
      e
  }

  /** A column written as white space, a number, white space and optionally
      an operator is read back as that number and that operator. */
  lemma MatchEntryReadsColumn(a: nat, n: nat, b: nat, op: Option<char>)
    requires op.Some? ==> op.value == '+' || op.value == '*'
    ensures var opText := if op.Some? then [op.value] else [];
      MatchEntry(Spaces(a) + (NatToString(n) + (Spaces(b) + opText))) == Some(Entry(NatToString(n), op))
  {
    var opText := if op.Some? then [op.value] else [];
    var digits := NatToString(n);
    NatToStringIsCanonical(n);
    var tail := Spaces(b) + opText;
    ReadsDigitsFirst(digits, b, op);
    SkipSpaces(a, digits + tail);
  }

  lemma ReadsDigitsFirst(digits: string, b: nat, op: Option<char>)
    requires |digits| > 0 && AllDigits(digits)
    requires op.Some? ==> op.value == '+' || op.value == '*'
    ensures var opText := if op.Some? then [op.value] else [];
      MatchEntry(digits + (Spaces(b) + opText)) == Some(Entry(digits, op))
  {
    var opText := if op.Some? then [op.value] else [];
    var tail := Spaces(b) + opText;
    var s := digits + tail;
    assert s[0] == digits[0];
    DigitRunOf(digits, tail);
    assert s[..|digits|] == digits;
    assert s[|digits|..] == tail;
    SpaceRunOf(b, opText);
    assert tail[b..] == opText;
  }

  lemma {:induction false} SkipSpaces(a: nat, s: string)
    requires |s| > 0 && IsDigit(s[0])
    ensures MatchEntry(Spaces(a) + s) == MatchEntry(s)
    decreases a
  {
    if a > 0 {
      assert (Spaces(a) + s)[0] == ' ' && (Spaces(a) + s)[1..] == Spaces(a - 1) + s;
      SkipSpaces(a - 1, s);
    } else {
      assert Spaces(a) + s == s;
    }
  }

  lemma {:induction false} DigitRunOf(digits: string, tail: string)
    requires AllDigits(digits)
    requires tail == [] || !IsDigit(tail[0])
    ensures DigitRunLength(digits + tail) == |digits|
    decreases |digits|
  {
    if digits != [] {
      assert (digits + tail)[1..] == digits[1..] + tail;
      DigitRunOf(digits[1..], tail);
    } else {
      assert digits + tail == tail;
    }
  }

  lemma {:induction false} SpaceRunOf(b: nat, opText: string)
    requires opText == [] || !IsReSpace(opText[0])
    ensures SpaceRunLength(Spaces(b) + opText) == b
    decreases b
  {
    if b > 0 {
      assert (Spaces(b) + opText)[1..] == Spaces(b - 1) + opText;
      SpaceRunOf(b - 1, opText);
    } else {
      assert Spaces(b) + opText == opText;
    }
  }

  /** The inner loop of part2: '+' adds the values up; '*' multiplies them,
      turning a running result of 0 into 1 before each multiplication. */
  function Combine(values: seq<int>, op: char): int
    requires op == '+' || op == '*'
  {
    if values == [] then 0
    else
      var r := Combine(values[..|values| - 1], op);
      var v := values[|values| - 1];
      if op == '+' then r + v else (if r == 0 then 1 else r) * v
  }

  lemma {:induction false} CombinePlusIsSum(values: seq<int>)
    ensures Combine(values, '+') == Sum(values)
    decreases |values|
  {
    if values != [] {
      CombinePlusIsSum(values[..|values| - 1]);
    }
  }

  /** With no 0 before the last value, '*' gives the product of the values. */
  lemma {:induction false} CombineStarIsProduct(values: seq<int>)
    requires |values| >= 1 && forall i :: 0 <= i < |values| - 1 ==> values[i] != 0
    ensures Combine(values, '*') == Product(values)
    decreases |values|
  {
    if |values| > 1 {
      var init := values[..|values| - 1];
      CombineStarIsProduct(init);
      ProductNonZero(init);
    }
  }

  lemma {:induction false} ProductNonZero(values: seq<int>)
    requires forall i :: 0 <= i < |values| ==> values[i] != 0
    ensures Product(values) != 0
    decreases |values|
  {
    if values != [] {
      ProductNonZero(values[..|values| - 1]);
    }
  }

  /** A 0 makes the '*' result 0, after which it starts again from scratch:
      the result only depends on the values after the last 0 before the end. */
  lemma {:induction false} CombineStarRestarts(before: seq<int>, after: seq<int>)
    requires Combine(before, '*') == 0
    ensures Combine(before + after, '*') == Combine(after, '*')
    decreases |after|
  {
    if after == [] {
      assert before + after == before;
    } else {
      var init := after[..|after| - 1];
      assert (before + after)[..|before + after| - 1] == before + init;
      CombineStarRestarts(before, init);
    }
  }

  lemma CombineStarZero(values: seq<int>)
    requires |values| >= 1 && values[|values| - 1] == 0
    ensures Combine(values, '*') == 0
  {
  }

  /** The numbers collected so far and the total of the finished problems. */
  datatype Tally = Tally(values: seq<int>, total: int)

  /** One round of part2's loop: a line without a number is skipped; a number
      is collected, and a number with an operator closes the problem. */
  function Part2Step(t: Tally, line: string): Tally {
    match MatchEntry(line)
    case None => t
    case Some(e) =>
      var values := t.values + [ScanIntOrZero(e.digits)];
      if e.op.None? then Tally(values, t.total)
      else Tally([], t.total + Combine(values, e.op.value))
  }

  /** part2's loop over the rotated lines. */
  function Part2Fold(linedata: seq<string>): Tally {
    if linedata == [] then Tally([], 0)
    else Part2Step(Part2Fold(linedata[..|linedata| - 1]), linedata[|linedata| - 1])
  }

  /** The lines that carry a number. */
  function Numbered(lines: seq<string>): seq<string> {
    if lines == [] then []
    else
      var init := Numbered(lines[..|lines| - 1]);
      if MatchEntry(lines[|lines| - 1]).None? then init else init + [lines[|lines| - 1]]
  }

  /** Lines without a number are skipped: part2 gives the same result when
      they are left out. */
  lemma {:induction false} LinesWithoutNumbersSkipped(lines: seq<string>)
    ensures Part2Fold(lines) == Part2Fold(Numbered(lines))
    decreases |lines|
  {
    if lines != [] {
      var init := lines[..|lines| - 1];
      var last := lines[|lines| - 1];
      LinesWithoutNumbersSkipped(init);
      if MatchEntry(last).Some? {
        var n := Numbered(init) + [last];
        assert n[..|n| - 1] == Numbered(init) && n[|n| - 1] == last;
      }
    }
  }

  /** The value read for a number is the number the digits spell. */
  lemma EntryValue(s: string)
    requires MatchEntry(s).Some?
    ensures ScanIntOrZero(MatchEntry(s).value.digits) == DigitsValue(MatchEntry(s).value.digits)
  {
  }

  /** The combination step of part2 for one problem. */
  method CombineValues(values: seq<int>, op: char) returns (result: int)
    requires op == '+' || op == '*'
    ensures result == Combine(values, op)
  {
    result := 0;
    for k := 0 to |values|
      invariant result == Combine(values[..k], op)
    {
      assert values[..k + 1][..k] == values[..k];
      var v := values[k];
      if op == '+' {
        result := result + v;
      } else {
        if result == 0 {
          result := 1;
        }
        result := result * v;
      }
    }
    assert values[..|values|] == values;
  }

  /** part2: rotate the grid, then read one number per rotated line, closing
      a problem at every line that carries an operator. */
  method Part2(lines: array<string>) returns (grandtotal: int)
    modifies lines
    ensures lines[..] == Pad(old(lines[..]), MaxLen(old(lines[..])))
    ensures Rectangular(lines[..], MaxLen(old(lines[..])))
    ensures grandtotal == Part2Fold(Rotate(lines[..], MaxLen(old(lines[..])))).total
  {
    var linedata := RotateLines(lines);
    ghost var padded := lines[..];
    grandtotal := 0;
    var values: seq<int> := [];
    for lin := 0 to |linedata|
      invariant lines[..] == padded
      invariant Part2Fold(linedata[..lin]) == Tally(values, grandtotal)
    {
      assert linedata[..lin + 1][..lin] == linedata[..lin];
      var matches := MatchEntry(linedata[lin]);
      if matches.None? {
        continue;
      }
      var num := ScanIntOrZero(matches.value.digits);
      values := values + [num];
      if matches.value.op.Some? {
        var result := CombineValues(values, matches.value.op.value);
        grandtotal := grandtotal + result;
        values := [];
      }
    }
    assert linedata[..|linedata|] == linedata;
  }
}
