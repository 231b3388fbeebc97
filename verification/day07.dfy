/** Day 7: a beam enters at the 'S' of the top row and runs down the grid; a
    '^' splits it into the two neighbouring columns.  Part 1 counts the
    splits of the distinct beams row by row, part 2 the paths one beam can
    take to the bottom row. */
module Day07 {

  /** bytes.Index with a one-byte pattern: the first index of c, or -1. */
  function IndexOf(s: string, c: char): (i: int)
    ensures -1 <= i < |s|
    ensures i >= 0 ==> s[i] == c && forall j :: 0 <= j < i ==> s[j] != c
    ensures i == -1 <==> c !in s
  {
    if s == [] then -1
    else if s[0] == c then 0
    else
      var k := IndexOf(s[1..], c);
      assert c in s[1..] <==> c in s;
      if k == -1 then -1 else k + 1
  }

  /** The grid the solvers index: a top row holding an 'S', and every row
      the beams run through (all but the last) as wide as the top row. */
  predicate WellShaped(lines: seq<string>) {
    |lines| >= 1 && 'S' in lines[0] && forall i :: 0 <= i < |lines| - 1 ==> |lines[i]| == |lines[0]|
  }

  function Start(lines: seq<string>): (c: nat)
    requires WellShaped(lines)
    ensures c < |lines[0]| && lines[0][c] == 'S'
  {
    IndexOf(lines[0], 'S')
  }

  // ------------------------------------------------------------------ part 1

  /** Column c of a row receives a beam: one coming straight down onto a
      cell that is not a splitter, or one split by a '^' next to it. */
  predicate Reached(row: string, beams: set<int>, c: int)
    requires 0 <= c < |row|
  {
    (c in beams && row[c] != '^') ||
    (c + 1 < |row| && c + 1 in beams && row[c + 1] == '^') ||
    (c >= 1 && c - 1 in beams && row[c - 1] == '^')
  }

  /** The columns a row's beams occupy, given the beams arriving from above. */
  function Step(row: string, beams: set<int>): set<int> {
    set c | 0 <= c < |row| && Reached(row, beams, c)
  }

  lemma StepInRow(row: string, beams: set<int>)
    ensures forall c :: c in Step(row, beams) ==> 0 <= c < |row|
  {
  }

  /** The arriving beams that hit a splitter. */
  function Splitters(row: string, beams: set<int>): set<int> {
    set b | b in beams && 0 <= b < |row| && row[b] == '^'
  }

  /** What part1 does with one arriving beam b. */
  function StepOne(row: string, b: int): set<int>
    requires 0 <= b < |row|
  {
    if row[b] == '^' then
      (if b > 0 then {b - 1} else {}) + (if b < |row| - 1 then {b + 1} else {})
    else {b}
  }

  /** The beams of row i. */
  function Beams(lines: seq<string>, i: nat): (beams: set<int>)
    requires WellShaped(lines) && (i == 0 || i < |lines| - 1)
    ensures forall b :: b in beams ==> 0 <= b < |lines[0]|
  {
    if i == 0 then {Start(lines)}
    else
      var next := Step(lines[i], Beams(lines, i - 1));
      StepInRow(lines[i], Beams(lines, i - 1));
      next
  }

  /** The splits counted over rows 1..n. */
  function SplitCount(lines: seq<string>, n: nat): nat
    requires WellShaped(lines) && (n == 0 || n < |lines| - 1)
  {
    if n == 0 then 0 else SplitCount(lines, n - 1) + |Splitters(lines[n], Beams(lines, n - 1))|
  }

  /** Handling the beams one at a time gives the row's beams. */
  lemma StepAdd(row: string, done: set<int>, b: int)
    requires 0 <= b < |row|
    ensures Step(row, done + {b}) == Step(row, done) + StepOne(row, b)
  {
    var l := Step(row, done + {b});
    var r := Step(row, done) + StepOne(row, b);
    forall c ensures c in l <==> c in r {
      if 0 <= c < |row| {
        assert c in l <==> Reached(row, done + {b}, c);
        assert c in Step(row, done) <==> Reached(row, done, c);
      }
    }
  }

  lemma SplittersAdd(row: string, done: set<int>, b: int)
    requires 0 <= b < |row| && b !in done
    ensures |Splitters(row, done + {b})| == |Splitters(row, done)| + (if row[b] == '^' then 1 else 0)
  {
    if row[b] == '^' {
      assert Splitters(row, done + {b}) == Splitters(row, done) + {b};
    } else {
      assert Splitters(row, done + {b}) == Splitters(row, done);
    }
  }

  /** The body of part1's inner loop for one arriving beam b. */
  method AddBeam(row: string, next: set<int>, splits: nat, b: int) returns (next': set<int>, splits': nat)
    requires 0 <= b < |row|
    ensures next' == next + StepOne(row, b)
    ensures splits' == splits + (if row[b] == '^' then 1 else 0)
  {
    next', splits' := next, splits;
    if row[b] == '^' {
      if b > 0 {
        next' := next' + {b - 1};
      }
      if b < |row| - 1 {
        next' := next' + {b + 1};
      }
      splits' := splits' + 1;
    } else {
      next' := next' + {b};
    }
  }

  /** The inner loop of part1: the next row's beams and the splits in it. */
  method StepRow(row: string, prev: set<int>) returns (next: set<int>, splits: nat)
    requires forall b :: b in prev ==> 0 <= b < |row|
    ensures next == Step(row, prev)
    ensures splits == |Splitters(row, prev)|
  {
    next := {};
    splits := 0;
    var rest := prev;
    ghost var done: set<int> := {};
    while rest != {}
      invariant rest <= prev && done == prev - rest
      invariant next == Step(row, done)
      invariant splits == |Splitters(row, done)|
      decreases rest
    {
      var b :| b in rest;
      StepAdd(row, done, b);
      SplittersAdd(row, done, b);
      next, splits := AddBeam(row, next, splits, b);
      rest := rest - {b};
      done := done + {b};
    }
    assert done == prev;
  }

  /** part1: the number of splits over the rows between the first and the last. */
  method Part1(lines: seq<string>) returns (splitCount: nat)
    requires WellShaped(lines)
    ensures splitCount == SplitCount(lines, if |lines| >= 2 then |lines| - 2 else 0)
  {
    splitCount := 0;
    var startPos := IndexOf(lines[0], 'S');
    var beams: set<int> := {startPos};
    var i := 1;
    while i < |lines| - 1
      invariant i == 1 || 1 <= i <= |lines| - 1
      invariant beams == Beams(lines, i - 1)
      invariant splitCount == SplitCount(lines, i - 1)
    {
      var next, splits := StepRow(lines[i], beams);
      splitCount := splitCount + splits;
      beams := next;
      i := i + 1;
    }
  }

  /** A row without splitters passes the beams straight down and adds no split. */
  lemma NoSplitterPassesThrough(row: string, beams: set<int>)
    requires '^' !in row && forall b :: b in beams ==> 0 <= b < |row|
    ensures Step(row, beams) == beams && Splitters(row, beams) == {}
  {
    forall c | c in beams ensures c in Step(row, beams) {
      assert Reached(row, beams, c);
    }
  }

  // ------------------------------------------------------------------ part 2

  /** A position doBeam can be asked about: in the grid, unless it is on or
      below the last row, where no cell is read. */
  predicate OnPath(lines: seq<string>, row: int, col: int)
    requires WellShaped(lines)
  {
    row >= 0 && (row < |lines| - 1 ==> 0 <= col < |lines[0]|)
  }

  /** The number of paths from (row, col) to the last row. */
  function Paths(lines: seq<string>, row: int, col: int): nat
    requires WellShaped(lines) && OnPath(lines, row, col)
    decreases |lines| - row
  {
    if row >= |lines| - 1 then 1
    else if lines[row][col] == '^' then
      (if col > 0 then Paths(lines, row + 1, col - 1) else 0) +
      (if col < |lines[row]| - 1 then Paths(lines, row + 1, col + 1) else 0)
    else Paths(lines, row + 1, col)
  }

  function Pow2(n: int): nat {
    if n <= 0 then 1 else 2 * Pow2(n - 1)
  }

  /** Every row at most doubles the number of paths. */
  lemma {:induction false} PathsBound(lines: seq<string>, row: int, col: int)
    requires WellShaped(lines) && OnPath(lines, row, col)
    ensures Paths(lines, row, col) <= Pow2(|lines| - 1 - row)
    decreases |lines| - row
  {
    if row < |lines| - 1 {
      if lines[row][col] == '^' {
        if col > 0 {
          PathsBound(lines, row + 1, col - 1);
        }
        if col < |lines[row]| - 1 {
          PathsBound(lines, row + 1, col + 1);
        }
      } else {
        PathsBound(lines, row + 1, col);
      }
    }
  }

  /** Below a part of the grid without splitters there is one path only. */
  lemma {:induction false} StraightDown(lines: seq<string>, row: int, col: int)
    requires WellShaped(lines) && OnPath(lines, row, col)
    requires forall i :: row <= i < |lines| - 1 ==> '^' !in lines[i]
    ensures Paths(lines, row, col) == 1
    decreases |lines| - row
  {
    if row < |lines| - 1 {
      assert lines[row][col] in lines[row];
      StraightDown(lines, row + 1, col);
    }
  }

  /** The memo of doBeam, together with part2, which clears it first. */
  class BeamCounter {
    var memo: map<(int, int), int>

    /** Every remembered count is the number of paths from its position. */
    ghost predicate Valid(lines: seq<string>)
      reads this
    {
      forall k :: k in memo ==>
        WellShaped(lines) && OnPath(lines, k.0, k.1) && memo[k] == Paths(lines, k.0, k.1)
    }

    constructor()
      ensures memo == map[]
    {
      memo := map[];
    }

    /** doBeam: the number of paths, looked up in the memo or counted and
        remembered; the memo only ever gains correct entries. */
    method DoBeam(lines: seq<string>, row: int, col: int) returns (pathCount: int)
      requires WellShaped(lines) && OnPath(lines, row, col) && Valid(lines)
      modifies this
      ensures pathCount == Paths(lines, row, col)
      ensures Valid(lines)
      ensures forall k :: k in old(memo) ==> k in memo
      decreases |lines| - row
    {
      if (row, col) in memo {
        return memo[(row, col)];
      }
      if row >= |lines| - 1 {
        return 1;
      }
      pathCount := 0;
      if lines[row][col] == '^' {
        if col > 0 {
          var left := DoBeam(lines, row + 1, col - 1);
          pathCount := pathCount + left;
        }
        if col < |lines[row]| - 1 {
          var right := DoBeam(lines, row + 1, col + 1);
          pathCount := pathCount + right;
        }
      } else {
        var down := DoBeam(lines, row + 1, col);
        pathCount := pathCount + down;
      }
      memo := memo[(row, col) := pathCount];
    }

    /** part2: the paths from the row under the 'S'. */
    method Part2(lines: seq<string>) returns (splitCount: int)
      requires WellShaped(lines)
      modifies this
      ensures splitCount == Paths(lines, 1, Start(lines))
      ensures Valid(lines)
    {
      memo := map[];
      splitCount := 0;
      var startPos := IndexOf(lines[0], 'S');
      var paths := DoBeam(lines, 1, startPos);
      splitCount := splitCount + paths;
    }
  }
}
