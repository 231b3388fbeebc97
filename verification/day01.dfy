/** Day 1: a dial numbered 0..99 starts at 50 and is turned left (L) or right (R)
    by the amount written after the direction letter, one instruction per line.
    Part 1 counts the instructions after which the dial rests on 0; part 2 counts
    every click at which the dial passes over or lands on 0.  Go's `/` and `%`
    truncate toward zero, so they are written out here (GoDiv, GoMod). */
module Day01 {
  import opened Decimal
  import opened GoArith

  /** The amount written after the direction letter (0 when it does not parse). */
  function Amount(line: string): int
    requires line != ""
  {
    AtoiOrZero(line[1..])
  }

  /** Every non-blank line is an L or R instruction with a non-negative amount:
      the shape of the puzzle input. */
  predicate WellFormed(lines: seq<string>) {
    forall k :: 0 <= k < |lines| && lines[k] != "" ==>
      (lines[k][0] == 'L' || lines[k][0] == 'R') && Amount(lines[k]) >= 0
  }

  /** Where part 1 leaves the dial after one line.  An L turn is reduced with
      Go's `%` and then lifted by 100 while negative, i.e. the mathematical
      remainder; an R turn is reduced with Go's `%` only. */
  function Turn(dial: int, line: string): int {
    if line == "" then dial
    else if line[0] == 'L' then (dial - Amount(line)) % 100
    else if line[0] == 'R' then GoMod(dial + Amount(line), 100)
    else dial
  }

  /** The dial after all the lines, starting from 50. */
  function DialAfter(lines: seq<string>): int
    decreases |lines|
  {
    if lines == [] then 50 else Turn(DialAfter(lines[..|lines| - 1]), lines[|lines| - 1])
  }

  /** The number of non-blank lines after which the dial shows 0. */
  function ZeroStops(lines: seq<string>): nat
    decreases |lines|
  {
    if lines == [] then 0
    else
      ZeroStops(lines[..|lines| - 1])
      + (if lines[|lines| - 1] != "" && DialAfter(lines) == 0 then 1 else 0)
  }

  /** Go's `%` followed by the `for dial < 0 { dial += 100 }` loop gives the
      mathematical remainder. */
  lemma LiftedGoModIsMod(x: int)
    ensures var r := GoMod(x, 100); (if r < 0 then r + 100 else r) == x % 100
  {
    var r := GoMod(x, 100);
    var q := GoDiv(x, 100);
    assert x == 100 * q + r;
    if r < 0 {
      assert x == 100 * (q - 1) + (r + 100);
    }
  }

  /** The signed amount of an L (negative) or R (positive) instruction. */
  function Signed(line: string): int
    requires line != ""
  {
    if line[0] == 'L' then -Amount(line) else Amount(line)
  }

  /** On well-formed input the dial stays on the face 0..99 and every
      instruction moves it by its signed amount modulo 100. */
  lemma {:induction false} DialStaysOnFace(lines: seq<string>)
    requires WellFormed(lines)
    ensures 0 <= DialAfter(lines) < 100
    ensures lines != [] && lines[|lines| - 1] != "" ==>
      DialAfter(lines) == (DialAfter(lines[..|lines| - 1]) + Signed(lines[|lines| - 1])) % 100
    decreases |lines|
  {
    if lines != [] {
      var init := lines[..|lines| - 1];
      assert WellFormed(init) by {
        forall k | 0 <= k < |init| && init[k] != "" ensures (init[k][0] == 'L' || init[k][0] == 'R') && Amount(init[k]) >= 0 {
          assert init[k] == lines[k];
        }
      }
      DialStaysOnFace(init);
    }
  }

  method Part1(lines: seq<string>) returns (count: nat)
    ensures count == ZeroStops(lines)
  {
    var dial := 50;
    count := 0;
    var i := 0;
    while i < |lines|
      invariant 0 <= i <= |lines|
      invariant dial == DialAfter(lines[..i])
      invariant count == ZeroStops(lines[..i])
    {
      var l := lines[i];
      assert lines[..i + 1][..i] == lines[..i];
      if l == "" {
        i := i + 1;
        continue;
      }
      var s := l[0];
      var v := AtoiOrZero(l[1..]);
      if s == 'L' {
        var before := dial;
        dial := GoMod(before - v, 100);
        ghost var reduced := dial;
        while dial < 0
          invariant reduced >= 0 ==> dial == reduced
          invariant reduced < 0 ==> dial == reduced || dial == reduced + 100
          decreases -dial
        {
          dial := dial + 100;
        }
        LiftedGoModIsMod(before - v);
      } else if s == 'R' {
        dial := GoMod(dial + v, 100);
      }
      if dial == 0 {
        count := count + 1;
      }
      i := i + 1;
    }
    assert lines[..i] == lines;
  }

  /** How many of the integers lo..hi are multiples of 100: the number of times a
      dial turned click by click over those positions shows 0. */
  function ZeroHits(lo: int, hi: int): nat
    decreases hi - lo
  {
    if hi < lo then 0 else ZeroHits(lo, hi - 1) + (if hi % 100 == 0 then 1 else 0)
  }

  lemma {:induction false} ZeroHitsClosedForm(lo: int, hi: int)
    requires lo <= hi + 1
    ensures ZeroHits(lo, hi) == hi / 100 - (lo - 1) / 100
    decreases hi - lo
  {
    if hi >= lo {
      ZeroHitsClosedForm(lo, hi - 1);
      assert hi / 100 - (hi - 1) / 100 == (if hi % 100 == 0 then 1 else 0);
    }
  }

  /** The clicks at which the dial shows 0 while one instruction is carried out
      from `dial`: L visits dial-1 down to dial-v, R visits dial+1 up to dial+v. */
  function PassesIn(dial: int, line: string): nat {
    if line == "" then 0
    else if line[0] == 'L' then ZeroHits(dial - Amount(line), dial - 1)
    else if line[0] == 'R' then ZeroHits(dial + 1, dial + Amount(line))
    else 0
  }

  /** All zero clicks over the instructions, each starting where the previous one
      left the dial. */
  function ZeroPasses(lines: seq<string>): nat
    decreases |lines|
  {
    if lines == [] then 0
    else
      var init := lines[..|lines| - 1];
      ZeroPasses(init) + PassesIn(DialAfter(init), lines[|lines| - 1])
  }

  /** The variables part 2 carries from line to line. */
  datatype ClickState = ClickState(dial: int, clicks: int, zeroClicks: int)

  /** Part 2's update for one line, with Go's truncating `/` and `%`.  A line
      whose direction is neither L nor R adds the previous line's `clicks` again,
      because `clicks` lives outside the loop. */
  function ClickStep(st: ClickState, line: string): ClickState {
    if line == "" then st
    else
      var value := Amount(line);
      if line[0] == 'L' then
        var newdial := st.dial - value;
        if newdial > 0 then ClickState(newdial, 0, st.zeroClicks)
        else
          var clicks := -GoDiv(newdial - 100, 100) - (if st.dial == 0 then 1 else 0);
          var d := GoMod(newdial, 100);
          ClickState(if d < 0 then d + 100 else d, clicks, st.zeroClicks + clicks)
      else if line[0] == 'R' then
        var newdial := st.dial + value;
        var clicks := GoDiv(newdial, 100);
        ClickState(GoMod(newdial, 100), clicks, st.zeroClicks + clicks)
      else ClickState(st.dial, st.clicks, st.zeroClicks + st.clicks)
  }

  function ClickFold(lines: seq<string>): ClickState
    decreases |lines|
  {
    if lines == [] then ClickState(50, 0, 0)
    else ClickStep(ClickFold(lines[..|lines| - 1]), lines[|lines| - 1])
  }

  /** The click formulas of part 2 count exactly the zero positions visited. */
  lemma StepClicksCountZeroHits(dial: int, value: int)
    requires 0 <= dial < 100 && value >= 0
    ensures GoDiv(dial + value, 100) == ZeroHits(dial + 1, dial + value)
    ensures dial - value > 0 ==> ZeroHits(dial - value, dial - 1) == 0
    ensures dial - value <= 0 ==>
      -GoDiv(dial - value - 100, 100) - (if dial == 0 then 1 else 0) == ZeroHits(dial - value, dial - 1)
  {
    ZeroHitsClosedForm(dial + 1, dial + value);
    ZeroHitsClosedForm(dial - value, dial - 1);
    var n := dial - value;
    if n <= 0 {
      var m := -n;
      assert GoDiv(n - 100, 100) == -((m + 100) / 100);
      assert (m + 100) / 100 == m / 100 + 1;
      assert (n - 1) / 100 == -(m / 100) - 1;
    }
  }

  /** One well-formed instruction: part 2's update moves the dial as part 1's
      does and adds the zero clicks it passes. */
  lemma ClickStepCountsZeroHits(st: ClickState, line: string)
    requires 0 <= st.dial < 100
    requires line != "" ==> (line[0] == 'L' || line[0] == 'R') && Amount(line) >= 0
    ensures ClickStep(st, line).dial == Turn(st.dial, line)
    ensures ClickStep(st, line).zeroClicks == st.zeroClicks + PassesIn(st.dial, line)
  {
    if line != "" {
      StepClicksCountZeroHits(st.dial, Amount(line));
      if line[0] == 'L' {
        LiftedGoModIsMod(st.dial - Amount(line));
      }
    }
  }

  /** On well-formed input part 2 moves the dial exactly as part 1 does and its
      total is the number of zero clicks. */
  lemma {:induction false} ClickFoldCountsZeroPasses(lines: seq<string>)
    requires WellFormed(lines)
    ensures ClickFold(lines).dial == DialAfter(lines)
    ensures ClickFold(lines).zeroClicks == ZeroPasses(lines)
    decreases |lines|
  {
    if lines != [] {
      var init := lines[..|lines| - 1];
      assert WellFormed(init) by {
        forall k | 0 <= k < |init| && init[k] != "" ensures (init[k][0] == 'L' || init[k][0] == 'R') && Amount(init[k]) >= 0 {
          assert init[k] == lines[k];
        }
      }
      ClickFoldCountsZeroPasses(init);
      DialStaysOnFace(init);
      ClickStepCountsZeroHits(ClickFold(init), lines[|lines| - 1]);
    }
  }

  method Part2(lines: seq<string>) returns (zeroClicks: int)
    ensures zeroClicks == ClickFold(lines).zeroClicks
    ensures WellFormed(lines) ==> zeroClicks == ZeroPasses(lines)
  {
    var dial := 50;
    zeroClicks := 0;
    var clicks := 0;
    var i := 0;
    while i < |lines|
      invariant 0 <= i <= |lines|
      invariant ClickFold(lines[..i]) == ClickState(dial, clicks, zeroClicks)
    {
      var l := lines[i];
      assert lines[..i + 1][..i] == lines[..i];
      ghost var next := ClickStep(ClickState(dial, clicks, zeroClicks), l);
      if l == "" {
        i := i + 1;
        continue;
      }
      var direction := l[0];
      var value := AtoiOrZero(l[1..]);
      if direction == 'L' {
        var newdial := dial - value;
        if newdial > 0 {
          clicks := 0;
          dial := newdial;
        } else {
          clicks := -GoDiv(newdial - 100, 100);
          if dial == 0 {
            clicks := clicks - 1;
          }
          dial := GoMod(newdial, 100);
          if dial < 0 {
            dial := dial + 100;
          }
        }
      } else if direction == 'R' {
        var newdial := dial + value;
        clicks := GoDiv(newdial, 100);
        dial := GoMod(newdial, 100);
      }
      zeroClicks := zeroClicks + clicks;
      assert ClickState(dial, clicks, zeroClicks) == next;
      i := i + 1;
    }
    assert lines[..i] == lines;
    if WellFormed(lines) {
      ClickFoldCountsZeroPasses(lines);
    }
  }
}
