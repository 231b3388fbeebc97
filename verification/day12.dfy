/** Day 12: presents of six shapes packed under trees.  The input holds six
    shape blocks of five lines each (an index line and three rows of '.' and
    '#', then a blank line) followed by one region per line, `WxH: c0 c1 ...`.
    A region is counted as possible when the cells its presents cover, the
    '#' count of each shape times the number of presents of that shape, do
    not exceed its area w*h. */
module Day12 {
  import opened Wrappers
  import opened Decimal

  // ------------------------------------------------------------ numbers

  /** The maximal runs of decimal digits of s, left to right: what the
      regular expression `[0-9]+` finds in s. */
  function DigitRuns(s: string): (runs: seq<string>)
    ensures forall k :: 0 <= k < |runs| ==> |runs[k]| >= 1 && AllDigits(runs[k])
    decreases |s|
  {
    if s == [] then []
    else if !IsDigit(s[0]) then DigitRuns(s[1..])
    else
      var k := DigitRunLength(s);
      [s[..k]] + DigitRuns(s[k..])
  }

  /** The values of the digit runs of s, in order. */
  function RunValues(s: string): (ns: seq<nat>)
    ensures |ns| == |DigitRuns(s)|
  {
    var runs := DigitRuns(s);
    seq(|runs|, k requires 0 <= k < |runs| => DigitsValue(runs[k]))
  }

  /** extractNumbers: every run of digits converted by strconv.Atoi, which
      cannot fail on a run of digits once integers are unbounded. */
  method ExtractNumbers(s: string) returns (numbers: seq<int>)
    ensures numbers == RunValues(s)
  {
    var matches := DigitRuns(s);
    numbers := [];
    for i := 0 to |matches|
      invariant numbers == RunValues(s)[..i]
    {
      match Atoi(matches[i])
      case Some(n) =>
        numbers := numbers + [n];
      case None =>
        assert false;
    }
  }

  /** Text without a digit. */
  predicate NoDigits(s: string) {
    forall i :: 0 <= i < |s| ==> !IsDigit(s[i])
  }

  /** Separators between written numbers: none holds a digit, and all but the
      first are non-empty so that two numbers never run together. */
  predicate Separators(seps: seq<string>) {
    forall k :: 0 <= k < |seps| ==> NoDigits(seps[k]) && (k > 0 ==> seps[k] != [])
  }

  /** The numbers ns written in decimal, each after its separator. */
  function Written(ns: seq<nat>, seps: seq<string>): string
    requires |seps| == |ns|
  {
    if ns == [] then [] else seps[0] + (NatToString(ns[0]) + Written(ns[1..], seps[1..]))
  }

  /** Reading back numbers written between separators gives them again. */
  lemma {:induction false} NumbersRoundTrip(ns: seq<nat>, seps: seq<string>)
    requires |seps| == |ns| && Separators(seps)
    ensures RunValues(Written(ns, seps)) == ns
  {
    RunsRoundTrip(ns, seps);
    var runs := DigitRuns(Written(ns, seps));
    forall k | 0 <= k < |ns|
      ensures RunValues(Written(ns, seps))[k] == ns[k]
    {
      NatToStringIsCanonical(ns[k]);
    }
  }

  lemma {:induction false} RunsRoundTrip(ns: seq<nat>, seps: seq<string>)
    requires |seps| == |ns| && Separators(seps)
    ensures DigitRuns(Written(ns, seps)) == seq(|ns|, k requires 0 <= k < |ns| => NatToString(ns[k]))
    decreases |ns|
  {
    if ns != [] {
      var d := NatToString(ns[0]);
      var rest := Written(ns[1..], seps[1..]);
      SeparatorsTail(seps);
      RunsRoundTrip(ns[1..], seps[1..]);
      NatToStringIsCanonical(ns[0]);
      WrittenStart(ns[1..], seps[1..]);
      TakeRun(d, rest);
      SkipSeparator(seps[0], d + rest);
    }
  }

  lemma SeparatorsTail(seps: seq<string>)
    requires |seps| >= 1 && Separators(seps)
    ensures Separators(seps[1..])
    ensures |seps| >= 2 ==> seps[1] != []
  {
    forall k | 0 <= k < |seps| - 1
      ensures NoDigits(seps[1..][k]) && (k > 0 ==> seps[1..][k] != [])
    {
      assert seps[1..][k] == seps[k + 1];
    }
  }

  /** Numbers written after non-empty separators start with a non-digit. */
  lemma WrittenStart(ns: seq<nat>, seps: seq<string>)
    requires |seps| == |ns| && Separators(seps)
    requires ns != [] ==> seps[0] != []
    ensures Written(ns, seps) == [] || !IsDigit(Written(ns, seps)[0])
  {
    if ns != [] {
      var sep := seps[0];
      assert NoDigits(sep);
      HeadOfConcat(sep, NatToString(ns[0]) + Written(ns[1..], seps[1..]));
    }
  }

  lemma HeadOfConcat(a: string, b: string)
    requires a != []
    ensures (a + b)[0] == a[0]
  {
  }

  /** Text without digits adds no run. */
  lemma {:induction false} SkipSeparator(sep: string, rest: string)
    requires NoDigits(sep)
    ensures DigitRuns(sep + rest) == DigitRuns(rest)
    decreases |sep|
  {
    if sep != [] {
      var s := sep + rest;
      assert s[0] == sep[0] && !IsDigit(s[0]);
      assert s[1..] == sep[1..] + rest;
      assert NoDigits(sep[1..]) by {
        assert forall i :: 0 <= i < |sep| - 1 ==> sep[1..][i] == sep[i + 1];
      }
      SkipSeparator(sep[1..], rest);
      assert DigitRuns(s) == DigitRuns(s[1..]);
    } else {
      assert sep + rest == rest;
    }
  }

  /** A run of digits followed by a non-digit (or by nothing) is one run. */
  lemma TakeRun(d: string, rest: string)
    requires |d| >= 1 && AllDigits(d)
    requires rest == [] || !IsDigit(rest[0])
    ensures DigitRuns(d + rest) == [d] + DigitRuns(rest)
  {
    var s := d + rest;
    var k := DigitRunLength(s);
    assert forall i :: 0 <= i < |d| ==> s[i] == d[i];
    assert |s| > |d| ==> s[|d|] == rest[0];
    assert k == |d|;
    assert s[..k] == d && s[k..] == rest;
  }

  // ------------------------------------------------------------ shapes and regions

  /** A shape: its three rows and the number of cells it covers. */
  datatype Shape = Shape(rows: seq<string>, count: int)

  /** A region: width, height and the number of presents of each shape. */
  datatype Region = Region(w: int, h: int, counts: seq<int>)

  /** bytes.Count(row, "#"). */
  function CountHash(row: string): (n: nat)
    ensures n == multiset(row)['#']
  {
    if row == [] then 0
    else
      var init := row[..|row| - 1];
      assert row == init + [row[|row| - 1]];
      CountHash(init) + (if row[|row| - 1] == '#' then 1 else 0)
  }

  /** The rows of a shape written one after another. */
  function Flatten(rows: seq<string>): string {
    if rows == [] then [] else Flatten(rows[..|rows| - 1]) + rows[|rows| - 1]
  }

  lemma FlattenAppend(rows: seq<string>, row: string)
    ensures multiset(Flatten(rows + [row]))['#'] == multiset(Flatten(rows))['#'] + multiset(row)['#']
  {
    var rows' := rows + [row];
    assert rows'[..|rows'| - 1] == rows;
    assert Flatten(rows') == Flatten(rows) + row;
  }

  /** The rows of shape i: lines 5i+1 to 5i+3. */
  method ReadShape(lines: seq<string>, i: nat) returns (sh: Shape)
    requires 5 * i + 4 <= |lines|
    ensures sh.rows == lines[5 * i + 1..5 * i + 4]
    ensures sh.count == multiset(Flatten(sh.rows))['#']
  {
    var base := 5 * i;
    var rows: seq<string> := [];
    var count := 0;
    for j := 1 to 4
      invariant rows == lines[base + 1..base + j]
      invariant count == multiset(Flatten(rows))['#']
    {
      var row := lines[base + j];
      FlattenAppend(rows, row);
      SliceExtend(lines, base + 1, base + j);
      rows := rows + [row];
      count := count + CountHash(row);
    }
    sh := Shape(rows, count);
  }

  lemma SliceExtend<T>(s: seq<T>, a: nat, b: nat)
    requires a <= b < |s|
    ensures s[a..b] + [s[b]] == s[a..b + 1]
  {
  }

  /** parse, from the lines of the input: six shapes of three rows each, then a
      region for every line from line 30 on.  Go indexes past the end of the
      lines, or of a region's numbers, and panics; the requires clauses rule
      those inputs out. */
  method Parse(lines: seq<string>) returns (shapes: seq<Shape>, regions: seq<Region>)
    requires |lines| >= 30
    requires forall k :: 30 <= k < |lines| ==> |DigitRuns(lines[k])| >= 2
    ensures |shapes| == 6
    ensures forall i :: 0 <= i < 6 ==> shapes[i].rows == lines[5 * i + 1..5 * i + 4]
    ensures forall i :: 0 <= i < 6 ==> shapes[i].count == multiset(Flatten(shapes[i].rows))['#']
    ensures |regions| == |lines| - 30
    ensures forall k :: 0 <= k < |regions| ==> RegionRead(lines[30 + k], regions[k])
  {
    shapes := [];
    for i := 0 to 6
      invariant |shapes| == i
      invariant forall p :: 0 <= p < i ==> shapes[p].rows == lines[5 * p + 1..5 * p + 4]
      invariant forall p :: 0 <= p < i ==> shapes[p].count == multiset(Flatten(shapes[p].rows))['#']
    {
      var sh := ReadShape(lines, i);
      shapes := shapes + [sh];
    }
    regions := [];
    var rest := lines[30..];
    for k := 0 to |rest|
      invariant |regions| == k
      invariant forall p :: 0 <= p < k ==> RegionRead(lines[30 + p], regions[p])
    {
      assert rest[k] == lines[30 + k];
      var nums := ExtractNumbers(rest[k]);
      regions := regions + [Region(nums[0], nums[1], nums[2..])];
    }
  }

  /** The region read from a line: width, height, then the counts. */
  predicate RegionRead(line: string, r: Region) {
    var nums := RunValues(line);
    |nums| >= 2 && r.w == nums[0] && r.h == nums[1] && r.counts == nums[2..]
  }

  /** A region line `WxH: c0 c1 ...` reads back as the region it describes. */
  lemma RegionLineRoundTrip(w: nat, h: nat, counts: seq<nat>, seps: seq<string>)
    requires |seps| == 2 + |counts| && Separators(seps)
    ensures RegionRead(Written([w, h] + counts, seps), Region(w, h, counts))
  {
    var ns := [w, h] + counts;
    NumbersRoundTrip(ns, seps);
    assert ns[2..] == counts;
  }

  // ------------------------------------------------------------ part 1

  /** The cells covered by the presents of the first m shapes. */
  function Demand(shapes: seq<Shape>, counts: seq<int>, m: nat): int
    requires m <= |shapes| && m <= |counts|
  {
    if m == 0 then 0 else Demand(shapes, counts, m - 1) + shapes[m - 1].count * counts[m - 1]
  }

  /** Every region lists a count for every shape. */
  predicate Listed(shapes: seq<Shape>, regions: seq<Region>) {
    forall k :: 0 <= k < |regions| ==> |regions[k].counts| >= |shapes|
  }

  /** A region is possible when its presents cover no more cells than it has. */
  predicate Fits(shapes: seq<Shape>, r: Region)
    requires |r.counts| >= |shapes|
  {
    Demand(shapes, r.counts, |shapes|) <= r.w * r.h
  }

  /** The number of possible regions. */
  function CountFitting(shapes: seq<Shape>, regions: seq<Region>): (n: nat)
    requires Listed(shapes, regions)
    ensures n <= |regions|
  {
    if regions == [] then 0
    else
      var init := regions[..|regions| - 1];
      assert Listed(shapes, init) by {
        forall k | 0 <= k < |init|
          ensures |init[k].counts| >= |shapes|
        {
          assert init[k] == regions[k];
        }
      }
      CountFitting(shapes, init) + (if Fits(shapes, regions[|regions| - 1]) then 1 else 0)
  }

  /** The cells the presents of region r cover. */
  method AreaOfShapes(shapes: seq<Shape>, r: Region) returns (area: int)
    requires |r.counts| >= |shapes|
    ensures area == Demand(shapes, r.counts, |shapes|)
  {
    area := 0;
    for j := 0 to |shapes|
      invariant area == Demand(shapes, r.counts, j)
    {
      area := area + shapes[j].count * r.counts[j];
    }
  }

  /** part1: the number of regions whose area holds the cells of their presents. */
  method Part1(shapes: seq<Shape>, regions: seq<Region>) returns (possible: int)
    requires Listed(shapes, regions)
    ensures possible == CountFitting(shapes, regions)
  {
    possible := 0;
    for i := 0 to |regions|
      invariant Listed(shapes, regions[..i])
      invariant possible == CountFitting(shapes, regions[..i])
    {
      var r := regions[i];
      var areaOfRegion := r.w * r.h;
      var areaOfShapes := AreaOfShapes(shapes, r);
      assert regions[..i + 1][..i] == regions[..i];
      if areaOfShapes > areaOfRegion {
      } else {
        possible := possible + 1;
      }
    }
    assert regions[..|regions|] == regions;
  }

  /** Counting possible regions adds up over the two halves of a list. */
  lemma {:induction false} CountFittingAppend(shapes: seq<Shape>, a: seq<Region>, b: seq<Region>)
    requires Listed(shapes, a) && Listed(shapes, b)
    ensures Listed(shapes, a + b)
    ensures CountFitting(shapes, a + b) == CountFitting(shapes, a) + CountFitting(shapes, b)
    decreases |b|
  {
    var ab := a + b;
    assert Listed(shapes, ab) by {
      forall k | 0 <= k < |ab|
        ensures |ab[k].counts| >= |shapes|
      {
        if k >= |a| {
          assert ab[k] == b[k - |a|];
        }
      }
    }
    if b == [] {
      assert ab == a;
    } else {
      var b' := b[..|b| - 1];
      assert ab[..|ab| - 1] == a + b';
      assert Listed(shapes, b') by {
        forall k | 0 <= k < |b'|
          ensures |b'[k].counts| >= |shapes|
        {
          assert b'[k] == b[k];
        }
      }
      CountFittingAppend(shapes, a, b');
    }
  }

  /** Every region is counted exactly when every region fits. */
  lemma {:induction false} AllFit(shapes: seq<Shape>, regions: seq<Region>)
    requires Listed(shapes, regions)
    ensures CountFitting(shapes, regions) == |regions| <==>
            forall k :: 0 <= k < |regions| ==> Fits(shapes, regions[k])
    decreases |regions|
  {
    if regions != [] {
      var init := regions[..|regions| - 1];
      assert Listed(shapes, init) by {
        forall k | 0 <= k < |init|
          ensures |init[k].counts| >= |shapes|
        {
          assert init[k] == regions[k];
        }
      }
      AllFit(shapes, init);
      if forall k :: 0 <= k < |init| ==> Fits(shapes, init[k]) {
        assert forall k :: 0 <= k < |init| ==> Fits(shapes, regions[k]);
      } else {
        var k :| 0 <= k < |init| && !Fits(shapes, init[k]);
        assert init[k] == regions[k];
      }
    }
  }

  /** No region is counted exactly when no region fits. */
  lemma {:induction false} NoneFit(shapes: seq<Shape>, regions: seq<Region>)
    requires Listed(shapes, regions)
    ensures CountFitting(shapes, regions) == 0 <==>
            forall k :: 0 <= k < |regions| ==> !Fits(shapes, regions[k])
    decreases |regions|
  {
    if regions != [] {
      var init := regions[..|regions| - 1];
      assert Listed(shapes, init) by {
        forall k | 0 <= k < |init|
          ensures |init[k].counts| >= |shapes|
        {
          assert init[k] == regions[k];
        }
      }
      NoneFit(shapes, init);
      if forall k :: 0 <= k < |init| ==> !Fits(shapes, init[k]) {
        assert forall k :: 0 <= k < |init| ==> !Fits(shapes, regions[k]);
      } else {
        var k :| 0 <= k < |init| && Fits(shapes, init[k]);
        assert init[k] == regions[k];
      }
    }
  }

  /** A region that fits still fits when it grows in both directions. */
  lemma LargerRegionFits(shapes: seq<Shape>, r: Region, w: int, h: int)
    requires |r.counts| >= |shapes| && Fits(shapes, r)
    requires 0 <= r.w <= w && 0 <= r.h <= h
    ensures Fits(shapes, Region(w, h, r.counts))
  {
    assert r.w * r.h <= w * r.h;
    assert w * r.h <= w * h;
  }
}
