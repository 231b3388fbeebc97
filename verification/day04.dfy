/** Day 4: a rectangular grid of paper rolls ('@').  A roll with fewer than
    four rolls among its eight neighbours can be reached by a forklift.
    Part 1 counts those; part 2 removes them round after round until none is
    left and reports how many rolls went. */
module Day04 {
  /** The eight offsets countNeighbors visits, row offset first. */
  const Directions: seq<(int, int)> :=
    [(-1, -1), (-1, 0), (-1, 1), (0, -1), (0, 1), (1, -1), (1, 0), (1, 1)]

  /** 1 when (r, c) is on the grid and holds a roll, else 0. */
  function RollAt(g: array2<char>, r: int, c: int): nat
    reads g
  {
    if 0 <= r < g.Length0 && 0 <= c < g.Length1 && g[r, c] == '@' then 1 else 0
  }

  /** The cell an offset leads to from (row, col). */
  function Shift(row: int, col: int, d: (int, int)): (int, int) {
    (row + d.0, col + d.1)
  }

  /** Rolls at (row, col) shifted by each offset in dirs. */
  function NeighborsOver(g: array2<char>, row: int, col: int, dirs: seq<(int, int)>): nat
    reads g
  {
    if dirs == [] then 0
    else
      var d := dirs[|dirs| - 1];
      NeighborsOver(g, row, col, dirs[..|dirs| - 1]) + RollAt(g, row + d.0, col + d.1)
  }

  function Neighbors(g: array2<char>, row: int, col: int): nat
    reads g
  {
    NeighborsOver(g, row, col, Directions)
  }

  /** The rolls in the 3x3 box around (row, col), the cell itself excluded. */
  ghost function NeighbourRolls(g: array2<char>, row: int, col: int): set<(int, int)>
    reads g
  {
    set r, c | row - 1 <= r <= row + 1 && col - 1 <= c <= col + 1 && (r, c) != (row, col)
      && 0 <= r < g.Length0 && 0 <= c < g.Length1 && g[r, c] == '@' :: (r, c)
  }

  ghost function RollCellsOver(g: array2<char>, row: int, col: int, dirs: seq<(int, int)>): set<(int, int)>
    reads g
  {
    set d | d in dirs && RollAt(g, row + d.0, col + d.1) == 1 :: Shift(row, col, d)
  }

  lemma {:induction false} NeighborsOverCountsCells(g: array2<char>, row: int, col: int, dirs: seq<(int, int)>)
    requires forall i, j :: 0 <= i < j < |dirs| ==> dirs[i] != dirs[j]
    ensures NeighborsOver(g, row, col, dirs) == |RollCellsOver(g, row, col, dirs)|
    decreases |dirs|
  {
    if dirs != [] {
      var init, d := dirs[..|dirs| - 1], dirs[|dirs| - 1];
      NeighborsOverCountsCells(g, row, col, init);
      RollCellsStep(g, row, col, dirs);
    }
  }

  /** Adding one more offset adds its cell, when that holds a roll, to cells
      no earlier offset reached. */
  lemma RollCellsStep(g: array2<char>, row: int, col: int, dirs: seq<(int, int)>)
    requires dirs != []
    requires forall i, j :: 0 <= i < j < |dirs| ==> dirs[i] != dirs[j]
    ensures var init, d := dirs[..|dirs| - 1], dirs[|dirs| - 1];
      Shift(row, col, d) !in RollCellsOver(g, row, col, init) &&
      RollCellsOver(g, row, col, dirs) ==
        RollCellsOver(g, row, col, init) + (if RollAt(g, row + d.0, col + d.1) == 1 then {Shift(row, col, d)} else {})
  {
    var init, d := dirs[..|dirs| - 1], dirs[|dirs| - 1];
    assert dirs == init + [d];
    forall e | e in init ensures Shift(row, col, e) != Shift(row, col, d) {
      var i :| 0 <= i < |init| && init[i] == e;
      assert dirs[i] == e;
    }
  }

  /** Every roll reached through an offset lies in the box around the cell. */
  lemma CellsWithinBox(g: array2<char>, row: int, col: int)
    ensures RollCellsOver(g, row, col, Directions) <= NeighbourRolls(g, row, col)
  {
  }

  /** Every roll in the box around the cell is reached through one of the offsets. */
  lemma BoxWithinCells(g: array2<char>, row: int, col: int)
    ensures NeighbourRolls(g, row, col) <= RollCellsOver(g, row, col, Directions)
  {
    forall p | p in NeighbourRolls(g, row, col) ensures p in RollCellsOver(g, row, col, Directions) {
      var d := (p.0 - row, p.1 - col);
      assert d in Directions;
      assert p == Shift(row, col, d);
    }
  }

  /** The count over the eight offsets is the number of rolls in the box
      around the cell, so it never includes the cell itself and is at most 8. */
  lemma NeighborsCountsBox(g: array2<char>, row: int, col: int)
    ensures Neighbors(g, row, col) == |NeighbourRolls(g, row, col)|
    ensures Neighbors(g, row, col) <= 8
  {
    NeighborsOverCountsCells(g, row, col, Directions);
    CellsWithinBox(g, row, col);
    BoxWithinCells(g, row, col);
    assert RollCellsOver(g, row, col, Directions) == NeighbourRolls(g, row, col);
    NeighborsAtMostEight(g, row, col, Directions);
  }

  lemma {:induction false} NeighborsAtMostEight(g: array2<char>, row: int, col: int, dirs: seq<(int, int)>)
    ensures NeighborsOver(g, row, col, dirs) <= |dirs|
    decreases |dirs|
  {
    if dirs != [] {
      NeighborsAtMostEight(g, row, col, dirs[..|dirs| - 1]);
    }
  }

  /** countNeighbors: the rolls among the eight neighbours of (row, col) that
      lie on the grid.  Go reads the width from row `row`, so row must exist. */
  method CountNeighbors(g: array2<char>, row: int, col: int) returns (count: int)
    requires 0 <= row < g.Length0
    ensures count == Neighbors(g, row, col) && 0 <= count <= 8
  {
    count := 0;
    for k := 0 to |Directions|
      invariant count == NeighborsOver(g, row, col, Directions[..k])
    {
      var dir := Directions[k];
      var r, c := row + dir.0, col + dir.1;
      if r >= 0 && r < g.Length0 && c >= 0 && c < g.Length1 {
        if g[r, c] == '@' {
          count := count + 1;
        }
      }
      assert Directions[..k + 1][..k] == Directions[..k];
    }
    assert Directions[..|Directions|] == Directions;
    NeighborsAtMostEight(g, row, col, Directions);
  }

  /** The cells of the grid holding a roll. */
  ghost function RollsIn(g: array2<char>): set<(int, int)>
    reads g
  {
    set r, c | 0 <= r < g.Length0 && 0 <= c < g.Length1 && g[r, c] == '@' :: (r, c)
  }

  /** The rolls a forklift can reach: fewer than four rolls around them. */
  ghost function Accessible(g: array2<char>): set<(int, int)>
    reads g
  {
    set p | p in RollsIn(g) && Neighbors(g, p.0, p.1) < 4
  }

  /** p comes before (r, c) in row-major order. */
  predicate Precedes(p: (int, int), r: int, c: int) {
    p.0 < r || (p.0 == r && p.1 < c)
  }

  /** The members of cells that the row-major scan has passed at (r, c). */
  ghost function ScannedPart(cells: set<(int, int)>, r: int, c: int): set<(int, int)> {
    set p | p in cells && Precedes(p, r, c)
  }

  predicate OnGrid(g: array2<char>, p: (int, int)) {
    0 <= p.0 < g.Length0 && 0 <= p.1 < g.Length1
  }

  /** Moving the scan one cell on adds that cell when it belongs to cells. */
  lemma ScanStep(cells: set<(int, int)>, r: int, c: int)
    ensures ScannedPart(cells, r, c + 1) == ScannedPart(cells, r, c) + (if (r, c) in cells then {(r, c)} else {})
  {
  }

  /** The count of scanned cells grows by one exactly at a member of cells. */
  lemma CountStep(cells: set<(int, int)>, r: int, c: int)
    ensures |ScannedPart(cells, r, c + 1)| == |ScannedPart(cells, r, c)| + if (r, c) in cells then 1 else 0
  {
    ScanStep(cells, r, c);
  }

  /** Finishing row r of a grid w cells wide is starting row r + 1. */
  lemma ScanRowEnd(cells: set<(int, int)>, r: int, w: int)
    requires forall p :: p in cells ==> 0 <= p.1 < w
    ensures ScannedPart(cells, r + 1, 0) == ScannedPart(cells, r, w)
  {
  }

  lemma ScanAll(cells: set<(int, int)>, h: int)
    requires forall p :: p in cells ==> 0 <= p.0 < h
    ensures ScannedPart(cells, h, 0) == cells
  {
  }

  /** countRolls: the number of rolls on the grid. */
  method CountRolls(g: array2<char>) returns (count: int)
    ensures count == |RollsIn(g)|
  {
    count := 0;
    for r := 0 to g.Length0
      invariant count == |ScannedPart(RollsIn(g), r, 0)|
    {
      for c := 0 to g.Length1
        invariant count == |ScannedPart(RollsIn(g), r, c)|
      {
        CountStep(RollsIn(g), r, c);
        if g[r, c] == '@' {
          count := count + 1;
        }
      }
      ScanRowEnd(RollsIn(g), r, g.Length1);
    }
    ScanAll(RollsIn(g), g.Length0);
  }

  /** part1: the number of rolls with fewer than four neighbouring rolls. */
  method Part1(g: array2<char>) returns (total: int)
    ensures total == |Accessible(g)|
  {
    ghost var cells := Accessible(g);
    total := 0;
    for r := 0 to g.Length0
      invariant total == |ScannedPart(cells, r, 0)|
    {
      for c := 0 to g.Length1
        invariant total == |ScannedPart(cells, r, c)|
      {
        var neighbors := CountNeighbors(g, r, c);
        AccessibleAt(g, r, c);
        CountStep(cells, r, c);
        if g[r, c] == '@' && neighbors < 4 {
          total := total + 1;
        }
      }
      ScanRowEnd(cells, r, g.Length1);
    }
    ScanAll(cells, g.Length0);
  }

  /** Strictly increasing in row-major order, hence free of duplicates. */
  predicate RowMajorSorted(s: seq<(int, int)>) {
    forall i, j :: 0 <= i < j < |s| ==> Precedes(s[i], s[j].0, s[j].1)
  }

  /** s lists, in row-major order, exactly the cells the scan has passed at (r, c). */
  ghost predicate ListsScanned(s: seq<(int, int)>, cells: set<(int, int)>, r: int, c: int) {
    (forall p :: p in s <==> p in ScannedPart(cells, r, c)) && RowMajorSorted(s)
  }

  /** Appending the scanned cell when it belongs to cells keeps the listing exact. */
  lemma ListStep(s: seq<(int, int)>, cells: set<(int, int)>, r: int, c: int)
    requires ListsScanned(s, cells, r, c)
    ensures ListsScanned(s + if (r, c) in cells then [(r, c)] else [], cells, r, c + 1)
  {
    ScanStep(cells, r, c);
    if (r, c) in cells {
      var s' := s + [(r, c)];
      forall p | p in s ensures Precedes(p, r, c) {
        assert p in ScannedPart(cells, r, c);
      }
      assert forall i :: 0 <= i < |s| ==> s'[i] == s[i];
      assert RowMajorSorted(s');
    } else {
      assert s + [] == s;
    }
  }

  /** (r, c) is accessible exactly when it holds a roll with fewer than four
      neighbouring rolls. */
  lemma AccessibleAt(g: array2<char>, r: int, c: int)
    requires 0 <= r < g.Length0 && 0 <= c < g.Length1
    ensures (r, c) in Accessible(g) <==> g[r, c] == '@' && Neighbors(g, r, c) < 4
  {
    assert (r, c) in RollsIn(g) <==> g[r, c] == '@';
  }

  /** findRemoveables: the accessible rolls, listed in row-major order. */
  method FindRemoveables(g: array2<char>) returns (removeables: seq<(int, int)>)
    ensures forall p :: p in removeables <==> p in Accessible(g)
    ensures RowMajorSorted(removeables)
  {
    ghost var cells := Accessible(g);
    removeables := [];
    for r := 0 to g.Length0
      invariant ListsScanned(removeables, cells, r, 0)
    {
      for c := 0 to g.Length1
        invariant ListsScanned(removeables, cells, r, c)
      {
        var neighbors := CountNeighbors(g, r, c);
        AccessibleAt(g, r, c);
        ListStep(removeables, cells, r, c);
        if g[r, c] == '@' && neighbors < 4 {
          removeables := removeables + [(r, c)];
        }
      }
      ScanRowEnd(cells, r, g.Length1);
    }
    ScanAll(cells, g.Length0);
  }

  lemma {:induction false} SubsetSize<T>(a: set<T>, b: set<T>)
    requires a <= b
    ensures |a| <= |b|
    decreases b
  {
    if a != {} {
      var x :| x in a;
      SubsetSize(a - {x}, b - {x});
    }
  }

  /** The inner loop of part2: blanks every listed cell.  The listed cells
      hold rolls, so at least one roll goes and no other cell changes. */
  method RemoveRolls(g: array2<char>, removeables: seq<(int, int)>)
    requires |removeables| > 0
    requires forall p :: p in removeables ==> p in RollsIn(g)
    modifies g
    ensures forall r, c :: 0 <= r < g.Length0 && 0 <= c < g.Length1 ==>
      g[r, c] == if (r, c) in removeables then '.' else old(g[r, c])
    ensures forall p :: p in RollsIn(g) <==> p in old(RollsIn(g)) && p !in removeables
    ensures |RollsIn(g)| < |old(RollsIn(g))|
  {
    for k := 0 to |removeables|
      invariant forall r, c :: 0 <= r < g.Length0 && 0 <= c < g.Length1 ==>
        g[r, c] == if (r, c) in removeables[..k] then '.' else old(g[r, c])
    {
      var rc := removeables[k];
      assert rc in removeables;
      g[rc.0, rc.1] := '.';
    }
    assert removeables[..|removeables|] == removeables;
    forall p ensures p in RollsIn(g) <==> p in old(RollsIn(g)) && p !in removeables {
      assert p == (p.0, p.1);
    }
    var first := removeables[0];
    assert first in old(RollsIn(g));
    assert RollsIn(g) <= old(RollsIn(g)) - {first};
    SubsetSize(RollsIn(g), old(RollsIn(g)) - {first});
  }

  // ------------------------------------------------ what part2 leaves

  /** The cells of S in the box around p, p itself excluded. */
  ghost function Around(S: set<(int, int)>, p: (int, int)): set<(int, int)> {
    set q | q in S && p.0 - 1 <= q.0 <= p.0 + 1 && p.1 - 1 <= q.1 <= p.1 + 1 && q != p
  }

  /** Rolls that would all stay if they were the only ones: each has at
      least four of the others around it. */
  ghost predicate Stable(S: set<(int, int)>) {
    forall p :: p in S ==> |Around(S, p)| >= 4
  }

  /** Around a roll of the grid, the grid's rolls are its neighbouring rolls. */
  lemma AroundRolls(g: array2<char>, p: (int, int))
    requires p in RollsIn(g)
    ensures Around(RollsIn(g), p) == NeighbourRolls(g, p.0, p.1)
  {
    forall q | q in NeighbourRolls(g, p.0, p.1) ensures q in RollsIn(g) {
      assert q == (q.0, q.1);
    }
  }

  /** No roll of a stable set of the grid's rolls is accessible. */
  lemma StableUnreachable(g: array2<char>, S: set<(int, int)>)
    requires S <= RollsIn(g) && Stable(S)
    ensures S !! Accessible(g)
  {
    forall p | p in S ensures p !in Accessible(g) {
      AroundRolls(g, p);
      assert Around(S, p) <= Around(RollsIn(g), p);
      SubsetSize(Around(S, p), NeighbourRolls(g, p.0, p.1));
      NeighborsCountsBox(g, p.0, p.1);
    }
  }

  /** A grid without accessible rolls has a stable set of rolls. */
  lemma SettledIsStable(g: array2<char>)
    requires Accessible(g) == {}
    ensures Stable(RollsIn(g))
  {
    forall p | p in RollsIn(g) ensures |Around(RollsIn(g), p)| >= 4 {
      AroundRolls(g, p);
      NeighborsCountsBox(g, p.0, p.1);
      assert p !in Accessible(g);
    }
  }

  /** part2: removes every accessible roll, all of one round at once, until
      no roll is accessible; returns how many rolls were removed.  What
      remains is the largest stable set of the original rolls: it is stable,
      and no round removes a roll of a stable set. */
  method Part2(g: array2<char>) returns (removed: int)
    modifies g
    ensures forall r, c :: 0 <= r < g.Length0 && 0 <= c < g.Length1 ==>
      g[r, c] == old(g[r, c]) || (old(g[r, c]) == '@' && g[r, c] == '.')
    ensures Accessible(g) == {} && Stable(RollsIn(g))
    ensures forall S :: S <= old(RollsIn(g)) && Stable(S) ==> S <= RollsIn(g)
    ensures removed == |old(RollsIn(g))| - |RollsIn(g)|
  {
    var rolls := CountRolls(g);
    var rounds := 0;
    while true
      invariant forall r, c :: 0 <= r < g.Length0 && 0 <= c < g.Length1 ==>
        g[r, c] == old(g[r, c]) || (old(g[r, c]) == '@' && g[r, c] == '.')
      invariant forall S :: S <= old(RollsIn(g)) && Stable(S) ==> S <= RollsIn(g)
      decreases |RollsIn(g)|
    {
      var removeables := FindRemoveables(g);
      if |removeables| == 0 {
        break;
      }
      ghost var before, reachable := RollsIn(g), Accessible(g);
      forall S | S <= before && Stable(S) ensures S !! reachable {
        StableUnreachable(g, S);
      }
      RemoveRolls(g, removeables);
      rounds := rounds + 1;
    }
    SettledIsStable(g);
    var remaining := CountRolls(g);
    removed := rolls - remaining;
  }
}
