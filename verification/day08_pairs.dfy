/** Day 8, first phase: choosing the numConnections closest pairs of junction
    boxes.  part1 offers the pairs (i, j), i < j, row by row; after each row
    it sorts the kept pairs by squared distance, cuts them back to
    numConnections and remembers the largest kept distance, below which a
    later pair must lie to be kept at all. */
module Day08Pairs {
  import opened Sorting

  datatype Coord = Coord(x: int, y: int, z: int)

  /** linearDist2: the squared Euclidean distance. */
  function LinearDist2(p: Coord, o: Coord): int {
    var dx := p.x - o.x;
    var dy := p.y - o.y;
    var dz := p.z - o.z;
    dx * dx + dy * dy + dz * dz
  }

  lemma SquaresVanish(dx: int, dy: int, dz: int)
    ensures dx * dx + dy * dy + dz * dz >= 0
    ensures dx * dx + dy * dy + dz * dz == 0 <==> dx == 0 && dy == 0 && dz == 0
  {
    assert dx * dx >= 0 && dy * dy >= 0 && dz * dz >= 0;
    if dx != 0 {
      assert dx * dx > 0;
    }
    if dy != 0 {
      assert dy * dy > 0;
    }
    if dz != 0 {
      assert dz * dz > 0;
    }
  }

  /** The squared distance is never negative, does not depend on the order of
      the two points, and is 0 exactly for identical coordinates. */
  lemma LinearDist2Metric(p: Coord, o: Coord)
    ensures LinearDist2(p, o) >= 0
    ensures LinearDist2(p, o) == LinearDist2(o, p)
    ensures LinearDist2(p, o) == 0 <==> p == o
  {
    SquaresVanish(p.x - o.x, p.y - o.y, p.z - o.z);
    assert (p.x - o.x) * (p.x - o.x) == (o.x - p.x) * (o.x - p.x);
    assert (p.y - o.y) * (p.y - o.y) == (o.y - p.y) * (o.y - p.y);
    assert (p.z - o.z) * (p.z - o.z) == (o.z - p.z) * (o.z - p.z);
  }

  /** math.MaxInt on a 64-bit platform: the starting bound `longest`. */
  const MaxInt: int := 0x7fff_ffff_ffff_ffff

  /** A candidate connection: the indexes of its two boxes and their squared distance. */
  datatype ClosePair = ClosePair(a: nat, b: nat, dist2: int)

  function Dist(p: ClosePair): int {
    p.dist2
  }

  /** The state of the closestPairs object. */
  datatype PairState = PairState(pairs: seq<ClosePair>, longest: int)

  function PairOf(coords: seq<Coord>, a: nat, b: nat): ClosePair
    requires a < |coords| && b < |coords|
  {
    ClosePair(a, b, LinearDist2(coords[a], coords[b]))
  }

  /** addPair: a pair is kept only if it is closer than `longest`. */
  function Offer(st: PairState, q: ClosePair): PairState {
    if q.dist2 < st.longest then PairState(st.pairs + [q], st.longest) else st
  }

  /** The pairs (i, i+1), ..., (i, j-1) in the order part1 offers them. */
  function RowPairs(coords: seq<Coord>, i: nat, j: nat): (r: seq<ClosePair>)
    requires i < j <= |coords|
    ensures forall q :: q in r ==> i == q.a < q.b < |coords|
    decreases j
  {
    if j == i + 1 then [] else RowPairs(coords, i, j - 1) + [PairOf(coords, i, j - 1)]
  }

  /** The offered pairs carry the distance of their two boxes. */
  lemma {:induction false} RowPairsMeasured(coords: seq<Coord>, i: nat, j: nat)
    requires i < j <= |coords|
    ensures forall q :: q in RowPairs(coords, i, j) ==> q == PairOf(coords, q.a, q.b)
    decreases j
  {
    if j > i + 1 {
      RowPairsMeasured(coords, i, j - 1);
    }
  }

  function OfferAll(st: PairState, qs: seq<ClosePair>): PairState {
    if qs == [] then st else Offer(OfferAll(st, qs[..|qs| - 1]), qs[|qs| - 1])
  }

  /** The end of an outer round: sort by distance, keep the first k, and set
      `longest` to the last kept distance.  As written, `longest` is set
      whenever a pair is kept; the corrected rule sets it only once k pairs
      are kept, because only then may a farther pair be turned away. */
  function Trim(st: PairState, k: nat, asWritten: bool): PairState {
    var sorted := SortBy(st.pairs, Dist);
    var kept := if |sorted| > k then sorted[..k] else sorted;
    var update := if asWritten then |kept| > 0 else |kept| == k && k > 0;
    PairState(kept, if update then kept[|kept| - 1].dist2 else st.longest)
  }

  /** Pairs of boxes i < j among n. */
  predicate AllOrdered(pairs: seq<ClosePair>, n: nat) {
    forall q :: q in pairs ==> q.a < q.b < n
  }

  lemma RoundOrdered(st: PairState, row: seq<ClosePair>, k: nat, asWritten: bool, n: nat)
    requires AllOrdered(st.pairs, n) && AllOrdered(row, n)
    ensures AllOrdered(Trim(OfferAll(st, row), k, asWritten).pairs, n)
  {
    OfferAllFrom(st, row);
    TrimFrom(OfferAll(st, row), k, asWritten);
  }

  /** The closestPairs state after the first n outer rounds of part1; every
      kept pair joins two boxes i < j. */
  function Rounds(coords: seq<Coord>, k: nat, n: nat, asWritten: bool): (st: PairState)
    requires n <= |coords|
    ensures AllOrdered(st.pairs, |coords|)
  {
    if n == 0 then PairState([], MaxInt)
    else
      var prev := Rounds(coords, k, n - 1, asWritten);
      var row := RowPairs(coords, n - 1, |coords|);
      RoundOrdered(prev, row, k, asWritten, |coords|);
      Trim(OfferAll(prev, row), k, asWritten)
  }

  /** The pairs part1 keeps, as written and as corrected. */
  function SelectAsWritten(coords: seq<Coord>, k: nat): seq<ClosePair> {
    Rounds(coords, k, |coords|, true).pairs
  }

  function Select(coords: seq<Coord>, k: nat): seq<ClosePair> {
    Rounds(coords, k, |coords|, false).pairs
  }

  /** Every pair offered in the first n rounds. */
  function AllPairs(coords: seq<Coord>, n: nat): seq<ClosePair>
    requires n <= |coords|
  {
    if n == 0 then [] else AllPairs(coords, n - 1) + RowPairs(coords, n - 1, |coords|)
  }

  /** Squared distances fit below math.MaxInt. */
  predicate Bounded(coords: seq<Coord>) {
    forall a, b :: 0 <= a < |coords| && 0 <= b < |coords| ==> LinearDist2(coords[a], coords[b]) < MaxInt
  }

  // ------------------------------------------------ shape after every round

  /** After every round the kept pairs are sorted, at most k of them are
      kept, and `longest` is the last kept distance (as written), or the last
      kept distance once k pairs are kept (corrected). */
  lemma SortedPrefix(sorted: seq<ClosePair>, cut: nat)
    requires SortedBy(sorted, Dist) && cut <= |sorted|
    ensures SortedBy(sorted[..cut], Dist)
  {
  }

  /** The end of a round leaves the pairs sorted, at most k of them, with
      `longest` set as its rule says. */
  lemma TrimShape(st: PairState, k: nat, asWritten: bool)
    ensures var st' := Trim(st, k, asWritten);
      SortedBy(st'.pairs, Dist) && |st'.pairs| <= k &&
      (asWritten && |st'.pairs| > 0 ==> st'.longest == st'.pairs[|st'.pairs| - 1].dist2) &&
      (!asWritten && |st'.pairs| == k > 0 ==> st'.longest == st'.pairs[|st'.pairs| - 1].dist2)
  {
    var sorted := SortBy(st.pairs, Dist);
    var cut := if |sorted| > k then k else |sorted|;
    SortedPrefix(sorted, cut);
    assert Trim(st, k, asWritten).pairs == sorted[..cut];
  }

  lemma RoundShape(coords: seq<Coord>, k: nat, n: nat, asWritten: bool)
    requires 0 < n <= |coords|
    ensures var st := Rounds(coords, k, n, asWritten);
      SortedBy(st.pairs, Dist) && |st.pairs| <= k &&
      (asWritten && |st.pairs| > 0 ==> st.longest == st.pairs[|st.pairs| - 1].dist2) &&
      (!asWritten && |st.pairs| == k > 0 ==> st.longest == st.pairs[|st.pairs| - 1].dist2)
  {
    TrimShape(OfferAll(Rounds(coords, k, n - 1, asWritten), RowPairs(coords, n - 1, |coords|)), k, asWritten);
  }

  // -------------------------------------- the corrected rule keeps the closest

  /** The offered pairs closer than `bound`, which addPair keeps, and the
      others, which it turns away. */
  function Near(qs: seq<ClosePair>, bound: int): seq<ClosePair> {
    if qs == [] then []
    else Near(qs[..|qs| - 1], bound) + (if qs[|qs| - 1].dist2 < bound then [qs[|qs| - 1]] else [])
  }

  function Far(qs: seq<ClosePair>, bound: int): seq<ClosePair> {
    if qs == [] then []
    else Far(qs[..|qs| - 1], bound) + (if qs[|qs| - 1].dist2 < bound then [] else [qs[|qs| - 1]])
  }

  /** Offering a row of pairs appends the near ones and leaves `longest` alone. */
  lemma {:induction false} OfferAllNear(st: PairState, qs: seq<ClosePair>)
    ensures OfferAll(st, qs) == PairState(st.pairs + Near(qs, st.longest), st.longest)
    decreases |qs|
  {
    if qs != [] {
      OfferAllNear(st, qs[..|qs| - 1]);
    }
  }

  /** The near and the far pairs together are the offered ones. */
  lemma {:induction false} NearFarCount(qs: seq<ClosePair>, bound: int)
    ensures multiset(Near(qs, bound)) + multiset(Far(qs, bound)) == multiset(qs)
    decreases |qs|
  {
    if qs != [] {
      var init := qs[..|qs| - 1];
      NearFarCount(init, bound);
      assert qs == init + [qs[|qs| - 1]];
    }
  }

  /** The near pairs lie below the bound, the far ones at or above it. */
  lemma {:induction false} NearFarBounds(qs: seq<ClosePair>, bound: int)
    ensures forall q :: q in Near(qs, bound) ==> q in qs && q.dist2 < bound
    ensures forall q :: q in Far(qs, bound) ==> q in qs && bound <= q.dist2
    decreases |qs|
  {
    if qs != [] {
      var init := qs[..|qs| - 1];
      NearFarBounds(init, bound);
      assert qs == init + [qs[|qs| - 1]];
    }
  }

  lemma NearFarSplit(qs: seq<ClosePair>, bound: int)
    ensures multiset(Near(qs, bound)) + multiset(Far(qs, bound)) == multiset(qs)
    ensures forall q :: q in Near(qs, bound) ==> q in qs && q.dist2 < bound
    ensures forall q :: q in Far(qs, bound) ==> q in qs && bound <= q.dist2
  {
    NearFarCount(qs, bound);
    NearFarBounds(qs, bound);
  }

  /** The pairs the end of a round cuts off after the k closest. */
  function Cut(st: PairState, k: nat): seq<ClosePair> {
    var sorted := SortBy(st.pairs, Dist);
    if |sorted| > k then sorted[k..] else []
  }

  /** Every pair the selection has turned away or cut off in the first n
      rounds. */
  function Rejected(coords: seq<Coord>, k: nat, n: nat, asWritten: bool): seq<ClosePair>
    requires n <= |coords|
  {
    if n == 0 then []
    else
      var st := Rounds(coords, k, n - 1, asWritten);
      var row := RowPairs(coords, n - 1, |coords|);
      Rejected(coords, k, n - 1, asWritten) + Far(row, st.longest) + Cut(OfferAll(st, row), k)
  }

  /** The invariant of the corrected selection: kept distances lie below
      MaxInt and `longest` at most at MaxInt; a rejected pair is no closer
      than any kept pair; once one is rejected at least k pairs are kept and
      `longest` is a real bound, below every rejected distance; and a real
      bound lies above every kept distance. */
  predicate Inv(st: PairState, rejected: seq<ClosePair>, k: nat) {
    st.longest <= MaxInt && (forall t :: t in st.pairs ==> t.dist2 < MaxInt) &&
    (forall q, t :: q in rejected && t in st.pairs && k > 0 ==> t.dist2 <= q.dist2) &&
    (rejected != [] ==> |st.pairs| >= k) &&
    (k > 0 && rejected != [] ==> st.longest < MaxInt && forall q :: q in rejected ==> st.longest <= q.dist2) &&
    (st.longest < MaxInt ==> k > 0 && |st.pairs| >= k && forall t :: t in st.pairs ==> t.dist2 <= st.longest)
  }

  lemma OfferAllKeeps(st: PairState, rejected: seq<ClosePair>, k: nat, qs: seq<ClosePair>)
    requires Inv(st, rejected, k) && forall q :: q in qs ==> q.dist2 < MaxInt
    ensures Inv(OfferAll(st, qs), rejected + Far(qs, st.longest), k)
  {
    OfferAllNear(st, qs);
    NearFarSplit(qs, st.longest);
    var near, far := Near(qs, st.longest), Far(qs, st.longest);
    var pairs' := st.pairs + near;
    if far != [] {
      assert far[0] in qs;
    }
    forall q, t | q in rejected + far && t in pairs' && k > 0 ensures t.dist2 <= q.dist2 {
      if t in near {
        assert t.dist2 < st.longest;
      }
    }
  }

  /** Cutting a sorted permutation of `pairs` after its first `cut` pairs:
      the kept ones come from `pairs`, and kept and cut together are `pairs`
      again. */
  lemma CutFromPairs(pairs: seq<ClosePair>, sorted: seq<ClosePair>, cut: nat)
    requires multiset(sorted) == multiset(pairs) && cut <= |sorted|
    ensures forall t :: t in sorted[..cut] ==> t in pairs
    ensures multiset(sorted[..cut]) + multiset(sorted[cut..]) == multiset(pairs)
  {
    assert sorted == sorted[..cut] + sorted[cut..];
    forall t | t in sorted[..cut] ensures t in pairs {
      assert t in multiset(sorted);
    }
  }

  /** No kept pair is farther than a cut one or than the last kept one. */
  lemma CutIsFarther(sorted: seq<ClosePair>, cut: nat)
    requires SortedBy(sorted, Dist) && cut <= |sorted|
    ensures forall q, t :: q in sorted[cut..] && t in sorted[..cut] ==> t.dist2 <= q.dist2
    ensures cut > 0 ==> forall t :: t in sorted[..cut] ==> t.dist2 <= sorted[cut - 1].dist2
  {
    forall q, t | q in sorted[cut..] && t in sorted[..cut] ensures t.dist2 <= q.dist2 {
      var i :| 0 <= i < |sorted[cut..]| && sorted[cut..][i] == q;
      var j :| 0 <= j < cut && sorted[..cut][j] == t;
      assert Dist(sorted[j]) <= Dist(sorted[cut + i]);
    }
    if cut > 0 {
      forall t | t in sorted[..cut] ensures t.dist2 <= sorted[cut - 1].dist2 {
        var j :| 0 <= j < cut && sorted[..cut][j] == t;
        assert Dist(sorted[j]) <= Dist(sorted[cut - 1]);
      }
    }
  }

  /** The invariant survives keeping the first pairs of a sorted permutation. */
  lemma InvAfterCut(st: PairState, rejected: seq<ClosePair>, k: nat, sorted: seq<ClosePair>, cut: nat)
    requires Inv(st, rejected, k)
    requires |sorted| == |st.pairs| && cut == if |sorted| > k then k else |sorted|
    requires forall t :: t in sorted[..cut] ==> t in st.pairs
    requires forall q, t :: q in sorted[cut..] && t in sorted[..cut] ==> t.dist2 <= q.dist2
    requires cut > 0 ==> forall t :: t in sorted[..cut] ==> t.dist2 <= sorted[cut - 1].dist2
    ensures Inv(PairState(sorted[..cut], if cut == k && k > 0 then sorted[cut - 1].dist2 else st.longest), rejected + sorted[cut..], k)
  {
    if cut == k && k > 0 {
      assert sorted[cut - 1] in sorted[..cut];
    }
  }

  /** Keeping the first pairs of a sorted permutation keeps the invariant. */
  lemma SortedCutKeeps(st: PairState, rejected: seq<ClosePair>, k: nat, sorted: seq<ClosePair>, cut: nat)
    requires Inv(st, rejected, k) && SortedBy(sorted, Dist) && multiset(sorted) == multiset(st.pairs)
    requires |sorted| == |st.pairs| && cut == if |sorted| > k then k else |sorted|
    ensures Inv(PairState(sorted[..cut], if cut == k && k > 0 then sorted[cut - 1].dist2 else st.longest), rejected + sorted[cut..], k)
    ensures multiset(sorted[..cut]) + multiset(sorted[cut..]) == multiset(st.pairs)
  {
    CutFromPairs(st.pairs, sorted, cut);
    CutIsFarther(sorted, cut);
    InvAfterCut(st, rejected, k, sorted, cut);
  }

  lemma TrimKeeps(st: PairState, rejected: seq<ClosePair>, k: nat)
    requires Inv(st, rejected, k)
    ensures Inv(Trim(st, k, false), rejected + Cut(st, k), k)
    ensures |Trim(st, k, false).pairs| <= k
    ensures multiset(Trim(st, k, false).pairs) + multiset(Cut(st, k)) == multiset(st.pairs)
  {
    var sorted := SortBy(st.pairs, Dist);
    var cut := if |sorted| > k then k else |sorted|;
    SortedCutKeeps(st, rejected, k, sorted, cut);
    assert Cut(st, k) == sorted[cut..];
    assert Trim(st, k, false) == PairState(sorted[..cut], if cut == k && k > 0 then sorted[cut - 1].dist2 else st.longest);
  }

  /** One corrected round keeps the invariant, leaves at most k pairs, and
      neither loses nor invents a pair. */
  lemma RoundKeeps(st: PairState, rejected: seq<ClosePair>, k: nat, row: seq<ClosePair>)
    requires Inv(st, rejected, k) && forall q :: q in row ==> q.dist2 < MaxInt
    ensures var offered := OfferAll(st, row);
      var st' := Trim(offered, k, false);
      Inv(st', rejected + Far(row, st.longest) + Cut(offered, k), k) && |st'.pairs| <= k &&
      multiset(st'.pairs) + multiset(Far(row, st.longest)) + multiset(Cut(offered, k)) == multiset(st.pairs) + multiset(row)
  {
    var far := Far(row, st.longest);
    var offered := OfferAll(st, row);
    OfferAllKeeps(st, rejected, k, row);
    TrimKeeps(offered, rejected + far, k);
    assert Inv(Trim(offered, k, false), rejected + far + Cut(offered, k), k);
    OfferAllNear(st, row);
    NearFarSplit(row, st.longest);
    MultisetShuffle(multiset(Trim(offered, k, false).pairs), multiset(Cut(offered, k)), multiset(st.pairs),
      multiset(Near(row, st.longest)), multiset(far), multiset(row));
  }

  lemma MultisetShuffle(kept: multiset<ClosePair>, cut: multiset<ClosePair>, before: multiset<ClosePair>,
                        near: multiset<ClosePair>, far: multiset<ClosePair>, row: multiset<ClosePair>)
    requires kept + cut == before + near && near + far == row
    ensures kept + far + cut == before + row
  {
    forall x ensures (kept + far + cut)[x] == (before + row)[x] {
      assert (kept + cut)[x] == (before + near)[x];
      assert (near + far)[x] == row[x];
    }
  }

  /** Round n + 1 continues from round n. */
  lemma RoundsUnfold(coords: seq<Coord>, k: nat, n: nat, asWritten: bool)
    requires n < |coords|
    ensures var st := Rounds(coords, k, n, asWritten);
      var row := RowPairs(coords, n, |coords|);
      Rounds(coords, k, n + 1, asWritten) == Trim(OfferAll(st, row), k, asWritten) &&
      Rejected(coords, k, n + 1, asWritten) == Rejected(coords, k, n, asWritten) + Far(row, st.longest) + Cut(OfferAll(st, row), k) &&
      AllPairs(coords, n + 1) == AllPairs(coords, n) + row
  {
  }

  lemma Regroup<T>(kept: multiset<T>, far: multiset<T>, cut: multiset<T>, before: multiset<T>,
                   row: multiset<T>, rejected: multiset<T>, offered: multiset<T>)
    requires kept + far + cut == before + row && before + rejected == offered
    ensures kept + (rejected + far + cut) == offered + row
  {
    forall x ensures (kept + (rejected + far + cut))[x] == (offered + row)[x] {
      assert (kept + far + cut)[x] == (before + row)[x];
      assert (before + rejected)[x] == offered[x];
    }
  }

  /** After n corrected rounds, the kept and the rejected pairs keep the
      invariant, together are exactly the offered pairs, and at most k pairs
      are kept. */
  lemma {:induction false} RoundsPartition(coords: seq<Coord>, k: nat, n: nat,
                                           st: PairState, rejected: seq<ClosePair>, offered: seq<ClosePair>)
    requires n <= |coords| && Bounded(coords)
    requires st == Rounds(coords, k, n, false) && rejected == Rejected(coords, k, n, false) && offered == AllPairs(coords, n)
    ensures Inv(st, rejected, k)
    ensures multiset(st.pairs) + multiset(rejected) == multiset(offered)
    ensures n > 0 ==> |st.pairs| <= k
    decreases n
  {
    if n > 0 {
      var m := n - 1;
      var st0, rejected0, offered0 := Rounds(coords, k, m, false), Rejected(coords, k, m, false), AllPairs(coords, m);
      RoundsPartition(coords, k, m, st0, rejected0, offered0);
      var row := RowPairs(coords, m, |coords|);
      RowPairsMeasured(coords, m, |coords|);
      forall q | q in row ensures q.dist2 < MaxInt {
        assert q == PairOf(coords, q.a, q.b);
      }
      RoundsUnfold(coords, k, m, false);
      RoundKeeps(st0, rejected0, k, row);
      var far, cut := Far(row, st0.longest), Cut(OfferAll(st0, row), k);
      Regroup(multiset(st.pairs), multiset(far), multiset(cut), multiset(st0.pairs), multiset(row),
        multiset(rejected0), multiset(offered0));
      assert multiset(rejected) == multiset(rejected0) + multiset(far) + multiset(cut);
      assert multiset(offered) == multiset(offered0) + multiset(row);
    }
  }

  /** The end of a round keeps only pairs it was given. */
  lemma TrimFrom(st: PairState, k: nat, asWritten: bool)
    ensures forall t :: t in Trim(st, k, asWritten).pairs ==> t in st.pairs
  {
    var sorted := SortBy(st.pairs, Dist);
    var cut := if |sorted| > k then k else |sorted|;
    CutFromPairs(st.pairs, sorted, cut);
    assert Trim(st, k, asWritten).pairs == sorted[..cut];
  }

  /** Offering a row adds only pairs of that row. */
  lemma OfferAllFrom(st: PairState, row: seq<ClosePair>)
    ensures forall t :: t in OfferAll(st, row).pairs ==> t in st.pairs || t in row
  {
    OfferAllNear(st, row);
    NearFarSplit(row, st.longest);
  }

  /** The corrected selection keeps at most k pairs, sorted by distance; it
      keeps and rejects exactly the offered pairs, and it rejects a pair only
      when it keeps k pairs, none of them farther. */
  lemma SelectIsClosest(coords: seq<Coord>, k: nat)
    requires Bounded(coords)
    ensures var kept := Select(coords, k);
      var rejected := Rejected(coords, k, |coords|, false);
      multiset(kept) + multiset(rejected) == multiset(AllPairs(coords, |coords|)) &&
      |kept| <= k && SortedBy(kept, Dist) &&
      (rejected != [] ==> |kept| == k) &&
      (forall q, t :: q in rejected && t in kept ==> t.dist2 <= q.dist2)
  {
    RoundsPartition(coords, k, |coords|, Rounds(coords, k, |coords|, false),
      Rejected(coords, k, |coords|, false), AllPairs(coords, |coords|));
    if |coords| > 0 {
      RoundShape(coords, k, |coords|, false);
    }
  }

  // ----------------------------------------------- the rule as written

  /** The invariant of the selection as written: `longest` separates the
      pairs: no kept pair is farther, and once k > 0 no rejected pair is
      closer. */
  predicate InvAsWritten(st: PairState, rejected: seq<ClosePair>, k: nat) {
    (forall t :: t in st.pairs ==> t.dist2 <= st.longest) &&
    (k > 0 ==> forall q :: q in rejected ==> st.longest <= q.dist2)
  }

  lemma OfferAllKeepsAsWritten(st: PairState, rejected: seq<ClosePair>, k: nat, qs: seq<ClosePair>)
    requires InvAsWritten(st, rejected, k)
    ensures InvAsWritten(OfferAll(st, qs), rejected + Far(qs, st.longest), k)
  {
    OfferAllNear(st, qs);
    NearFarSplit(qs, st.longest);
    var near, far := Near(qs, st.longest), Far(qs, st.longest);
  }

  /** The invariant as written survives keeping the first pairs of a sorted
      permutation and taking `longest` from the last kept one. */
  lemma InvAfterCutAsWritten(st: PairState, rejected: seq<ClosePair>, k: nat, sorted: seq<ClosePair>, cut: nat)
    requires InvAsWritten(st, rejected, k)
    requires |sorted| == |st.pairs| && cut == if |sorted| > k then k else |sorted|
    requires forall t :: t in sorted[..cut] ==> t in st.pairs
    requires forall q, t :: q in sorted[cut..] && t in sorted[..cut] ==> t.dist2 <= q.dist2
    requires cut > 0 ==> forall t :: t in sorted[..cut] ==> t.dist2 <= sorted[cut - 1].dist2
    ensures InvAsWritten(PairState(sorted[..cut], if cut > 0 then sorted[cut - 1].dist2 else st.longest), rejected + sorted[cut..], k)
  {
    if cut > 0 {
      assert sorted[cut - 1] in sorted[..cut];
    } else if k > 0 {
      assert sorted[cut..] == [];
    }
  }

  /** Keeping the first pairs of a sorted permutation keeps the invariant as
      written. */
  lemma SortedCutKeepsAsWritten(st: PairState, rejected: seq<ClosePair>, k: nat, sorted: seq<ClosePair>, cut: nat)
    requires InvAsWritten(st, rejected, k) && SortedBy(sorted, Dist) && multiset(sorted) == multiset(st.pairs)
    requires |sorted| == |st.pairs| && cut == if |sorted| > k then k else |sorted|
    ensures InvAsWritten(PairState(sorted[..cut], if cut > 0 then sorted[cut - 1].dist2 else st.longest), rejected + sorted[cut..], k)
  {
    CutFromPairs(st.pairs, sorted, cut);
    CutIsFarther(sorted, cut);
    InvAfterCutAsWritten(st, rejected, k, sorted, cut);
  }

  /** The end of a round, under either rule, keeps at most k pairs and
      splits the pairs into the kept and the cut ones. */
  lemma TrimSplits(st: PairState, k: nat, asWritten: bool)
    ensures |Trim(st, k, asWritten).pairs| <= k
    ensures multiset(Trim(st, k, asWritten).pairs) + multiset(Cut(st, k)) == multiset(st.pairs)
  {
    var sorted := SortBy(st.pairs, Dist);
    var cut := if |sorted| > k then k else |sorted|;
    CutFromPairs(st.pairs, sorted, cut);
    assert Cut(st, k) == sorted[cut..];
    assert Trim(st, k, asWritten).pairs == sorted[..cut];
  }

  /** The end of a round as written keeps the invariant. */
  lemma TrimKeepsAsWritten(st: PairState, rejected: seq<ClosePair>, k: nat)
    requires InvAsWritten(st, rejected, k)
    ensures InvAsWritten(Trim(st, k, true), rejected + Cut(st, k), k)
  {
    var sorted := SortBy(st.pairs, Dist);
    var cut := if |sorted| > k then k else |sorted|;
    SortedCutKeepsAsWritten(st, rejected, k, sorted, cut);
    assert Cut(st, k) == sorted[cut..];
    assert Trim(st, k, true) == PairState(sorted[..cut], if cut > 0 then sorted[cut - 1].dist2 else st.longest);
  }

  /** One round as written keeps the invariant, leaves at most k pairs, and
      neither loses nor invents a pair. */
  lemma RoundKeepsAsWritten(st: PairState, rejected: seq<ClosePair>, k: nat, row: seq<ClosePair>)
    requires InvAsWritten(st, rejected, k)
    ensures var offered := OfferAll(st, row);
      var st' := Trim(offered, k, true);
      InvAsWritten(st', rejected + Far(row, st.longest) + Cut(offered, k), k) && |st'.pairs| <= k &&
      multiset(st'.pairs) + multiset(Far(row, st.longest)) + multiset(Cut(offered, k)) == multiset(st.pairs) + multiset(row)
  {
    var far := Far(row, st.longest);
    var offered := OfferAll(st, row);
    OfferAllKeepsAsWritten(st, rejected, k, row);
    TrimKeepsAsWritten(offered, rejected + far, k);
    TrimSplits(offered, k, true);
    OfferAllNear(st, row);
    NearFarSplit(row, st.longest);
    MultisetShuffle(multiset(Trim(offered, k, true).pairs), multiset(Cut(offered, k)), multiset(st.pairs),
      multiset(Near(row, st.longest)), multiset(far), multiset(row));
  }

  /** After n rounds as written, the kept and the rejected pairs keep the
      invariant and together are exactly the offered pairs. */
  lemma {:induction false} RoundsPartitionAsWritten(coords: seq<Coord>, k: nat, n: nat,
                                                    st: PairState, rejected: seq<ClosePair>, offered: seq<ClosePair>)
    requires n <= |coords|
    requires st == Rounds(coords, k, n, true) && rejected == Rejected(coords, k, n, true) && offered == AllPairs(coords, n)
    ensures InvAsWritten(st, rejected, k)
    ensures multiset(st.pairs) + multiset(rejected) == multiset(offered)
    decreases n
  {
    if n > 0 {
      var m := n - 1;
      var st0, rejected0, offered0 := Rounds(coords, k, m, true), Rejected(coords, k, m, true), AllPairs(coords, m);
      RoundsPartitionAsWritten(coords, k, m, st0, rejected0, offered0);
      var row := RowPairs(coords, m, |coords|);
      RoundsUnfold(coords, k, m, true);
      RoundKeepsAsWritten(st0, rejected0, k, row);
      var far, cut := Far(row, st0.longest), Cut(OfferAll(st0, row), k);
      Regroup(multiset(st.pairs), multiset(far), multiset(cut), multiset(st0.pairs), multiset(row),
        multiset(rejected0), multiset(offered0));
      assert multiset(rejected) == multiset(rejected0) + multiset(far) + multiset(cut);
      assert multiset(offered) == multiset(offered0) + multiset(row);
    }
  }

  /** The selection as written keeps at most k pairs, sorted by distance; it
      keeps and rejects exactly the offered pairs, and no pair it rejects is
      closer than a pair it keeps.  Only the count can fall short of the
      corrected selection's: what it keeps is a closest few of all pairs. */
  lemma SelectAsWrittenIsNearest(coords: seq<Coord>, k: nat)
    ensures var kept := SelectAsWritten(coords, k);
      var rejected := Rejected(coords, k, |coords|, true);
      multiset(kept) + multiset(rejected) == multiset(AllPairs(coords, |coords|)) &&
      |kept| <= k && SortedBy(kept, Dist) &&
      (forall q, t :: q in rejected && t in kept ==> t.dist2 <= q.dist2)
  {
    RoundsPartitionAsWritten(coords, k, |coords|, Rounds(coords, k, |coords|, true),
      Rejected(coords, k, |coords|, true), AllPairs(coords, |coords|));
    if |coords| > 0 {
      RoundShape(coords, k, |coords|, true);
    } else {
      assert SelectAsWritten(coords, k) == [];
    }
  }

  /** Three boxes on a line, the middle one first. */
  function Line(): seq<Coord> {
    [Coord(0, 0, 0), Coord(1, 0, 0), Coord(-1, 0, 0)]
  }

  lemma LineRows()
    ensures RowPairs(Line(), 0, 3) == [ClosePair(0, 1, 1), ClosePair(0, 2, 1)]
    ensures RowPairs(Line(), 1, 3) == [ClosePair(1, 2, 4)]
    ensures RowPairs(Line(), 2, 3) == []
  {
    assert RowPairs(Line(), 0, 2) == [ClosePair(0, 1, 1)];
  }

  /** Two pairs at the same distance trade places when sorted. */
  lemma SortTwo(p: ClosePair, q: ClosePair)
    requires p.dist2 == q.dist2
    ensures SortBy([p, q], Dist) == [q, p]
  {
    assert [p, q][..1] == [p];
    assert [p][..0] == [];
    assert SortBy([p], Dist) == [p];
  }

  lemma OfferTwo(st: PairState, p: ClosePair, q: ClosePair)
    requires p.dist2 < st.longest && q.dist2 < st.longest
    ensures OfferAll(st, [p, q]) == PairState(st.pairs + [p, q], st.longest)
  {
    assert [p, q][..1] == [p];
    assert [p][..0] == [];
    assert OfferAll(st, []) == st;
    var s1 := Offer(st, p);
    assert OfferAll(st, [p]) == s1;
    assert Offer(s1, q) == PairState(st.pairs + [p] + [q], st.longest);
    assert st.pairs + [p] + [q] == st.pairs + [p, q];
  }

  lemma OfferFar(st: PairState, p: ClosePair)
    requires p.dist2 >= st.longest
    ensures OfferAll(st, [p]) == st
  {
    assert [p][..0] == [];
  }

  lemma LineFirstRound()
    ensures Rounds(Line(), 10, 1, true) == PairState([ClosePair(0, 2, 1), ClosePair(0, 1, 1)], 1)
  {
    LineRows();
    OfferTwo(PairState([], MaxInt), ClosePair(0, 1, 1), ClosePair(0, 2, 1));
    SortTwo(ClosePair(0, 1, 1), ClosePair(0, 2, 1));
  }

  lemma LineSecondRound()
    ensures Rounds(Line(), 10, 2, true) == PairState([ClosePair(0, 1, 1), ClosePair(0, 2, 1)], 1)
  {
    LineRows();
    LineFirstRound();
    OfferFar(PairState([ClosePair(0, 2, 1), ClosePair(0, 1, 1)], 1), ClosePair(1, 2, 4));
    SortTwo(ClosePair(0, 2, 1), ClosePair(0, 1, 1));
  }

  lemma LineLaterRounds()
    ensures Rounds(Line(), 10, 3, true).pairs == [ClosePair(0, 2, 1), ClosePair(0, 1, 1)]
  {
    LineRows();
    LineSecondRound();
    SortTwo(ClosePair(0, 1, 1), ClosePair(0, 2, 1));
  }

  lemma LineAllPairs()
    ensures ClosePair(1, 2, 4) in AllPairs(Line(), 3)
  {
    LineRows();
    assert AllPairs(Line(), 2) == AllPairs(Line(), 1) + [ClosePair(1, 2, 4)];
    assert AllPairs(Line(), 3) == AllPairs(Line(), 2) + [];
  }

  /** As written, `longest` is set after the first round even though fewer
      than k pairs are kept: with k = 10 and three boxes on a line, the pair
      of the two outer boxes is turned away although room is left. */
  lemma AsWrittenDropsPair()
    ensures var kept := SelectAsWritten(Line(), 10);
      ClosePair(1, 2, 4) in AllPairs(Line(), 3) && ClosePair(1, 2, 4) !in kept && |kept| < 10
  {
    LineLaterRounds();
    LineAllPairs();
  }
}
