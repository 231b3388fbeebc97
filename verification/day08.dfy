/** Day 8 as the solver runs it: junction boxes are objects that point to
    the circuit they belong to, a circuit is an object holding its list of
    boxes, and part1 keeps a closestPairs object and a list of circuits.
    Each step is proved to follow the value model of Day08Pairs and
    Day08Net, so the answer of part1 is Day08Net.Part1Answer. */
module Day08 {
  import opened Sorting
  import opened Day08Pairs
  import opened Day08Net

  /** point3: fixed coordinates and a pointer to its circuit (null for nil). */
  class Point {
    const x: int
    const y: int
    const z: int
    var circuit: Circuit?

    constructor(x: int, y: int, z: int)
      ensures this.x == x && this.y == y && this.z == z && circuit == null
    {
      this.x, this.y, this.z := x, y, z;
      circuit := null;
    }

    function Pos(): Coord {
      Coord(x, y, z)
    }
  }

  /** The coordinates of a list of boxes. */
  function Coords(points: seq<Point>): (c: seq<Coord>)
    ensures |c| == |points| && forall j :: 0 <= j < |points| ==> c[j] == points[j].Pos()
  {
    seq(|points|, j requires 0 <= j < |points| => points[j].Pos())
  }

  /** The boxes of ps that enter a circuit when they are added one after
      another: those not already in it (has) and not met earlier in ps. */
  function Entering(ps: seq<Point>, has: set<Point>): seq<Point> {
    if ps == [] then []
    else
      var last := ps[|ps| - 1];
      var init := ps[..|ps| - 1];
      Entering(init, has) + (if last in has || last in init then [] else [last])
  }

  /** Distinct boxes none of which is in the circuit all enter it, in order. */
  lemma {:induction false} EnteringAll(ps: seq<Point>, has: set<Point>)
    requires Distinct(ps) && forall p :: p in ps ==> p !in has
    ensures Entering(ps, has) == ps
  {
    if ps != [] {
      var init := ps[..|ps| - 1];
      assert Distinct(init);
      EnteringAll(init, has);
      forall k | 0 <= k < |init| ensures init[k] != ps[|ps| - 1] {
        assert init[k] == ps[k];
      }
      assert ps == init + [ps[|ps| - 1]];
    }
  }

  /** A box enters at most once, and only when it is not already in. */
  lemma {:induction false} EnteringDistinct(ps: seq<Point>, has: set<Point>)
    ensures Distinct(Entering(ps, has))
    ensures forall p :: p in Entering(ps, has) <==> p in ps && p !in has
  {
    if ps != [] {
      var init := ps[..|ps| - 1];
      EnteringDistinct(init, has);
      forall p ensures p in ps <==> p in init || p == ps[|ps| - 1] {
        assert ps == init + [ps[|ps| - 1]];
      }
    }
  }

  /** A circuit: the list of its boxes. */
  class Circuit {
    var members: seq<Point>

    /** The literal `&circuit{a, b}`. */
    constructor(a: Point, b: Point)
      ensures members == [a, b]
    {
      members := [a, b];
    }

    /** has: p points to this circuit. */
    predicate Has(p: Point)
      reads p
    {
      p.circuit == this
    }

    /** The boxes of ps that already point to this circuit. */
    function Owned(ps: seq<Point>): set<Point>
      reads set p | p in ps
    {
      set p | p in ps && p.circuit == this
    }

    /** add: a box not yet in the circuit is appended and points to it;
        adding a box that is in it changes nothing, so adding twice is
        adding once. */
    method Add(p: Point)
      modifies this, p
      ensures p.circuit == this
      ensures members == if old(p.circuit) == this then old(members) else old(members) + [p]
    {
      if !Has(p) {
        members := members + [p];
        p.circuit := this;
      }
    }

    /** join: every box of other enters this circuit, the boxes already in
        it keep their places, and all of other's boxes point here. */
    method Join(other: Circuit)
      modifies this, set p | p in other.members
      ensures members == old(members) + Entering(old(other.members), old(Owned(other.members)))
      ensures forall p :: p in old(other.members) ==> p.circuit == this
    {
      var ms := other.members;
      ghost var has := Owned(ms);
      var i := 0;
      while i < |ms|
        invariant i <= |ms|
        invariant members == old(members) + Entering(ms[..i], has)
        invariant forall p :: p in ms ==> (p.circuit == this <==> p in has || p in ms[..i])
      {
        var p := ms[i];
        assert ms[..i + 1] == ms[..i] + [p];
        assert ms[..i + 1][..i] == ms[..i];
        if !Has(p) {
          Add(p);
        }
        i := i + 1;
      }
      assert ms[..i] == ms;
    }
  }

  // ------------------------------------------------ choosing the pairs

  /** closestPairs: the kept pairs and the distance a new pair must beat. */
  class ClosestPairs {
    var pairs: seq<ClosePair>
    var longest: int

    /** NewClosestPairs: nothing kept, every distance below math.MaxInt accepted. */
    constructor()
      ensures pairs == [] && longest == MaxInt
    {
      pairs := [];
      longest := MaxInt;
    }

    function State(): PairState
      reads this
    {
      PairState(pairs, longest)
    }

    /** addPair: the pair of boxes a and b is kept exactly when it is closer than `longest`. */
    method AddPair(points: seq<Point>, a: nat, b: nat)
      requires a < |points| && b < |points|
      modifies this
      ensures longest == old(longest)
      ensures var d := LinearDist2(points[a].Pos(), points[b].Pos());
        pairs == if d < old(longest) then old(pairs) + [ClosePair(a, b, d)] else old(pairs)
    {
      var dist2 := LinearDist2(points[a].Pos(), points[b].Pos());
      if dist2 < longest {
        pairs := pairs + [ClosePair(a, b, dist2)];
      }
    }

    /** The end of an outer round: sort by distance, keep the first k, and
        take `longest` from the last kept pair whenever one is kept. */
    method SortAndTrim(k: nat)
      modifies this
      ensures State() == Trim(old(State()), k, true)
    {
      pairs := SortBy(pairs, Dist);
      if |pairs| > k {
        pairs := pairs[..k];
      }
      if |pairs| > 0 {
        longest := pairs[|pairs| - 1].dist2;
      }
    }
  }

  lemma OfferOneMore(base: PairState, row: seq<ClosePair>, q: ClosePair)
    ensures OfferAll(base, row + [q]) == Offer(OfferAll(base, row), q)
  {
    assert (row + [q])[..|row|] == row;
  }

  /** The inner pair loop of part1: row i of pairs offered in order. */
  method OfferRow(cpairs: ClosestPairs, points: seq<Point>, i: nat, ghost base: PairState)
    requires i < |points| && cpairs.State() == base
    modifies cpairs
    ensures cpairs.State() == OfferAll(base, RowPairs(Coords(points), i, |points|))
  {
    ghost var coords := Coords(points);
    var j := i + 1;
    while j < |points|
      invariant i < j <= |points|
      invariant cpairs.State() == OfferAll(base, RowPairs(coords, i, j))
    {
      OfferOneMore(base, RowPairs(coords, i, j), PairOf(coords, i, j));
      cpairs.AddPair(points, i, j);
      j := j + 1;
    }
  }

  /** The pair loops of part1: the kept pairs are those of the value model
      with the bound rule as written. */
  method ChoosePairs(points: seq<Point>, k: nat) returns (pairs: seq<ClosePair>)
    ensures pairs == SelectAsWritten(Coords(points), k)
  {
    ghost var coords := Coords(points);
    var cpairs := new ClosestPairs();
    var i := 0;
    while i < |points|
      invariant i <= |points|
      invariant cpairs.State() == Rounds(coords, k, i, true)
    {
      OfferRow(cpairs, points, i, cpairs.State());
      cpairs.SortAndTrim(k);
      i := i + 1;
    }
    pairs := cpairs.pairs;
  }

  // ------------------------------------------------ the circuits

  /** The boxes a list of box indexes names. */
  function Boxes(points: seq<Point>, g: seq<nat>): (r: seq<Point>)
    requires forall k :: 0 <= k < |g| ==> g[k] < |points|
    ensures |r| == |g| && forall k :: 0 <= k < |g| ==> r[k] == points[g[k]]
  {
    seq(|g|, k requires 0 <= k < |g| => points[g[k]])
  }

  /** The circuit pointer an owner position stands for (-1 for nil). */
  function CircuitAt(circuits: seq<Circuit>, l: int): Circuit?
    requires -1 <= l < |circuits|
  {
    if l == -1 then null else circuits[l]
  }

  /** The objects of part1 are the value model net: box j points to the
      circuit at position owner[j] of the list, and circuit i lists the
      boxes of groups[i], in the same order. */
  ghost predicate Mirrors(points: seq<Point>, circuits: seq<Circuit>, net: Net)
    reads points, circuits
  {
    NetOk(net) && |net.owner| == |points| && |net.groups| == |circuits| &&
    Distinct(points) && Distinct(circuits) &&
    PointsMirror(points, circuits, net) && CircuitsMirror(points, circuits, net)
  }

  ghost predicate PointsMirror(points: seq<Point>, circuits: seq<Circuit>, net: Net)
    requires |net.owner| == |points| && |net.groups| == |circuits| && OwnersInRange(net)
    reads points
  {
    forall j :: 0 <= j < |points| ==> points[j].circuit == CircuitAt(circuits, net.owner[j])
  }

  ghost predicate CircuitsMirror(points: seq<Point>, circuits: seq<Circuit>, net: Net)
    requires |net.owner| == |points| && |net.groups| == |circuits| && GroupsOwned(net)
    reads circuits
  {
    forall i :: 0 <= i < |circuits| ==> circuits[i].members == Boxes(points, net.groups[i])
  }

  /** slices.Index: the first position holding x, or -1. */
  function Index<T(==)>(s: seq<T>, x: T): (i: int)
    ensures -1 <= i < |s|
    ensures i >= 0 ==> s[i] == x && x !in s[..i]
    ensures i == -1 <==> x !in s
  {
    if s == [] then -1
    else if s[0] == x then 0
    else
      var k := Index(s[1..], x);
      assert s == [s[0]] + s[1..];
      assert k >= 0 ==> s[..k + 1] == [s[0]] + s[1..][..k];
      if k == -1 then -1 else k + 1
  }

  /** Neither box is in a circuit: a new circuit of the two joins the list. */
  method NewCase(points: seq<Point>, circuits: seq<Circuit>, ghost net: Net, a: nat, b: nat)
    returns (circuits': seq<Circuit>, last: Circuit)
    requires Mirrors(points, circuits, net) && a < |points| && b < |points| && a != b
    requires net.owner[a] == -1 && net.owner[b] == -1
    modifies points[a], points[b]
    ensures Mirrors(points, circuits', Connect(net, a, b).0)
    ensures last == circuits'[Connect(net, a, b).1]
    ensures circuits' == circuits + [last] && fresh(last)
  {
    NewKeeps(net, a, b);
    var pa, pb := points[a], points[b];
    var newCircuit := new Circuit(pa, pb);
    pa.circuit := newCircuit;
    pb.circuit := newCircuit;
    circuits' := circuits + [newCircuit];
    last := newCircuit;
    ghost var n := |net.groups|;
    ghost var net' := Connect(net, a, b).0;
    assert net'.groups[n] == [a, b];
    forall i | 0 <= i < n ensures circuits'[i].members == Boxes(points, net'.groups[i]) {
      assert circuits'[i] == circuits[i];
    }
  }

  /** Box host is in a circuit and box p in none: the circuit adds p. */
  method AddCase(points: seq<Point>, circuits: seq<Circuit>, ghost net: Net, host: nat, p: nat)
    returns (last: Circuit)
    requires Mirrors(points, circuits, net) && host < |points| && p < |points|
    requires net.owner[host] != -1 && net.owner[p] == -1
    modifies points[host].circuit, points[p]
    ensures var l := net.owner[host];
      Mirrors(points, circuits, Net(net.owner[p := l], net.groups[l := net.groups[l] + [p]]))
    ensures last == circuits[net.owner[host]]
  {
    ghost var l := net.owner[host];
    AddKeeps(net, l, p);
    var c := points[host].circuit;
    c.Add(points[p]);
    last := c;
    ghost var net' := Net(net.owner[p := l], net.groups[l := net.groups[l] + [p]]);
    forall i | 0 <= i < |circuits| ensures circuits[i].members == Boxes(points, net'.groups[i]) {
      if i != l {
        assert circuits[i] != c;
      }
    }
  }

  /** The boxes listed by group l are distinct, and they are exactly the
      boxes whose owner is l. */
  lemma GroupBoxes(points: seq<Point>, net: Net, l: nat)
    requires NetOk(net) && |net.owner| == |points| && l < |net.groups| && Distinct(points)
    ensures var gone := Boxes(points, net.groups[l]);
      Distinct(gone) && forall j :: 0 <= j < |points| ==> (points[j] in gone <==> net.owner[j] == l)
  {
    var g := net.groups[l];
    var gone := Boxes(points, g);
    forall x, y | 0 <= x < y < |g| ensures gone[x] != gone[y] {
      assert g[x] != g[y];
    }
    forall j | 0 <= j < |points| ensures points[j] in gone <==> net.owner[j] == l {
      if net.owner[j] == l {
        var k :| 0 <= k < |g| && g[k] == j;
        assert gone[k] == points[j];
      }
      forall k | 0 <= k < |g| && gone[k] == points[j] ensures net.owner[j] == l {
        assert g[k] == j;
      }
    }
  }

  /** Removing position gone of a list (`append(s[:ix], s[ix+1:]...)`)
      shifts the later elements down by one and keeps them distinct. */
  lemma RemoveAt<T>(s: seq<T>, gone: nat)
    requires gone < |s|
    ensures var r := s[..gone] + s[gone + 1..];
      |r| == |s| - 1 && (forall i :: 0 <= i < |r| ==> r[i] == s[Unshift(i, gone)]) &&
      (Distinct(s) ==> Distinct(r))
  {
  }

  /** The boxes a circuit lists point to it. */
  lemma MembersPointHere(points: seq<Point>, circuits: seq<Circuit>, net: Net, l: nat)
    requires Mirrors(points, circuits, net) && l < |circuits|
    ensures forall p :: p in circuits[l].members ==> p.circuit == circuits[l] && p in points
  {
    forall p | p in circuits[l].members ensures p.circuit == circuits[l] && p in points {
      var k :| 0 <= k < |net.groups[l]| && circuits[l].members[k] == p;
      assert net.owner[net.groups[l][k]] == l;
    }
  }

  /** Owner lb merged into owner la. */
  function Merged(o: int, la: int, lb: int): int {
    if o == lb then la else o
  }

  /** What a's circuit taking in the boxes of b's circuit leaves behind:
      the boxes of b's circuit point to a's circuit, the others are as
      before, a's circuit lists both groups and the other circuits are as
      before. */
  ghost predicate Joined(points: seq<Point>, circuits: seq<Circuit>, net: Net, la: nat, lb: nat)
    requires |net.owner| == |points| && |net.groups| == |circuits| && OwnersInRange(net) && GroupsOwned(net)
    requires la < |circuits| && lb < |circuits|
    reads points, circuits
  {
    (forall j :: 0 <= j < |points| ==> points[j].circuit == CircuitAt(circuits, Merged(net.owner[j], la, lb))) &&
    circuits[la].members == Boxes(points, net.groups[la] + net.groups[lb]) &&
    (forall i :: 0 <= i < |circuits| && i != la ==> circuits[i].members == Boxes(points, net.groups[i]))
  }

  lemma JoinPointsMirror(points: seq<Point>, circuits: seq<Circuit>, net: Net, a: nat, b: nat)
    requires NetOk(net) && |net.owner| == |points| && |net.groups| == |circuits|
    requires a < |points| && b < |points| && a != b
    requires net.owner[a] != -1 && net.owner[b] != -1 && net.owner[a] != net.owner[b]
    requires Joined(points, circuits, net, net.owner[a], net.owner[b])
    ensures var lb := net.owner[b];
      var net', circuits' := Connect(net, a, b).0, circuits[..lb] + circuits[lb + 1..];
      |net'.owner| == |points| && |net'.groups| == |circuits'| && OwnersInRange(net') &&
      PointsMirror(points, circuits', net')
  {
    var la, lb := net.owner[a], net.owner[b];
    var circuits' := circuits[..lb] + circuits[lb + 1..];
    JoinOwned(net, a, b);
    JoinOwnerShape(net, a, b);
    RemoveAt(circuits, lb);
    var net' := Connect(net, a, b).0;
    forall j | 0 <= j < |points| ensures points[j].circuit == CircuitAt(circuits', net'.owner[j]) {
      var m := Merged(net.owner[j], la, lb);
      assert net'.owner[j] == Shift(m, lb);
      if m != -1 {
        assert Unshift(Shift(m, lb), lb) == m;
        assert circuits'[Shift(m, lb)] == circuits[m];
      }
    }
  }

  lemma JoinCircuitsMirror(points: seq<Point>, circuits: seq<Circuit>, net: Net, a: nat, b: nat)
    requires NetOk(net) && |net.owner| == |points| && |net.groups| == |circuits|
    requires a < |points| && b < |points| && a != b
    requires net.owner[a] != -1 && net.owner[b] != -1 && net.owner[a] != net.owner[b]
    requires Joined(points, circuits, net, net.owner[a], net.owner[b])
    ensures var lb := net.owner[b];
      var net', circuits' := Connect(net, a, b).0, circuits[..lb] + circuits[lb + 1..];
      |net'.owner| == |points| && |net'.groups| == |circuits'| && GroupsOwned(net') &&
      CircuitsMirror(points, circuits', net')
  {
    var la, lb := net.owner[a], net.owner[b];
    var circuits' := circuits[..lb] + circuits[lb + 1..];
    JoinKeeps(net, a, b);
    JoinShape(net, a, b);
    RemoveAt(circuits, lb);
    var net' := Connect(net, a, b).0;
    forall i | 0 <= i < |circuits'| ensures circuits'[i].members == Boxes(points, net'.groups[i]) {
      assert circuits'[i] == circuits[Unshift(i, lb)];
    }
  }

  /** Both boxes are in different circuits: a's circuit takes in b's, and
      b's circuit leaves the list. */
  method JoinCase(points: seq<Point>, circuits: seq<Circuit>, ghost net: Net, a: nat, b: nat)
    returns (circuits': seq<Circuit>, last: Circuit)
    requires Mirrors(points, circuits, net) && a < |points| && b < |points| && a != b
    requires net.owner[a] != -1 && net.owner[b] != -1 && net.owner[a] != net.owner[b]
    modifies points, points[a].circuit
    ensures Mirrors(points, circuits', Connect(net, a, b).0)
    ensures last == circuits'[Connect(net, a, b).1]
    ensures forall c :: c in circuits' ==> c in circuits
  {
    ghost var la, lb := net.owner[a], net.owner[b];
    var ca, cb := points[a].circuit, points[b].circuit;
    var ix := Index(circuits, cb);
    // log.Fatalf is never reached: b's circuit is in the list
    assert ix == lb;
    ghost var before, lists := CircuitsOf(points), MembersOf(circuits);
    GroupBoxes(points, net, lb);
    MembersPointHere(points, circuits, net, lb);
    JoinCircuits(points, circuits, net.owner, ca, cb, la, lb, before, lists);
    JoinedFrom(points, circuits, net, la, lb, before, lists);
    last := ca;
    circuits' := circuits[..ix] + circuits[ix + 1..];
    JoinMirrors(points, circuits, net, a, b);
  }

  /** Once the circuits are joined, dropping b's circuit from the list
      leaves the list mirroring the joined net. */
  lemma JoinMirrors(points: seq<Point>, circuits: seq<Circuit>, net: Net, a: nat, b: nat)
    requires NetOk(net) && |net.owner| == |points| && |net.groups| == |circuits|
    requires Distinct(points) && Distinct(circuits)
    requires a < |points| && b < |points| && a != b
    requires net.owner[a] != -1 && net.owner[b] != -1 && net.owner[a] != net.owner[b]
    requires Joined(points, circuits, net, net.owner[a], net.owner[b])
    ensures var lb := net.owner[b];
      var (net', up) := Connect(net, a, b);
      var circuits' := circuits[..lb] + circuits[lb + 1..];
      Mirrors(points, circuits', net') && 0 <= up < |circuits'| && circuits'[up] == circuits[net.owner[a]]
  {
    var lb := net.owner[b];
    JoinKeeps(net, a, b);
    JoinOwnerShape(net, a, b);
    RemoveAt(circuits, lb);
    JoinPointsMirror(points, circuits, net, a, b);
    JoinCircuitsMirror(points, circuits, net, a, b);
  }

  /** The circuit pointers of a list of boxes, and the member lists of a
      list of circuits, as values. */
  ghost function CircuitsOf(points: seq<Point>): (r: seq<Circuit?>)
    reads points
    ensures |r| == |points| && forall j :: 0 <= j < |points| ==> r[j] == points[j].circuit
  {
    seq(|points|, j requires 0 <= j < |points| reads points => points[j].circuit)
  }

  ghost function MembersOf(circuits: seq<Circuit>): (r: seq<seq<Point>>)
    reads circuits
    ensures |r| == |circuits| && forall i :: 0 <= i < |circuits| ==> r[i] == circuits[i].members
  {
    seq(|circuits|, i requires 0 <= i < |circuits| reads circuits => circuits[i].members)
  }

  /** pair.a.circuit.join(pair.b.circuit): the boxes of b's circuit (those
      with owner lb) now point to a's circuit, which lists them after its
      own; nothing else changes. */
  method JoinCircuits(points: seq<Point>, circuits: seq<Circuit>, ghost owner: seq<int>,
                      ca: Circuit, cb: Circuit, ghost la: nat, ghost lb: nat,
                      ghost before: seq<Circuit?>, ghost lists: seq<seq<Point>>)
    requires la < |circuits| && lb < |circuits| && la != lb && Distinct(circuits)
    requires ca == circuits[la] && cb == circuits[lb] && |owner| == |points|
    requires before == CircuitsOf(points) && lists == MembersOf(circuits)
    requires Distinct(cb.members) && forall p :: p in cb.members ==> p.circuit == cb && p in points
    requires forall j :: 0 <= j < |points| ==> (points[j] in cb.members <==> owner[j] == lb)
    modifies points, ca
    ensures forall j :: 0 <= j < |points| ==> points[j].circuit == if owner[j] == lb then ca else before[j]
    ensures ca.members == lists[la] + lists[lb]
    ensures forall i :: 0 <= i < |circuits| && i != la ==> circuits[i].members == lists[i]
  {
    ghost var gone := cb.members;
    assert ca.Owned(gone) == {};
    EnteringAll(gone, {});
    ca.Join(cb);
    forall i | 0 <= i < |circuits| && i != la ensures circuits[i].members == lists[i] {
      assert circuits[i] != ca;
    }
  }

  /** In values: what JoinCircuits leaves is as Joined says. */
  lemma JoinedFrom(points: seq<Point>, circuits: seq<Circuit>, net: Net, la: nat, lb: nat,
                   before: seq<Circuit?>, lists: seq<seq<Point>>)
    requires NetOk(net) && |net.owner| == |points| && |net.groups| == |circuits|
    requires la < |circuits| && lb < |circuits| && la != lb
    requires |before| == |points| && forall j :: 0 <= j < |points| ==> before[j] == CircuitAt(circuits, net.owner[j])
    requires |lists| == |circuits| && forall i :: 0 <= i < |circuits| ==> lists[i] == Boxes(points, net.groups[i])
    requires forall j :: 0 <= j < |points| ==>
      points[j].circuit == if net.owner[j] == lb then circuits[la] else before[j]
    requires circuits[la].members == lists[la] + lists[lb]
    requires forall i :: 0 <= i < |circuits| && i != la ==> circuits[i].members == lists[i]
    ensures Joined(points, circuits, net, la, lb)
  {
  }

  // ------------------------------------------------ part1

  /** Boxes in no circuit and no circuits mirror the empty net. */
  lemma EmptyMirrors(points: seq<Point>)
    requires Distinct(points) && forall j :: 0 <= j < |points| ==> points[j].circuit == null
    ensures Mirrors(points, [], Empty(|points|))
  {
  }

  /** The product loop of part1 over the sizes sorted largest first. */
  method TopThree(sizes: seq<int>) returns (product: int)
    ensures product == TopProduct(sizes)
  {
    var sorted := SortBy(sizes, Neg);
    product := 1;
    var i := 0;
    while i < 3 && i < |sorted|
      invariant i <= |sorted| && i <= 3
      invariant product == Product(sorted[..i])
    {
      assert sorted[..i + 1][..i] == sorted[..i];
      product := product * sorted[i];
      i := i + 1;
    }
    assert i == if |sorted| < 3 then |sorted| else 3;
  }

  /** One pair of the union loop of part1 (the switch on the two circuit
      pointers): the objects then mirror the connected net, and lastUpdated
      is the circuit that changed, or null when the two boxes already
      shared one (the `continue`). */
  method Connect1(points: seq<Point>, circuits: seq<Circuit>, ghost net: Net, a: nat, b: nat)
    returns (circuits': seq<Circuit>, lastUpdated: Circuit?)
    requires Mirrors(points, circuits, net) && a < |points| && b < |points| && a != b
    modifies points, set c | c in circuits
    ensures Mirrors(points, circuits', Connect(net, a, b).0)
    ensures var (net', up) := Connect(net, a, b);
      if up == -1 then lastUpdated == null
      else 0 <= up < |circuits'| && lastUpdated == circuits'[up] && |lastUpdated.members| == |net'.groups[up]|
    ensures forall c :: c in circuits' ==> c in circuits || fresh(c)
  {
    ConnectKeeps(net, a, b);
    circuits' := circuits;
    lastUpdated := null;
    var pa, pb := points[a], points[b];
    if pa.circuit != null && pb.circuit != null {
      if pa.circuit == pb.circuit {
        return;
      }
      circuits', lastUpdated := JoinCase(points, circuits, net, a, b);
    } else if pa.circuit != null {
      lastUpdated := AddCase(points, circuits, net, a, b);
    } else if pb.circuit != null {
      lastUpdated := AddCase(points, circuits, net, b, a);
    } else {
      circuits', lastUpdated := NewCase(points, circuits, net, a, b);
    }
  }

  /** The union loop over pairs[i..] takes pairs[i], then either stops or
      goes on with pairs[i+1..]. */
  lemma UniteStep(coords: seq<Coord>, net: Net, pairs: seq<ClosePair>, i: nat)
    requires NetOk(net) && |net.owner| == |coords| && ValidPairs(pairs, |coords|) && i < |pairs|
    ensures var q := pairs[i];
      var (net', up) := Connect(net, q.a, q.b);
      NetOk(net') && |net'.owner| == |coords| && -1 <= up < |net'.groups| &&
      ValidPairs(pairs[i + 1..], |coords|) &&
      Unite(coords, net, pairs[i..]) ==
        if up != -1 && |net'.groups[up]| == |coords| then Early(coords[q.a].x * coords[q.b].x)
        else Unite(coords, net', pairs[i + 1..])
  {
    ConnectKeeps(net, pairs[i].a, pairs[i].b);
    assert pairs[i..][0] == pairs[i] && pairs[i..][1..] == pairs[i + 1..];
  }

  /** One turn of part1's union loop: connect pair i and report whether
      the circuit it touched now holds every box. */
  method UniteTurn(points: seq<Point>, circuits: seq<Circuit>, ghost net: Net, pairs: seq<ClosePair>, i: nat)
    returns (circuits': seq<Circuit>, ghost net': Net, stop: bool, product: int)
    requires Mirrors(points, circuits, net) && ValidPairs(pairs, |points|) && i < |pairs|
    modifies points, set c | c in circuits
    ensures Mirrors(points, circuits', net') && ValidPairs(pairs[i + 1..], |points|)
    ensures forall c :: c in circuits' ==> c in circuits || fresh(c)
    ensures var coords := Coords(points);
      if stop then Unite(coords, net, pairs[i..]) == Early(product)
      else Unite(coords, net, pairs[i..]) == Unite(coords, net', pairs[i + 1..])
  {
    var pair := pairs[i];
    UniteStep(Coords(points), net, pairs, i);
    ghost var step := Connect(net, pair.a, pair.b);
    var lastUpdated;
    circuits', lastUpdated := Connect1(points, circuits, net, pair.a, pair.b);
    net' := step.0;
    stop := lastUpdated != null && |lastUpdated.members| == |points|;
    product := if stop then points[pair.a].x * points[pair.b].x else 0;
  }

  /** The union loop of part1 over the chosen pairs: it stops early with
      the product of the x coordinates of the pair whose circuit first
      holds every box, as Unite does; otherwise the circuits left mirror
      the net Unite ends with. */
  method UnionLoop(points: seq<Point>, pairs: seq<ClosePair>) returns (early: bool, product: int, circuits: seq<Circuit>, ghost net: Net)
    requires Distinct(points) && forall j :: 0 <= j < |points| ==> points[j].circuit == null
    requires ValidPairs(pairs, |points|)
    modifies points
    ensures var outcome := Unite(Coords(points), Empty(|points|), pairs);
      if early then outcome == Early(product) else outcome == Done(net) && Mirrors(points, circuits, net)
  {
    ghost var coords := Coords(points);
    circuits := [];
    net := Empty(|points|);
    EmptyMirrors(points);
    var i := 0;
    while i < |pairs|
      invariant i <= |pairs| && Mirrors(points, circuits, net)
      invariant forall c :: c in circuits ==> fresh(c)
      invariant Unite(coords, net, pairs[i..]) == Unite(coords, Empty(|points|), pairs)
    {
      var stop;
      circuits, net, stop, product := UniteTurn(points, circuits, net, pairs, i);
      if stop {
        return true, product, circuits, net;
      }
      i := i + 1;
    }
    assert pairs[i..] == [];
    return false, 0, circuits, net;
  }

  /** part1: the chosen pairs are connected in order; the answer is the
      early product, or else the product of the three largest circuit sizes. */
  method Part1(points: seq<Point>, numConnections: nat) returns (product: int)
    requires Distinct(points) && forall j :: 0 <= j < |points| ==> points[j].circuit == null
    modifies points
    ensures product == Part1Answer(Coords(points), numConnections)
  {
    var pairs := ChoosePairs(points, numConnections);
    SelectValid(Coords(points), numConnections);
    var early, circuits;
    ghost var net;
    early, product, circuits, net := UnionLoop(points, pairs);
    if early {
      return product;
    }
    var sizes := seq(|circuits|, k requires 0 <= k < |circuits| reads circuits => |circuits[k].members|);
    assert sizes == Sizes(net.groups);
    product := TopThree(sizes);
  }
}
