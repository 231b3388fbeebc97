/** Day 11: counting paths through the device graph.  Part 1 walks every
    route from "you" to "out" and records it.  Part 2 settles the nodes in
    topological order by repeated passes, each node adding up its parents'
    path counts once all of them are settled: all paths from "svr", the
    paths that have passed "fft", and those that have passed "fft" and
    then "dac". */
module Day11 {
  import opened Wrappers
  import opened Day11Parse

  // ------------------------------------------------------------ path counts

  /** The three counts a node keeps. */
  datatype Tally = AllPaths | ViaFft | ViaFftDac

  /** An order on tallies: each may be defined by the one before. */
  function Level(kind: Tally): nat {
    match kind
    case AllPaths => 0
    case ViaFft => 1
    case ViaFftDac => 2
  }

  /** The path count a node starts with: one (the empty path) at "svr". */
  function Seed(g: Network, v: nat): int
    requires v < |g.names|
  {
    if g.names[v] == "svr" then 1 else 0
  }

  /** The number of paths into v of at most f edges: for AllPaths every
      path from svr; for ViaFft those that pass fft; for ViaFftDac those
      that pass fft and then dac.  A path into v is v alone (svr, for
      AllPaths) or a path into one of v's parents, one per listing of the
      parent, extended by the edge to v. */
  function Paths(g: Network, kind: Tally, v: nat, f: nat): int
    requires WellFormed(g) && v < |g.names|
    decreases f, Level(kind), 0, 0
  {
    match kind
    case AllPaths =>
      Seed(g, v) + if f == 0 then 0 else SumPaths(g, AllPaths, g.parents[v], f - 1)
    case ViaFft =>
      if g.names[v] == "fft" then Paths(g, AllPaths, v, f)
      else if f == 0 then 0 else SumPaths(g, ViaFft, g.parents[v], f - 1)
    case ViaFftDac =>
      if g.names[v] == "dac" then Paths(g, ViaFft, v, f)
      else if f == 0 then 0 else SumPaths(g, ViaFftDac, g.parents[v], f - 1)
  }

  /** The paths into each of ps, added up. */
  function SumPaths(g: Network, kind: Tally, ps: seq<nat>, f: nat): int
    requires WellFormed(g) && Within(ps, |g.names|)
    decreases f, Level(kind), 1, |ps|
  {
    if ps == [] then 0
    else SumPaths(g, kind, ps[..|ps| - 1], f) + Paths(g, kind, ps[|ps| - 1], f)
  }

  // ------------------------------------------------------------ node state

  /** The fields populateCounts updates on a node. */
  datatype Counter = Counter(visited: bool, all: int, hasFFT: int, hasDAC: int)

  /** The count a node keeps for kind. */
  function Get(c: Counter, kind: Tally): int {
    match kind
    case AllPaths => c.all
    case ViaFft => c.hasFFT
    case ViaFftDac => c.hasDAC
  }

  /** The counts of the nodes of ps, added up. */
  function SumOf(kind: Tally, ps: seq<nat>, cs: seq<Counter>): int
    requires Within(ps, |cs|)
  {
    if ps == [] then 0 else SumOf(kind, ps[..|ps| - 1], cs) + Get(cs[ps[|ps| - 1]], kind)
  }

  /** The counts of a settled node: svr's one plus its parents' paths,
      reset to all the paths at fft, and to the fft paths at dac. */
  predicate Summed(g: Network, cs: seq<Counter>, v: nat)
    requires WellFormed(g) && |cs| == |g.names| && v < |cs|
  {
    var ps := g.parents[v];
    cs[v].all == Seed(g, v) + SumOf(AllPaths, ps, cs) &&
    cs[v].hasFFT == (if g.names[v] == "fft" then cs[v].all else SumOf(ViaFft, ps, cs)) &&
    cs[v].hasDAC == (if g.names[v] == "dac" then cs[v].hasFFT else SumOf(ViaFftDac, ps, cs))
  }

  /** Every parent of v was settled before it. */
  predicate ParentsBefore(g: Network, cs: seq<Counter>, rank: seq<nat>, v: nat)
    requires WellFormed(g) && |cs| == |g.names| && |rank| == |cs| && v < |cs|
  {
    forall k :: 0 <= k < |g.parents[v]| ==> cs[g.parents[v][k]].visited && rank[g.parents[v][k]] < rank[v]
  }

  /** A settled node has its sums and came after its parents (rank is the
      number of nodes settled before it); an unsettled one is untouched. */
  predicate NodeOk(g: Network, cs: seq<Counter>, rank: seq<nat>, visits: nat, v: nat)
    requires WellFormed(g) && |cs| == |g.names| && |rank| == |cs| && v < |cs|
  {
    if cs[v].visited then Summed(g, cs, v) && rank[v] < visits && ParentsBefore(g, cs, rank, v)
    else cs[v] == Counter(false, Seed(g, v), 0, 0)
  }

  /** The number of settled nodes. */
  function Settled(cs: seq<Counter>): (k: nat)
    ensures k <= |cs|
  {
    if cs == [] then 0 else Settled(cs[..|cs| - 1]) + if cs[|cs| - 1].visited then 1 else 0
  }

  /** The state populateCounts keeps between node visits. */
  predicate Consistent(g: Network, cs: seq<Counter>, rank: seq<nat>, visits: nat) {
    WellFormed(g) && |cs| == |g.names| && |rank| == |cs| && visits == Settled(cs) &&
    forall v :: 0 <= v < |cs| ==> NodeOk(g, cs, rank, visits, v)
  }

  /** No pass can settle anything more: every unsettled node has an
      unsettled parent. */
  predicate Fixpoint(g: Network, cs: seq<Counter>)
    requires WellFormed(g) && |cs| == |g.names|
  {
    forall v :: 0 <= v < |cs| ==> cs[v].visited || HasPendingParent(g, cs, v)
  }

  /** Some parent of v is not settled. */
  predicate HasPendingParent(g: Network, cs: seq<Counter>, v: nat)
    requires WellFormed(g) && |cs| == |g.names| && v < |cs|
  {
    exists k :: 0 <= k < |g.parents[v]| && !cs[g.parents[v][k]].visited
  }

  /** order lists each of the n nodes once. */
  predicate IsOrder(order: seq<nat>, n: nat) {
    |order| == n && Within(order, n) && forall v :: 0 <= v < n ==> v in order
  }

  // ------------------------------------------------------------ the graph

  /** The parsed graph with the counters populateCounts fills in. */
  class Graph {
    const net: Network
    var nodes: seq<Counter>
    ghost var rank: seq<nat>
    ghost var visits: nat

    /** The counters are consistent with the settling so far. */
    ghost predicate Valid()
      reads this
    {
      Consistent(net, nodes, rank, visits)
    }

    /** As parse leaves it: nothing settled, every count zero. */
    predicate Fresh()
      reads this
    {
      WellFormed(net) && |nodes| == |net.names| && forall v :: 0 <= v < |nodes| ==> nodes[v] == Counter(false, 0, 0, 0)
    }

    /** The nodes parse makes, with zeroed counters. */
    constructor (g: Network)
      requires WellFormed(g)
      ensures net == g && Fresh()
    {
      net := g;
      nodes := seq(|g.names|, _ => Counter(false, 0, 0, 0));
    }

    /** allParentsVisited: true exactly when every parent is settled
        (vacuously for a node without parents). */
    method AllParentsVisited(v: nat) returns (b: bool)
      requires WellFormed(net) && |nodes| == |net.names| && v < |nodes|
      ensures b <==> !HasPendingParent(net, nodes, v)
    {
      var ps := net.parents[v];
      for k := 0 to |ps|
        invariant forall k' :: 0 <= k' < k ==> nodes[ps[k']].visited
      {
        if !nodes[ps[k]].visited {
          return false;
        }
      }
      return true;
    }

    /** Settle v once all its parents are: add up their counts and reset
        at fft and dac. */
    method Visit(v: nat)
      requires Valid() && v < |nodes| && !nodes[v].visited && !HasPendingParent(net, nodes, v)
      modifies this
      ensures Valid() && visits == old(visits) + 1
      ensures |nodes| == |old(nodes)| && nodes[v].visited
      ensures forall u :: 0 <= u < |nodes| && u != v ==> nodes[u] == old(nodes[u])
    {
      var ps := net.parents[v];
      var sAll, sFft, sDac := 0, 0, 0;
      for k := 0 to |ps|
        invariant sAll == SumOf(AllPaths, ps[..k], nodes)
        invariant sFft == SumOf(ViaFft, ps[..k], nodes)
        invariant sDac == SumOf(ViaFftDac, ps[..k], nodes)
      {
        assert ps[..k + 1][..k] == ps[..k];
        var p := nodes[ps[k]];
        sAll, sFft, sDac := sAll + p.all, sFft + p.hasFFT, sDac + p.hasDAC;
      }
      assert ps[..|ps|] == ps;
      var node := nodes[v];
      var all := node.all + sAll;
      var fft := if net.names[v] == "fft" then all else node.hasFFT + sFft;
      var dac := if net.names[v] == "dac" then fft else node.hasDAC + sDac;
      VisitKeeps(net, nodes, rank, visits, v, Counter(true, all, fft, dac));
      nodes := nodes[v := Counter(true, all, fft, dac)];
      rank := rank[v := visits];
      visits := visits + 1;
    }

    /** populateCounts: seed svr with one path, then pass over the nodes
        (in the order the pass-th map iteration gives) settling each node
        whose parents are all settled, until a pass settles nothing. */
    method PopulateCounts(order: nat -> seq<nat>)
      requires Fresh() && "svr" in net.names
      requires forall pass :: IsOrder(order(pass), |nodes|)
      modifies this
      ensures Valid() && Fixpoint(net, nodes)
    {
      var svr := Lookup(net.names, "svr").value;
      Seeded(net, nodes, svr);
      nodes := nodes[svr := nodes[svr].(all := 1)];
      rank := seq(|nodes|, _ => 0);
      visits := 0;
      var pass := 0;
      while true
        invariant Valid()
        decreases |nodes| - visits
      {
        var changed := Pass(order(pass));
        if !changed {
          return;
        }
        pass := pass + 1;
      }
    }

    /** One pass over the nodes in the given order: settle each unsettled
        node whose parents are settled; changed tells whether any was. */
    method Pass(ord: seq<nat>) returns (changed: bool)
      requires Valid() && IsOrder(ord, |nodes|)
      modifies this
      ensures Valid()
      ensures changed ==> visits > old(visits)
      ensures !changed ==> nodes == old(nodes) && visits == old(visits) && Fixpoint(net, nodes)
    {
      changed := false;
      for j := 0 to |ord|
        invariant Valid() && |nodes| == |old(nodes)|
        invariant changed ==> visits > old(visits)
        invariant !changed ==> nodes == old(nodes) && visits == old(visits)
        invariant !changed ==> forall k :: 0 <= k < j ==> nodes[ord[k]].visited || HasPendingParent(net, nodes, ord[k])
      {
        var v := ord[j];
        if nodes[v].visited {
          continue;
        }
        var ready := AllParentsVisited(v);
        if ready {
          Visit(v);
          changed := true;
        }
      }
      if !changed {
        forall v | 0 <= v < |nodes| ensures nodes[v].visited || HasPendingParent(net, nodes, v) {
          assert v in ord;
          var k :| 0 <= k < |ord| && ord[k] == v;
        }
      }
    }
  }

  // ------------------------------------------------------------ settling

  /** Seeding svr gives every node its untouched state. */
  lemma Seeded(g: Network, cs: seq<Counter>, svr: nat)
    requires WellFormed(g) && |cs| == |g.names| && svr < |cs| && g.names[svr] == "svr"
    requires forall v :: 0 <= v < |cs| ==> cs[v] == Counter(false, 0, 0, 0)
    ensures Consistent(g, cs[svr := cs[svr].(all := 1)], seq(|cs|, _ => 0), 0)
  {
    var cs' := cs[svr := cs[svr].(all := 1)];
    NoneSettled(cs');
  }

  /** Nodes none of which is settled. */
  lemma {:induction false} NoneSettled(cs: seq<Counter>)
    requires forall v :: 0 <= v < |cs| ==> !cs[v].visited
    ensures Settled(cs) == 0
    decreases |cs|
  {
    if cs != [] {
      NoneSettled(cs[..|cs| - 1]);
    }
  }

  /** Settling one more node counts one more. */
  lemma {:induction false} SettleOne(cs: seq<Counter>, v: nat, c: Counter)
    requires v < |cs| && !cs[v].visited && c.visited
    ensures Settled(cs[v := c]) == Settled(cs) + 1
    decreases |cs|
  {
    var n := |cs| - 1;
    var cs' := cs[v := c];
    if v < n {
      assert cs'[..n] == cs[..n][v := c];
      SettleOne(cs[..n], v, c);
    } else {
      assert cs'[..n] == cs[..n];
    }
  }

  /** Changing a node outside ps leaves the counts of ps. */
  lemma {:induction false} SumOfOther(kind: Tally, ps: seq<nat>, cs: seq<Counter>, v: nat, c: Counter)
    requires Within(ps, |cs|) && v < |cs| && v !in ps
    ensures SumOf(kind, ps, cs[v := c]) == SumOf(kind, ps, cs)
    decreases |ps|
  {
    if ps != [] {
      SumOfOther(kind, ps[..|ps| - 1], cs, v, c);
    }
  }

  /** Settling a node whose parents are settled, with the sums of its
      parents, keeps the state consistent. */
  lemma VisitKeeps(g: Network, cs: seq<Counter>, rank: seq<nat>, visits: nat, v: nat, c: Counter)
    requires Consistent(g, cs, rank, visits) && v < |cs| && !cs[v].visited && !HasPendingParent(g, cs, v)
    requires c.visited && c.all == cs[v].all + SumOf(AllPaths, g.parents[v], cs)
    requires c.hasFFT == if g.names[v] == "fft" then c.all else cs[v].hasFFT + SumOf(ViaFft, g.parents[v], cs)
    requires c.hasDAC == if g.names[v] == "dac" then c.hasFFT else cs[v].hasDAC + SumOf(ViaFftDac, g.parents[v], cs)
    ensures Consistent(g, cs[v := c], rank[v := visits], visits + 1)
  {
    var cs' := cs[v := c];
    var rank' := rank[v := visits];
    var visits' := visits + 1;
    SettleOne(cs, v, c);
    forall u | 0 <= u < |cs| ensures NodeOk(g, cs', rank', visits', u) {
      VisitKeepsNode(g, cs, rank, visits, v, c, u);
    }
  }

  /** The same, node by node. */
  lemma VisitKeepsNode(g: Network, cs: seq<Counter>, rank: seq<nat>, visits: nat, v: nat, c: Counter, u: nat)
    requires Consistent(g, cs, rank, visits) && v < |cs| && !cs[v].visited && !HasPendingParent(g, cs, v)
    requires c.visited && c.all == cs[v].all + SumOf(AllPaths, g.parents[v], cs)
    requires c.hasFFT == if g.names[v] == "fft" then c.all else cs[v].hasFFT + SumOf(ViaFft, g.parents[v], cs)
    requires c.hasDAC == if g.names[v] == "dac" then c.hasFFT else cs[v].hasDAC + SumOf(ViaFftDac, g.parents[v], cs)
    requires u < |cs|
    ensures NodeOk(g, cs[v := c], rank[v := visits], visits + 1, u)
  {
    var cs' := cs[v := c];
    var rank' := rank[v := visits];
    var ps := g.parents[u];
    assert NodeOk(g, cs, rank, visits, u);
    if u == v {
      assert forall k :: 0 <= k < |ps| ==> cs[ps[k]].visited;
      forall k | 0 <= k < |ps| ensures rank[ps[k]] < visits {
        assert NodeOk(g, cs, rank, visits, ps[k]);
      }
    } else if cs[u].visited {
      assert ParentsBefore(g, cs, rank, u);
    }
    if u == v || cs[u].visited {
      assert forall k :: 0 <= k < |ps| ==> cs[ps[k]].visited;
      assert v !in ps;
      SumOfOther(AllPaths, ps, cs, v, c);
      SumOfOther(ViaFft, ps, cs, v, c);
      SumOfOther(ViaFftDac, ps, cs, v, c);
    }
  }

  // ------------------------------------------------------------ what settling means

  /** A settled node's counts are its path counts for every length bound
      from its rank on: they count every path into it, and none is longer
      than its rank. */
  lemma {:induction false} CountsArePaths(g: Network, cs: seq<Counter>, rank: seq<nat>, visits: nat, kind: Tally, v: nat, f: nat)
    requires Consistent(g, cs, rank, visits) && v < |cs| && cs[v].visited && rank[v] <= f
    ensures Get(cs[v], kind) == Paths(g, kind, v, f)
    decreases rank[v], Level(kind), 1
  {
    assert NodeOk(g, cs, rank, visits, v);
    var ps := g.parents[v];
    if ps != [] {
      assert rank[ps[0]] < rank[v];
      SumsArePaths(g, cs, rank, visits, kind, ps, f - 1, rank[v]);
    }
    match kind
    case AllPaths =>
    case ViaFft =>
      if g.names[v] == "fft" {
        CountsArePaths(g, cs, rank, visits, AllPaths, v, f);
      }
    case ViaFftDac =>
      if g.names[v] == "dac" {
        CountsArePaths(g, cs, rank, visits, ViaFft, v, f);
      }
  }

  /** Settled nodes ranked below bound, added up, give their path counts. */
  lemma {:induction false} SumsArePaths(g: Network, cs: seq<Counter>, rank: seq<nat>, visits: nat, kind: Tally, ps: seq<nat>, f: nat, bound: nat)
    requires Consistent(g, cs, rank, visits) && Within(ps, |cs|) && bound <= f + 1
    requires forall k :: 0 <= k < |ps| ==> cs[ps[k]].visited && rank[ps[k]] < bound
    ensures SumOf(kind, ps, cs) == SumPaths(g, kind, ps, f)
    decreases bound, Level(kind), 0, |ps|
  {
    if ps != [] {
      var n := |ps| - 1;
      SumsArePaths(g, cs, rank, visits, kind, ps[..n], f, bound);
      CountsArePaths(g, cs, rank, visits, kind, ps[n], f);
    }
  }

  /** Every edge runs from a lower to a higher level: the graph has no
      cycle. */
  predicate Layered(g: Network, level: seq<nat>)
    requires WellFormed(g)
  {
    |level| == |g.names| &&
    forall c, k :: 0 <= c < |g.names| && 0 <= k < |g.parents[c]| ==> level[g.parents[c][k]] < level[c]
  }

  /** In a graph without cycles the passes settle every node. */
  lemma {:induction false} AcyclicAllSettled(g: Network, cs: seq<Counter>, level: seq<nat>, v: nat)
    requires WellFormed(g) && |cs| == |g.names| && Fixpoint(g, cs) && Layered(g, level) && v < |cs|
    ensures cs[v].visited
    decreases level[v]
  {
    forall k | 0 <= k < |g.parents[v]| ensures cs[g.parents[v][k]].visited {
      AcyclicAllSettled(g, cs, level, g.parents[v][k]);
    }
    assert !HasPendingParent(g, cs, v);
  }

  /** part2: the paths from svr to out through fft and then dac, as the
      settled counts of out; zero when out was never settled. */
  method Part2(graph: Graph, order: nat -> seq<nat>) returns (r: int)
    requires graph.Fresh() && "svr" in graph.net.names
    requires forall pass :: IsOrder(order(pass), |graph.nodes|)
    modifies graph
    ensures graph.Valid() && Fixpoint(graph.net, graph.nodes)
    ensures var out := Lookup(graph.net.names, "out").value;
      r == if graph.nodes[out].visited then Paths(graph.net, ViaFftDac, out, |graph.nodes|) else 0
  {
    graph.PopulateCounts(order);
    var out := Lookup(graph.net.names, "out").value;
    r := graph.nodes[out].hasDAC;
    if graph.nodes[out].visited {
      assert NodeOk(graph.net, graph.nodes, graph.rank, graph.visits, out);
      CountsArePaths(graph.net, graph.nodes, graph.rank, graph.visits, ViaFftDac, out, |graph.nodes|);
    } else {
      assert NodeOk(graph.net, graph.nodes, graph.rank, graph.visits, out);
    }
  }

  // ------------------------------------------------------------ routes

  /** Every edge into a node other than out goes down in height, so the
      walk from any node ends. */
  predicate Descending(g: Network, height: seq<nat>)
    requires WellFormed(g)
  {
    |height| == |g.names| &&
    forall a, k :: 0 <= a < |g.names| && 0 <= k < |g.children[a]| && g.names[g.children[a][k]] != "out" ==>
      height[g.children[a][k]] < height[a]
  }

  /** The routes traverse records from n, each extending pathIn: one per
      child in order, ending at the child if it is out and continuing
      from it otherwise. */
  function Routes(g: Network, height: seq<nat>, n: nat, pathIn: seq<nat>): seq<seq<nat>>
    requires WellFormed(g) && Descending(g, height) && n < |g.names|
    decreases height[n], 1, 0
  {
    RoutesVia(g, height, n, pathIn, |g.children[n]|)
  }

  /** The routes through the first j children of n. */
  function RoutesVia(g: Network, height: seq<nat>, n: nat, pathIn: seq<nat>, j: nat): seq<seq<nat>>
    requires WellFormed(g) && Descending(g, height) && n < |g.names| && j <= |g.children[n]|
    decreases height[n], 0, j
  {
    if j == 0 then []
    else
      var child := g.children[n][j - 1];
      var newpath := pathIn + [child];
      RoutesVia(g, height, n, pathIn, j - 1) +
      if g.names[child] == "out" then [newpath] else Routes(g, height, child, newpath)
  }

  /** traverse: append to successes every route from n that extends pathIn. */
  method Traverse(g: Network, ghost height: seq<nat>, n: nat, pathIn: seq<nat>, successes: seq<seq<nat>>)
      returns (found: seq<seq<nat>>)
    requires WellFormed(g) && Descending(g, height) && n < |g.names|
    ensures found == successes + Routes(g, height, n, pathIn)
    decreases height[n]
  {
    found := successes;
    for j := 0 to |g.children[n]|
      invariant found == successes + RoutesVia(g, height, n, pathIn, j)
    {
      var child := g.children[n][j];
      var newpath := pathIn + [child];
      if g.names[child] == "out" {
        found := found + [newpath];
        continue;
      }
      found := Traverse(g, height, child, newpath, found);
    }
  }

  /** r extends pathIn by a walk along edges that reaches out and passes
      no other out on the way. */
  predicate RouteFrom(g: Network, pathIn: seq<nat>, r: seq<nat>)
    requires WellFormed(g) && |pathIn| >= 1
  {
    |r| > |pathIn| && r[..|pathIn|] == pathIn &&
    (forall i :: |pathIn| - 1 <= i < |r| - 1 ==> r[i] < |g.names| && r[i + 1] in g.children[r[i]]) &&
    r[|r| - 1] < |g.names| && g.names[r[|r| - 1]] == "out" &&
    forall i :: |pathIn| <= i < |r| - 1 ==> g.names[r[i]] != "out"
  }

  /** Every route traverse records from the end of pathIn is a walk to out
      extending pathIn. */
  lemma {:induction false} RoutesAreWalks(g: Network, height: seq<nat>, n: nat, pathIn: seq<nat>)
    requires WellFormed(g) && Descending(g, height) && n < |g.names|
    requires |pathIn| >= 1 && pathIn[|pathIn| - 1] == n
    ensures forall r :: r in Routes(g, height, n, pathIn) ==> RouteFrom(g, pathIn, r)
    decreases height[n], 1
  {
    RoutesViaAreWalks(g, height, n, pathIn, |g.children[n]|);
  }

  /** The same, for the routes through the first j children. */
  lemma {:induction false} RoutesViaAreWalks(g: Network, height: seq<nat>, n: nat, pathIn: seq<nat>, j: nat)
    requires WellFormed(g) && Descending(g, height) && n < |g.names| && j <= |g.children[n]|
    requires |pathIn| >= 1 && pathIn[|pathIn| - 1] == n
    ensures forall r :: r in RoutesVia(g, height, n, pathIn, j) ==> RouteFrom(g, pathIn, r)
    decreases height[n], 0, j
  {
    if j > 0 {
      RoutesViaAreWalks(g, height, n, pathIn, j - 1);
      var child := g.children[n][j - 1];
      var newpath := pathIn + [child];
      assert child in g.children[n];
      if g.names[child] == "out" {
        assert RouteFrom(g, pathIn, newpath);
      } else {
        RoutesAreWalks(g, height, child, newpath);
        forall r | r in Routes(g, height, child, newpath) ensures RouteFrom(g, pathIn, r) {
          Shorten(g, pathIn, child, r);
        }
      }
    }
  }

  /** A route extending pathIn + [child], where child is a child of the
      end of pathIn and not out, is a route extending pathIn. */
  lemma Shorten(g: Network, pathIn: seq<nat>, child: nat, r: seq<nat>)
    requires WellFormed(g) && |pathIn| >= 1 && pathIn[|pathIn| - 1] < |g.names|
    requires child < |g.names| && child in g.children[pathIn[|pathIn| - 1]] && g.names[child] != "out"
    requires RouteFrom(g, pathIn + [child], r)
    ensures RouteFrom(g, pathIn, r)
  {
    var p := pathIn + [child];
    assert r[..|pathIn|] == p[..|pathIn|] == pathIn;
    assert r[|pathIn| - 1] == pathIn[|pathIn| - 1] && r[|pathIn|] == child;
  }

  /** A route extending pathIn whose next node is child, not out, is a route
      extending pathIn + [child]. */
  lemma Lengthen(g: Network, pathIn: seq<nat>, child: nat, r: seq<nat>)
    requires WellFormed(g) && |pathIn| >= 1 && RouteFrom(g, pathIn, r)
    requires r[|pathIn|] == child && child < |g.names| && g.names[child] != "out"
    ensures RouteFrom(g, pathIn + [child], r)
  {
    var p := pathIn + [child];
    assert |r| > |p|;
    assert r[..|p|] == r[..|pathIn|] + [r[|pathIn|]];
  }

  /** Every walk from the end of pathIn to out is a route traverse records. */
  lemma {:induction false} RoutesComplete(g: Network, height: seq<nat>, n: nat, pathIn: seq<nat>, r: seq<nat>)
    requires WellFormed(g) && Descending(g, height) && n < |g.names|
    requires |pathIn| >= 1 && pathIn[|pathIn| - 1] == n && RouteFrom(g, pathIn, r)
    ensures r in Routes(g, height, n, pathIn)
    decreases height[n], 1
  {
    assert r[|pathIn| - 1] == n;
    var i :| 0 <= i < |g.children[n]| && g.children[n][i] == r[|pathIn|];
    RoutesViaComplete(g, height, n, pathIn, r, i, |g.children[n]|);
  }

  /** The same, for a walk whose first step is to child i of n, among the
      routes through the first j > i children. */
  lemma {:induction false} RoutesViaComplete(g: Network, height: seq<nat>, n: nat, pathIn: seq<nat>, r: seq<nat>, i: nat, j: nat)
    requires WellFormed(g) && Descending(g, height) && n < |g.names| && i < j <= |g.children[n]|
    requires |pathIn| >= 1 && pathIn[|pathIn| - 1] == n && RouteFrom(g, pathIn, r)
    requires g.children[n][i] == r[|pathIn|]
    ensures r in RoutesVia(g, height, n, pathIn, j)
    decreases height[n], 0, j
  {
    var child := g.children[n][j - 1];
    var newpath := pathIn + [child];
    if i < j - 1 {
      RoutesViaComplete(g, height, n, pathIn, r, i, j - 1);
    } else if g.names[child] == "out" {
      assert g.names[r[|pathIn|]] == "out";
      assert |r| == |newpath|;
      assert r == r[..|pathIn|] + [r[|pathIn|]];
    } else {
      Lengthen(g, pathIn, child, r);
      RoutesComplete(g, height, child, newpath, r);
    }
  }

  /** part1: the number of routes from you to out that traverse records;
      these are exactly the walks along edges from you to out. */
  method Part1(g: Network, ghost height: seq<nat>) returns (count: nat)
    requires WellFormed(g) && Descending(g, height) && "you" in g.names
    ensures var you := Lookup(g.names, "you").value;
      count == |Routes(g, height, you, [you])| &&
      (forall r :: r in Routes(g, height, you, [you]) ==> RouteFrom(g, [you], r)) &&
      (forall r :: RouteFrom(g, [you], r) ==> r in Routes(g, height, you, [you]))
  {
    var you := Lookup(g.names, "you").value;
    var successes := Traverse(g, height, you, [you], []);
    RoutesAreWalks(g, height, you, [you]);
    forall r | RouteFrom(g, [you], r) ensures r in Routes(g, height, you, [you]) {
      RoutesComplete(g, height, you, [you], r);
    }
    return |successes|;
  }
}
