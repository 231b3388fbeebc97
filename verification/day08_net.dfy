/** Day 8, second phase, on values: the circuits part1 builds from the kept
    pairs.  A box is named by its index; `owner[j]` is the position in the
    circuit list of the circuit box j belongs to, or -1 while it belongs to
    none, and `groups[i]` lists the boxes of circuit i in the order they
    joined it.  The classes of the Day08 module are proved to follow this
    model step by step. */
module Day08Net {
  import opened Sorting
  import opened Day08Pairs

  predicate Distinct<T(==)>(s: seq<T>) {
    forall i, j :: 0 <= i < j < |s| ==> s[i] != s[j]
  }

  datatype Net = Net(owner: seq<int>, groups: seq<seq<nat>>)

  /** The owner of a box in no circuit (a nil circuit pointer). */
  const NoCircuit: int := -1

  /** n boxes, none in a circuit yet. */
  function Empty(n: nat): Net {
    Net(seq(n, j => NoCircuit), [])
  }

  /** Owners and groups agree: a box in a circuit is listed by it and only
      by it, and every circuit lists at least two distinct boxes. */
  predicate NetOk(net: Net) {
    OwnersInRange(net) && GroupsOwned(net) && OwnersListed(net) && GroupsDistinct(net)
  }

  predicate OwnersInRange(net: Net) {
    forall j :: 0 <= j < |net.owner| ==> -1 <= net.owner[j] < |net.groups|
  }

  predicate GroupsOwned(net: Net) {
    forall i, k :: 0 <= i < |net.groups| && 0 <= k < |net.groups[i]| ==>
      net.groups[i][k] < |net.owner| && net.owner[net.groups[i][k]] == i
  }

  predicate OwnersListed(net: Net)
    requires OwnersInRange(net)
  {
    forall j :: 0 <= j < |net.owner| && net.owner[j] != -1 ==> j in net.groups[net.owner[j]]
  }

  predicate GroupsDistinct(net: Net) {
    forall i :: 0 <= i < |net.groups| ==> Distinct(net.groups[i]) && |net.groups[i]| >= 2
  }

  /** Boxes i and j are in the same circuit. */
  predicate Together(net: Net, i: nat, j: nat)
    requires i < |net.owner| && j < |net.owner|
  {
    net.owner[i] != -1 && net.owner[i] == net.owner[j]
  }

  /** Box i is a or b or shares a circuit with one of them. */
  predicate Linked(net: Net, i: nat, a: nat, b: nat)
    requires i < |net.owner| && a < |net.owner| && b < |net.owner|
  {
    i == a || i == b || Together(net, i, a) || Together(net, i, b)
  }

  /** The position of a circuit after the one at position gone is removed. */
  function Shift(l: int, gone: int): int {
    if l > gone then l - 1 else l
  }

  /** The circuits after connecting boxes a and b, and the position of the
      circuit that changed (-1 when a and b already share one). */
  function Connect(net: Net, a: nat, b: nat): (Net, int)
    requires NetOk(net) && a < |net.owner| && b < |net.owner| && a != b
  {
    var la, lb := net.owner[a], net.owner[b];
    if la != -1 && lb != -1 then
      if la == lb then (net, -1)
      else
        // a's circuit takes in b's circuit, which leaves the list
        var merged := net.groups[la := net.groups[la] + net.groups[lb]];
        var owner := seq(|net.owner|, j requires 0 <= j < |net.owner| =>
          Shift(if net.owner[j] == lb then la else net.owner[j], lb));
        (Net(owner, merged[..lb] + merged[lb + 1..]), Shift(la, lb))
    else if la != -1 then
      (Net(net.owner[b := la], net.groups[la := net.groups[la] + [b]]), la)
    else if lb != -1 then
      (Net(net.owner[a := lb], net.groups[lb := net.groups[lb] + [a]]), lb)
    else
      var n := |net.groups|;
      (Net(net.owner[a := n][b := n], net.groups + [[a, b]]), n)
  }

  // ------------------------------------------------ Connect keeps NetOk

  /** The position before the removal of position gone: the inverse of Shift. */
  function Unshift(i: int, gone: int): int {
    if i < gone then i else i + 1
  }

  /** The owners part of JoinShape on its own. */
  lemma JoinOwnerShape(net: Net, a: nat, b: nat)
    requires NetOk(net) && a < |net.owner| && b < |net.owner| && a != b
    requires net.owner[a] != -1 && net.owner[b] != -1 && net.owner[a] != net.owner[b]
    ensures var la, lb := net.owner[a], net.owner[b];
      var net' := Connect(net, a, b).0;
      |net'.owner| == |net.owner| && |net'.groups| == |net.groups| - 1 &&
      forall j :: 0 <= j < |net.owner| ==>
        net'.owner[j] == Shift(if net.owner[j] == lb then la else net.owner[j], lb)
  {
  }

  /** What joining b's circuit into a's does to owners and groups. */
  lemma JoinShape(net: Net, a: nat, b: nat)
    requires NetOk(net) && a < |net.owner| && b < |net.owner| && a != b
    requires net.owner[a] != -1 && net.owner[b] != -1 && net.owner[a] != net.owner[b]
    ensures var la, lb := net.owner[a], net.owner[b];
      var (net', up) := Connect(net, a, b);
      |net'.owner| == |net.owner| && |net'.groups| == |net.groups| - 1 && up == Shift(la, lb) &&
      (forall i :: 0 <= i < |net'.groups| ==>
        net'.groups[i] == if Unshift(i, lb) == la then net.groups[la] + net.groups[lb] else net.groups[Unshift(i, lb)]) &&
      (forall j :: 0 <= j < |net.owner| ==>
        net'.owner[j] == Shift(if net.owner[j] == lb then la else net.owner[j], lb))
  {
    JoinOwnerShape(net, a, b);
    var la, lb := net.owner[a], net.owner[b];
    var merged := net.groups[la := net.groups[la] + net.groups[lb]];
    var groups' := merged[..lb] + merged[lb + 1..];
    assert Connect(net, a, b).0.groups == groups';
    forall i | 0 <= i < |groups'|
      ensures groups'[i] == if Unshift(i, lb) == la then net.groups[la] + net.groups[lb] else net.groups[Unshift(i, lb)]
    {
      assert groups'[i] == merged[Unshift(i, lb)];
    }
  }

  lemma JoinOwned(net: Net, a: nat, b: nat)
    requires NetOk(net) && a < |net.owner| && b < |net.owner| && a != b
    requires net.owner[a] != -1 && net.owner[b] != -1 && net.owner[a] != net.owner[b]
    ensures OwnersInRange(Connect(net, a, b).0) && GroupsOwned(Connect(net, a, b).0)
  {
    var la, lb := net.owner[a], net.owner[b];
    var ga, gb := net.groups[la], net.groups[lb];
    var net' := Connect(net, a, b).0;
    JoinShape(net, a, b);
    forall i, k | 0 <= i < |net'.groups| && 0 <= k < |net'.groups[i]|
      ensures net'.groups[i][k] < |net'.owner| && net'.owner[net'.groups[i][k]] == i
    {
      var oi := Unshift(i, lb);
      var x := if oi == la then (ga + gb)[k] else net.groups[oi][k];
      assert net'.groups[i][k] == x;
      if oi == la && k >= |ga| {
        assert x == gb[k - |ga|];
      }
    }
  }

  lemma JoinListed(net: Net, a: nat, b: nat)
    requires NetOk(net) && a < |net.owner| && b < |net.owner| && a != b
    requires net.owner[a] != -1 && net.owner[b] != -1 && net.owner[a] != net.owner[b]
    requires OwnersInRange(Connect(net, a, b).0)
    ensures OwnersListed(Connect(net, a, b).0)
  {
    var la, lb := net.owner[a], net.owner[b];
    var net' := Connect(net, a, b).0;
    JoinShape(net, a, b);
    forall j | 0 <= j < |net'.owner| && net'.owner[j] != -1
      ensures j in net'.groups[net'.owner[j]]
    {
      assert j in net.groups[net.owner[j]];
      var x := if net.owner[j] == lb then la else net.owner[j];
      assert Unshift(Shift(x, lb), lb) == x;
    }
  }

  lemma JoinDistinct(net: Net, a: nat, b: nat)
    requires NetOk(net) && a < |net.owner| && b < |net.owner| && a != b
    requires net.owner[a] != -1 && net.owner[b] != -1 && net.owner[a] != net.owner[b]
    ensures GroupsDistinct(Connect(net, a, b).0)
  {
    var la, lb := net.owner[a], net.owner[b];
    var ga, gb := net.groups[la], net.groups[lb];
    var net' := Connect(net, a, b).0;
    JoinShape(net, a, b);
    assert Distinct(ga + gb) by {
      forall x, y | 0 <= x < y < |ga + gb| ensures (ga + gb)[x] != (ga + gb)[y] {
        if x < |ga| && y >= |ga| {
          assert net.owner[ga[x]] == la && net.owner[gb[y - |ga|]] == lb;
        }
      }
    }
  }

  lemma JoinKeeps(net: Net, a: nat, b: nat)
    requires NetOk(net) && a < |net.owner| && b < |net.owner| && a != b
    requires net.owner[a] != -1 && net.owner[b] != -1 && net.owner[a] != net.owner[b]
    ensures var (net', up) := Connect(net, a, b);
      NetOk(net') && |net'.owner| == |net.owner| && 0 <= up < |net'.groups|
  {
    JoinShape(net, a, b);
    JoinOwned(net, a, b);
    JoinListed(net, a, b);
    JoinDistinct(net, a, b);
  }

  lemma AddKeeps(net: Net, l: int, p: nat)
    requires NetOk(net) && 0 <= l < |net.groups| && p < |net.owner| && net.owner[p] == -1
    ensures NetOk(Net(net.owner[p := l], net.groups[l := net.groups[l] + [p]]))
  {
    var net' := Net(net.owner[p := l], net.groups[l := net.groups[l] + [p]]);
    forall i, k | 0 <= i < |net'.groups| && 0 <= k < |net'.groups[i]|
      ensures net'.groups[i][k] < |net'.owner| && net'.owner[net'.groups[i][k]] == i
    {
      if i == l && k < |net.groups[l]| {
        assert net'.groups[i][k] == net.groups[l][k];
      }
    }
    forall j | 0 <= j < |net'.owner| && net'.owner[j] != -1
      ensures j in net'.groups[net'.owner[j]]
    {
      if j != p {
        assert j in net.groups[net.owner[j]];
      }
    }
    forall k | 0 <= k < |net.groups[l]| ensures net.groups[l][k] != p {
      assert net.owner[net.groups[l][k]] == l;
    }
  }

  lemma NewKeeps(net: Net, a: nat, b: nat)
    requires NetOk(net) && a < |net.owner| && b < |net.owner| && a != b
    requires net.owner[a] == -1 && net.owner[b] == -1
    ensures var n := |net.groups|; NetOk(Net(net.owner[a := n][b := n], net.groups + [[a, b]]))
  {
    var n := |net.groups|;
    var net' := Net(net.owner[a := n][b := n], net.groups + [[a, b]]);
    forall i, k | 0 <= i < |net'.groups| && 0 <= k < |net'.groups[i]|
      ensures net'.groups[i][k] < |net'.owner| && net'.owner[net'.groups[i][k]] == i
    {
      if i < n {
        assert net'.groups[i][k] == net.groups[i][k];
        assert net.owner[net.groups[i][k]] == i;
      }
    }
  }

  /** Connecting keeps labels and groups in agreement, and the changed
      circuit, if any, is the one box a now belongs to. */
  lemma ConnectKeeps(net: Net, a: nat, b: nat)
    requires NetOk(net) && a < |net.owner| && b < |net.owner| && a != b
    ensures var (net', up) := Connect(net, a, b);
      NetOk(net') && |net'.owner| == |net.owner| && -1 <= up < |net'.groups| &&
      (up == -1 <==> Together(net, a, b)) &&
      (up != -1 ==> net'.owner[a] == up)
  {
    var la, lb := net.owner[a], net.owner[b];
    if la != -1 && lb != -1 {
      if la != lb {
        JoinKeeps(net, a, b);
      }
    } else if la != -1 {
      AddKeeps(net, la, b);
    } else if lb != -1 {
      AddKeeps(net, lb, a);
    } else {
      NewKeeps(net, a, b);
    }
  }

  /** Connecting a and b merges their circuits and nothing else: two boxes
      share a circuit afterwards exactly when they did before or each of
      them is linked to a or to b.  A pair already in one circuit changes
      nothing. */
  lemma MergesJoin(net: Net, a: nat, b: nat, i: nat, j: nat)
    requires NetOk(net) && a < |net.owner| && b < |net.owner| && a != b
    requires net.owner[a] != -1 && net.owner[b] != -1 && net.owner[a] != net.owner[b]
    requires i < |net.owner| && j < |net.owner|
    ensures var net' := Connect(net, a, b).0;
      |net'.owner| == |net.owner| &&
      (Together(net', i, j) <==> Together(net, i, j) || (Linked(net, i, a, b) && Linked(net, j, a, b)))
  {
    var la, lb := net.owner[a], net.owner[b];
    var net' := Connect(net, a, b).0;
    var x := if net.owner[i] == lb then la else net.owner[i];
    var y := if net.owner[j] == lb then la else net.owner[j];
    assert net'.owner[i] == Shift(x, lb) && net'.owner[j] == Shift(y, lb);
    assert Linked(net, i, a, b) <==> x == la;
    assert Linked(net, j, a, b) <==> y == la;
    ShiftInjective(x, y, lb);
  }

  lemma ShiftInjective(x: int, y: int, gone: int)
    requires x != gone && y != gone && x >= -1 && y >= -1 && gone >= 0
    ensures Shift(x, gone) == Shift(y, gone) <==> x == y
    ensures Shift(x, gone) == -1 <==> x == -1
  {
  }

  lemma MergesAdd(net: Net, a: nat, b: nat, i: nat, j: nat)
    requires NetOk(net) && a < |net.owner| && b < |net.owner| && a != b
    requires (net.owner[a] != -1) != (net.owner[b] != -1)
    requires i < |net.owner| && j < |net.owner|
    ensures var net' := Connect(net, a, b).0;
      |net'.owner| == |net.owner| &&
      (Together(net', i, j) <==> Together(net, i, j) || (Linked(net, i, a, b) && Linked(net, j, a, b)))
  {
    var la, lb := net.owner[a], net.owner[b];
    var net' := Connect(net, a, b).0;
    var l, p := if la != -1 then la else lb, if la != -1 then b else a;
    assert net'.owner == net.owner[p := l];
    assert Linked(net, i, a, b) <==> i == p || net.owner[i] == l;
    assert Linked(net, j, a, b) <==> j == p || net.owner[j] == l;
  }

  lemma MergesNew(net: Net, a: nat, b: nat, i: nat, j: nat)
    requires NetOk(net) && a < |net.owner| && b < |net.owner| && a != b
    requires net.owner[a] == -1 && net.owner[b] == -1
    requires i < |net.owner| && j < |net.owner|
    ensures var net' := Connect(net, a, b).0;
      |net'.owner| == |net.owner| &&
      (Together(net', i, j) <==> Together(net, i, j) || (Linked(net, i, a, b) && Linked(net, j, a, b)))
  {
    var n := |net.groups|;
    var net' := Connect(net, a, b).0;
    assert net'.owner == net.owner[a := n][b := n];
    assert net.owner[i] < n && net.owner[j] < n;
    assert Linked(net, i, a, b) <==> i == a || i == b;
    assert Linked(net, j, a, b) <==> j == a || j == b;
  }

  /** Connecting a and b merges their circuits and nothing else: two boxes
      share a circuit afterwards exactly when they did before or each of
      them is linked to a or to b.  A pair already in one circuit changes
      nothing. */
  lemma ConnectMerges(net: Net, a: nat, b: nat, i: nat, j: nat)
    requires NetOk(net) && a < |net.owner| && b < |net.owner| && a != b
    requires i < |net.owner| && j < |net.owner|
    ensures var net' := Connect(net, a, b).0;
      |net'.owner| == |net.owner| &&
      (Together(net', i, j) <==> Together(net, i, j) || (Linked(net, i, a, b) && Linked(net, j, a, b)))
    ensures Together(net, a, b) ==> Connect(net, a, b) == (net, -1)
  {
    var la, lb := net.owner[a], net.owner[b];
    if la != -1 && lb != -1 {
      if la != lb {
        MergesJoin(net, a, b, i, j);
      }
    } else if la != -1 || lb != -1 {
      MergesAdd(net, a, b, i, j);
    } else {
      MergesNew(net, a, b, i, j);
    }
  }

  // ------------------------------------------------ a circuit of every box

  /** The boxes a circuit lists, and the boxes 0..n-1. */
  function Members(s: seq<nat>): set<nat> {
    set x | x in s
  }

  function Range(n: nat): set<nat> {
    if n == 0 then {} else Range(n - 1) + {n - 1}
  }

  lemma {:induction false} RangeHas(n: nat)
    ensures forall j: nat :: j in Range(n) <==> j < n
  {
    if n > 0 {
      RangeHas(n - 1);
    }
  }

  lemma {:induction false} DistinctCard(s: seq<nat>)
    requires Distinct(s)
    ensures |Members(s)| == |s|
    decreases |s|
  {
    if s != [] {
      var init := s[..|s| - 1];
      var last := s[|s| - 1];
      DistinctCard(init);
      assert Members(s) == Members(init) + {last};
      assert last !in Members(init) by {
        forall x | x in init ensures x != last {
          var k :| 0 <= k < |init| && init[k] == x;
          assert s[k] == x;
        }
      }
    }
  }

  lemma {:induction false} RangeCard(n: nat)
    ensures |Range(n)| == n
    decreases n
  {
    if n > 0 {
      RangeCard(n - 1);
      RangeHas(n - 1);
    }
  }

  lemma {:induction false} SubsetCard(a: set<nat>, b: set<nat>)
    requires a <= b
    ensures |a| <= |b|
    decreases |b|
  {
    if b != {} {
      var x :| x in b;
      SubsetCard(a - {x}, b - {x});
    }
  }

  /** A circuit holds every one of the n boxes exactly when it has n members:
      the condition part1 stops on. */
  lemma FullCircuit(net: Net, i: nat)
    requires NetOk(net) && i < |net.groups|
    ensures |net.groups[i]| == |net.owner| <==> forall j :: 0 <= j < |net.owner| ==> net.owner[j] == i
  {
    var n := |net.owner|;
    var g := net.groups[i];
    DistinctCard(g);
    RangeCard(n);
    RangeHas(n);
    assert Members(g) <= Range(n);
    if |g| == n {
      forall j | 0 <= j < n ensures net.owner[j] == i {
        if j !in Members(g) {
          assert Members(g) <= Range(n) - {j};
          SubsetCard(Members(g), Range(n) - {j});
        }
      }
    }
    if forall j :: 0 <= j < n ==> net.owner[j] == i {
      forall j | j in Range(n) ensures j in Members(g) {
        assert j in net.groups[net.owner[j]];
      }
      assert Members(g) == Range(n);
    }
  }

  // ------------------------------------------------ the whole of part1

  /** Pairs between distinct boxes among n. */
  predicate ValidPairs(pairs: seq<ClosePair>, n: nat) {
    forall q :: q in pairs ==> q.a < n && q.b < n && q.a != q.b
  }

  datatype Outcome = Early(product: int) | Done(net: Net)

  /** The union loop of part1 over the remaining pairs: it stops with the
      product of the x coordinates of the pair whose circuit first holds
      every box. */
  function Unite(coords: seq<Coord>, net: Net, pairs: seq<ClosePair>): Outcome
    requires NetOk(net) && |net.owner| == |coords| && ValidPairs(pairs, |coords|)
    decreases |pairs|
  {
    if pairs == [] then Done(net)
    else
      var q := pairs[0];
      ConnectKeeps(net, q.a, q.b);
      var (net', up) := Connect(net, q.a, q.b);
      if up != -1 && |net'.groups[up]| == |coords| then Early(coords[q.a].x * coords[q.b].x)
      else Unite(coords, net', pairs[1..])
  }

  function Product(s: seq<int>): int {
    if s == [] then 1 else Product(s[..|s| - 1]) * s[|s| - 1]
  }

  function Neg(x: int): int {
    -x
  }

  /** The product of the (up to) three largest sizes, largest first. */
  function TopProduct(sizes: seq<int>): int {
    var sorted := SortBy(sizes, Neg);
    Product(sorted[..if |sorted| < 3 then |sorted| else 3])
  }

  function Sizes(groups: seq<seq<nat>>): (s: seq<int>)
    ensures |s| == |groups| && forall i :: 0 <= i < |groups| ==> s[i] == |groups[i]|
  {
    seq(|groups|, i requires 0 <= i < |groups| => |groups[i]|)
  }

  /** Every pair part1 keeps joins two different boxes. */
  lemma SelectValid(coords: seq<Coord>, k: nat)
    ensures ValidPairs(SelectAsWritten(coords, k), |coords|)
  {
    assert AllOrdered(SelectAsWritten(coords, k), |coords|);
  }

  /** The answer of part1 for boxes at coords and numConnections = k, from
      the pairs its loops keep. */
  function Part1Answer(coords: seq<Coord>, k: nat): int {
    SelectValid(coords, k);
    match Unite(coords, Empty(|coords|), SelectAsWritten(coords, k))
    case Early(p) => p
    case Done(net) => TopProduct(Sizes(net.groups))
  }

  // ------------------------------------------------ sorting the sizes

  predicate Descending(s: seq<int>) {
    forall i, j :: 0 <= i < j < |s| ==> s[i] >= s[j]
  }

  lemma SortedByNeg(s: seq<int>)
    requires SortedBy(s, Neg)
    ensures Descending(s)
  {
    forall i, j | 0 <= i < j < |s| ensures s[i] >= s[j] {
      assert Neg(s[i]) <= Neg(s[j]);
    }
  }

  lemma TailDescending(s: seq<int>)
    requires Descending(s) && s != []
    ensures Descending(s[1..])
  {
    forall i, j | 0 <= i < j < |s| - 1 ensures s[1..][i] >= s[1..][j] {
      assert s[1..][i] == s[i + 1] && s[1..][j] == s[j + 1];
    }
  }

  lemma HeadsEqual(s: seq<int>, t: seq<int>)
    requires Descending(s) && Descending(t) && multiset(s) == multiset(t) && s != []
    ensures t != [] && s[0] == t[0]
  {
    assert s[0] in multiset(s);
    var i :| 0 <= i < |t| && t[i] == s[0];
    assert t[0] in multiset(t);
    var j :| 0 <= j < |s| && s[j] == t[0];
    assert t[0] >= t[i] && s[0] >= s[j];
  }

  lemma TailsPermuted(s: seq<int>, t: seq<int>)
    requires multiset(s) == multiset(t) && s != [] && t != [] && s[0] == t[0]
    ensures multiset(s[1..]) == multiset(t[1..])
  {
    assert s == [s[0]] + s[1..] && t == [t[0]] + t[1..];
    assert multiset(s) == multiset{s[0]} + multiset(s[1..]);
    assert multiset(t) == multiset{s[0]} + multiset(t[1..]);
    forall x ensures multiset(s[1..])[x] == multiset(t[1..])[x] {
      assert multiset(s)[x] == multiset(t)[x];
    }
  }

  lemma {:induction false} DescendingUnique(s: seq<int>, t: seq<int>)
    requires Descending(s) && Descending(t) && multiset(s) == multiset(t)
    ensures s == t
    decreases |s|
  {
    if s != [] {
      HeadsEqual(s, t);
      TailsPermuted(s, t);
      TailDescending(s);
      TailDescending(t);
      DescendingUnique(s[1..], t[1..]);
      assert s == [s[0]] + s[1..] && t == [t[0]] + t[1..];
    } else {
      assert |t| == |multiset(t)|;
    }
  }

  /** The order of the circuit list, and the tie order of the sort, do not
      change the product of the three largest sizes. */
  lemma TopProductOrderFree(s: seq<int>, t: seq<int>)
    requires multiset(s) == multiset(t)
    ensures TopProduct(s) == TopProduct(t)
  {
    SortedByNeg(SortBy(s, Neg));
    SortedByNeg(SortBy(t, Neg));
    DescendingUnique(SortBy(s, Neg), SortBy(t, Neg));
  }

  /** The sizes multiplied are the largest: none left out exceeds them. */
  lemma TopProductLargest(sizes: seq<int>)
    ensures var sorted := SortBy(sizes, Neg);
      var top := if |sorted| < 3 then |sorted| else 3;
      multiset(sorted) == multiset(sizes) &&
      forall i, x :: 0 <= i < top && x in sorted[top..] ==> x <= sorted[i]
  {
    var sorted := SortBy(sizes, Neg);
    var top := if |sorted| < 3 then |sorted| else 3;
    forall i, x | 0 <= i < top && x in sorted[top..] ensures x <= sorted[i] {
      var j :| top <= j < |sorted| && sorted[j] == x;
      assert Neg(sorted[i]) <= Neg(sorted[j]);
    }
  }
}
