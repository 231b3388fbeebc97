/** Day 10, part 1: machines of lamps and switches.  A Go `bits` value (an
    int) is modelled as the set of the positions of its 1 bits; Go's int is
    64 bits wide, so every position is below 64.  XOR is symmetric
    difference, OR is union and `1<<i` is {i}.  A switch XORs its mask into
    the lamp state; search looks for the fewest switches, each used at most
    once, that turn the all-off state into the wanted lamps. */
module Day10Toggle {
  import opened Sorting
  import opened Wrappers

  type Bits = set<nat>

  /** Every position of a mask fits in a 64-bit int. */
  predicate InWord(b: Bits) {
    forall i :: i in b ==> i < 64
  }

  function Xor(a: Bits, b: Bits): Bits {
    (a - b) + (b - a)
  }

  lemma XorAssoc(a: Bits, b: Bits, c: Bits)
    ensures Xor(Xor(a, b), c) == Xor(a, Xor(b, c))
  {
  }

  function Pow2(i: nat): nat {
    if i == 0 then 1 else 2 * Pow2(i - 1)
  }

  /** The weight of bit i in a signed 64-bit int. */
  function Weight(i: nat): int {
    var p: int := Pow2(i);
    if i == 63 then -p else p
  }

  /** The int a mask stands for, from bit i upwards; sort.Slice compares
      switches by this value. */
  function ValueFrom(b: Bits, i: nat): int
    decreases 64 - i
  {
    if i >= 64 then 0 else (if i in b then Weight(i) else 0) + ValueFrom(b, i + 1)
  }

  function Value(b: Bits): int {
    ValueFrom(b, 0)
  }

  // ------------------------------------------------------------------ text

  /** asBits: '#' for each set bit and '.' for each clear one, low bit first,
      for the first n bits. */
  method AsBits(b: Bits, n: int) returns (s: string)
    ensures |s| == if n < 0 then 0 else n
    ensures forall i :: 0 <= i < |s| ==> s[i] == if i in b then '#' else '.'
  {
    s := "";
    var i := 0;
    while i < n
      invariant 0 <= i && (i <= n || i == 0) && |s| == i
      invariant forall j :: 0 <= j < i ==> s[j] == if j in b then '#' else '.'
    {
      if i in b {
        s := s + "#";
      } else {
        s := s + ".";
      }
      i := i + 1;
    }
  }

  /** The lamps a pattern switches on: the positions of its '#' that fit in
      the word. */
  function LampSet(s: string): (b: Bits)
    ensures InWord(b)
  {
    set i | 0 <= i < |s| && i < 64 && s[i] == '#'
  }

  /** parseLamps: the length of the pattern and its mask, bit i standing for
      character i; a '#' beyond bit 63 shifts out of the word. */
  method ParseLamps(s: string) returns (n: int, lamps: Bits)
    ensures n == |s| && lamps == LampSet(s)
  {
    var result: Bits := {};
    for i := 0 to |s|
      invariant result == set j | 0 <= j < i && j < 64 && s[j] == '#'
    {
      var b := if s[i] == '#' then 1 else 0;
      result := result + (if b == 1 && i < 64 then {i} else {});
    }
    return |s|, result;
  }

  /** The worked examples of parseLamps: ".#.#" is 0xa and "#.#..#.#" is 0xa5. */
  lemma ParseLampsExamples()
    ensures LampSet(".#.#") == {1, 3}
    ensures LampSet("#.#..#.#") == {0, 2, 5, 7}
  {
    assert ".#.#"[1] == '#' && ".#.#"[3] == '#';
    assert "#.#..#.#"[0] == '#' && "#.#..#.#"[2] == '#' && "#.#..#.#"[5] == '#' && "#.#..#.#"[7] == '#';
  }

  /** Printing n bits and parsing them back gives n and the mask, when the
      mask has no bit at or above n. */
  method PrintThenParse(b: Bits, n: nat) returns (n': int, b': Bits)
    requires n <= 64 && forall i :: i in b ==> i < n
    ensures n' == n && b' == b
  {
    var s := AsBits(b, n);
    n', b' := ParseLamps(s);
    forall i | i in b ensures i in b' {
      assert s[i] == '#';
    }
  }

  /** Parsing a pattern of '.' and '#' and printing it back at its length
      gives the pattern. */
  method ParseThenPrint(s: string) returns (s': string)
    requires |s| <= 64 && forall i :: 0 <= i < |s| ==> s[i] == '.' || s[i] == '#'
    ensures s' == s
  {
    var n, b := ParseLamps(s);
    s' := AsBits(b, n);
  }

  // ------------------------------------------------------------------ search

  /** The part of a machine the toggle search uses. */
  datatype Toggle = Toggle(nbits: int, lamps: Bits, switches: seq<Bits>, state: Bits)

  function RemoveAt<T>(s: seq<T>, i: nat): (r: seq<T>)
    requires i < |s|
    ensures |r| == |s| - 1
    ensures multiset(r) == multiset(s) - multiset{s[i]}
  {
    assert s == s[..i] + [s[i]] + s[i + 1..];
    s[..i] + s[i + 1..]
  }

  /** The machine pressSwitch makes after switch i: the new state, the same
      lamps, and the other switches sorted by value. */
  function Child(m: Toggle, i: nat): (c: Toggle)
    requires i < |m.switches|
    ensures |c.switches| == |m.switches| - 1
  {
    Toggle(m.nbits, m.lamps, SortBy(RemoveAt(m.switches, i), Value), Xor(m.state, m.switches[i]))
  }

  /** The child keeps the machine's width and lamps, has the state after
      switch i, and has every other switch once, sorted by value. */
  lemma ChildFacts(m: Toggle, i: nat)
    requires i < |m.switches|
    ensures var c := Child(m, i);
      c.nbits == m.nbits && c.lamps == m.lamps && c.state == Xor(m.state, m.switches[i]) &&
      multiset(c.switches) == multiset(m.switches) - multiset{m.switches[i]} &&
      SortedBy(c.switches, Value)
  {
  }

  /** pressSwitch: done when switch i turns the state into the lamps,
      otherwise the child machine, built by copying every other switch and
      sorting them by value. */
  method PressSwitch(m: Toggle, i: nat) returns (child: Option<Toggle>, done: bool)
    requires i < |m.switches|
    ensures done <==> Xor(m.state, m.switches[i]) == m.lamps
    ensures done ==> child == None
    ensures !done ==> child == Some(Child(m, i))
  {
    var newState := Xor(m.state, m.switches[i]);
    if newState == m.lamps {
      return None, true;
    }
    var rest: seq<Bits> := [];
    for j := 0 to |m.switches|
      invariant rest == if j <= i then m.switches[..j] else m.switches[..i] + m.switches[i + 1..j]
    {
      if j == i {
        continue;
      }
      rest := rest + [m.switches[j]];
      assert j < i ==> m.switches[..j + 1] == m.switches[..j] + [m.switches[j]];
      assert j > i ==> m.switches[i + 1..j + 1] == m.switches[i + 1..j] + [m.switches[j]];
    }
    assert rest == RemoveAt(m.switches, i);
    child := Some(Toggle(m.nbits, m.lamps, SortBy(rest, Value), newState));
    done := false;
  }

  /** The XOR of a list of masks. */
  function XorAll(t: seq<Bits>): Bits {
    if t == [] then {} else Xor(t[0], XorAll(t[1..]))
  }

  /** k distinct switches (as many of each mask as the machine has) turn
      state s into the lamps. */
  ghost predicate Solvable(switches: seq<Bits>, s: Bits, lamps: Bits, k: nat) {
    exists t: seq<Bits> :: |t| == k && multiset(t) <= multiset(switches) && Xor(s, XorAll(t)) == lamps
  }

  /** k distinct switches of m turn its state into its lamps. */
  ghost predicate SolvesIn(m: Toggle, k: nat) {
    Solvable(m.switches, m.state, m.lamps, k)
  }

  /** No non-empty set of distinct switches solves m. */
  ghost predicate NoneSolves(m: Toggle) {
    forall k :: 1 <= k ==> !SolvesIn(m, k)
  }

  /** f switches solve m, and no fewer (but at least one) do. */
  ghost predicate FewestIs(m: Toggle, f: int) {
    1 <= f && SolvesIn(m, f) && forall k :: 1 <= k < f ==> !SolvesIn(m, k)
  }

  /** A solution never uses more switches than there are. */
  lemma SolvableBound(switches: seq<Bits>, s: Bits, lamps: Bits, k: nat)
    requires Solvable(switches, s, lamps, k)
    ensures k <= |switches|
  {
    var t: seq<Bits> :| |t| == k && multiset(t) <= multiset(switches) && Xor(s, XorAll(t)) == lamps;
    var a, b := multiset(t), multiset(switches);
    assert |a| == |t| && |b| == |switches|;
    assert b == a + (b - a);
    assert |b| == |a| + |b - a|;
  }

  lemma NoneSolvesWithNothing(switches: seq<Bits>, s: Bits, lamps: Bits)
    ensures Solvable(switches, s, lamps, 0) <==> s == lamps
  {
    var t: seq<Bits> := [];
    assert Xor(s, XorAll(t)) == s;
  }

  /** XORing a list is XORing its first mask and then the rest. */
  lemma XorFirst(s: Bits, x: Bits, rest: seq<Bits>)
    ensures Xor(s, XorAll([x] + rest)) == Xor(Xor(s, x), XorAll(rest))
  {
    assert ([x] + rest)[1..] == rest;
    XorAssoc(s, x, XorAll(rest));
  }

  /** Taking one switch out of both a solution and the machine keeps the
      solution within the machine's switches. */
  lemma TakeOut(t: seq<Bits>, switches: seq<Bits>, x: Bits)
    requires multiset([x] + t) <= multiset(switches)
    ensures x in multiset(switches)
    ensures multiset(t) <= multiset(switches) - multiset{x}
  {
    assert multiset([x] + t) == multiset{x} + multiset(t);
  }

  /** Putting one switch back into both. */
  lemma PutBack(t: seq<Bits>, switches: seq<Bits>, i: nat)
    requires i < |switches| && multiset(t) <= multiset(switches) - multiset{switches[i]}
    ensures multiset([switches[i]] + t) <= multiset(switches)
  {
    assert multiset([switches[i]] + t) == multiset{switches[i]} + multiset(t);
    assert switches[i] in multiset(switches);
  }

  /** The first switch of a solution of k + 1 switches is some switch i,
      and the rest are a solution of k switches among the others, from the
      state after switch i. */
  lemma FirstSwitch(switches: seq<Bits>, s: Bits, lamps: Bits, k: nat) returns (i: nat, rest: seq<Bits>)
    requires Solvable(switches, s, lamps, k + 1)
    ensures i < |switches| && |rest| == k
    ensures multiset(rest) <= multiset(switches) - multiset{switches[i]}
    ensures Xor(Xor(s, switches[i]), XorAll(rest)) == lamps
  {
    var t: seq<Bits> :| |t| == k + 1 && multiset(t) <= multiset(switches) && Xor(s, XorAll(t)) == lamps;
    assert t == [t[0]] + t[1..];
    rest := t[1..];
    TakeOut(rest, switches, t[0]);
    i :| 0 <= i < |switches| && switches[i] == t[0];
    XorFirst(s, t[0], rest);
  }

  /** Switch i followed by a solution among the others is a solution. */
  lemma Prepend(switches: seq<Bits>, s: Bits, lamps: Bits, i: nat, rest: seq<Bits>)
    requires i < |switches|
    requires multiset(rest) <= multiset(switches) - multiset{switches[i]}
    requires Xor(Xor(s, switches[i]), XorAll(rest)) == lamps
    ensures Solvable(switches, s, lamps, |rest| + 1)
  {
    PutBack(rest, switches, i);
    XorFirst(s, switches[i], rest);
    var t := [switches[i]] + rest;
    assert |t| == |rest| + 1 && multiset(t) <= multiset(switches) && Xor(s, XorAll(t)) == lamps;
  }

  /** Some child of m is solved by k switches. */
  ghost predicate SomeChildSolvesIn(m: Toggle, k: nat) {
    exists i :: 0 <= i < |m.switches| && SolvesIn(Child(m, i), k)
  }

  /** A solution of k + 1 switches starts with a switch whose child is
      solved by k switches. */
  lemma SolvableDown(m: Toggle, k: nat)
    requires SolvesIn(m, k + 1)
    ensures SomeChildSolvesIn(m, k)
  {
    var i, rest := FirstSwitch(m.switches, m.state, m.lamps, k);
    ChildFacts(m, i);
    var c := Child(m, i);
    assert |rest| == k && multiset(rest) <= multiset(c.switches) && Xor(c.state, XorAll(rest)) == c.lamps;
  }

  /** A child solved by k switches gives a solution of k + 1. */
  lemma SolvableUp(m: Toggle, k: nat, i: nat)
    requires i < |m.switches| && SolvesIn(Child(m, i), k)
    ensures SolvesIn(m, k + 1)
  {
    ChildFacts(m, i);
    var c := Child(m, i);
    var rest: seq<Bits> :| |rest| == k && multiset(rest) <= multiset(c.switches) && Xor(c.state, XorAll(rest)) == c.lamps;
    Prepend(m.switches, m.state, m.lamps, i, rest);
  }

  /** A solution of k + 1 switches is a first switch and a solution of k
      switches for the child it leads to, and back. */
  lemma SolvableStep(m: Toggle, k: nat)
    ensures SolvesIn(m, k + 1) <==> SomeChildSolvesIn(m, k)
  {
    if SolvesIn(m, k + 1) {
      SolvableDown(m, k);
    }
    if SomeChildSolvesIn(m, k) {
      var i :| 0 <= i < |m.switches| && SolvesIn(Child(m, i), k);
      SolvableUp(m, k, i);
    }
  }

  /** One switch solves m exactly when pressing some switch is done. */
  lemma SolvesInOne(m: Toggle)
    ensures SolvesIn(m, 1) <==> exists i :: 0 <= i < |m.switches| && Xor(m.state, m.switches[i]) == m.lamps
  {
    if SolvesIn(m, 1) {
      var i, rest := FirstSwitch(m.switches, m.state, m.lamps, 0);
      assert XorAll(rest) == {};
    }
    if exists i :: 0 <= i < |m.switches| && Xor(m.state, m.switches[i]) == m.lamps {
      var i :| 0 <= i < |m.switches| && Xor(m.state, m.switches[i]) == m.lamps;
      var rest: seq<Bits> := [];
      assert Xor(Xor(m.state, m.switches[i]), XorAll(rest)) == m.lamps;
      Prepend(m.switches, m.state, m.lamps, i, rest);
    }
  }

  /** dmin is 1000 or one more than depth plus a switch count that solves
      one of the first i children. */
  ghost predicate Reached(m: Toggle, depth: int, i: nat, dmin: int)
    requires i <= |m.switches|
  {
    dmin == 1000 || exists j :: 0 <= j < i && depth < dmin && SolvesIn(Child(m, j), dmin - depth)
  }

  /** No switch count solving one of the first i children is below dmin - depth. */
  ghost predicate Below(m: Toggle, depth: int, i: nat, dmin: int)
    requires i <= |m.switches|
  {
    forall j, k :: 0 <= j < i && 1 <= k && SolvesIn(Child(m, j), k) ==> dmin <= depth + k
  }

  /** search: depth when a single press reaches the lamps; otherwise the
      least answer of the children one level deeper, with 1000 standing for
      "none yet", or -1.  It finds the fewest switches: -1 exactly when no
      non-empty set of distinct switches turns the state into the lamps,
      and otherwise depth - 1 plus the size of the smallest such set.  The
      bound keeps every answer below the 1000 the children loop starts
      from. */
  method Search(m: Toggle, depth: int) returns (d: int)
    requires 0 <= depth && depth + |m.switches| <= 1000
    ensures d == -1 <==> NoneSolves(m)
    ensures d != -1 ==> d >= depth && FewestIs(m, d - depth + 1)
    decreases |m.switches|, 1
  {
    var children: seq<Toggle> := [];
    for i := 0 to |m.switches|
      invariant |children| == i
      invariant forall j :: 0 <= j < i ==> children[j] == Child(m, j)
      invariant forall j :: 0 <= j < i ==> Xor(m.state, m.switches[j]) != m.lamps
    {
      var n, done := PressSwitch(m, i);
      if done {
        SolvesInOne(m);
        return depth;
      }
      ChildrenStep(m, children, n.value);
      children := children + [n.value];
    }
    SolvesInOne(m);
    var dmin := 1000;
    for i := 0 to |children|
      invariant dmin <= 1000 && Reached(m, depth, i, dmin) && Below(m, depth, i, dmin)
    {
      dmin := SearchChild(m, depth, i, children[i], dmin);
    }
    SearchResult(m, depth, dmin);
    if dmin != 1000 {
      return dmin;
    }
    return -1;
  }

  /** The children list grows by child i. */
  lemma ChildrenStep(m: Toggle, children: seq<Toggle>, c: Toggle)
    requires |children| < |m.switches| && c == Child(m, |children|)
    requires forall j :: 0 <= j < |children| ==> children[j] == Child(m, j)
    ensures forall j :: 0 <= j < |children| + 1 ==> (children + [c])[j] == Child(m, j)
  {
    forall j | 0 <= j < |children| + 1 ensures (children + [c])[j] == Child(m, j) {
      if j < |children| {
        assert (children + [c])[j] == children[j];
      }
    }
  }

  /** One turn of the children loop of search: search child i one level
      deeper and keep its answer when it is the least so far. */
  method SearchChild(m: Toggle, depth: int, i: nat, child: Toggle, dmin: int) returns (dmin': int)
    requires i < |m.switches| && child == Child(m, i)
    requires 0 <= depth && depth + |m.switches| <= 1000 && dmin <= 1000
    requires Reached(m, depth, i, dmin) && Below(m, depth, i, dmin)
    ensures dmin' <= 1000 && Reached(m, depth, i + 1, dmin') && Below(m, depth, i + 1, dmin')
    decreases |m.switches|, 0
  {
    var d := Search(child, depth + 1);
    ReachedStep(m, depth, i, dmin, d);
    BelowStep(m, depth, i, dmin, d);
    dmin' := dmin;
    if d != -1 && d < dmin {
      dmin' := d;
    }
  }

  /** The children loop keeps Reached when child i answers d. */
  lemma ReachedStep(m: Toggle, depth: int, i: nat, dmin: int, d: int)
    requires i < |m.switches| && Reached(m, depth, i, dmin)
    requires d != -1 ==> d >= depth + 1 && FewestIs(Child(m, i), d - depth)
    ensures Reached(m, depth, i + 1, if d != -1 && d < dmin then d else dmin)
  {
  }

  /** The children loop keeps Below when child i answers d. */
  lemma BelowStep(m: Toggle, depth: int, i: nat, dmin: int, d: int)
    requires i < |m.switches| && Below(m, depth, i, dmin)
    requires d == -1 <==> NoneSolves(Child(m, i))
    requires d != -1 ==> d >= depth + 1 && FewestIs(Child(m, i), d - depth)
    ensures Below(m, depth, i + 1, if d != -1 && d < dmin then d else dmin)
  {
    var dmin' := if d != -1 && d < dmin then d else dmin;
    forall j, k | 0 <= j < i + 1 && 1 <= k && SolvesIn(Child(m, j), k) ensures dmin' <= depth + k {
      if j == i {
        assert d != -1;
      }
    }
  }

  /** Every solution of two or more switches has a child solution counted
      by Below. */
  lemma LongerSolutions(m: Toggle, depth: int, dmin: int)
    requires Below(m, depth, |m.switches|, dmin)
    ensures forall k :: 2 <= k && SolvesIn(m, k) ==> dmin <= depth + k - 1 && k <= |m.switches|
  {
    forall k | 2 <= k && SolvesIn(m, k) ensures dmin <= depth + k - 1 && k <= |m.switches| {
      SolvableBound(m.switches, m.state, m.lamps, k);
      SolvableStep(m, k - 1);
    }
  }

  /** After the children loop: dmin is 1000 exactly when nothing solves m,
      and otherwise one more than the fewest switches of any child. */
  lemma SearchResult(m: Toggle, depth: int, dmin: int)
    requires 0 <= depth && depth + |m.switches| <= 1000 && dmin <= 1000
    requires Reached(m, depth, |m.switches|, dmin) && Below(m, depth, |m.switches|, dmin) && !SolvesIn(m, 1)
    ensures dmin == 1000 <==> NoneSolves(m)
    ensures dmin != 1000 ==> dmin >= depth && FewestIs(m, dmin - depth + 1)
  {
    LongerSolutions(m, depth, dmin);
    if dmin != 1000 {
      var j :| 0 <= j < |m.switches| && depth < dmin && SolvesIn(Child(m, j), dmin - depth);
      SolvableStep(m, dmin - depth);
      assert SolvesIn(m, dmin - depth + 1);
    }
  }

  /** The fewest switches that solve a machine from its state, or 0 when
      none do. */
  ghost function Fewest(m: Toggle): (k: nat)
  {
    FewestFrom(m, 1)
  }

  ghost function FewestFrom(m: Toggle, k: nat): nat
    decreases |m.switches| + 1 - k
  {
    if k > |m.switches| then 0
    else if SolvesIn(m, k) then k
    else FewestFrom(m, k + 1)
  }

  lemma {:induction false} FewestFromIsLeast(m: Toggle, k: nat, f: nat)
    requires 1 <= k <= f && FewestIs(m, f)
    ensures FewestFrom(m, k) == f
    decreases f - k
  {
    SolvableBound(m.switches, m.state, m.lamps, f);
    if k < f {
      FewestFromIsLeast(m, k + 1, f);
    }
  }

  lemma {:induction false} FewestFromNone(m: Toggle, k: nat)
    requires NoneSolves(m) && k >= 1
    ensures FewestFrom(m, k) == 0
    decreases |m.switches| + 1 - k
  {
    if k <= |m.switches| {
      FewestFromNone(m, k + 1);
    }
  }

  /** What search(1) answers, in terms of Fewest. */
  lemma SearchIsFewest(m: Toggle, d: int)
    requires d == -1 <==> NoneSolves(m)
    requires d != -1 ==> d >= 1 && FewestIs(m, d)
    ensures d == if Fewest(m) == 0 then -1 else Fewest(m)
  {
    if d == -1 {
      FewestFromNone(m, 1);
    } else {
      FewestFromIsLeast(m, 1, d);
    }
  }

  ghost function TotalFewest(machines: seq<Toggle>): int {
    if machines == [] then 0 else TotalFewest(machines[..|machines| - 1]) + Fewest(machines[|machines| - 1])
  }

  /** part1: the sum of search(1) over the machines it solves, which is the
      sum of their fewest switch counts. */
  method Part1(machines: seq<Toggle>) returns (sum: int)
    requires forall k :: 0 <= k < |machines| ==> |machines[k].switches| < 1000
    ensures sum == TotalFewest(machines)
  {
    sum := 0;
    for k := 0 to |machines|
      invariant sum == TotalFewest(machines[..k])
    {
      var m := machines[k];
      assert machines[..k + 1] == machines[..k] + [m];
      var d := Search(m, 1);
      SearchIsFewest(m, d);
      if d != -1 {
        sum := sum + d;
      }
    }
    assert machines[..|machines|] == machines;
  }
}
