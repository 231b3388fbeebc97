/** Day 10, part 2: the same machines read as counters.  Each button adds one
    to every counter it lists (twice to a counter it lists twice); the aim
    is to bring every counter to its target joltage.  The solver presses
    greedily and takes a random press back when it overshoots. */
module Day10Counter {
  import opened Wrappers

  /** Every listed counter index is a counter of the machine. */
  predicate ButtonsIn(buttons: seq<seq<int>>, n: int) {
    forall b, t :: 0 <= b < |buttons| && 0 <= t < |buttons[b]| ==> 0 <= buttons[b][t] < n
  }

  /** Every press names a button of the machine. */
  predicate PressesIn(presses: seq<int>, n: int) {
    forall t :: 0 <= t < |presses| ==> 0 <= presses[t] < n
  }

  /** How much the presses have added to counter k. */
  function Tally(buttons: seq<seq<int>>, presses: seq<int>, k: int): nat
    requires PressesIn(presses, |buttons|)
  {
    if presses == [] then 0
    else Tally(buttons, presses[..|presses| - 1], k) + multiset(buttons[presses[|presses| - 1]])[k]
  }

  /** Taking back press ix takes back what that button added. */
  lemma {:induction false} TallyRemove(buttons: seq<seq<int>>, presses: seq<int>, ix: nat, k: int)
    requires PressesIn(presses, |buttons|) && ix < |presses|
    ensures PressesIn(presses[..ix] + presses[ix + 1..], |buttons|)
    ensures Tally(buttons, presses[..ix] + presses[ix + 1..], k) ==
            Tally(buttons, presses, k) - multiset(buttons[presses[ix]])[k]
    decreases |presses|
  {
    var n := |presses|;
    var rest := presses[..ix] + presses[ix + 1..];
    if ix == n - 1 {
      assert rest == presses[..n - 1];
    } else {
      var init := presses[..n - 1];
      assert rest == init[..ix] + init[ix + 1..] + [presses[n - 1]];
      TallyRemove(buttons, init, ix, k);
      assert rest[..|rest| - 1] == init[..ix] + init[ix + 1..];
    }
  }

  /** Presses p bring every counter exactly to its target. */
  predicate Reaches(buttons: seq<seq<int>>, joltages: seq<int>, p: seq<int>) {
    PressesIn(p, |buttons|) && forall k :: 0 <= k < |joltages| ==> Tally(buttons, p, k) == joltages[k]
  }

  // ------------------------------------------------------------ button value

  /** How far each counter is from its target. */
  function Gaps(joltages: seq<int>, state: seq<int>): (d: seq<int>)
    requires |state| == |joltages|
    ensures |d| == |joltages| && forall i :: 0 <= i < |d| ==> d[i] == joltages[i] - state[i]
  {
    seq(|joltages|, i requires 0 <= i < |joltages| => joltages[i] - state[i])
  }

  /** The sum of the deltas of the counters a button lists. */
  function DeltaSum(b: seq<int>, deltas: seq<int>): int
    requires forall t :: 0 <= t < |b| ==> 0 <= b[t] < |deltas|
  {
    if b == [] then 0 else DeltaSum(b[..|b| - 1], deltas) + deltas[b[|b| - 1]]
  }

  /** The button lists a counter that is already at its target. */
  predicate Blocked(b: seq<int>, deltas: seq<int>)
    requires forall t :: 0 <= t < |b| ==> 0 <= b[t] < |deltas|
  {
    exists t :: 0 <= t < |b| && deltas[b[t]] == 0
  }

  /** A button pressButton may choose: not blocked, and its value beats the
      starting bestValue of -1. */
  predicate Eligible(b: seq<int>, deltas: seq<int>)
    requires forall t :: 0 <= t < |b| ==> 0 <= b[t] < |deltas|
  {
    !Blocked(b, deltas) && DeltaSum(b, deltas) >= 0
  }

  /** Button best is eligible, no eligible button has a greater value, and
      every eligible button before it has a smaller one: the first button of
      greatest value. */
  predicate Chosen(buttons: seq<seq<int>>, deltas: seq<int>, best: int, upto: int)
    requires ButtonsIn(buttons, |deltas|) && 0 <= upto <= |buttons|
  {
    0 <= best < upto && Eligible(buttons[best], deltas) &&
    forall j :: 0 <= j < upto && Eligible(buttons[j], deltas) ==>
      DeltaSum(buttons[j], deltas) <= DeltaSum(buttons[best], deltas) &&
      (j < best ==> DeltaSum(buttons[j], deltas) < DeltaSum(buttons[best], deltas))
  }

  /** The inner loop of pressButton: whether the button is blocked and, when
      it is not, its value. */
  method ButtonValue(b: seq<int>, deltas: seq<int>) returns (blocked: bool, value: int)
    requires forall t :: 0 <= t < |b| ==> 0 <= b[t] < |deltas|
    ensures blocked == Blocked(b, deltas)
    ensures !blocked ==> value == DeltaSum(b, deltas)
  {
    value := 0;
    for t := 0 to |b|
      invariant value == DeltaSum(b[..t], deltas)
      invariant forall u :: 0 <= u < t ==> deltas[b[u]] != 0
    {
      if deltas[b[t]] == 0 {
        return true, value;
      }
      assert b[..t + 1][..t] == b[..t];
      value := value + deltas[b[t]];
    }
    assert b[..|b|] == b;
    blocked := false;
  }

  /** The outer loop of pressButton: the chosen button, or -1 when no button
      is eligible. */
  method PickButton(buttons: seq<seq<int>>, deltas: seq<int>) returns (best: int)
    requires ButtonsIn(buttons, |deltas|)
    ensures best == -1 <==> forall j :: 0 <= j < |buttons| ==> !Eligible(buttons[j], deltas)
    ensures best != -1 ==> Chosen(buttons, deltas, best, |buttons|)
  {
    best := -1;
    var bestValue := -1;
    for i := 0 to |buttons|
      invariant best == -1 ==> bestValue == -1 && forall j :: 0 <= j < i ==> !Eligible(buttons[j], deltas)
      invariant best != -1 ==> Chosen(buttons, deltas, best, i) && bestValue == DeltaSum(buttons[best], deltas)
    {
      var blocked, value := ButtonValue(buttons[i], deltas);
      if blocked {
        continue;
      }
      if value > bestValue {
        bestValue := value;
        best := i;
      }
    }
  }

  /** When no counter is above its target, pressButton fails only when every
      button lists a counter already at its target. */
  lemma {:induction false} UnblockedIsEligible(b: seq<int>, deltas: seq<int>)
    requires forall t :: 0 <= t < |b| ==> 0 <= b[t] < |deltas|
    requires forall k :: 0 <= k < |deltas| ==> deltas[k] >= 0
    requires !Blocked(b, deltas)
    ensures DeltaSum(b, deltas) >= |b|
    ensures Eligible(b, deltas)
    decreases |b|
  {
    if b != [] {
      var init := b[..|b| - 1];
      assert !Blocked(init, deltas) by {
        forall t | 0 <= t < |init| ensures deltas[init[t]] != 0 {
          assert init[t] == b[t];
        }
      }
      UnblockedIsEligible(init, deltas);
    }
  }

  // ------------------------------------------------------------ the machine

  datatype Status = TooHigh | TooLow | Equal

  /** The counter state of a machine: its buttons and targets, the counters
      so far and the buttons pressed so far, in order. */
  class CounterMachine {
    const buttons: seq<seq<int>>
    const joltages: seq<int>
    var jstate: array<int>
    var presses: seq<int>

    /** The counters are exactly what the presses added. */
    predicate Valid()
      reads this, jstate
    {
      jstate.Length == |joltages| && ButtonsIn(buttons, |joltages|) && PressesIn(presses, |buttons|) &&
      forall k :: 0 <= k < jstate.Length ==> jstate[k] == Tally(buttons, presses, k)
    }

    /** The machine parseMachine builds for part 2: all counters zero and no
        presses. */
    constructor(buttons: seq<seq<int>>, joltages: seq<int>)
      requires ButtonsIn(buttons, |joltages|)
      ensures this.buttons == buttons && this.joltages == joltages
      ensures presses == [] && jstate[..] == seq(|joltages|, k => 0)
      ensures fresh(jstate) && Valid()
    {
      this.buttons := buttons;
      this.joltages := joltages;
      jstate := new int[|joltages|](k => 0);
      presses := [];
    }

    /** reset: all counters back to zero in a new array, and no presses. */
    method Reset()
      requires ButtonsIn(buttons, |joltages|)
      modifies this
      ensures presses == [] && jstate[..] == seq(|joltages|, k => 0)
      ensures fresh(jstate) && Valid()
    {
      jstate := new int[|joltages|](k => 0);
      presses := [];
    }

    /** check: TooHigh when some counter is above its target, Equal when
        every counter is at its target, TooLow otherwise. */
    method Check() returns (st: Status)
      requires Valid()
      ensures st == TooHigh <==> exists i :: 0 <= i < |joltages| && jstate[i] > joltages[i]
      ensures st == Equal <==> forall i :: 0 <= i < |joltages| ==> jstate[i] == joltages[i]
    {
      var isEqual := true;
      for i := 0 to |joltages|
        invariant forall j :: 0 <= j < i ==> jstate[j] <= joltages[j]
        invariant isEqual <==> forall j :: 0 <= j < i ==> jstate[j] == joltages[j]
      {
        if jstate[i] > joltages[i] {
          return TooHigh;
        }
        if jstate[i] < joltages[i] {
          isEqual := false;
        }
      }
      if isEqual {
        return Equal;
      }
      return TooLow;
    }

    /** The deltas loop of pressButton: how far each counter is from its
        target. */
    method Deltas() returns (deltas: seq<int>)
      requires Valid()
      ensures deltas == Gaps(joltages, jstate[..])
    {
      deltas := [];
      for i := 0 to jstate.Length
        invariant |deltas| == i
        invariant forall j :: 0 <= j < i ==> deltas[j] == joltages[j] - jstate[j]
      {
        deltas := deltas + [joltages[i] - jstate[i]];
      }
      assert |deltas| == |Gaps(joltages, jstate[..])|;
    }

    /** Adds one to every counter button b lists, once per listing. */
    method Bump(b: seq<int>)
      requires jstate.Length == |joltages|
      requires forall t :: 0 <= t < |b| ==> 0 <= b[t] < |joltages|
      modifies jstate
      ensures forall k :: 0 <= k < jstate.Length ==> jstate[k] == old(jstate[k]) + multiset(b)[k]
    {
      for t := 0 to |b|
        invariant forall k :: 0 <= k < jstate.Length ==> jstate[k] == old(jstate[k]) + multiset(b[..t])[k]
      {
        assert b[..t + 1] == b[..t] + [b[t]];
        jstate[b[t]] := jstate[b[t]] + 1;
      }
      assert b[..|b|] == b;
    }

    /** Takes one from every counter button b lists, once per listing. */
    method Unbump(b: seq<int>)
      requires jstate.Length == |joltages|
      requires forall t :: 0 <= t < |b| ==> 0 <= b[t] < |joltages|
      modifies jstate
      ensures forall k :: 0 <= k < jstate.Length ==> jstate[k] == old(jstate[k]) - multiset(b)[k]
    {
      for t := 0 to |b|
        invariant forall k :: 0 <= k < jstate.Length ==> jstate[k] == old(jstate[k]) - multiset(b[..t])[k]
      {
        assert b[..t + 1] == b[..t] + [b[t]];
        jstate[b[t]] := jstate[b[t]] - 1;
      }
      assert b[..|b|] == b;
    }

    /** pressButton: presses the first button of greatest value among those
        that list no counter already at its target, and reports whether
        there was one. */
    method PressButton() returns (pressed: bool)
      requires Valid()
      modifies this, jstate
      ensures Valid() && jstate == old(jstate)
      ensures !pressed ==> presses == old(presses) && jstate[..] == old(jstate[..])
      ensures !pressed ==> forall j :: 0 <= j < |buttons| ==> !Eligible(buttons[j], Gaps(joltages, old(jstate[..])))
      ensures pressed ==> |presses| == |old(presses)| + 1 && presses[..|presses| - 1] == old(presses)
      ensures pressed ==> Chosen(buttons, Gaps(joltages, old(jstate[..])), presses[|presses| - 1], |buttons|)
    {
      var deltas := Deltas();
      var best := PickButton(buttons, deltas);
      if best == -1 {
        return false;
      }
      ghost var before := presses;
      presses := presses + [best];
      Bump(buttons[best]);
      assert presses[..|presses| - 1] == before;
      forall k | 0 <= k < jstate.Length ensures jstate[k] == Tally(buttons, presses, k) {
      }
      pressed := true;
    }

    /** unpressButton: takes back press ix (the random index, supplied by
        the caller) and what its button added. */
    method UnpressButton(ix: nat)
      requires Valid() && ix < |presses|
      modifies this, jstate
      ensures Valid() && jstate == old(jstate)
      ensures presses == old(presses[..ix] + presses[ix + 1..])
      ensures forall k :: 0 <= k < jstate.Length ==> jstate[k] == old(jstate[k]) - multiset(buttons[old(presses[ix])])[k]
    {
      var button := presses[ix];
      ghost var before := presses;
      presses := presses[..ix] + presses[ix + 1..];
      Unbump(buttons[button]);
      forall k | 0 <= k < jstate.Length ensures jstate[k] == Tally(buttons, presses, k) {
        TallyRemove(buttons, before, ix, k);
      }
    }
  }

  // ------------------------------------------------------------ part 2

  /** How the solving loop of part2 ends for one machine: with the number of
      presses when every counter is at its target, with a panic when it has
      to take back a press and there is none (rand.IntN(0)), or, in this
      model only, when the fuel bound is used up. */
  datatype Outcome = Solved(count: nat) | Panicked | OutOfFuel

  /** Some n presses bring every counter to its target. */
  ghost predicate Achievable(buttons: seq<seq<int>>, joltages: seq<int>, n: nat) {
    exists p :: |p| == n && Reaches(buttons, joltages, p)
  }

  /** The solving loop of part2 for one machine: from a reset machine, take
      back a random press when a counter is too high, press the chosen
      button when some counter is too low (or take back a random press when
      no button is eligible), and stop when every counter is at its target.
      pick stands for the random source: step s takes back press
      pick(s) % |presses|.  A solved machine's count is the length of a
      press sequence that reaches every target. */
  method Settle(m: CounterMachine, fuel: nat, pick: nat -> nat) returns (outcome: Outcome)
    requires ButtonsIn(m.buttons, |m.joltages|)
    modifies m, m.jstate
    ensures outcome.Solved? ==> Reaches(m.buttons, m.joltages, m.presses) && outcome.count == |m.presses|
    ensures outcome.Solved? ==> Achievable(m.buttons, m.joltages, outcome.count)
  {
    m.Reset();
    var step := 0;
    while step < fuel
      invariant m.Valid() && fresh(m.jstate)
      decreases fuel - step
    {
      var st := m.Check();
      if st == Equal {
        assert Reaches(m.buttons, m.joltages, m.presses);
        return Solved(|m.presses|);
      }
      var undo := st == TooHigh;
      if st == TooLow {
        var pressed := m.PressButton();
        undo := !pressed;
      }
      if undo {
        if |m.presses| == 0 {
          return Panicked;
        }
        m.UnpressButton(pick(step) % |m.presses|);
      }
      step := step + 1;
    }
    return OutOfFuel;
  }

  /** What part2 adds for one machine: best starts at 10000 and only a
      smaller score replaces it. */
  function Capped(count: nat): nat {
    if count < 10000 then count else 10000
  }

  function CappedSum(counts: seq<nat>): nat {
    if counts == [] then 0 else CappedSum(counts[..|counts| - 1]) + Capped(counts[|counts| - 1])
  }

  /** One machine of part2, on a fresh copy of its counters. */
  method SolveMachine(buttons: seq<seq<int>>, joltages: seq<int>, fuel: nat, pick: nat -> nat) returns (outcome: Outcome)
    requires ButtonsIn(buttons, |joltages|)
    ensures outcome.Solved? ==> Achievable(buttons, joltages, outcome.count)
  {
    var m := new CounterMachine(buttons, joltages);
    outcome := Settle(m, fuel, pick);
  }

  /** part2: the sum over the machines of their press counts, each capped
      at 10000; every count is achievable.  A panic or a run out of fuel on
      any machine ends the whole run. */
  method Part2(machines: seq<(seq<seq<int>>, seq<int>)>, fuel: nat, pick: nat -> nat)
    returns (total: Outcome, ghost counts: seq<nat>)
    requires forall i :: 0 <= i < |machines| ==> ButtonsIn(machines[i].0, |machines[i].1|)
    ensures total.Solved? ==> |counts| == |machines| && total.count == CappedSum(counts)
    ensures total.Solved? ==> forall i :: 0 <= i < |machines| ==> Achievable(machines[i].0, machines[i].1, counts[i])
    ensures total.Solved? ==> 0 <= total.count <= 10000 * |machines|
  {
    counts := [];
    var sum := 0;
    for i := 0 to |machines|
      invariant |counts| == i && sum == CappedSum(counts)
      invariant 0 <= sum <= 10000 * i
      invariant forall j :: 0 <= j < i ==> Achievable(machines[j].0, machines[j].1, counts[j])
    {
      var outcome := SolveMachine(machines[i].0, machines[i].1, fuel, pick);
      if !outcome.Solved? {
        return outcome, counts;
      }
      var best := 10000;
      if outcome.count < best {
        best := outcome.count;
      }
      assert (counts + [outcome.count])[..i] == counts;
      counts := counts + [outcome.count];
      sum := sum + best;
    }
    return Solved(sum), counts;
  }

  // ------------------------------------------------------------ conservation

  /** How many of a button's listings name counters 0 .. n-1. */
  function ListedBelow(b: seq<int>, n: nat): nat {
    if n == 0 then 0 else ListedBelow(b, n - 1) + multiset(b)[n - 1]
  }

  /** The counters 0 .. n-1 added up. */
  function TallyBelow(buttons: seq<seq<int>>, presses: seq<int>, n: nat): nat
    requires PressesIn(presses, |buttons|)
  {
    if n == 0 then 0 else TallyBelow(buttons, presses, n - 1) + Tally(buttons, presses, n - 1)
  }

  /** The targets 0 .. n-1 added up. */
  function TargetBelow(joltages: seq<int>, n: nat): int
    requires n <= |joltages|
  {
    if n == 0 then 0 else TargetBelow(joltages, n - 1) + joltages[n - 1]
  }

  /** The lengths of the pressed buttons added up. */
  function Listings(buttons: seq<seq<int>>, presses: seq<int>): nat
    requires PressesIn(presses, |buttons|)
  {
    if presses == [] then 0 else Listings(buttons, presses[..|presses| - 1]) + |buttons[presses[|presses| - 1]]|
  }

  lemma {:induction false} ListedAppend(b: seq<int>, x: int, n: nat)
    ensures ListedBelow(b + [x], n) == ListedBelow(b, n) + if 0 <= x < n then 1 else 0
  {
    if n > 0 {
      ListedAppend(b, x, n - 1);
      assert multiset(b + [x]) == multiset(b) + multiset{x};
    }
  }

  /** A button whose listings are all counters below n has as many listings
      below n as its length. */
  lemma {:induction false} ListedBelowLength(b: seq<int>, n: nat)
    requires forall t :: 0 <= t < |b| ==> 0 <= b[t] < n
    ensures ListedBelow(b, n) == |b|
    decreases |b|
  {
    if b == [] {
      NothingListed(n);
    } else {
      var init := b[..|b| - 1];
      assert b == init + [b[|b| - 1]];
      ListedBelowLength(init, n);
      ListedAppend(init, b[|b| - 1], n);
    }
  }

  lemma {:induction false} NothingListed(n: nat)
    ensures ListedBelow([], n) == 0
  {
    if n > 0 {
      NothingListed(n - 1);
    }
  }

  /** One more press adds its button's listings below n. */
  lemma {:induction false} TallyBelowAppend(buttons: seq<seq<int>>, presses: seq<int>, x: int, n: nat)
    requires PressesIn(presses + [x], |buttons|) && 0 <= x < |buttons|
    ensures PressesIn(presses, |buttons|)
    ensures TallyBelow(buttons, presses + [x], n) == TallyBelow(buttons, presses, n) + ListedBelow(buttons[x], n)
  {
    assert (presses + [x])[..|presses|] == presses;
    assert forall t :: 0 <= t < |presses| ==> presses[t] == (presses + [x])[t];
    if n > 0 {
      TallyBelowAppend(buttons, presses, x, n - 1);
    }
  }

  /** The counters added up are the lengths of the pressed buttons added up. */
  lemma {:induction false} TallyIsListings(buttons: seq<seq<int>>, presses: seq<int>, n: nat)
    requires ButtonsIn(buttons, n) && PressesIn(presses, |buttons|)
    ensures TallyBelow(buttons, presses, n) == Listings(buttons, presses)
    decreases |presses|
  {
    if presses == [] {
      EmptyTally(buttons, n);
    } else {
      var init := presses[..|presses| - 1];
      var x := presses[|presses| - 1];
      assert presses == init + [x];
      assert presses[|presses| - 1] == x;
      TallyBelowAppend(buttons, init, x, n);
      TallyIsListings(buttons, init, n);
      ListedBelowLength(buttons[x], n);
    }
  }

  lemma {:induction false} EmptyTally(buttons: seq<seq<int>>, n: nat)
    ensures TallyBelow(buttons, [], n) == 0
  {
    if n > 0 {
      EmptyTally(buttons, n - 1);
    }
  }

  /** Presses that reach the targets add up, counter by counter, to the
      targets. */
  lemma {:induction false} ReachedTotal(buttons: seq<seq<int>>, joltages: seq<int>, p: seq<int>, n: nat)
    requires Reaches(buttons, joltages, p) && n <= |joltages|
    ensures TallyBelow(buttons, p, n) == TargetBelow(joltages, n)
  {
    if n > 0 {
      ReachedTotal(buttons, joltages, p, n - 1);
    }
  }

  /** Every press raises the joltage total by the length of its button, so
      a press sequence that reaches the targets has listings adding up to
      the sum of the targets. */
  lemma Conservation(buttons: seq<seq<int>>, joltages: seq<int>, p: seq<int>)
    requires ButtonsIn(buttons, |joltages|) && Reaches(buttons, joltages, p)
    ensures Listings(buttons, p) == TargetBelow(joltages, |joltages|)
  {
    ReachedTotal(buttons, joltages, p, |joltages|);
    TallyIsListings(buttons, p, |joltages|);
  }

  lemma {:induction false} ListingsBound(buttons: seq<seq<int>>, presses: seq<int>, w: nat)
    requires PressesIn(presses, |buttons|)
    requires forall b :: 0 <= b < |buttons| ==> |buttons[b]| <= w
    ensures Listings(buttons, presses) <= w * |presses|
    decreases |presses|
  {
    if presses != [] {
      var init := presses[..|presses| - 1];
      ListingsBound(buttons, init, w);
      assert w * |presses| == w * |init| + w;
    }
  }

  /** With buttons of at most w counters each, a press sequence reaching the
      targets has at least the sum of the targets divided by w presses. */
  lemma FewestPressesBound(buttons: seq<seq<int>>, joltages: seq<int>, p: seq<int>, w: nat)
    requires ButtonsIn(buttons, |joltages|) && Reaches(buttons, joltages, p)
    requires forall b :: 0 <= b < |buttons| ==> |buttons[b]| <= w
    ensures TargetBelow(joltages, |joltages|) <= w * |p|
  {
    Conservation(buttons, joltages, p);
    ListingsBound(buttons, p, w);
  }
}
