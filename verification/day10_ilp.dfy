/** Day 10, part 2, as an integer program: the Python companion reads each
    machine's buttons and targets, rejects a machine one of whose counters
    no button touches, hands the rest to an ILP solver, and checks the
    solver's press counts against the targets.  The solver itself is not
    part of this model; reading, the pre-check and the checker are. */
module Day10Ilp {
  import opened Wrappers
  import opened Decimal
  import opened Day10Parse
  import opened Day10Counter
  import opened UnicodeSpace

  // ------------------------------------------------------------ reading

  /** s without its leading white space. */
  function TrimLeft(s: string): (t: string)
    ensures |t| <= |s| && t == s[|s| - |t|..]
    ensures t == [] || !PyIsSpace(t[0])
    ensures forall i :: 0 <= i < |s| - |t| ==> PyIsSpace(s[i])
  {
    if s != [] && PyIsSpace(s[0]) then
      var t := TrimLeft(s[1..]);
      assert s[1..][|s[1..]| - |t|..] == s[|s| - |t|..];
      assert forall i :: 1 <= i < |s| - |t| ==> s[i] == s[1..][i - 1];
      t
    else s
  }

  /** s without its trailing white space. */
  function TrimRight(s: string): (t: string)
    ensures |t| <= |s| && t == s[..|t|]
    ensures t == [] || !PyIsSpace(t[|t| - 1])
    ensures forall i :: |t| <= i < |s| ==> PyIsSpace(s[i])
  {
    if s != [] && PyIsSpace(s[|s| - 1]) then
      var t := TrimRight(s[..|s| - 1]);
      assert s[..|s| - 1][..|t|] == s[..|t|];
      assert forall i :: |t| <= i < |s| - 1 ==> s[i] == s[..|s| - 1][i];
      t
    else s
  }

  /** str.strip(). */
  function Strip(s: string): string {
    TrimRight(TrimLeft(s))
  }

  /** int(x.strip()): None where Python raises ValueError. */
  function PyInt(s: string): Option<int> {
    Atoi(Strip(s))
  }

  /** The list comprehension `[int(x.strip()) for x in parts]`: None when
      some part raises. */
  function IntsOf(parts: seq<string>): (r: Option<seq<int>>)
    ensures r.Some? <==> forall k :: 0 <= k < |parts| ==> PyInt(parts[k]).Some?
    ensures r.Some? ==> |r.value| == |parts| && forall k :: 0 <= k < |parts| ==> PyInt(parts[k]) == Some(r.value[k])
  {
    if forall k :: 0 <= k < |parts| ==> PyInt(parts[k]).Some?
    then Some(seq(|parts|, k requires 0 <= k < |parts| => PyInt(parts[k]).value))
    else None
  }

  /** The integers of a comma-separated group. */
  function ListOf(text: string): Option<seq<int>> {
    IntsOf(Split(text, ','))
  }

  /** One list per button group, or None when some group raises. */
  function ButtonsOf(groups: seq<string>): (r: Option<seq<seq<int>>>)
    ensures r.Some? <==> forall k :: 0 <= k < |groups| ==> ListOf(groups[k]).Some?
    ensures r.Some? ==> |r.value| == |groups| && forall k :: 0 <= k < |groups| ==> ListOf(groups[k]) == Some(r.value[k])
  {
    if forall k :: 0 <= k < |groups| ==> ListOf(groups[k]).Some?
    then Some(seq(|groups|, k requires 0 <= k < |groups| => ListOf(groups[k]).value))
    else None
  }

  /** What parse_machine returns: the buttons' counter lists and the
      targets. */
  datatype IlpMachine = IlpMachine(buttons: seq<seq<int>>, targets: seq<int>)

  /** parse_machine: every `(...)` group as a button, the first `{...}`
      group as the targets (none without braces), Failed where an int()
      raises.  No lamp pattern is needed. */
  function ParseIlpMachine(line: string): (r: Result<IlpMachine>)
    ensures r.Ok? <==> ButtonsOf(SwitchGroups(line)).Some? && (JoltGroup(line).None? || ListOf(JoltGroup(line).value).Some?)
    ensures r.Ok? ==> |r.value.buttons| == |SwitchGroups(line)|
    ensures r.Ok? ==> forall k :: 0 <= k < |r.value.buttons| ==> ListOf(SwitchGroups(line)[k]) == Some(r.value.buttons[k])
    ensures r.Ok? && JoltGroup(line).None? ==> r.value.targets == []
    ensures r.Ok? && JoltGroup(line).Some? ==> ListOf(JoltGroup(line).value) == Some(r.value.targets)
  {
    var buttons := ButtonsOf(SwitchGroups(line));
    var mj := JoltGroup(line);
    if buttons.None? then Failed
    else if mj.None? then Ok(IlpMachine(buttons.value, []))
    else
      var targets := ListOf(mj.value);
      if targets.None? then Failed else Ok(IlpMachine(buttons.value, targets.value))
  }

  /** Integer text has no white space at either end, so strip() leaves it. */
  lemma StripInteger(p: string)
    requires IsIntegerText(p)
    ensures Strip(p) == p
  {
    assert !PyIsSpace(p[0]);
    assert TrimLeft(p) == p;
    assert !PyIsSpace(p[|p| - 1]);
  }

  /** Parts Go's Atoi reads are read the same by int(x.strip()). */
  lemma IntsOfAgrees(parts: seq<string>)
    requires AtoiAll(parts).Some?
    ensures IntsOf(parts) == AtoiAll(parts)
  {
    var a := AtoiAll(parts).value;
    forall k | 0 <= k < |parts| ensures PyInt(parts[k]) == Some(a[k]) {
      AtoiAccepts(parts[k]);
      StripInteger(parts[k]);
    }
    assert IntsOf(parts).Some?;
    assert IntsOf(parts).value == a;
  }

  /** Groups every one of which Go reads are read the same by Python. */
  lemma ButtonsOfAgrees(groups: seq<string>)
    requires forall k :: 0 <= k < |groups| ==> Numbers(groups[k]).Some?
    ensures ButtonsOf(groups).Some?
    ensures forall k :: 0 <= k < |groups| ==> ButtonsOf(groups).value[k] == Numbers(groups[k]).value
  {
    forall k | 0 <= k < |groups| ensures ListOf(groups[k]) == Numbers(groups[k]) {
      IntsOfAgrees(Split(groups[k], ','));
    }
  }

  /** Every line the Go parseMachine reads (its lamp pattern aside) the
      Python parse_machine reads too, with the same buttons and targets. */
  lemma ParsersAgree(line: string)
    requires SwitchesRead(SwitchGroups(line)) && JoltsRead(line)
    ensures ParseIlpMachine(line).Ok?
    ensures forall k :: 0 <= k < |SwitchGroups(line)| ==>
      ParseIlpMachine(line).value.buttons[k] == Numbers(SwitchGroups(line)[k]).value
    ensures ParseIlpMachine(line).value.targets ==
      if JoltGroup(line).None? then [] else Numbers(JoltGroup(line).value).value
  {
    ButtonsOfAgrees(SwitchGroups(line));
    if JoltGroup(line).Some? {
      IntsOfAgrees(Split(JoltGroup(line).value, ','));
    }
  }

  /** Python reads a padded list that Go rejects. */
  lemma PaddedListExample()
    ensures Numbers(" 7").None?
    ensures ListOf(" 7") == Some([7])
  {
    GoRejectsPadded();
    PythonReadsPadded();
  }

  /** Go's Atoi refuses the space. */
  lemma GoRejectsPadded()
    ensures Numbers(" 7").None?
  {
    assert Split(" 7", ',') == [" 7"];
    assert !IsIntegerText(" 7");
  }

  /** Python's int() strips it first. */
  lemma PythonReadsPadded()
    ensures ListOf(" 7") == Some([7])
  {
    assert Split(" 7", ',') == [" 7"];
    assert PyInt(" 7") == Some(7) by {
      StripPadded();
      assert DigitsValue("7") == 7 by {
        assert "7"[..0] == [];
      }
    }
    assert IntsOf([" 7"]).value == [7];
  }

  /** str.strip() removes the padding. */
  lemma StripPadded()
    ensures Strip(" 7") == "7"
  {
    assert !PyIsSpace('7') && " 7"[1..] == "7";
    assert TrimLeft("7") == "7";
    assert TrimLeft(" 7") == "7";
    assert TrimRight("7") == "7";
  }

  // ------------------------------------------------------------ pre-check

  /** `[i for i, button in enumerate(buttons) if counter in button]`. */
  function Affecting(buttons: seq<seq<int>>, counter: int): (r: seq<nat>)
    ensures forall b: nat :: b in r <==> b < |buttons| && counter in buttons[b]
    ensures forall j :: 0 <= j < |r| ==> r[j] < |buttons|
    ensures forall j, k :: 0 <= j < k < |r| ==> r[j] < r[k]
  {
    if buttons == [] then []
    else
      var n := |buttons| - 1;
      var init := Affecting(buttons[..n], counter);
      assert forall b :: 0 <= b < n ==> buttons[..n][b] == buttons[b];
      if counter in buttons[n] then init + [n] else init
  }

  /** No button lists the counter. */
  predicate Untouched(buttons: seq<seq<int>>, counter: int) {
    forall b :: 0 <= b < |buttons| ==> counter !in buttons[b]
  }

  /** The check before the solver runs: the first counter (of n) that no
      button lists, or None when every counter has a button. */
  method FirstUntouched(buttons: seq<seq<int>>, n: nat) returns (r: Option<nat>)
    ensures r.Some? ==> r.value < n && Untouched(buttons, r.value)
    ensures r.Some? ==> forall c :: 0 <= c < r.value ==> !Untouched(buttons, c)
    ensures r.None? ==> forall c :: 0 <= c < n ==> !Untouched(buttons, c)
  {
    for counter := 0 to n
      invariant forall c :: 0 <= c < counter ==> !Untouched(buttons, c)
    {
      var affecting := Affecting(buttons, counter);
      if affecting == [] {
        return Some(counter);
      }
      assert affecting[0] in affecting;
    }
    return None;
  }

  // ------------------------------------------------------------ checking

  /** Python's index for counter c of n: negative indices count from the
      end. */
  function Slot(c: int, n: nat): int {
    if c < 0 then c + n else c
  }

  /** achieved[c] does not raise IndexError. */
  predicate Indexable(c: int, n: nat) {
    -(n as int) <= c < n
  }

  /** The checker's loops raise no IndexError: a button per solution
      entry, and every counter they list indexable. */
  predicate InBounds(buttons: seq<seq<int>>, solution: seq<int>, n: nat) {
    |solution| <= |buttons| &&
    forall b, k :: 0 <= b < |solution| && 0 <= k < |buttons[b]| ==> Indexable(buttons[b][k], n)
  }

  /** How many times a button adds to counter c. */
  function Hits(button: seq<int>, c: int, n: nat): nat {
    if button == [] then 0
    else Hits(button[..|button| - 1], c, n) + if Slot(button[|button| - 1], n) == c then 1 else 0
  }

  /** What the presses of solution add to counter c: each press count once
      per listing of c by its button. */
  function AchievedAt(buttons: seq<seq<int>>, solution: seq<int>, c: int, n: nat): int
    requires |solution| <= |buttons|
  {
    if solution == [] then 0
    else
      var b := |solution| - 1;
      AchievedAt(buttons, solution[..b], c, n) + solution[b] * Hits(buttons[b], c, n)
  }

  /** Every counter gets exactly its target. */
  predicate Achieves(buttons: seq<seq<int>>, targets: seq<int>, solution: seq<int>)
    requires |solution| <= |buttons|
  {
    forall c :: 0 <= c < |targets| ==> AchievedAt(buttons, solution, c, |targets|) == targets[c]
  }

  /** verify_solution: Failed where the loops raise IndexError; otherwise
      true exactly when every counter reaches its target, and on false the
      counter reported is the first one that does not. */
  method VerifySolution(buttons: seq<seq<int>>, targets: seq<int>, solution: seq<int>)
      returns (r: Result<bool>, bad: int)
    ensures r.Failed? <==> !InBounds(buttons, solution, |targets|)
    ensures r.Ok? ==> (r.value <==> Achieves(buttons, targets, solution))
    ensures r == Ok(false) ==> 0 <= bad < |targets| && AchievedAt(buttons, solution, bad, |targets|) != targets[bad]
    ensures r == Ok(false) ==> forall c :: 0 <= c < bad ==> AchievedAt(buttons, solution, c, |targets|) == targets[c]
  {
    var n := |targets|;
    var achieved := new int[n](_ => 0);
    bad := -1;
    for b := 0 to |solution|
      invariant b <= |buttons| && InBounds(buttons, solution[..b], n)
      invariant forall c :: 0 <= c < n ==> achieved[c] == AchievedAt(buttons, solution[..b], c, n)
    {
      if b >= |buttons| {
        return Failed, bad;
      }
      var ok := AddPresses(achieved, buttons[b], solution[b]);
      if !ok {
        return Failed, bad;
      }
      AchievedStep(buttons, solution, b, n);
    }
    assert solution[..|solution|] == solution;
    for i := 0 to n
      invariant forall c :: 0 <= c < i ==> achieved[c] == targets[c]
    {
      if targets[i] != achieved[i] {
        return Ok(false), i;
      }
    }
    return Ok(true), bad;
  }

  /** The inner loop: add presses to the counters one button lists, or
      false at the first counter that is not indexable. */
  method AddPresses(achieved: array<int>, button: seq<int>, presses: int) returns (ok: bool)
    modifies achieved
    ensures ok <==> forall k :: 0 <= k < |button| ==> Indexable(button[k], achieved.Length)
    ensures ok ==> forall c :: 0 <= c < achieved.Length ==> achieved[c] == old(achieved[c]) + presses * Hits(button, c, achieved.Length)
  {
    var n := achieved.Length;
    for k := 0 to |button|
      invariant forall j :: 0 <= j < k ==> Indexable(button[j], n)
      invariant forall c :: 0 <= c < n ==> achieved[c] == old(achieved[c]) + presses * Hits(button[..k], c, n)
    {
      var counter := button[k];
      if !(-n <= counter < n) {
        return false;
      }
      HitsStep(button, k, n);
      var slot := Slot(counter, n);
      AddOnce(presses, Hits(button[..k], slot, n));
      achieved[slot] := achieved[slot] + presses;
    }
    assert button[..|button|] == button;
    return true;
  }

  /** One more press on top of h. */
  lemma AddOnce(presses: int, h: int)
    ensures presses * (h + 1) == presses * h + presses
  {
  }

  /** One more listing adds one hit, to its own counter only. */
  lemma HitsStep(button: seq<int>, k: nat, n: nat)
    requires k < |button|
    ensures forall c :: Hits(button[..k + 1], c, n) == Hits(button[..k], c, n) + if Slot(button[k], n) == c then 1 else 0
  {
    assert button[..k + 1][..k] == button[..k];
  }

  /** One more solution entry adds its presses times its hits. */
  lemma AchievedStep(buttons: seq<seq<int>>, solution: seq<int>, b: nat, n: nat)
    requires b < |solution| && b < |buttons|
    ensures forall c :: AchievedAt(buttons, solution[..b + 1], c, n) == AchievedAt(buttons, solution[..b], c, n) + solution[b] * Hits(buttons[b], c, n)
  {
    assert solution[..b + 1][..b] == solution[..b];
  }

  // ------------------------------------------------------------ soundness

  /** Every counter listed by a button is a counter index (no negatives). */
  predicate Natural(buttons: seq<seq<int>>) {
    forall b, k :: 0 <= b < |buttons| && 0 <= k < |buttons[b]| ==> buttons[b][k] >= 0
  }

  /** An untouched counter is never added to. */
  lemma {:induction false} UntouchedStaysZero(buttons: seq<seq<int>>, solution: seq<int>, c: nat, n: nat)
    requires Natural(buttons) && Untouched(buttons, c) && |solution| <= |buttons|
    ensures AchievedAt(buttons, solution, c, n) == 0
    decreases |solution|
  {
    if solution != [] {
      var b := |solution| - 1;
      UntouchedStaysZero(buttons, solution[..b], c, n);
      NoHits(buttons[b], c, n);
    }
  }

  /** A button that does not list c never hits it. */
  lemma {:induction false} NoHits(button: seq<int>, c: nat, n: nat)
    requires c !in button && forall k :: 0 <= k < |button| ==> button[k] >= 0
    ensures Hits(button, c, n) == 0
    decreases |button|
  {
    if button != [] {
      var init := button[..|button| - 1];
      assert forall k :: 0 <= k < |init| ==> init[k] == button[k];
      NoHits(init, c, n);
    }
  }

  /** The pre-check is sound where the untouched counter's target is not
      zero: no press counts at all reach the targets.  (A zero target is
      rejected too, though pressing nothing would meet it.) */
  lemma PreCheckSound(buttons: seq<seq<int>>, targets: seq<int>, c: nat, solution: seq<int>)
    requires Natural(buttons) && c < |targets| && Untouched(buttons, c) && targets[c] != 0
    requires |solution| <= |buttons|
    ensures !Achieves(buttons, targets, solution)
  {
    UntouchedStaysZero(buttons, solution, c, |targets|);
  }

  // ------------------------------------------------------------ the machine

  /** b pressed m times. */
  function Repeat(b: int, m: nat): (p: seq<int>)
    ensures |p| == m && forall t :: 0 <= t < m ==> p[t] == b
  {
    if m == 0 then [] else Repeat(b, m - 1) + [b]
  }

  /** Every button pressed its solution count of times, in button order. */
  function Expand(solution: seq<nat>): (p: seq<int>)
    ensures PressesIn(p, |solution|)
  {
    if solution == [] then []
    else
      var b := |solution| - 1;
      Expand(solution[..b]) + Repeat(b, solution[b])
  }

  /** The tally of two runs of presses adds up. */
  lemma {:induction false} TallyAppend(buttons: seq<seq<int>>, p: seq<int>, q: seq<int>, k: int)
    requires PressesIn(p, |buttons|) && PressesIn(q, |buttons|)
    ensures PressesIn(p + q, |buttons|)
    ensures Tally(buttons, p + q, k) == Tally(buttons, p, k) + Tally(buttons, q, k)
    decreases |q|
  {
    if q != [] {
      var init := q[..|q| - 1];
      var x := q[|q| - 1];
      assert PressesIn(init, |buttons|);
      TallyAppend(buttons, p, init, k);
      assert p + q == (p + init) + [x];
      assert (p + q)[..|p + q| - 1] == p + init;
      assert Tally(buttons, p + q, k) == Tally(buttons, p + init, k) + multiset(buttons[x])[k];
    } else {
      assert p + q == p;
    }
  }

  /** m presses of b add m times what b adds. */
  lemma {:induction false} TallyRepeat(buttons: seq<seq<int>>, b: nat, m: nat, k: int)
    requires b < |buttons|
    ensures Tally(buttons, Repeat(b, m), k) == m * multiset(buttons[b])[k]
    decreases m
  {
    if m > 0 {
      assert Repeat(b, m)[..m - 1] == Repeat(b, m - 1);
      TallyRepeat(buttons, b, m - 1, k);
    }
  }

  /** For listed counters inside the machine, a hit is a listing. */
  lemma {:induction false} HitsAreListings(button: seq<int>, c: nat, n: nat)
    requires forall k :: 0 <= k < |button| ==> 0 <= button[k] < n
    ensures Hits(button, c, n) == multiset(button)[c]
    decreases |button|
  {
    if button != [] {
      var init := button[..|button| - 1];
      assert button == init + [button[|button| - 1]];
      HitsAreListings(init, c, n);
    }
  }

  /** What the checker adds up is what the counter machine tallies after
      pressing each button its solution count of times. */
  lemma {:induction false} AchievedIsTally(buttons: seq<seq<int>>, solution: seq<nat>, c: nat, n: nat)
    requires |solution| <= |buttons| && ButtonsIn(buttons, n)
    ensures PressesIn(Expand(solution), |buttons|)
    ensures AchievedAt(buttons, solution, c, n) == Tally(buttons, Expand(solution), c)
    decreases |solution|
  {
    if solution != [] {
      var b := |solution| - 1;
      AchievedIsTally(buttons, solution[..b], c, n);
      TallyAppend(buttons, Expand(solution[..b]), Repeat(b, solution[b]), c);
      TallyRepeat(buttons, b, solution[b], c);
      HitsAreListings(buttons[b], c, n);
    }
  }

  /** The checker accepts exactly the press counts whose presses bring the
      counter machine to its joltage targets. */
  lemma CheckerMatchesMachine(buttons: seq<seq<int>>, targets: seq<int>, solution: seq<nat>)
    requires |solution| <= |buttons| && ButtonsIn(buttons, |targets|)
    ensures Achieves(buttons, targets, solution) <==> Reaches(buttons, targets, Expand(solution))
  {
    AchievedIsTally(buttons, solution, 0, |targets|);
    var p := Expand(solution);
    forall c | 0 <= c < |targets|
      ensures AchievedAt(buttons, solution, c, |targets|) == Tally(buttons, p, c)
    {
      AchievedIsTally(buttons, solution, c, |targets|);
    }
  }
}
