/** Day 10 input: one machine per line, such as
    `[.##.] (3) (1,3) (2) (2,3) (0,2) (0,1) {3,5,4,7}` — the lamp pattern in
    brackets, one comma-separated list of counter positions per switch in
    parentheses, and the joltage targets in braces. */
module Day10Parse {
  import opened Wrappers
  import opened Decimal
  import opened Day10Toggle

  // ------------------------------------------------------------ strings.Split

  /** The position of the first c in s, or |s| when there is none. */
  function IndexOf(s: string, c: char): (i: nat)
    ensures i <= |s| && (i < |s| ==> s[i] == c)
    ensures forall j :: 0 <= j < i ==> s[j] != c
  {
    if s == [] || s[0] == c then 0 else 1 + IndexOf(s[1..], c)
  }

  /** strings.Split(s, sep) for a one-character separator: the pieces
      between the separators, at least one. */
  function Split(s: string, sep: char): (parts: seq<string>)
    ensures |parts| >= 1
    ensures forall k :: 0 <= k < |parts| ==> sep !in parts[k]
    decreases |s|
  {
    var i := IndexOf(s, sep);
    if i == |s| then [s] else [s[..i]] + Split(s[i + 1..], sep)
  }

  /** strings.Join(parts, sep). */
  function Join(parts: seq<string>, sep: char): string
    requires |parts| >= 1
  {
    if |parts| == 1 then parts[0] else parts[0] + [sep] + Join(parts[1..], sep)
  }

  /** Splitting and joining back gives the text. */
  lemma {:induction false} JoinSplit(s: string, sep: char)
    ensures Join(Split(s, sep), sep) == s
    decreases |s|
  {
    var i := IndexOf(s, sep);
    if i < |s| {
      var rest := Split(s[i + 1..], sep);
      var parts := [s[..i]] + rest;
      assert Split(s, sep) == parts;
      assert parts[0] == s[..i] && parts[1..] == rest && |parts| > 1;
      JoinSplit(s[i + 1..], sep);
      assert s == s[..i] + [sep] + s[i + 1..];
    }
  }

  /** Joining pieces that hold no separator and splitting gives the pieces. */
  lemma {:induction false} SplitJoin(parts: seq<string>, sep: char)
    requires |parts| >= 1 && forall k :: 0 <= k < |parts| ==> sep !in parts[k]
    ensures Split(Join(parts, sep), sep) == parts
    decreases |parts|
  {
    var s := Join(parts, sep);
    var p := parts[0];
    if |parts| == 1 {
      IndexAfter(p, sep, "");
      assert p + "" == p;
    } else {
      var rest := [sep] + Join(parts[1..], sep);
      assert s == p + rest;
      IndexAfter(p, sep, rest);
      SplitJoin(parts[1..], sep);
      assert s[|p| + 1..] == Join(parts[1..], sep);
      assert s[..|p|] == p;
    }
  }

  /** The first c in p + rest, when p has none, is where rest's first c is. */
  lemma {:induction false} IndexAfter(p: string, c: char, rest: string)
    requires c !in p
    requires rest == [] || rest[0] == c
    ensures IndexOf(p + rest, c) == |p|
    decreases |p|
  {
    if p != [] {
      assert (p + rest)[1..] == p[1..] + rest;
      IndexAfter(p[1..], c, rest);
    }
  }

  // ------------------------------------------------------------ number lists

  /** Atoi of each part, or None when some part is not an integer. */
  function AtoiAll(parts: seq<string>): (r: Option<seq<int>>)
    ensures r.Some? <==> forall k :: 0 <= k < |parts| ==> IsIntegerText(parts[k])
    ensures r.Some? ==> |r.value| == |parts| && forall k :: 0 <= k < |parts| ==> Atoi(parts[k]) == Some(r.value[k])
  {
    if parts == [] then Some([])
    else
      var init := AtoiAll(parts[..|parts| - 1]);
      var last := parts[|parts| - 1];
      AtoiAccepts(last);
      if init.None? || Atoi(last).None? then None
      else Some(init.value + [Atoi(last).value])
  }

  /** One more part: its value appended, or None when it does not read. */
  lemma AtoiAllAppend(parts: seq<string>, x: string)
    ensures AtoiAll(parts + [x]) ==
      if AtoiAll(parts).Some? && Atoi(x).Some? then Some(AtoiAll(parts).value + [Atoi(x).value]) else None
  {
    assert (parts + [x])[..|parts|] == parts;
    assert (parts + [x])[|parts|] == x;
  }

  /** The numbers of a comma-separated list. */
  function Numbers(s: string): Option<seq<int>> {
    AtoiAll(Split(s, ','))
  }

  /** parseNumberList: the value of each comma-separated part; a part that
      is not an integer ends the program (log.Fatal), modelled as Failed. */
  method ParseNumberList(s: string) returns (r: Result<seq<int>>)
    ensures r.Ok? <==> Numbers(s).Some?
    ensures r.Ok? ==> r.value == Numbers(s).value
  {
    var parts := Split(s, ',');
    var result: seq<int> := [];
    for i := 0 to |parts|
      invariant AtoiAll(parts[..i]) == Some(result)
    {
      assert parts[..i + 1] == parts[..i] + [parts[i]];
      AtoiAllAppend(parts[..i], parts[i]);
      var num := Atoi(parts[i]);
      if num.None? {
        return Failed;
      }
      result := result + [num.value];
    }
    assert parts[..|parts|] == parts;
    return Ok(result);
  }

  /** Comma-separated decimal text of a non-empty list of numbers. */
  function FormatList(xs: seq<int>): string
    requires |xs| >= 1
  {
    Join(seq(|xs|, k requires 0 <= k < |xs| => Itoa(xs[k])), ',')
  }

  /** Decimal text holds no comma. */
  lemma ItoaNoComma(x: int)
    ensures ',' !in Itoa(x)
  {
    NatToStringIsCanonical(if x < 0 then -x else x);
  }

  /** Parts that each read as the matching number read as the list. */
  lemma {:induction false} ReadEach(texts: seq<string>, xs: seq<int>)
    requires |texts| == |xs| && forall k :: 0 <= k < |xs| ==> Atoi(texts[k]) == Some(xs[k])
    ensures AtoiAll(texts) == Some(xs)
    decreases |xs|
  {
    if xs != [] {
      var n := |xs| - 1;
      ReadEach(texts[..n], xs[..n]);
      assert texts == texts[..n] + [texts[n]];
      AtoiAllAppend(texts[..n], texts[n]);
      assert xs == xs[..n] + [xs[n]];
    }
  }

  /** Writing a list and reading it back gives the list. */
  method FormatThenParse(xs: seq<int>) returns (r: Result<seq<int>>)
    requires |xs| >= 1
    ensures r == Ok(xs)
  {
    var texts := seq(|xs|, k requires 0 <= k < |xs| => Itoa(xs[k]));
    forall k | 0 <= k < |texts| ensures ',' !in texts[k] && Atoi(texts[k]) == Some(xs[k]) {
      ItoaNoComma(xs[k]);
      AtoiItoa(xs[k]);
    }
    SplitJoin(texts, ',');
    assert Split(FormatList(xs), ',') == texts;
    ReadEach(texts, xs);
    r := ParseNumberList(FormatList(xs));
  }

  // ------------------------------------------------------------ switches

  /** Bit pos for each listed pos below 64 (1<<pos is 0 from 64 on). */
  function MaskOf(values: seq<int>): (b: Bits)
    ensures InWord(b) && forall v: nat :: v in b <==> v < 64 && v in values
  {
    set v: nat | v < 64 && v in values
  }

  lemma MaskOfAppend(values: seq<int>, x: int)
    ensures MaskOf(values + [x]) == MaskOf(values) + if 0 <= x < 64 then {x} else {}
  {
  }

  /** The mask of a switch, or None when a pos is negative (a negative
      shift count makes Go panic). */
  function SwitchMask(values: seq<int>): (r: Option<Bits>)
    ensures r.Some? <==> forall k :: 0 <= k < |values| ==> values[k] >= 0
    ensures r.Some? ==> r.value == MaskOf(values)
  {
    if exists k :: 0 <= k < |values| && values[k] < 0 then None
    else Some(MaskOf(values))
  }

  /** The loop of parseSwitch: the union of 1<<pos over the listed
      positions, stopping at a negative one. */
  method SetBits(vs: seq<int>) returns (r: Option<Bits>)
    ensures r == SwitchMask(vs)
  {
    var result: Bits := {};
    for i := 0 to |vs|
      invariant forall k :: 0 <= k < i ==> vs[k] >= 0
      invariant result == MaskOf(vs[..i])
    {
      var pos := vs[i];
      if pos < 0 {
        return None;
      }
      assert vs[..i + 1] == vs[..i] + [pos];
      MaskOfAppend(vs[..i], pos);
      if pos < 64 {
        result := result + {pos};
      }
    }
    assert vs[..|vs|] == vs;
    return Some(result);
  }

  /** parseSwitch: the mask of the listed positions. */
  method ParseSwitch(s: string) returns (r: Result<Bits>)
    ensures r.Ok? <==> Numbers(s).Some? && SwitchMask(Numbers(s).value).Some?
    ensures r.Ok? ==> r.value == SwitchMask(Numbers(s).value).value
  {
    var values := ParseNumberList(s);
    if values.Failed? {
      return Failed;
    }
    var mask := SetBits(values.value);
    if mask.None? {
      return Failed;
    }
    return Ok(mask.value);
  }

  /** The worked examples of parseSwitch: "0,2" is 5 (bits 0 and 2). */
  lemma ParseSwitchExample()
    ensures Numbers("0,2") == Some([0, 2]) && SwitchMask([0, 2]) == Some({0, 2})
  {
    var parts := ["0", "2"];
    SplitJoin(parts, ',');
    assert Join(parts, ',') == "0,2";
    assert Atoi(parts[0]) == Some(0) && Atoi(parts[1]) == Some(2);
    AtoiAccepts(parts[0]);
    AtoiAccepts(parts[1]);
    var r := AtoiAll(parts);
    assert r.value[0] == 0 && r.value[1] == 2;
    assert r.value == [0, 2];
    assert MaskOf([0, 2]) == {0, 2};
  }

  /** The second case of the same test: bits 0, 1, 2 and 7, the mask 135. */
  lemma ParseSwitchLonger()
    ensures Numbers("0,1,2,7") == Some([0, 1, 2, 7]) && SwitchMask([0, 1, 2, 7]) == Some({0, 1, 2, 7})
  {
    NumbersLonger();
    SwitchMaskLonger();
  }

  lemma NumbersLonger()
    ensures Numbers("0,1,2,7") == Some([0, 1, 2, 7])
  {
    SplitLonger();
    AtoiAllLonger();
  }

  lemma SplitLonger()
    ensures Split("0,1,2,7", ',') == ["0", "1", "2", "7"]
  {
    var parts := ["0", "1", "2", "7"];
    JoinLonger();
    assert forall k :: 0 <= k < |parts| ==> ',' !in parts[k];
    SplitJoin(parts, ',');
  }

  lemma JoinLonger()
    ensures Join(["0", "1", "2", "7"], ',') == "0,1,2,7"
  {
    var parts := ["0", "1", "2", "7"];
    assert Join(parts[3..], ',') == "7";
    assert Join(parts[2..], ',') == "2,7" by { assert parts[2..][1..] == parts[3..]; }
    assert Join(parts[1..], ',') == "1,2,7" by { assert parts[1..][1..] == parts[2..]; }
    assert parts[1..] == parts[0..][1..];
  }

  lemma AtoiAllLonger()
    ensures AtoiAll(["0", "1", "2", "7"]) == Some([0, 1, 2, 7])
  {
    var parts := ["0", "1", "2", "7"];
    assert Atoi(parts[0]) == Some(0) && Atoi(parts[1]) == Some(1);
    assert Atoi(parts[2]) == Some(2) && Atoi(parts[3]) == Some(7);
    AtoiAccepts(parts[0]);
    AtoiAccepts(parts[1]);
    AtoiAccepts(parts[2]);
    AtoiAccepts(parts[3]);
    var r := AtoiAll(parts);
    assert r.value[0] == 0 && r.value[1] == 1 && r.value[2] == 2 && r.value[3] == 7;
    assert r.value == [0, 1, 2, 7];
  }

  lemma SwitchMaskLonger()
    ensures SwitchMask([0, 1, 2, 7]) == Some({0, 1, 2, 7})
  {
    var values := [0, 1, 2, 7];
    assert forall k :: 0 <= k < |values| ==> values[k] >= 0;
    var b := MaskOf(values);
    assert forall v: nat :: v in b <==> v in {0, 1, 2, 7};
    assert b == {0, 1, 2, 7};
  }

  // ------------------------------------------------------------ groups

  /** A match of `\x([^y]+)y` (x the opening and y the closing character)
      starts at i: an x, then at least one character before the first y
      after it. */
  predicate MatchesAt(s: string, i: nat, open: char, close: char) {
    i < |s| && s[i] == open && 0 < IndexOf(s[i + 1..], close) < |s| - i - 1
  }

  /** The submatch of the match at i: the text up to the first close. */
  function Group(s: string, i: nat, open: char, close: char): (g: string)
    requires MatchesAt(s, i, open, close)
    ensures |g| >= 1 && close !in g
  {
    s[i + 1..][..IndexOf(s[i + 1..], close)]
  }

  /** The leftmost match at or after from. */
  function FirstMatch(s: string, from: nat, open: char, close: char): (r: Option<nat>)
    ensures r.Some? ==> from <= r.value && MatchesAt(s, r.value, open, close)
    ensures forall j :: from <= j && (r.None? || j < r.value) ==> !MatchesAt(s, j, open, close)
    decreases |s| - from
  {
    if from >= |s| then None
    else if MatchesAt(s, from, open, close) then Some(from)
    else FirstMatch(s, from + 1, open, close)
  }

  /** FindStringSubmatch: the submatch of the leftmost match. */
  function FindGroup(s: string, open: char, close: char): Option<string> {
    match FirstMatch(s, 0, open, close)
    case None => None
    case Some(p) => Some(Group(s, p, open, close))
  }

  /** FindAllStringSubmatch(s, -1): the submatches of the successive
      matches, each search starting after the previous match. */
  function FindAllGroups(s: string, open: char, close: char): (gs: seq<string>)
    ensures forall k :: 0 <= k < |gs| ==> |gs[k]| >= 1 && close !in gs[k]
    decreases |s|
  {
    match FirstMatch(s, 0, open, close)
    case None => []
    case Some(p) =>
      var g := Group(s, p, open, close);
      [g] + FindAllGroups(s[p + |g| + 2..], open, close)
  }

  /** Groups laid out as gap, open, group, close, each gap free of open
      characters. */
  function Layout(gs: seq<string>, gap: string, open: char, close: char): string {
    if gs == [] then gap else gap + [open] + gs[0] + [close] + Layout(gs[1..], gap, open, close)
  }

  /** The leftmost match of a laid-out line is just after its first gap. */
  lemma FirstMatchAfterGap(s: string, gap: string, g: string, open: char, close: char)
    requires open !in gap && |g| >= 1 && close !in g
    requires |s| > |gap| + |g| + 1 && s[..|gap|] == gap && s[|gap|] == open
    requires s[|gap| + 1..|gap| + 1 + |g|] == g && s[|gap| + 1 + |g|] == close
    ensures FirstMatch(s, 0, open, close) == Some(|gap|)
    ensures Group(s, |gap|, open, close) == g
  {
    var t := s[|gap| + 1..];
    assert t == g + t[|g|..] && t[|g|] == close;
    IndexAfter(g, close, t[|g|..]);
    assert MatchesAt(s, |gap|, open, close);
    forall j | 0 <= j < |gap| ensures !MatchesAt(s, j, open, close) {
      assert s[j] == gap[j];
    }
  }

  /** Finding all groups of a laid-out line gives the groups back. */
  lemma {:induction false} FindAllLayout(gs: seq<string>, gap: string, open: char, close: char)
    requires open !in gap
    requires forall k :: 0 <= k < |gs| ==> |gs[k]| >= 1 && close !in gs[k]
    ensures FindAllGroups(Layout(gs, gap, open, close), open, close) == gs
    decreases |gs|
  {
    var s := Layout(gs, gap, open, close);
    if gs == [] {
      forall j | 0 <= j ensures !MatchesAt(s, j, open, close) {
        if j < |s| {
          assert s[j] == gap[j];
        }
      }
      assert FirstMatch(s, 0, open, close).None?;
    } else {
      var g := gs[0];
      var rest := Layout(gs[1..], gap, open, close);
      assert s == gap + [open] + g + [close] + rest;
      assert s[..|gap|] == gap;
      assert s[|gap| + 1..|gap| + 1 + |g|] == g;
      FirstMatchAfterGap(s, gap, g, open, close);
      assert s[|gap| + |g| + 2..] == rest;
      FindAllLayout(gs[1..], gap, open, close);
    }
  }

  // ------------------------------------------------------------ machines

  /** What parseMachine reads from a line. */
  datatype Machine = Machine(nbits: int, lamps: Bits, switches: seq<Bits>, buttons: seq<seq<int>>, joltages: seq<int>)

  /** The lamp pattern: the group of the first `[...]`. */
  function LampGroup(line: string): Option<string> {
    FindGroup(line, '[', ']')
  }

  /** The switch lists: the groups of every `(...)`. */
  function SwitchGroups(line: string): seq<string> {
    FindAllGroups(line, '(', ')')
  }

  /** The joltage list: the group of the first `{...}`. */
  function JoltGroup(line: string): Option<string> {
    FindGroup(line, '{', '}')
  }

  /** Every switch list reads as numbers with no negative position. */
  predicate SwitchesRead(groups: seq<string>) {
    forall k :: 0 <= k < |groups| ==> Numbers(groups[k]).Some? && SwitchMask(Numbers(groups[k]).value).Some?
  }

  /** The joltage list, when there is one, reads as numbers. */
  predicate JoltsRead(line: string) {
    JoltGroup(line).None? || Numbers(JoltGroup(line).value).Some?
  }

  /** The switches of the first n switch lists. */
  predicate SwitchesAre(groups: seq<string>, n: nat, switches: seq<Bits>, buttons: seq<seq<int>>)
    requires n <= |groups| && SwitchesRead(groups)
  {
    |switches| == n && |buttons| == n &&
    forall k :: 0 <= k < n ==> buttons[k] == Numbers(groups[k]).value && switches[k] == SwitchMask(buttons[k]).value
  }

  /** The switch loop of parseMachine: parseSwitch and parseButtons (which
      is parseNumberList) of each list, in order. */
  method ParseSwitches(ms: seq<string>) returns (r: Result<(seq<Bits>, seq<seq<int>>)>)
    ensures r.Ok? <==> SwitchesRead(ms)
    ensures r.Ok? ==> SwitchesRead(ms) && SwitchesAre(ms, |ms|, r.value.0, r.value.1)
  {
    var switches: seq<Bits> := [];
    var buttons: seq<seq<int>> := [];
    for i := 0 to |ms|
      invariant SwitchesRead(ms[..i])
      invariant SwitchesAre(ms[..i], i, switches, buttons)
    {
      var sw := ParseSwitch(ms[i]);
      if sw.Failed? {
        SwitchFails(ms, i);
        return Failed;
      }
      var bt := ParseNumberList(ms[i]);
      SwitchesStep(ms, i, switches, buttons, sw.value, bt.value);
      switches := switches + [sw.value];
      buttons := buttons + [bt.value];
    }
    assert ms[..|ms|] == ms;
    return Ok((switches, buttons));
  }

  /** parseMachine: Failed when the line has no lamp pattern (log.Fatalf)
      or one of its lists does not read; otherwise the width and mask of the
      lamp pattern, a mask and a position list per switch, and the joltage
      targets (none when the line has no braces). */
  method ParseMachine(line: string) returns (r: Result<Machine>)
    ensures r.Ok? <==> LampGroup(line).Some? && SwitchesRead(SwitchGroups(line)) && JoltsRead(line)
    ensures r.Ok? ==> LampGroup(line).Some? && SwitchesRead(SwitchGroups(line)) && JoltsRead(line)
    ensures r.Ok? ==> r.value.nbits == |LampGroup(line).value| && r.value.lamps == LampSet(LampGroup(line).value)
    ensures r.Ok? ==> SwitchesAre(SwitchGroups(line), |SwitchGroups(line)|, r.value.switches, r.value.buttons)
    ensures r.Ok? ==> r.value.joltages == if JoltGroup(line).None? then [] else Numbers(JoltGroup(line).value).value
  {
    var ml := LampGroup(line);
    if ml.None? {
      return Failed;
    }
    var nbits, lamps := ParseLamps(ml.value);
    var ms := SwitchGroups(line);
    var sb := ParseSwitches(ms);
    if sb.Failed? {
      return Failed;
    }
    var (switches, buttons) := sb.value;
    var joltages: seq<int> := [];
    var mj := JoltGroup(line);
    if mj.Some? {
      var jolts := ParseNumberList(mj.value);
      if jolts.Failed? {
        return Failed;
      }
      joltages := jolts.value;
    }
    return Ok(Machine(nbits, lamps, switches, buttons, joltages));
  }

  /** The switch loop keeps its invariant. */
  lemma SwitchesStep(ms: seq<string>, i: nat, switches: seq<Bits>, buttons: seq<seq<int>>, sw: Bits, bt: seq<int>)
    requires i < |ms| && SwitchesRead(ms[..i]) && SwitchesAre(ms[..i], i, switches, buttons)
    requires Numbers(ms[i]).Some? && SwitchMask(Numbers(ms[i]).value).Some?
    requires bt == Numbers(ms[i]).value && sw == SwitchMask(bt).value
    ensures SwitchesRead(ms[..i + 1]) && SwitchesAre(ms[..i + 1], i + 1, switches + [sw], buttons + [bt])
  {
    assert ms[..i + 1] == ms[..i] + [ms[i]];
  }

  /** A switch list that does not read fails the whole line. */
  lemma SwitchFails(ms: seq<string>, i: nat)
    requires i < |ms|
    requires !(Numbers(ms[i]).Some? && SwitchMask(Numbers(ms[i]).value).Some?)
    ensures !SwitchesRead(ms)
  {
  }

  /** The search part of a machine: all lamps off to start with. */
  function ToToggle(m: Machine): (t: Toggle)
    ensures t.lamps == m.lamps && t.switches == m.switches && t.state == {}
  {
    Toggle(m.nbits, m.lamps, m.switches, {})
  }
}
