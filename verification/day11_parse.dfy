/** Day 11: the device graph read from lines `xxx: yyy zzz ...`.  Nodes are
    numbered by their position in a table of names; "out" is always node 0,
    and every line's three-letter name gets a node.  Each listed child adds
    one edge: the child to the node's children and the node to the child's
    parents. */
module Day11Parse {
  import opened Wrappers
  import opened UnicodeSpace

  // ------------------------------------------------------------ fields

  /** The length of the run of non-space characters s starts with. */
  function RunLength(s: string): (k: nat)
    ensures k <= |s| && (forall i :: 0 <= i < k ==> !GoIsSpace(s[i]))
    ensures k < |s| ==> GoIsSpace(s[k])
  {
    if s == [] || GoIsSpace(s[0]) then 0 else 1 + RunLength(s[1..])
  }

  /** strings.Fields: the maximal runs of non-space characters, in order. */
  function Fields(s: string): (ws: seq<string>)
    ensures forall k :: 0 <= k < |ws| ==> IsWord(ws[k])
    decreases |s|
  {
    if s == [] then []
    else if GoIsSpace(s[0]) then Fields(s[1..])
    else
      var k := RunLength(s);
      [s[..k]] + Fields(s[k..])
  }

  /** A field: non-empty, without space. */
  predicate IsWord(w: string) {
    w != [] && forall i :: 0 <= i < |w| ==> !GoIsSpace(w[i])
  }

  /** Words written with a space before each. */
  function Spaced(ws: seq<string>): string {
    if ws == [] then [] else " " + ws[0] + Spaced(ws[1..])
  }

  /** Splitting words written with spaces between them gives the words back. */
  lemma {:induction false} FieldsOfSpaced(ws: seq<string>)
    requires forall k :: 0 <= k < |ws| ==> IsWord(ws[k])
    ensures Fields(Spaced(ws)) == ws
    decreases |ws|
  {
    if ws != [] {
      var s := Spaced(ws);
      var w := ws[0];
      var rest := Spaced(ws[1..]);
      assert s == " " + w + rest;
      assert s[1..] == w + rest;
      assert rest == [] || rest[0] == ' ';
      WordRun(w, rest);
      assert (w + rest)[..|w|] == w && (w + rest)[|w|..] == rest;
      FieldsOfSpaced(ws[1..]);
    }
  }

  /** A word followed by nothing or a space is one whole run. */
  lemma {:induction false} WordRun(w: string, rest: string)
    requires IsWord(w) && (rest == [] || GoIsSpace(rest[0]))
    ensures RunLength(w + rest) == |w|
    decreases |w|
  {
    assert (w + rest)[0] == w[0];
    if |w| > 1 {
      assert (w + rest)[1..] == w[1..] + rest;
      WordRun(w[1..], rest);
    } else {
      assert (w + rest)[1..] == rest;
    }
  }

  // ------------------------------------------------------------ names

  /** Every non-empty line names its node in its first three characters
      and lists its children from its sixth on; a shorter one makes the
      slicing in parse panic. */
  predicate LinesOk(lines: seq<string>) {
    forall i :: 0 <= i < |lines| ==> lines[i] == "" || |lines[i]| >= 5
  }

  /** No name appears twice. */
  predicate Distinct(names: seq<string>) {
    forall i, j :: 0 <= i < j < |names| ==> names[i] != names[j]
  }

  /** A non-empty line among lines is named nm. */
  predicate Named(lines: seq<string>, nm: string)
    requires LinesOk(lines)
  {
    exists i :: 0 <= i < |lines| && lines[i] != "" && lines[i][..3] == nm
  }

  /** The node table: "out" first, then each new name in line order. */
  function NamesOf(lines: seq<string>): (names: seq<string>)
    requires LinesOk(lines)
    ensures |names| >= 1 && names[0] == "out" && Distinct(names)
  {
    if lines == [] then ["out"]
    else
      var init := NamesOf(lines[..|lines| - 1]);
      var line := lines[|lines| - 1];
      if line == "" || line[..3] in init then init else init + [line[..3]]
  }

  /** The table holds "out" and the names of the lines, and nothing else. */
  lemma {:induction false} NamesAreLineNames(lines: seq<string>, nm: string)
    requires LinesOk(lines)
    ensures nm in NamesOf(lines) <==> nm == "out" || Named(lines, nm)
    decreases |lines|
  {
    if lines != [] {
      var n := |lines| - 1;
      var init := lines[..n];
      NamesAreLineNames(init, nm);
      assert forall i :: 0 <= i < n ==> init[i] == lines[i];
    }
  }

  /** The node a name is at, or None when there is none (a failed map
      lookup). */
  function Lookup(names: seq<string>, nm: string): (r: Option<nat>)
    ensures r.None? <==> nm !in names
    ensures r.Some? ==> r.value < |names| && names[r.value] == nm
  {
    if names == [] then None
    else if names[|names| - 1] == nm then Some(|names| - 1)
    else Lookup(names[..|names| - 1], nm)
  }

  // ------------------------------------------------------------ edges

  /** Every child listed on a line is the name of a node. */
  predicate Resolved(names: seq<string>, lines: seq<string>)
    requires LinesOk(lines)
  {
    forall i, f :: 0 <= i < |lines| && lines[i] != "" && f in Fields(lines[i][5..]) ==> f in names
  }

  /** The (node, child) edges one line adds, in the order it lists them. */
  function LineEdges(names: seq<string>, line: string): (es: seq<(nat, nat)>)
    requires |line| >= 5 && line[..3] in names
    requires forall f :: f in Fields(line[5..]) ==> f in names
    ensures |es| == |Fields(line[5..])|
    ensures forall k :: 0 <= k < |es| ==> es[k].0 == Lookup(names, line[..3]).value
    ensures forall k :: 0 <= k < |es| ==> Some(es[k].1) == Lookup(names, Fields(line[5..])[k])
  {
    var parts := Fields(line[5..]);
    var a := Lookup(names, line[..3]).value;
    seq(|parts|, k requires 0 <= k < |parts| => (a, Lookup(names, parts[k]).value))
  }

  /** Every edge, line by line. */
  function Edges(names: seq<string>, lines: seq<string>): seq<(nat, nat)>
    requires LinesOk(lines) && Resolved(names, lines)
    requires forall i :: 0 <= i < |lines| && lines[i] != "" ==> lines[i][..3] in names
  {
    if lines == [] then []
    else
      var n := |lines| - 1;
      assert Resolved(names, lines[..n]) by {
        forall i, f | 0 <= i < n && lines[..n][i] != "" && f in Fields(lines[..n][i][5..]) ensures f in names {
          assert lines[..n][i] == lines[i];
        }
      }
      Edges(names, lines[..n]) + if lines[n] == "" then [] else LineEdges(names, lines[n])
  }

  /** The children an edge list gives node a, in edge order. */
  function Outgoing(es: seq<(nat, nat)>, a: nat): seq<nat> {
    if es == [] then []
    else
      var e := es[|es| - 1];
      Outgoing(es[..|es| - 1], a) + if e.0 == a then [e.1] else []
  }

  /** The parents an edge list gives node c, in edge order. */
  function Incoming(es: seq<(nat, nat)>, c: nat): seq<nat> {
    if es == [] then []
    else
      var e := es[|es| - 1];
      Incoming(es[..|es| - 1], c) + if e.1 == c then [e.0] else []
  }

  /** How often the edge a -> c occurs. */
  function Occurrences(es: seq<(nat, nat)>, a: nat, c: nat): nat {
    if es == [] then 0
    else Occurrences(es[..|es| - 1], a, c) + if es[|es| - 1] == (a, c) then 1 else 0
  }

  /** c is a child of a as often as a is a parent of c: both count the
      edge a -> c. */
  lemma {:induction false} EdgesPaired(es: seq<(nat, nat)>, a: nat, c: nat)
    ensures multiset(Outgoing(es, a))[c] == Occurrences(es, a, c)
    ensures multiset(Incoming(es, c))[a] == Occurrences(es, a, c)
    decreases |es|
  {
    if es != [] {
      EdgesPaired(es[..|es| - 1], a, c);
    }
  }

  /** Edges between nodes project to lists of nodes. */
  lemma {:induction false} ProjectionsWithin(es: seq<(nat, nat)>, x: nat, n: nat)
    requires forall k :: 0 <= k < |es| ==> es[k].0 < n && es[k].1 < n
    ensures Within(Outgoing(es, x), n) && Within(Incoming(es, x), n)
    decreases |es|
  {
    if es != [] {
      ProjectionsWithin(es[..|es| - 1], x, n);
    }
  }

  // ------------------------------------------------------------ the graph

  /** Names, and each node's children and parents as node numbers. */
  datatype Network = Network(names: seq<string>, children: seq<seq<nat>>, parents: seq<seq<nat>>)

  /** Every node number in a list names a node. */
  predicate Within(xs: seq<nat>, n: nat) {
    forall k :: 0 <= k < |xs| ==> xs[k] < n
  }

  /** A table of distinct names holding "out", and lists of node numbers
      for each node. */
  predicate WellFormed(g: Network) {
    var n := |g.names|;
    Distinct(g.names) && "out" in g.names && |g.children| == n && |g.parents| == n &&
    (forall a :: 0 <= a < n ==> Within(g.children[a], n)) &&
    (forall c :: 0 <= c < n ==> Within(g.parents[c], n))
  }

  /** parse: Failed when a line lists a child that no line names (log.Fatalf);
      otherwise the node table, and each node's children and parents from
      the edges of the lines. */
  method Parse(lines: seq<string>) returns (r: Result<Network>)
    requires LinesOk(lines)
    ensures r.Ok? <==> Resolved(NamesOf(lines), lines)
    ensures r.Ok? ==> WellFormed(r.value) && r.value.names == NamesOf(lines)
    ensures r.Ok? ==> forall i :: 0 <= i < |lines| && lines[i] != "" ==> lines[i][..3] in r.value.names
    ensures r.Ok? ==> forall a :: 0 <= a < |r.value.names| ==> r.value.children[a] == Outgoing(Edges(r.value.names, lines), a)
    ensures r.Ok? ==> forall c :: 0 <= c < |r.value.names| ==> r.value.parents[c] == Incoming(Edges(r.value.names, lines), c)
  {
    var names := ReadNames(lines);
    var n := |names|;
    var children: seq<seq<nat>> := seq(n, _ => []);
    var parents: seq<seq<nat>> := seq(n, _ => []);
    ghost var es: seq<(nat, nat)> := [];
    for i := 0 to |lines|
      invariant Resolved(names, lines[..i])
      invariant forall i' :: 0 <= i' < |lines| && lines[i'] != "" ==> lines[i'][..3] in names
      invariant es == Edges(names, lines[..i])
      invariant Linked(es, children, parents, n)
    {
      if lines[i] != "" {
        var parts := Fields(lines[i][5..]);
        var a := Lookup(names, lines[i][..3]).value;
        var linked;
        linked, es := LinkChildren(names, a, parts, es, children, parents);
        if linked.None? {
          var f :| f in parts && f !in names;
          Unresolved(names, lines, i, f);
          return Failed;
        }
        children, parents := linked.value.0, linked.value.1;
        LineDone(names, lines, i, a, es);
      } else {
        EmptyLineDone(names, lines, i);
      }
    }
    assert lines[..|lines|] == lines;
    assert names[0] in names;
    forall x | 0 <= x < n ensures Within(children[x], n) && Within(parents[x], n) {
      ProjectionsWithin(es, x, n);
    }
    return Ok(Network(names, children, parents));
  }

  /** The loop over one line's children: None at the first child that
      names no node; otherwise each child appended to a's children and a
      to the child's parents. */
  method LinkChildren(names: seq<string>, a: nat, parts: seq<string>, ghost es: seq<(nat, nat)>,
                      children: seq<seq<nat>>, parents: seq<seq<nat>>)
      returns (r: Option<(seq<seq<nat>>, seq<seq<nat>>)>, ghost es': seq<(nat, nat)>)
    requires a < |names| && Linked(es, children, parents, |names|)
    ensures r.None? <==> exists f :: f in parts && f !in names
    ensures r.Some? ==> (forall f :: f in parts ==> f in names) && es' == es + ChildEdges(names, a, parts)
    ensures r.Some? ==> Linked(es', r.value.0, r.value.1, |names|)
  {
    var n := |names|;
    var ch, pa := children, parents;
    es' := es;
    for j := 0 to |parts|
      invariant forall f :: f in parts[..j] ==> f in names
      invariant es' == es + ChildEdges(names, a, parts[..j])
      invariant Linked(es', ch, pa, n)
    {
      var child := Lookup(names, parts[j]);
      if child.None? {
        assert parts[j] in parts;
        return None, es';
      }
      var c := child.value;
      LinkStep(es', ch, pa, n, a, c);
      ch := ch[a := ch[a] + [c]];
      pa := pa[c := pa[c] + [a]];
      ChildEdgesStep(names, a, parts, j);
      es' := es' + [(a, c)];
    }
    assert parts[..|parts|] == parts;
    return Some((ch, pa)), es';
  }

  /** The first pass of parse: a node for "out" and one for every line. */
  method ReadNames(lines: seq<string>) returns (names: seq<string>)
    requires LinesOk(lines)
    ensures names == NamesOf(lines)
    ensures forall i :: 0 <= i < |lines| && lines[i] != "" ==> lines[i][..3] in names
  {
    names := ["out"];
    for i := 0 to |lines|
      invariant names == NamesOf(lines[..i])
      invariant forall i' :: 0 <= i' < i && lines[i'] != "" ==> lines[i'][..3] in names
    {
      assert lines[..i + 1][..i] == lines[..i];
      if lines[i] != "" && lines[i][..3] !in names {
        names := names + [lines[i][..3]];
      }
    }
    assert lines[..|lines|] == lines;
  }

  /** The edges from a to each listed child. */
  function ChildEdges(names: seq<string>, a: nat, parts: seq<string>): seq<(nat, nat)>
    requires forall f :: f in parts ==> f in names
  {
    seq(|parts|, k requires 0 <= k < |parts| => (a, Lookup(names, parts[k]).value))
  }

  /** The lists of a graph are the projections of the edges so far, and
      every edge joins nodes. */
  predicate Linked(es: seq<(nat, nat)>, children: seq<seq<nat>>, parents: seq<seq<nat>>, n: nat) {
    |children| == n && |parents| == n &&
    (forall k :: 0 <= k < |es| ==> es[k].0 < n && es[k].1 < n) &&
    (forall a :: 0 <= a < n ==> children[a] == Outgoing(es, a)) &&
    (forall c :: 0 <= c < n ==> parents[c] == Incoming(es, c))
  }

  /** Appending an edge to both lists keeps them the projections. */
  lemma LinkStep(es: seq<(nat, nat)>, children: seq<seq<nat>>, parents: seq<seq<nat>>, n: nat, a: nat, c: nat)
    requires Linked(es, children, parents, n) && a < n && c < n
    ensures Linked(es + [(a, c)], children[a := children[a] + [c]], parents[c := parents[c] + [a]], n)
  {
    var es' := es + [(a, c)];
    assert es'[..|es|] == es;
    forall x | 0 <= x < n
      ensures Outgoing(es', x) == Outgoing(es, x) + if x == a then [c] else []
      ensures Incoming(es', x) == Incoming(es, x) + if x == c then [a] else []
    {
    }
  }

  /** One more listed child. */
  lemma ChildEdgesStep(names: seq<string>, a: nat, parts: seq<string>, j: nat)
    requires j < |parts| && parts[j] in names
    requires forall f :: f in parts[..j] ==> f in names
    ensures forall f :: f in parts[..j + 1] ==> f in names
    ensures ChildEdges(names, a, parts[..j + 1]) == ChildEdges(names, a, parts[..j]) + [(a, Lookup(names, parts[j]).value)]
  {
    assert parts[..j + 1] == parts[..j] + [parts[j]];
  }

  /** A child no line names makes the lines unresolved. */
  lemma Unresolved(names: seq<string>, lines: seq<string>, i: nat, f: string)
    requires LinesOk(lines) && i < |lines| && lines[i] != ""
    requires f in Fields(lines[i][5..]) && f !in names
    ensures !Resolved(names, lines)
  {
  }

  /** After a line's children the edges are those of the lines so far. */
  lemma LineDone(names: seq<string>, lines: seq<string>, i: nat, a: nat, es: seq<(nat, nat)>)
    requires LinesOk(lines) && i < |lines| && lines[i] != ""
    requires forall i' :: 0 <= i' < |lines| && lines[i'] != "" ==> lines[i'][..3] in names
    requires Resolved(names, lines[..i])
    requires forall f :: f in Fields(lines[i][5..]) ==> f in names
    requires a == Lookup(names, lines[i][..3]).value
    requires es == Edges(names, lines[..i]) + ChildEdges(names, a, Fields(lines[i][5..]))
    ensures Resolved(names, lines[..i + 1])
    ensures es == Edges(names, lines[..i + 1])
  {
    var pre := lines[..i + 1];
    assert pre[..i] == lines[..i];
    assert pre[i] == lines[i];
    assert Resolved(names, pre) by {
      forall i', f | 0 <= i' <= i && pre[i'] != "" && f in Fields(pre[i'][5..]) ensures f in names {
        if i' < i {
          assert pre[i'] == lines[..i][i'];
        }
      }
    }
    assert ChildEdges(names, a, Fields(lines[i][5..])) == LineEdges(names, lines[i]);
    assert Edges(names, pre) == Edges(names, lines[..i]) + LineEdges(names, lines[i]);
  }

  /** An empty line adds nothing. */
  lemma EmptyLineDone(names: seq<string>, lines: seq<string>, i: nat)
    requires LinesOk(lines) && i < |lines| && lines[i] == ""
    requires forall i' :: 0 <= i' < |lines| && lines[i'] != "" ==> lines[i'][..3] in names
    requires Resolved(names, lines[..i])
    ensures Resolved(names, lines[..i + 1])
    ensures Edges(names, lines[..i + 1]) == Edges(names, lines[..i])
  {
    var pre := lines[..i + 1];
    assert pre[..i] == lines[..i];
  }
}
