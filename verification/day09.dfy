/** Day 9: red tiles at integer points.  Part 1 finds the largest rectangle
    with two of the points as opposite corners; part 2 joins the points into
    a closed axis-aligned polygon and keeps only the rectangles whose border
    lies inside it, deciding "inside" by casting a ray to the left. */
module Day09 {

  datatype Point = Point(x: int, y: int)

  /** An edge from start to end; horizontal is fixed when the edge is made. */
  datatype Edge = Edge(start: Point, end: Point, horizontal: bool)

  /** newEdge: the closed segment [start, end], horizontal when both ends share y. */
  function NewEdge(start: Point, end: Point): (e: Edge)
    ensures e.start == start && e.end == end
    ensures e.horizontal <==> start.y == end.y
  {
    Edge(start, end, start.y == end.y)
  }

  function Min(a: int, b: int): int {
    if a <= b then a else b
  }

  function Max(a: int, b: int): int {
    if a <= b then b else a
  }

  /** between: v lies in the closed interval spanned by the two ends, in
      either order. */
  function Between(v: int, start: int, end: int): (b: bool)
    ensures b <==> (start <= v <= end || end <= v <= start)
  {
    var lo, hi := if start > end then end else start, if start > end then start else end;
    v >= lo && v <= hi
  }

  lemma BetweenSymmetric(v: int, start: int, end: int)
    ensures Between(v, start, end) == Between(v, end, start)
    ensures Between(start, start, end) && Between(end, start, end)
  {
  }

  /** on: p lies on the edge, read as vertical or horizontal by its flag. */
  function On(e: Edge, p: Point): (b: bool)
    ensures !e.horizontal ==> (b <==> p.x == e.start.x && Between(p.y, e.start.y, e.end.y))
    ensures e.horizontal ==> (b <==> p.y == e.start.y && Between(p.x, e.start.x, e.end.x))
  {
    if !e.horizontal then p.x == e.start.x && Between(p.y, e.start.y, e.end.y)
    else p.y == e.start.y && Between(p.x, e.start.x, e.end.x)
  }

  /** An axis-aligned edge made by newEdge. */
  predicate AxisAligned(e: Edge) {
    (e.start.x == e.end.x || e.start.y == e.end.y) && (e.horizontal <==> e.start.y == e.end.y)
  }

  /** The closed segment between the two ends of an axis-aligned edge is its
      bounding box. */
  predicate OnSegment(e: Edge, p: Point) {
    Min(e.start.x, e.end.x) <= p.x <= Max(e.start.x, e.end.x) &&
    Min(e.start.y, e.end.y) <= p.y <= Max(e.start.y, e.end.y)
  }

  /** For an axis-aligned edge, on is membership of the closed segment. */
  lemma OnIsSegment(e: Edge, p: Point)
    requires AxisAligned(e)
    ensures On(e, p) <==> OnSegment(e, p)
  {
  }

  /** The ray part2 casts from p: it starts at p and runs left.  Its own
      horizontal flag is left at false, as the source leaves it; crosses
      reads only its start. */
  function Ray(p: Point): Edge {
    Edge(p, Point(-1, p.y), false)
  }

  /** crosses: a vertical edge strictly left of the ray's start whose y span
      holds the ray's y, counting at a vertex only the lower endpoint; a
      horizontal edge never counts. */
  function Crosses(e: Edge, ray: Edge): (c: bool)
    ensures e.horizontal ==> !c
    ensures !e.horizontal && e.start.y != e.end.y ==>
      (c <==> e.start.x < ray.start.x && Min(e.start.y, e.end.y) <= ray.start.y < Max(e.start.y, e.end.y))
  {
    if !e.horizontal then
      var rayY := ray.start.y;
      if Between(rayY, e.start.y, e.end.y) && e.start.x < ray.start.x then
        if rayY == e.start.y || rayY == e.end.y then
          var minY := if e.end.y < e.start.y then e.end.y else e.start.y;
          rayY == minY
        else true
      else false
    else false
  }

  // ------------------------------------------------------------------ rectangles

  datatype Rectangle = Rectangle(min: Point, max: Point)

  predicate Normal(r: Rectangle) {
    r.min.x <= r.max.x && r.min.y <= r.max.y
  }

  /** newRectangle: the rectangle with p1 and p2 as opposite corners, with
      min below and left of max. */
  function NewRectangle(p1: Point, p2: Point): (r: Rectangle)
    ensures Normal(r)
    ensures r.min.x == Min(p1.x, p2.x) && r.max.x == Max(p1.x, p2.x)
    ensures r.min.y == Min(p1.y, p2.y) && r.max.y == Max(p1.y, p2.y)
  {
    var x1, x2 := if p2.x < p1.x then p2.x else p1.x, if p2.x < p1.x then p1.x else p2.x;
    var y1, y2 := if p2.y < p1.y then p2.y else p1.y, if p2.y < p1.y then p1.y else p2.y;
    Rectangle(Point(x1, y1), Point(x2, y2))
  }

  lemma NewRectangleSymmetric(p1: Point, p2: Point)
    ensures NewRectangle(p1, p2) == NewRectangle(p2, p1)
  {
  }

  /** area: the number of tiles the rectangle covers, borders included. */
  function Area(r: Rectangle): int {
    (r.max.x - r.min.x + 1) * (r.max.y - r.min.y + 1)
  }

  /** The area of the rectangle two corners span is at least one tile and
      grows with the distance between them along each axis. */
  lemma CornersArea(p1: Point, p2: Point)
    ensures Area(NewRectangle(p1, p2)) >= 1
    ensures var dx, dy := Max(p1.x, p2.x) - Min(p1.x, p2.x), Max(p1.y, p2.y) - Min(p1.y, p2.y);
      Area(NewRectangle(p1, p2)) == dx * dy + dx + dy + 1
  {
    var r := NewRectangle(p1, p2);
    var w, h := r.max.x - r.min.x + 1, r.max.y - r.min.y + 1;
    assert w >= 1 && h >= 1;
    PositiveProduct(w, h);
  }

  lemma PositiveProduct(w: int, h: int)
    requires w >= 1 && h >= 1
    ensures w * h >= 1
  {
    assert w * h == (w - 1) * h + h;
    assert (w - 1) * h >= 0;
  }

  /** The tiles on the border of a rectangle. */
  predicate OnBorder(r: Rectangle, p: Point) {
    r.min.x <= p.x <= r.max.x && r.min.y <= p.y <= r.max.y &&
    (p.x == r.min.x || p.x == r.max.x || p.y == r.min.y || p.y == r.max.y)
  }

  /** edgePoints: the top and bottom rows column by column, then the left
      and right columns without the corners.  part2 stops at the first
      point that is not inside; this returns what the sequence yields when
      it is not stopped. */
  method EdgePoints(r: Rectangle) returns (points: seq<Point>)
    requires Normal(r)
    ensures forall k :: 0 <= k < |points| ==> OnBorder(r, points[k])
    ensures forall p :: OnBorder(r, p) ==> p in points
  {
    points := [];
    var x := r.min.x;
    while x <= r.max.x
      invariant r.min.x <= x <= r.max.x + 1
      invariant forall k :: 0 <= k < |points| ==> OnBorder(r, points[k])
      invariant forall p: Point :: r.min.x <= p.x < x && (p.y == r.min.y || p.y == r.max.y) ==> p in points
      decreases r.max.x - x
    {
      points := points + [Point(x, r.min.y), Point(x, r.max.y)];
      x := x + 1;
    }
    var y := r.min.y + 1;
    while y < r.max.y
      invariant r.min.y + 1 <= y && (y <= r.max.y || y == r.min.y + 1)
      invariant forall k :: 0 <= k < |points| ==> OnBorder(r, points[k])
      invariant forall p: Point :: r.min.x <= p.x <= r.max.x && (p.y == r.min.y || p.y == r.max.y) ==> p in points
      invariant forall p: Point :: r.min.y < p.y < y && (p.x == r.min.x || p.x == r.max.x) ==> p in points
      decreases r.max.y - y
    {
      points := points + [Point(r.min.x, y), Point(r.max.x, y)];
      y := y + 1;
    }
  }

  // ------------------------------------------------------------------ the shape

  /** Some edge holds p. */
  predicate OnSomeEdge(edges: seq<Edge>, p: Point) {
    exists k :: 0 <= k < |edges| && On(edges[k], p)
  }

  /** The number of edges the leftward ray from p crosses. */
  function Crossings(edges: seq<Edge>, p: Point): (n: nat)
    ensures n <= |edges|
  {
    if edges == [] then 0
    else Crossings(edges[..|edges| - 1], p) + (if Crosses(edges[|edges| - 1], Ray(p)) then 1 else 0)
  }

  /** isInside: on an edge, or off every edge with an odd number of
      crossings. */
  predicate Inside(edges: seq<Edge>, p: Point) {
    OnSomeEdge(edges, p) || Crossings(edges, p) % 2 == 1
  }

  /** The edges part2 builds: each point to the next, then the last back to
      the first. */
  function Closed(points: seq<Point>): (edges: seq<Edge>)
    ensures |edges| == |points|
    ensures forall k :: 0 <= k < |points| - 1 ==> edges[k] == NewEdge(points[k], points[k + 1])
    ensures |points| > 0 ==> edges[|points| - 1] == NewEdge(points[|points| - 1], points[0])
  {
    if points == [] then []
    else Chain(points, |points| - 1) + [NewEdge(points[|points| - 1], points[0])]
  }

  /** The first n edges between consecutive points. */
  function Chain(points: seq<Point>, n: nat): (edges: seq<Edge>)
    requires n < |points| || n == 0
    ensures |edges| == n
    ensures forall k :: 0 <= k < n ==> edges[k] == NewEdge(points[k], points[k + 1])
  {
    if n == 0 then [] else Chain(points, n - 1) + [NewEdge(points[n - 1], points[n])]
  }

  /** shape: the polygon's edges in the order they were added. */
  class Shape {
    var edges: seq<Edge>

    constructor()
      ensures edges == []
    {
      edges := [];
    }

    /** addEdge appends the edge from start to end. */
    method AddEdge(start: Point, end: Point)
      modifies this
      ensures edges == old(edges) + [NewEdge(start, end)]
    {
      edges := edges + [NewEdge(start, end)];
    }

    /** isInside: first look for an edge holding p, then count crossings. */
    method IsInside(p: Point) returns (inside: bool)
      ensures inside == Inside(edges, p)
    {
      var i := 0;
      while i < |edges|
        invariant i <= |edges|
        invariant forall k :: 0 <= k < i ==> !On(edges[k], p)
      {
        if On(edges[i], p) {
          return true;
        }
        i := i + 1;
      }
      var count := 0;
      var ray := Ray(p);
      i := 0;
      while i < |edges|
        invariant i <= |edges|
        invariant count == Crossings(edges[..i], p)
      {
        assert edges[..i + 1][..i] == edges[..i];
        if Crosses(edges[i], ray) {
          count := count + 1;
        }
        i := i + 1;
      }
      assert edges[..i] == edges;
      return count % 2 == 1;
    }
  }

  /** Every point on an edge of the shape is inside it. */
  lemma EdgePointsInside(edges: seq<Edge>, k: nat, p: Point)
    requires k < |edges| && On(edges[k], p)
    ensures Inside(edges, p)
  {
  }

  /** Counting the crossings edge by edge. */
  lemma CrossingsAppend(edges: seq<Edge>, e: Edge, p: Point)
    ensures Crossings(edges + [e], p) == Crossings(edges, p) + if Crosses(e, Ray(p)) then 1 else 0
  {
    assert (edges + [e])[..|edges|] == edges;
  }

  /** The closed polygon round the corners of a rectangle, anticlockwise
      from its lower left corner. */
  function Box(x1: int, y1: int, x2: int, y2: int): seq<Edge> {
    Closed([Point(x1, y1), Point(x2, y1), Point(x2, y2), Point(x1, y2)])
  }

  /** The four edges of the rectangular polygon. */
  lemma BoxEdges(x1: int, y1: int, x2: int, y2: int)
    ensures Box(x1, y1, x2, y2) == [NewEdge(Point(x1, y1), Point(x2, y1)), NewEdge(Point(x2, y1), Point(x2, y2)),
                                   NewEdge(Point(x2, y2), Point(x1, y2)), NewEdge(Point(x1, y2), Point(x1, y1))]
  {
    var edges := Box(x1, y1, x2, y2);
    var corners := [Point(x1, y1), Point(x2, y1), Point(x2, y2), Point(x1, y2)];
    assert edges[0] == NewEdge(corners[0], corners[1]);
    assert edges[1] == NewEdge(corners[1], corners[2]);
    assert edges[2] == NewEdge(corners[2], corners[3]);
    assert edges[3] == NewEdge(corners[3], corners[0]);
  }

  /** The ray from p crosses the right edge of the rectangular polygon when
      p lies right of it, and the left edge likewise, each over the
      half-open y span; the other two edges are horizontal. */
  lemma BoxCrossings(x1: int, y1: int, x2: int, y2: int, p: Point)
    requires x1 < x2 && y1 < y2
    ensures Crossings(Box(x1, y1, x2, y2), p) ==
      (if x1 < p.x && y1 <= p.y < y2 then 1 else 0) + (if x2 < p.x && y1 <= p.y < y2 then 1 else 0)
  {
    var edges := Box(x1, y1, x2, y2);
    var e0, e1 := NewEdge(Point(x1, y1), Point(x2, y1)), NewEdge(Point(x2, y1), Point(x2, y2));
    var e2, e3 := NewEdge(Point(x2, y2), Point(x1, y2)), NewEdge(Point(x1, y2), Point(x1, y1));
    BoxEdges(x1, y1, x2, y2);
    var left := if x1 < p.x && y1 <= p.y < y2 then 1 else 0;
    var right := if x2 < p.x && y1 <= p.y < y2 then 1 else 0;
    assert !Crosses(e0, Ray(p)) && !Crosses(e2, Ray(p));
    assert Crosses(e1, Ray(p)) <==> right == 1;
    assert Crosses(e3, Ray(p)) <==> left == 1;
    CrossingsAppend([], e0, p);
    assert [] + [e0] == [e0];
    CrossingsAppend([e0], e1, p);
    assert [e0] + [e1] == [e0, e1];
    CrossingsAppend([e0, e1], e2, p);
    assert [e0, e1] + [e2] == [e0, e1, e2];
    CrossingsAppend([e0, e1, e2], e3, p);
    assert [e0, e1, e2] + [e3] == edges;
    assert Crossings(edges, p) == left + right;
  }

  /** The ray cast decides inside correctly for a rectangular polygon: the
      points inside are exactly the tiles of the rectangle. */
  lemma BoxInside(x1: int, y1: int, x2: int, y2: int, p: Point)
    requires x1 < x2 && y1 < y2
    ensures Inside(Box(x1, y1, x2, y2), p) <==> x1 <= p.x <= x2 && y1 <= p.y <= y2
  {
    var edges := Box(x1, y1, x2, y2);
    BoxEdges(x1, y1, x2, y2);
    BoxCrossings(x1, y1, x2, y2, p);
    if x1 <= p.x <= x2 && y1 <= p.y <= y2 {
      if p.x == x1 {
        assert On(edges[3], p);
      } else if p.x == x2 {
        assert On(edges[1], p);
      } else if p.y == y1 {
        assert On(edges[0], p);
      } else if p.y == y2 {
        assert On(edges[2], p);
      }
    } else {
      forall k | 0 <= k < 4 ensures !On(edges[k], p) {
      }
    }
  }

  // ------------------------------------------------------------------ part 1

  /** Some two distinct points span a rectangle of the given area. */
  predicate Spanned(points: seq<Point>, area: int) {
    exists i, j :: 0 <= i < |points| && 0 <= j < |points| && i != j && area == Area(NewRectangle(points[i], points[j]))
  }

  /** part1: the largest area spanned by two distinct points taken as
      opposite corners, or 0 with fewer than two points. */
  method Part1(points: seq<Point>) returns (maxarea: int)
    ensures forall i, j :: 0 <= i < |points| && 0 <= j < |points| && i != j ==>
      Area(NewRectangle(points[i], points[j])) <= maxarea
    ensures |points| < 2 ==> maxarea == 0
    ensures |points| >= 2 ==> Spanned(points, maxarea)
  {
    maxarea := 0;
    for i := 0 to |points|
      invariant forall i', j :: 0 <= i' < i && 0 <= j < |points| && i' != j ==>
        Area(NewRectangle(points[i'], points[j])) <= maxarea
      invariant maxarea == 0 || Spanned(points, maxarea)
    {
      maxarea := MaxInRow(points, i, maxarea);
    }
    if |points| >= 2 {
      CornersArea(points[0], points[1]);
    }
  }

  /** part1's inner loop for the first corner i. */
  method MaxInRow(points: seq<Point>, i: nat, maxarea: int) returns (maxarea': int)
    requires i < |points|
    ensures maxarea <= maxarea'
    ensures forall j :: 0 <= j < |points| && i != j ==> Area(NewRectangle(points[i], points[j])) <= maxarea'
    ensures maxarea' == maxarea || Spanned(points, maxarea')
  {
    maxarea' := maxarea;
    for j := 0 to |points|
      invariant maxarea <= maxarea'
      invariant forall j' :: 0 <= j' < j && i != j' ==> Area(NewRectangle(points[i], points[j'])) <= maxarea'
      invariant maxarea' == maxarea || Spanned(points, maxarea')
    {
      if i == j {
        continue;
      }
      var area := PairArea(points[i], points[j]);
      if area > maxarea' {
        maxarea' := area;
      }
    }
  }

  /** The area part1 works out for two corners, swapping them into order. */
  method PairArea(p1: Point, p2: Point) returns (area: int)
    ensures area == Area(NewRectangle(p1, p2))
  {
    var x1, y1, x2, y2 := p1.x, p1.y, p2.x, p2.y;
    if x2 < x1 {
      x1, x2 := x2, x1;
    }
    if y2 < y1 {
      y1, y2 := y2, y1;
    }
    area := (x2 - x1 + 1) * (y2 - y1 + 1);
  }

  // ------------------------------------------------------------------ part 2

  /** Every listed point is inside the shape. */
  predicate AllInside(edges: seq<Edge>, points: seq<Point>) {
    forall k :: 0 <= k < |points| ==> Inside(edges, points[k])
  }

  /** Every border tile of the rectangle is inside the shape. */
  ghost predicate Fits(edges: seq<Edge>, r: Rectangle) {
    forall p :: OnBorder(r, p) ==> Inside(edges, p)
  }

  /** The rectangle part2 keeps: the random sample drawn for it and its whole
      border are inside the shape. */
  ghost predicate Accepted(edges: seq<Edge>, r: Rectangle, samples: seq<Point>) {
    AllInside(edges, samples) && Fits(edges, r)
  }

  /** The inner "for p := range ..." loops of part2: false at the first point
      not inside the shape. */
  method AllPointsInside(shape: Shape, points: seq<Point>) returns (ok: bool)
    ensures ok == AllInside(shape.edges, points)
  {
    for k := 0 to |points|
      invariant forall k' :: 0 <= k' < k ==> Inside(shape.edges, points[k'])
    {
      var inside := shape.IsInside(points[k]);
      if !inside {
        return false;
      }
    }
    return true;
  }

  /** The rectangles part2 compares: two points with i < j as corners. */
  ghost predicate Candidate(points: seq<Point>, sample: Rectangle -> seq<Point>, area: int) {
    exists i, j :: 0 <= i < j < |points| && Kept(points, sample, i, j) && area == Area(NewRectangle(points[i], points[j]))
  }

  /** part2 keeps the rectangle between points i and j. */
  ghost predicate Kept(points: seq<Point>, sample: Rectangle -> seq<Point>, i: nat, j: nat)
    requires i < |points| && j < |points|
  {
    var r := NewRectangle(points[i], points[j]);
    Accepted(Closed(points), r, sample(r))
  }

  /** The first half of part2: the shape with the closed polygon's edges. */
  method BuildShape(points: seq<Point>) returns (shape: Shape)
    ensures fresh(shape) && shape.edges == Closed(points)
  {
    shape := new Shape();
    var i := 1;
    while i < |points|
      invariant 1 <= i && (i <= |points| || i == 1)
      invariant shape.edges == Chain(points, i - 1)
    {
      shape.AddEdge(points[i - 1], points[i]);
      i := i + 1;
    }
    if |points| > 0 {
      shape.AddEdge(points[|points| - 1], points[0]);
    }
  }

  /** part2: close the polygon, then the largest area of a rectangle between
      two points whose sample and border are inside it, or 0.  sample stands
      for randomPoints: the points drawn for a rectangle. */
  method Part2(points: seq<Point>, sample: Rectangle -> seq<Point>) returns (largestArea: int)
    ensures forall i, j :: 0 <= i < j < |points| && Kept(points, sample, i, j) ==>
      Area(NewRectangle(points[i], points[j])) <= largestArea
    ensures largestArea == 0 || Candidate(points, sample, largestArea)
  {
    var shape := BuildShape(points);
    largestArea := 0;
    for i := 0 to |points|
      invariant shape.edges == Closed(points)
      invariant forall i', j :: 0 <= i' < i && i' < j < |points| && Kept(points, sample, i', j) ==>
        Area(NewRectangle(points[i'], points[j])) <= largestArea
      invariant largestArea == 0 || Candidate(points, sample, largestArea)
    {
      largestArea := ScanRow(shape, points, sample, i, largestArea);
    }
  }

  /** part2's inner loop for corner i: the rectangles to every later point. */
  method ScanRow(shape: Shape, points: seq<Point>, sample: Rectangle -> seq<Point>, i: nat, largest: int)
    returns (largest': int)
    requires i < |points| && shape.edges == Closed(points)
    ensures largest <= largest'
    ensures forall j :: i < j < |points| && Kept(points, sample, i, j) ==> Area(NewRectangle(points[i], points[j])) <= largest'
    ensures largest' == largest || Candidate(points, sample, largest')
  {
    largest' := largest;
    for j := i + 1 to |points|
      invariant largest <= largest'
      invariant forall j' :: i < j' < j && Kept(points, sample, i, j') ==> Area(NewRectangle(points[i], points[j'])) <= largest'
      invariant largest' == largest || Candidate(points, sample, largest')
    {
      var rect := NewRectangle(points[i], points[j]);
      var keep := RectangleInside(shape, rect, sample(rect));
      if keep {
        var area := Area(rect);
        if area > largest' {
          largest' := area;
        }
      }
    }
  }

  /** The body of part2's inner loop before the area: the sampled points,
      then every border point, must be inside. */
  method RectangleInside(shape: Shape, rect: Rectangle, samples: seq<Point>) returns (keep: bool)
    requires Normal(rect)
    ensures keep == Accepted(shape.edges, rect, samples)
  {
    keep := AllPointsInside(shape, samples);
    if !keep {
      return;
    }
    var border := EdgePoints(rect);
    keep := AllPointsInside(shape, border);
  }

  /** When every tile of a rectangle is inside the shape, the random sample
      cannot reject it: accepting it rests on the border alone. */
  lemma SampleInRectangleAgrees(edges: seq<Edge>, r: Rectangle, samples: seq<Point>)
    requires forall p: Point :: r.min.x <= p.x <= r.max.x && r.min.y <= p.y <= r.max.y ==> Inside(edges, p)
    requires forall k :: 0 <= k < |samples| ==> r.min.x <= samples[k].x <= r.max.x && r.min.y <= samples[k].y <= r.max.y
    ensures Accepted(edges, r, samples) <==> Fits(edges, r)
  {
  }
}
