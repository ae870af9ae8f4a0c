/**
 The static world the dots live in: a MAP_WIDTH x MAP_HEIGHT grid, the start
 and goal cells, and the obstacles. Obstacles are configured as rectangles and
 expanded once, at start-up, into the flat list of cells they cover; every
 collision test afterwards is a linear scan of that list.
 */
module Grid {

  const Width: int := 30
  const Height: int := 30

  /** A grid cell; `x` grows to the right, `y` grows downwards. */
  datatype Location = Location(x: int, y: int)

  /** A rectangle of obstacle cells: upper-left corner, width and height. */
  datatype Obstacle = Obstacle(x: int, y: int, w: int, h: int)

  const Start: Location := Location(0, 0)
  const Goal: Location := Location(Width - 1, Height - 1)

  /** The configured obstacle rectangles, in configuration order. */
  const ObstacleData: seq<Obstacle> :=
    [Obstacle(22, 2, 8, 16), Obstacle(12, 20, 15, 2), Obstacle(0, 2, 12, 6)]

  /** The expanded obstacle cell list every dot is checked against. */
  const Obstacles: seq<Location> := MakeObstacles(ObstacleData)

  /** The reference meaning of a rectangle: the half-open ranges it covers. */
  predicate Covers(o: Obstacle, l: Location) {
    o.x <= l.x < o.x + o.w && o.y <= l.y < o.y + o.h
  }

  function Span(lo: int, hi: int): nat {
    if lo < hi then hi - lo else 0
  }

  /** The cells (x, y) for x from `x` up to (excluding) `xEnd`, left to right. */
  function RowCells(y: int, x: int, xEnd: int): (r: seq<Location>)
    decreases xEnd - x
    ensures |r| == Span(x, xEnd)
    ensures forall l :: l in r <==> l.y == y && x <= l.x < xEnd
  {
    if x < xEnd then [Location(x, y)] + RowCells(y, x + 1, xEnd) else []
  }

  /** The cells of `o` on rows `y` up to the bottom of `o`, row by row. */
  function RectCells(o: Obstacle, y: int): (r: seq<Location>)
    requires o.y <= y
    decreases o.y + o.h - y
    ensures |r| == Span(y, o.y + o.h) * Span(o.x, o.x + o.w)
    ensures forall l :: l in r <==> y <= l.y && Covers(o, l)
  {
    if y < o.y + o.h then
      var row := RowCells(y, o.x, o.x + o.w);
      var rest := RectCells(o, y + 1);
      assert Span(y, o.y + o.h) == Span(y + 1, o.y + o.h) + 1;
      assert forall l :: l in row + rest <==> l in row || l in rest;
      row + rest
    else
      []
  }

  /** makeObstacles: every rectangle, in order, contributes the cells it covers. */
  function MakeObstacles(data: seq<Obstacle>): (r: seq<Location>)
    ensures forall l :: l in r <==> exists o :: o in data && Covers(o, l)
  {
    if |data| == 0 then []
    else
      var head := RectCells(data[0], data[0].y);
      var rest := MakeObstacles(data[1..]);
      assert forall o :: o in data <==> o == data[0] || o in data[1..];
      head + rest
  }

  /** inBounds: the cell lies on the grid. */
  predicate InBounds(l: Location) {
    0 <= l.x < Width && 0 <= l.y < Height
  }

  /** The obstacle scan from index `i` onwards, comparing both coordinates. */
  function ScanFrom(l: Location, cells: seq<Location>, i: nat): (r: bool)
    requires i <= |cells|
    decreases |cells| - i
    ensures r <==> exists k :: i <= k < |cells| && cells[k] == l
  {
    if i == |cells| then false
    else if l.x == cells[i].x && l.y == cells[i].y then true
    else ScanFrom(l, cells, i + 1)
  }

  /** inObstacle: the cell occurs in the expanded obstacle list. */
  function InObstacle(l: Location, cells: seq<Location>): (r: bool)
    ensures r <==> l in cells
  {
    ScanFrom(l, cells, 0)
  }

  /** A cell a dot may stand on: on the grid and not an obstacle. */
  predicate Legal(l: Location, cells: seq<Location>) {
    InBounds(l) && !InObstacle(l, cells)
  }

  /** A cell is an obstacle of the configured layout iff a rectangle covers it. */
  lemma ObstacleIffCovered(l: Location, data: seq<Obstacle>)
    ensures InObstacle(l, MakeObstacles(data)) <==> exists o :: o in data && Covers(o, l)
  {
  }

  /** With the configured layout both the start and the goal cell are legal. */
  lemma EndpointsLegal()
    ensures Legal(Start, Obstacles)
    ensures Legal(Goal, Obstacles)
  {
    ObstacleIffCovered(Start, ObstacleData);
    ObstacleIffCovered(Goal, ObstacleData);
    assert forall o :: o in ObstacleData ==> !Covers(o, Start) && !Covers(o, Goal);
  }
}
