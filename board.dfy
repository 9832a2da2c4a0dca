/**
 * The playfield of the snake game: grid cells, the four unit directions,
 * the size of the grid, how the body moves and grows, and the two
 * collision tests (snake.py).
 */
module Board {

  /** A grid cell, or a direction vector; the game uses integer pairs for both. */
  datatype Point = Point(x: int, y: int)

  function Add(p: Point, d: Point): Point {
    Point(p.x + d.x, p.y + d.y)
  }

  /** The vector that leads from `from` to `to`. */
  function Offset(from: Point, to: Point): Point {
    Point(to.x - from.x, to.y - from.y)
  }

  // The y axis points upwards, so (0, 1) is the direction of the UP key.
  const Up: Point := Point(0, 1)
  const Down: Point := Point(0, -1)
  const Left: Point := Point(-1, 0)
  const Right: Point := Point(1, 0)

  const Units: set<Point> := {Up, Down, Left, Right}

  predicate IsUnit(d: Point) {
    d == Up || d == Down || d == Left || d == Right
  }

  // Window and tile sizes; `/` on these positive numbers is Python's `//`.
  const WindowWidth: int := 960
  const WindowHeight: int := 768
  const TileSize: int := WindowWidth / 20
  const TileCountX: int := WindowWidth / TileSize - 1
  const TileCountY: int := WindowHeight / TileSize - 1

  lemma GridDimensions()
    ensures TileSize == 48 && TileCountX == 19 && TileCountY == 15
  {
  }

  /** A cell on the playfield: both coordinates from 0 up to the tile count, inclusive. */
  predicate InGrid(p: Point) {
    0 <= p.x <= TileCountX && 0 <= p.y <= TileCountY
  }

  /** The head of the body: its last cell (the body is stored tail first). */
  function Last(body: seq<Point>): Point
    requires |body| > 0
  {
    body[|body| - 1]
  }

  /**
   * Every cell of the body is its predecessor or a unit step away from it.
   * Cells repeat after a meal, when a copy of the tail is put in front of it.
   */
  ghost predicate Connected(body: seq<Point>) {
    forall i :: 0 < i < |body| ==> body[i] == body[i - 1] || IsUnit(Offset(body[i - 1], body[i]))
  }

  /** One tick: a new head one step along `dir`, and the tail cell dropped. */
  function Advance(body: seq<Point>, dir: Point): (r: seq<Point>)
    requires |body| > 0
    ensures |r| == |body|
    ensures Last(r) == Add(Last(body), dir)
    ensures r[..|r| - 1] == body[1..]
  {
    var grown := body + [Add(Last(body), dir)];
    assert grown[1..][..|body| - 1] == body[1..];
    grown[1..]
  }

  lemma AdvanceKeepsConnected(body: seq<Point>, dir: Point)
    requires |body| > 0 && Connected(body) && IsUnit(dir)
    ensures Connected(Advance(body, dir))
  {
    var r := Advance(body, dir);
    forall i | 0 < i < |r|
      ensures r[i] == r[i - 1] || IsUnit(Offset(r[i - 1], r[i]))
    {
      if i < |r| - 1 {
        assert r[i] == body[i + 1] && r[i - 1] == body[i];
      } else {
        assert r[i - 1] == Last(body);
        assert Offset(r[i - 1], r[i]) == dir;
      }
    }
  }

  /** A meal: a copy of the tail cell is inserted in front of the body. */
  function Grow(body: seq<Point>): (r: seq<Point>)
    requires |body| > 0
    ensures |r| == |body| + 1
    ensures r[0] == body[0] && r[1..] == body
    ensures Last(r) == Last(body)
  {
    [body[0]] + body
  }

  lemma GrowKeepsConnected(body: seq<Point>)
    requires |body| > 0 && Connected(body)
    ensures Connected(Grow(body))
  {
    var r := Grow(body);
    forall i | 0 < i < |r|
      ensures r[i] == r[i - 1] || IsUnit(Offset(r[i - 1], r[i]))
    {
      if i > 1 {
        assert r[i] == body[i - 1] && r[i - 1] == body[i - 2];
      }
    }
  }

  /** The border test: the head has left the playfield on the x axis or on the y axis. */
  function BorderCollision(body: seq<Point>): (r: bool)
    requires |body| > 0
    ensures r <==> !InGrid(Last(body))
  {
    var head := Last(body);
    if head.x > TileCountX || head.x < 0 then true
    else if head.y > TileCountY || head.y < 0 then true
    else false
  }

  /**
   * The self-collision test: the head lies on one of the cells of the body
   * without its last two cells, i.e. the head and the cell just behind it.
   */
  function SelfCollision(body: seq<Point>): (r: bool)
    requires |body| > 0
    ensures r <==> exists i :: 0 <= i < |body| - 2 && body[i] == Last(body)
  {
    var rest := if |body| <= 2 then [] else body[..|body| - 2];
    Last(body) in rest
  }

  /** The cell just behind the head never counts as a collision, whatever it is. */
  lemma NeckNeverBites(body: seq<Point>, c: Point)
    requires |body| >= 2
    ensures SelfCollision(body[|body| - 2 := c]) == SelfCollision(body)
  {
    var b := body[|body| - 2 := c];
    assert Last(b) == Last(body);
    assert forall i :: 0 <= i < |body| - 2 ==> b[i] == body[i];
  }
}
