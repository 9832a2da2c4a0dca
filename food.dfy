/**
 * Food placement of the snake game (snake.py, eat_food): the random cell is
 * drawn again while it lies on the snake, and the food type is a random
 * number from 1 to 5 written as a string. The random numbers are given as
 * parameters: `draws` is the sequence of cells `random.randint` produces.
 */
module Food {
  import opened Wrappers
  import opened Board
  import opened ScoreFile

  const FoodTypes: set<string> := {"1", "2", "3", "4", "5"}

  /** The food type drawn as the number `draw` from 1 to 5. */
  function FoodTypeName(draw: int): (r: string)
    requires 1 <= draw <= 5
    ensures r in FoodTypes
    ensures ParseNat(r) == Some(draw)
  {
    ParseNatToString(draw);
    NatToString(draw)
  }

  /** The points a meal is worth: the type eaten before this meal decides. */
  function Reward(eaten: string): (r: nat)
    ensures r == 5 || r == 1
    ensures r == 5 <==> eaten == "5"
  {
    if eaten == "5" then 5 else 1
  }

  /**
   * The retry loop: takes the draws in order and stops at the first one
   * outside `excluded`. `used` is the index of the accepted draw.
   */
  method DrawOutside(draws: seq<Point>, excluded: seq<Point>) returns (cell: Point, used: nat)
    requires exists i :: 0 <= i < |draws| && draws[i] !in excluded
    ensures used < |draws| && cell == draws[used]
    ensures cell !in excluded
    ensures forall i :: 0 <= i < used ==> draws[i] in excluded
  {
    used := 0;
    cell := draws[0];
    while cell in excluded
      invariant used < |draws| && cell == draws[used]
      invariant forall i :: 0 <= i < used ==> draws[i] in excluded
      decreases |draws| - used
    {
      used := used + 1;
      cell := draws[used];
    }
  }

  /**
   * `cell` is what the retry loop accepts from `draws`: the first draw
   * outside `excluded`.
   */
  ghost predicate FirstDrawOutside(draws: seq<Point>, excluded: seq<Point>, cell: Point) {
    exists u :: 0 <= u < |draws| && cell == draws[u] && cell !in excluded &&
                forall i :: 0 <= i < u ==> draws[i] in excluded
  }

  /**
   * The cells the program's retry loop avoids: the snake without its last
   * cell, so the head is not among them.
   */
  function RetryExclusionAsWritten(body: seq<Point>): seq<Point>
    requires |body| > 0
  {
    body[..|body| - 1]
  }

  /**
   * Food placement as the comment of the retry loop intends it: redraw while
   * the cell is anywhere on the snake. The new food is then never the head
   * cell, so a snake that has just grown is not on the food.
   */
  method PlaceFood(body: seq<Point>, draws: seq<Point>) returns (cell: Point)
    requires |body| > 0
    requires forall i :: 0 <= i < |draws| ==> InGrid(draws[i])
    requires exists i :: 0 <= i < |draws| && draws[i] !in body
    ensures InGrid(cell) && FirstDrawOutside(draws, body, cell)
    ensures cell !in body && cell != Last(Grow(body))
  {
    var used;
    cell, used := DrawOutside(draws, body);
  }

  /**
   * With the source's exclusion, a meal can put the new food on the head
   * cell: the snake below has its head on the food at (2, 5), and a single
   * draw of (2, 5) is accepted at once. After growing, the head is still on
   * the food, so the next frame's meal test succeeds again without a move.
   */
  lemma FoodLandsOnHeadAsWritten()
    ensures var body := [Point(2, 3), Point(2, 4), Point(2, 5)];
            var draws := [Point(2, 5)];
            InGrid(draws[0]) &&
            draws[0] !in RetryExclusionAsWritten(body) &&
            draws[0] == Last(body) &&
            Last(Grow(body)) == draws[0]
  {
    var body := [Point(2, 3), Point(2, 4), Point(2, 5)];
    assert RetryExclusionAsWritten(body) == [Point(2, 3), Point(2, 4)];
  }
}
