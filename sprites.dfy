/**
 * Sprite names of the snake's body cells (snake.py, get_image_name): a name
 * is "<towards the previous cell>-<towards the next cell>", each part one of
 * "top", "bottom", "left", "right", or "tail"/"head" at the two ends.
 */
module Sprites {
  import opened Board

  /** The name of a unit direction as the sprite files spell it. */
  function DirectionName(d: Point): string
    requires IsUnit(d)
  {
    if d == Up then "top" else if d == Down then "bottom" else if d == Right then "right" else "left"
  }

  /**
   * The part of a sprite name that points from `actual` towards `neighbour`;
   * the four tests run in turn, and when none matches the part keeps `default`.
   */
  function SidePart(actual: Point, neighbour: Point, default: string): (r: string)
    ensures IsUnit(Offset(actual, neighbour)) ==> r == DirectionName(Offset(actual, neighbour))
    ensures !IsUnit(Offset(actual, neighbour)) ==> r == default
  {
    var name := default;
    var name := if actual.x == neighbour.x && actual.y == neighbour.y - 1 then "top" else name;
    var name := if actual.x == neighbour.x && actual.y == neighbour.y + 1 then "bottom" else name;
    var name := if actual.x == neighbour.x - 1 && actual.y == neighbour.y then "right" else name;
    var name := if actual.x == neighbour.x + 1 && actual.y == neighbour.y then "left" else name;
    name
  }

  /** The sprite name of the body cell at `index`. */
  function ImageName(body: seq<Point>, index: int): (r: string)
    requires 0 <= index < |body|
    ensures index == 0 ==> "tail-" <= r
    ensures index == |body| - 1 ==> |r| >= 5 && r[|r| - 5..] == "-head"
  {
    var prev := if index == 0 then "tail" else SidePart(body[index], body[index - 1], "tail");
    var next := if index == |body| - 1 then "head" else SidePart(body[index], body[index + 1], "head");
    var name := prev + "-" + next;
    assert name[..|prev| + 1] == prev + "-" && name[|prev|..] == "-" + next;
    name
  }

  /** Every part of every name is one of the six words the sprite files use. */
  lemma {:induction false} ImageNameParts(body: seq<Point>, index: int)
    requires 0 <= index < |body|
    ensures exists prev, next ::
      prev in {"tail", "top", "bottom", "left", "right"} &&
      next in {"head", "top", "bottom", "left", "right"} &&
      ImageName(body, index) == prev + "-" + next
  {
    var prev := if index == 0 then "tail" else SidePart(body[index], body[index - 1], "tail");
    var next := if index == |body| - 1 then "head" else SidePart(body[index], body[index + 1], "head");
    assert ImageName(body, index) == prev + "-" + next;
  }

  /**
   * An inner cell whose two neighbours are a unit step away gets the names of
   * both directions.
   */
  lemma InnerImageName(body: seq<Point>, index: int)
    requires 0 < index < |body| - 1
    requires IsUnit(Offset(body[index], body[index - 1])) && IsUnit(Offset(body[index], body[index + 1]))
    ensures ImageName(body, index) ==
      DirectionName(Offset(body[index], body[index - 1])) + "-" + DirectionName(Offset(body[index], body[index + 1]))
  {
  }
}
