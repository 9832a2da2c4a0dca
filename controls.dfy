/**
 * Keyboard handling of the snake game: which key stands for which
 * direction, how a press or a release changes the set of held directions,
 * and which direction the held keys select (snake.py).
 */
module Controls {
  import opened Wrappers
  import opened Board

  /** The keys the game reacts to; every other key symbol is `Other`. */
  datatype Key = W | S | A | D | UpArrow | DownArrow | LeftArrow | RightArrow | Return | Other(symbol: int)

  /** The direction a key stands for: W and the up arrow for up, S and the down arrow for down, and so on. */
  function KeyDirection(k: Key): (r: Option<Point>)
    ensures r.Some? ==> IsUnit(r.value)
    ensures r.None? <==> k.Return? || k.Other?
  {
    match k
    case W | UpArrow => Some(Up)
    case S | DownArrow => Some(Down)
    case A | LeftArrow => Some(Left)
    case D | RightArrow => Some(Right)
    case _ => None
  }

  /** The held directions after a key press. */
  function Pressed(held: set<Point>, k: Key): (r: set<Point>)
    ensures held <= r
    ensures KeyDirection(k).Some? ==> KeyDirection(k).value in r && r - held <= {KeyDirection(k).value}
    ensures KeyDirection(k).None? ==> r == held
  {
    match KeyDirection(k)
    case Some(d) => held + {d}
    case None => held
  }

  /** The held directions after a key release. */
  function Released(held: set<Point>, k: Key): (r: set<Point>)
    ensures r <= held
    ensures KeyDirection(k).Some? ==> KeyDirection(k).value !in r && held - r <= {KeyDirection(k).value}
    ensures KeyDirection(k).None? ==> r == held
  {
    match KeyDirection(k)
    case Some(d) => held - {d}
    case None => held
  }

  /** Presses and releases keep the held set inside the four unit directions. */
  lemma {:induction false} HeldStaysUnits(held: set<Point>, k: Key)
    requires held <= Units
    ensures Pressed(held, k) <= Units && Released(held, k) <= Units
  {
    var p := Pressed(held, k);
    assert p == held + (p - held);
  }

  /** A press followed by a release of the same key leaves its direction absent and nothing else changed. */
  lemma PressThenRelease(held: set<Point>, k: Key)
    requires KeyDirection(k).Some?
    ensures Released(Pressed(held, k), k) == held - {KeyDirection(k).value}
  {
  }

  /** The rank of a direction when several are held: the later tests win. */
  function Priority(d: Point): nat {
    if d == Down then 3 else if d == Up then 2 else if d == Left then 1 else 0
  }

  /**
   * The direction chosen from the held keys: down over up over left over
   * right; with none of them held, the current direction is kept.
   */
  function ChooseDirection(held: set<Point>, current: Point): (r: Point)
    ensures held * Units == {} ==> r == current
    ensures held * Units != {} ==> r in held && IsUnit(r)
    ensures held * Units != {} ==> forall d :: d in held && IsUnit(d) ==> Priority(d) <= Priority(r)
    ensures IsUnit(current) ==> IsUnit(r)
  {
    if Down in held then assert Down in held * Units; Down
    else if Up in held then assert Up in held * Units; Up
    else if Left in held then assert Left in held * Units; Left
    else if Right in held then assert Right in held * Units; Right
    else
      assert held * Units == {};
      current
  }
}
