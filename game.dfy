/**
 * The global state of the snake game (snake.py) as one object: the body,
 * the food, the direction, the held keys, the counters and the high-score
 * file, with one method per callback or helper that changes them.
 */
module SnakeGame {
  import opened Wrappers
  import opened Board
  import opened Controls
  import opened ScoreFile
  import opened Food

  const InitialSnake: seq<Point> := [Point(2, 2), Point(3, 2), Point(4, 2)]
  const InitialFood: Point := Point(2, 5)

  class Game {
    /** The digest of the high-score file (MD5 of the ASCII bytes, as hex). */
    const md5: string -> string

    var snake: seq<Point>          // tail first, head last
    var food: seq<Point>           // a one-element list
    var foodType: string
    var direction: Point
    var pressedKeys: set<Point>
    var score: nat
    var steps: nat
    var hiscore: nat
    var isEnd: bool
    var isTitle: bool
    var hiscoreFile: Record        // the content of the high-score file
    var halted: bool               // the program has quit or died of an exception

    ghost predicate Valid()
      reads this`snake, this`food, this`foodType, this`direction, this`pressedKeys
    {
      |snake| >= 3 && Connected(snake) &&
      |food| == 1 && InGrid(food[0]) &&
      foodType in FoodTypes &&
      IsUnit(direction) && pressedKeys <= Units
    }

    /** Unless the program has ended, the file vouches for the high score held in memory. */
    ghost predicate Synced()
      reads this`hiscore, this`hiscoreFile, this`halted
    {
      !halted ==> ReadRecord(hiscoreFile, md5) == Ok(hiscore)
    }

    /** The state `initial_settings` leaves behind. */
    ghost predicate InitialState()
      reads this
    {
      snake == InitialSnake && food == [InitialFood] && foodType == "1" &&
      steps == 0 && pressedKeys == {} && score == 0 && direction == Right && !isEnd
    }

    /** The head is on the food, so the food lies on the snake. */
    predicate HeadOnFood()
      requires |snake| > 0 && |food| > 0
      reads this
      ensures HeadOnFood() ==> food[|food| - 1] in snake
    {
      Last(snake) == food[|food| - 1]
    }

    /**
     * Start of the program: the title screen, a high score of 0, the file
     * created with "0" when `existing` says it is absent, the high score read
     * from the file, and the initial settings.
     */
    constructor (md5: string -> string, existing: Option<Record>)
      ensures Valid() && Synced() && this.md5 == md5
      ensures InitialState() && isTitle
      ensures existing.None? ==> hiscoreFile == WriteRecord("0", md5)
      ensures existing.Some? ==> hiscoreFile == existing.value
      ensures halted <==> ReadRecord(hiscoreFile, md5).Err?
      ensures !halted ==> hiscore == ReadRecord(hiscoreFile, md5).value
      ensures halted ==> hiscore == 0
    {
      this.md5 := md5;
      isTitle := true;
      hiscore := 0;
      hiscoreFile := if existing.None? then WriteRecord("0", md5) else existing.value;
      halted := false;
      new;
      ReadHiscore();
      Reset();
    }

    /** `initial_settings`: the start state of a game; high score, title flag and file are kept. */
    method Reset()
      modifies this
      ensures InitialState()
      ensures hiscore == old(hiscore) && isTitle == old(isTitle)
      ensures hiscoreFile == old(hiscoreFile) && halted == old(halted)
    {
      snake := InitialSnake;
      food := [InitialFood];
      foodType := "1";
      steps := 0;
      pressedKeys := {};
      score := 0;
      direction := Right;
      isEnd := false;
    }

    /** `read_hiscore_from_file`: a record that passes every check sets the high score; any other ends the program. */
    method ReadHiscore()
      modifies this`hiscore, this`halted
      ensures ReadRecord(hiscoreFile, md5).Ok? ==>
        hiscore == ReadRecord(hiscoreFile, md5).value && halted == old(halted)
      ensures ReadRecord(hiscoreFile, md5).Err? ==> halted && hiscore == old(hiscore)
    {
      var r := ReadRecord(hiscoreFile, md5);
      if r.Ok? {
        hiscore := r.value;
      } else {
        halted := true;
      }
    }

    /** `restart_game`: a fresh game, off the title screen, with the high score read again. */
    method Restart()
      requires Valid() && Synced()
      modifies this
      ensures Valid() && Synced()
      ensures InitialState() && !isTitle && hiscoreFile == old(hiscoreFile)
      ensures !old(halted) ==> !halted && hiscore == old(hiscore)
    {
      Reset();
      isTitle := false;
      ReadHiscore();
    }

    /** `tik`: one step of the snake along the current direction. */
    method Tik()
      requires Valid()
      modifies this`snake, this`steps
      ensures Valid()
      ensures snake == Advance(old(snake), direction)
      ensures steps == old(steps) + 1
    {
      steps := steps + 1;
      var head := Last(snake);
      var newHead := Add(head, direction);
      snake := snake + [newHead];
      snake := snake[1..];
      assert snake == Advance(old(snake), direction);
      AdvanceKeepsConnected(old(snake), direction);
    }

    /** `key_press`: a direction key is held from now on; Enter on the title or the end screen restarts. */
    method KeyPress(k: Key)
      requires Valid() && Synced()
      modifies this
      ensures Valid() && Synced()
      ensures !k.Return? ==> pressedKeys == Pressed(old(pressedKeys), k)
      ensures !k.Return? ==> unchanged(this`snake, this`food, this`foodType, this`direction, this`score,
                                       this`steps, this`hiscore, this`isEnd, this`isTitle, this`hiscoreFile, this`halted)
      ensures k.Return? && (old(isEnd) || old(isTitle)) ==>
        InitialState() && !isTitle && hiscoreFile == old(hiscoreFile) &&
        (!old(halted) ==> !halted && hiscore == old(hiscore))
      ensures k.Return? && !old(isEnd) && !old(isTitle) ==> unchanged(this)
    {
      if k == W || k == UpArrow {
        pressedKeys := pressedKeys + {Up};
      }
      if k == S || k == DownArrow {
        pressedKeys := pressedKeys + {Down};
      }
      if k == A || k == LeftArrow {
        pressedKeys := pressedKeys + {Left};
      }
      if k == D || k == RightArrow {
        pressedKeys := pressedKeys + {Right};
      }
      if k == Return && isEnd {
        Restart();
      }
      if k == Return && isTitle {
        Restart();
      }
    }

    /** `key_release`: a released direction key is no longer held. */
    method KeyRelease(k: Key)
      requires Valid()
      modifies this`pressedKeys
      ensures Valid()
      ensures pressedKeys == Released(old(pressedKeys), k)
    {
      if k == W || k == UpArrow {
        pressedKeys := pressedKeys - {Up};
      }
      if k == S || k == DownArrow {
        pressedKeys := pressedKeys - {Down};
      }
      if k == A || k == LeftArrow {
        pressedKeys := pressedKeys - {Left};
      }
      if k == D || k == RightArrow {
        pressedKeys := pressedKeys - {Right};
      }
    }

    /** `test_keys`: each held direction overrides the ones tested before it. */
    method TestKeys()
      requires Valid()
      modifies this`direction
      ensures Valid()
      ensures direction == ChooseDirection(pressedKeys, old(direction))
    {
      if Right in pressedKeys {
        direction := Right;
      }
      if Left in pressedKeys {
        direction := Left;
      }
      if Up in pressedKeys {
        direction := Up;
      }
      if Down in pressedKeys {
        direction := Down;
      }
    }

    /**
     * What `eat_food` does between the old and the current state: with the
     * head on the food, a tail copy is added, the food is the first draw off
     * the snake without its head, the type is the drawn one and the score
     * grows by the worth of the type eaten; otherwise none of these change.
     */
    twostate predicate Meal(draws: seq<Point>, typeDraw: int)
      requires old(|snake| > 0 && |food| > 0) && 1 <= typeDraw <= 5
      reads this
    {
      if old(HeadOnFood()) then
        snake == Grow(old(snake)) &&
        |food| == 1 && FirstDrawOutside(draws, old(snake)[..|old(snake)| - 1], food[0]) &&
        foodType == FoodTypeName(typeDraw) &&
        score == old(score) + Reward(old(foodType))
      else
        snake == old(snake) && food == old(food) && foodType == old(foodType) && score == old(score)
    }

    /**
     * `eat_food`: with the head on the food, the snake grows by a copy of its
     * tail, the food moves to the first drawn cell off the snake without its
     * head, a new food type is drawn and the score grows by the worth of the
     * type just eaten. `draws` are the random cells, `typeDraw` the random
     * type number.
     */
    method EatFood(draws: seq<Point>, typeDraw: int)
      requires Valid()
      requires 1 <= typeDraw <= 5
      requires forall i :: 0 <= i < |draws| ==> InGrid(draws[i])
      requires HeadOnFood() ==> exists i :: 0 <= i < |draws| && draws[i] !in snake[..|snake| - 1]
      modifies this`snake, this`food, this`foodType, this`score
      ensures Valid()
      ensures Meal(draws, typeDraw)
    {
      if Last(snake) == food[|food| - 1] {
        var cell, used := DrawOutside(draws, RetryExclusionAsWritten(snake));
        var lastFood := foodType;
        foodType := FoodTypeName(typeDraw);
        food := food + [cell];
        food := food[1..];
        GrowKeepsConnected(snake);
        snake := [snake[0]] + snake;
        if lastFood == "5" {
          score := score + 5;
        } else {
          score := score + 1;
        }
      }
    }

    /** The high-score update of `game_over`: the end flag, and a better score saved to the file. */
    method GameOver()
      requires Valid() && Synced()
      modifies this`isEnd, this`hiscore, this`hiscoreFile
      ensures Valid() && Synced()
      ensures isEnd
      ensures hiscore == if score > old(hiscore) then score else old(hiscore)
      ensures score > old(hiscore) ==>
        hiscoreFile == WriteRecord(NatToString(score), md5) && ReadRecord(hiscoreFile, md5) == Ok(score)
      ensures score <= old(hiscore) ==> hiscoreFile == old(hiscoreFile)
    {
      isEnd := true;
      if score > hiscore {
        hiscore := score;
        var item := NatToString(hiscore);
        hiscoreFile := WriteRecord(item, md5);
        RecordRoundTrip(hiscore, md5);
      }
    }

    /**
     * What the end of a game does between the old and the current state when
     * `ended` holds, and that nothing of it happens otherwise: the end flag,
     * a better score kept as the high score and written to the file.
     */
    twostate predicate EndedIf(ended: bool)
      reads this
    {
      isEnd == (old(isEnd) || ended) &&
      hiscore == (if ended && score > old(hiscore) then score else old(hiscore)) &&
      hiscoreFile == (if ended && score > old(hiscore) then WriteRecord(NatToString(score), md5)
                      else old(hiscoreFile))
    }

    /** `playfield_collision_test`: a head off the playfield ends the game. */
    method PlayfieldCollisionTest() returns (hit: bool)
      requires Valid() && Synced()
      modifies this`isEnd, this`hiscore, this`hiscoreFile
      ensures Valid() && Synced()
      ensures hit == BorderCollision(snake)
      ensures EndedIf(hit)
    {
      var head := Last(snake);
      if head.x > TileCountX || head.x < 0 {
        GameOver();
        return true;
      }
      if head.y > TileCountY || head.y < 0 {
        GameOver();
        return true;
      }
      return false;
    }

    /** `eat_itself`: a head on the body, the last two cells left aside, ends the game. */
    method EatItself() returns (hit: bool)
      requires Valid() && Synced()
      modifies this`isEnd, this`hiscore, this`hiscoreFile
      ensures Valid() && Synced()
      ensures hit == SelfCollision(snake)
      ensures EndedIf(hit)
    {
      if Last(snake) in snake[..|snake| - 2] {
        GameOver();
        return true;
      }
      return false;
    }

    /**
     * The game logic of `draw_all`: off the title screen, the direction is
     * chosen, the food is eaten if reached, and a head off the playfield or on
     * the body ends the game.
     */
    method Frame(draws: seq<Point>, typeDraw: int)
      requires Valid() && Synced()
      requires 1 <= typeDraw <= 5
      requires forall i :: 0 <= i < |draws| ==> InGrid(draws[i])
      requires HeadOnFood() ==> exists i :: 0 <= i < |draws| && draws[i] !in snake[..|snake| - 1]
      modifies this`direction, this`snake, this`food, this`foodType, this`score,
               this`isEnd, this`hiscore, this`hiscoreFile
      ensures Valid() && Synced()
      ensures old(isTitle) ==> unchanged(this)
      ensures !old(isTitle) ==> direction == ChooseDirection(old(pressedKeys), old(direction))
      ensures !old(isTitle) ==> Meal(draws, typeDraw)
      ensures !old(isTitle) ==> EndedIf(BorderCollision(snake) || SelfCollision(snake))
    {
      if !isTitle {
        TestKeys();
        EatFood(draws, typeDraw);
        var hit := PlayfieldCollisionTest();
        if !hit {
          hit := EatItself();
        }
      }
    }
  }

  /**
   * The finding about the retry loop, on the game state: a meal whose only
   * draw is the head cell puts the food under the head again, so the next
   * frame's meal test succeeds without the snake having moved.
   */
  method EatsAgainAsWritten(g: Game)
    requires g.Valid()
    requires g.snake == [Point(2, 3), Point(2, 4), Point(2, 5)] && g.food == [Point(2, 5)]
    modifies g
    ensures g.Valid() && g.HeadOnFood()
    ensures g.snake == [Point(2, 3), Point(2, 3), Point(2, 4), Point(2, 5)] && g.food == [Point(2, 5)]
  {
    assert g.HeadOnFood();
    assert Point(2, 5) !in g.snake[..|g.snake| - 1];
    g.EatFood([Point(2, 5)], 1);
  }
}
