# Snake game state, modelled in Dafny

A model of the game logic of a pyglet snake game (`snake.py`). The playfield
is a 20 × 16 grid of 48-pixel tiles (cells 0..19 by 0..15). The snake is a
list of cells stored tail first, head last. Each timer tick appends a new head
one step along the current direction and drops the tail. The held arrow/WASD
keys choose the direction. Reaching the food grows the snake by a copy of its
tail and adds to the score. Leaving the grid, or running into the body, ends
the game. The best score is kept in a file as a value/MD5 pair, and that pair
is checked when the game starts or restarts.

Layout:

- `wrappers.dfy`: `Option` and `Result`.
- `board.dfy` (module `Board`): cells, the four unit directions, grid
  constants, moving and growing the body, the border and self-collision tests.
- `controls.dfy` (module `Controls`): keys, the held-direction set, and the
  choice of direction.
- `sprites.dfy` (module `Sprites`): the sprite name of each body cell.
- `score_file.dfy` (module `ScoreFile`): the high-score record, decimal
  conversion, and the write/read round trip.
- `food.dfy` (module `Food`): the food-placement retry loop over given random
  draws, and the food type.
- `game.dfy` (module `SnakeGame`): class `Game`, which holds the program's
  global variables. Its methods change them as the callbacks do. `Valid()`
  is the invariant every method keeps:
  - the body has at least three cells, and each cell repeats its predecessor
    or is one unit step from it;
  - the food is one cell inside the grid;
  - the food type is "1".."5";
  - the direction is a unit vector, and the held keys are unit vectors.

  `Synced()` is a second invariant: unless the program has quit, the file
  record reads back as the in-memory high score. It is a separate predicate
  because it reads only the high score, the file and the quit flag. The
  constructor establishes it. Every method that may change those fields
  (`Restart`, `KeyPress`, `GameOver`, the two collision tests and `Frame`)
  keeps it.

Effects outside the program are parameters:

- MD5 is the class constant `md5: string -> string`, so every result holds for
  any digest function.
- `random.randint` results are parameters. `draws` is the sequence of cells
  drawn for the food, and `typeDraw` is the food-type number.
- The file system is the field `hiscoreFile` (the entries of the JSON object).
  The constructor takes what the file held at start-up.

## Model

| member | source | states |
|---|---|---|
| `Board.GridDimensions` | snake.py:41-45 | the tile size is 48 and the tile counts are 19 (x) and 15 (y) |
| `Board.Advance` | snake.py:193-198 | the moved body has the same length; its head is the old head plus the direction; the cells before it are the old body without its tail cell, in order |
| `Board.AdvanceKeepsConnected` | snake.py:193-198 | moving by a unit direction keeps every cell equal to, or one unit step from, its predecessor |
| `Board.Grow` | snake.py:303 | the grown body is one cell longer; its first cell copies the old tail; the rest is the old body unchanged; the head is unchanged |
| `Board.GrowKeepsConnected` | snake.py:303 | growing keeps the body connected |
| `Board.BorderCollision` | snake.py:240-252 | true exactly when the head's x lies outside 0..TileCountX or its y outside 0..TileCountY |
| `Board.SelfCollision` | snake.py:255-262 | true exactly when the head equals a cell at an index below length - 2 |
| `Board.NeckNeverBites` | snake.py:258 | the cell just behind the head never affects the self-collision test |
| `Controls.KeyDirection` | snake.py:213-220 | W/up arrow give (0,1), S/down (0,-1), A/left (-1,0), D/right (1,0); the result is always a unit vector; Enter and other keys give none |
| `Controls.Pressed` | snake.py:210-220 | a press keeps every held direction and adds the key's direction, if it has one, and nothing else |
| `Controls.Released` | snake.py:227-237 | a release removes the key's direction, if it has one, and nothing else |
| `Controls.HeldStaysUnits` | snake.py:210-237 | presses and releases keep the held set within the four unit directions |
| `Controls.PressThenRelease` | snake.py:210-237 | a press then a release of the same key leaves the held set without that direction |
| `Controls.ChooseDirection` | snake.py:265-276 | with no direction held, the current one is kept; otherwise the result is a held unit direction and no held direction ranks higher (down > up > left > right); a unit start direction stays a unit direction |
| `Sprites.SidePart` | snake.py:325-332 | a neighbour one unit step away names its direction ("top", "bottom", "right", "left"); any other neighbour leaves the default part |
| `Sprites.ImageName` | snake.py:312-350 | the name of cell 0 starts with "tail-", and the name of the last cell ends with "-head" |
| `Sprites.ImageNameParts` | snake.py:312-350 | every name is "<part>-<part>" with the first part in tail/top/bottom/left/right and the second in head/top/bottom/left/right |
| `Sprites.InnerImageName` | snake.py:323-348 | an inner cell with unit-step neighbours on both sides is named after both directions |
| `ScoreFile.NatToString` | snake.py:144 | the decimal representation is a non-empty digit string without leading zeros |
| `ScoreFile.ParseNat` | snake.py:428 | a number is produced exactly for non-empty digit strings |
| `ScoreFile.ParseNatToString` | snake.py:144 | reading back the decimal representation of n gives n |
| `ScoreFile.WriteRecord` | snake.py:57-65 | the file holds the single entry {item: H(item)}; for a digit string, reading it back passes every check and gives the item's number |
| `ScoreFile.ValueOfIsLast` | snake.py:423-425 | for a key that occurs in the loaded entries, the value looked up is that of its last occurrence, as a JSON object keeps the last of repeated keys |
| `ScoreFile.ReadRecord` | snake.py:421-434 | the first key and the value the object keeps for it are checked: an empty object is rejected, then a non-ASCII key, then a digest mismatch, then a non-numeric key; the result is a number exactly when all four checks pass, and it is the key's value |
| `ScoreFile.RepeatedKeyUsesLastValue` | snake.py:423-432 | with the score's key written twice, a forged last digest is rejected as a mismatch and a genuine last digest is accepted, whatever the first one says |
| `ScoreFile.RecordRoundTrip` | snake.py:57-65 | a score written as {str(n): H(str(n))} passes the check and restores n, for any digest function H |
| `ScoreFile.TamperedRecordRejected` | snake.py:427-432 | a record whose digest is not H(key) is rejected as a mismatch |
| `Food.Reward` | snake.py:305-308 | a type-"5" food is worth 5 points, and any other type 1 point |
| `Food.FoodTypeName` | snake.py:297 | the drawn type is one of "1".."5" and reads back as the drawn number |
| `Food.DrawOutside` | snake.py:284-294 | the accepted cell is the first draw outside the excluded cells |
| `Food.FoodLandsOnHeadAsWritten` | snake.py:287-303 | with the exclusion as written, the new food can be the head cell, which stays the head after growing |
| `Food.PlaceFood` | snake.py:289-294 | with the exclusion the comment describes (the whole snake), the food is the first draw off the snake, lies in the grid, and is not the head of the grown snake |
| `SnakeGame.Game.HeadOnFood` | snake.py:287 | when the head is on the food, the food cell is on the snake |
| `SnakeGame.Game.constructor` | snake.py:451-460 | title screen; the file is created with "0" if absent; the high score is read from the file, or the program quits; initial settings |
| `SnakeGame.Game.Reset` | snake.py:21-54 | body (2,2),(3,2),(4,2); food (2,5) of type "1"; zero steps and score; no held keys; direction (1,0); not ended; high score and file kept |
| `SnakeGame.Game.ReadHiscore` | snake.py:421-434 | a record passing every check sets the high score; any failed check ends the program |
| `SnakeGame.Game.Restart` | snake.py:437-448 | initial state off the title screen; unless the program had quit, the high score is unchanged and the program goes on |
| `SnakeGame.Game.Tik` | snake.py:187-198 | the body becomes `Advance(old body, direction)`; steps grow by exactly 1; the invariant is kept |
| `SnakeGame.Game.KeyPress` | snake.py:210-224 | a direction key adds its direction and changes nothing else; Enter on the end or title screen restarts; Enter elsewhere changes nothing |
| `SnakeGame.Game.KeyRelease` | snake.py:227-237 | the held set becomes `Released(old set, key)` |
| `SnakeGame.Game.TestKeys` | snake.py:265-276 | the direction becomes `ChooseDirection(held keys, old direction)` |
| `SnakeGame.Game.EatFood` | snake.py:279-308 | with the head on the food: the body grows by a tail copy; the food is the first draw outside the snake without its head, as the loop is written; the type is the drawn one; the score grows by 5 after a type-"5" food, else by 1. Otherwise body, food, type and score are unchanged. Nothing else changes |
| `SnakeGame.Game.GameOver` | snake.py:127-145 | the end flag is set; the high score becomes max(old high score, score); a better score is written to the file and reads back as itself; otherwise the file is unchanged |
| `SnakeGame.Game.PlayfieldCollisionTest` | snake.py:240-252 | the result is true exactly when the head is off the grid; then the game ends as `GameOver` does; otherwise the end flag, high score and file are unchanged |
| `SnakeGame.Game.EatItself` | snake.py:255-262 | the result is true exactly when the head is on the body, the last two cells left aside; then the game ends as `GameOver` does; otherwise the end flag, high score and file are unchanged |
| `SnakeGame.Game.Frame` | snake.py:383-405 | on the title screen nothing changes. Otherwise: the direction becomes `ChooseDirection` of the held keys; body, food, type and score change as in `EatFood`; the end flag, high score and file change as `GameOver` does exactly when the head, after the meal, is off the grid or on the body. Steps, held keys, title flag and quit flag never change |
| `SnakeGame.EatsAgainAsWritten` | snake.py:287-303 | a meal on body (2,3),(2,4),(2,5) whose only draw is (2,5) grows the body and leaves the head on the food again |

## Left out

- Rendering: window, sprites, labels, title screen, score drawing, blits, and
  the sprite pixel offsets in `tik`. These are display only.
- The clock: `schedule_interval`/`unschedule`, `SPEED` and the event-loop
  wiring. `Tik` can still be called after `GameOver`; in the program the
  tick is unscheduled then.
- `collect_filenames` and image loading. A sprite name with no image file
  (a failed dictionary lookup) is not modelled.
- File and JSON I/O. The file is its list of key/value entries. Malformed
  JSON, non-string values, and a file missing after start-up are not modelled.
  Deleting the old file before writing is modelled by replacing the record.
- The printed messages, and the `message` argument of `game_over` (display only).
- `SnakeGame.Game.ReadHiscore`: the program's different ways of ending
  (`quit()` after a digest mismatch, or an uncaught exception) all become
  `halted`. After that the program no longer runs, and no method should be
  called.
- `ScoreFile.ParseNat`: accepts plain digit strings only. Python's `int()`
  also accepts a sign, surrounding whitespace and underscores between digits.
  Such keys are rejected as not-a-number here. The file only ever holds keys
  produced by `str()` of a non-negative score.
- `SnakeGame.Game.EatFood`: the retry loop takes its cells from the finite
  sequence `draws`. The method requires that some draw lies off the snake
  without its head. In the program the loop may run forever. `Frame` and
  `Food.PlaceFood` make the same demand of their draws.
- The random draws made before the head-on-food test are not modelled when
  the head is not on the food. They do not affect the state.

## Findings

| source | as written | input that shows it | evidently intended | confidence | as-written member | corrected member |
|---|---|---|---|---|---|---|
| snake.py:292 | the food retry loop avoids only `SNAKE[:-1]`, so it accepts the head cell, where the food was just eaten; after growing, the head is still on the new food, so the next frame eats it again without a move | body (2,3),(2,4),(2,5) with food at (2,5), and a first draw of (2,5) | new food outside the whole snake, as the comment at snake.py:289-291 says | medium, not executed | `SnakeGame.EatsAgainAsWritten` | `Food.PlaceFood` |

`SnakeGame.Game.EatFood` keeps the exclusion as written, so the game model
behaves as the program does. `SnakeGame.EatsAgainAsWritten` shows the defect
on the game state, and `Food.FoodLandsOnHeadAsWritten` shows it on the
placement alone. `Food.PlaceFood` is the corrected placement, which excludes
the whole body. It proves that the new food cell is off the snake, so it is
never the head of the grown snake.
