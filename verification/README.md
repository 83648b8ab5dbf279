# Snake game tick — a Dafny model

This project models the game loop of a single-player Snake game (`main_game` in
`snake2.0.py`). Each tick of the loop does the following:

1. A pending quit event ends the game.
2. The arrow keys may turn the snake. A key is tested in the order UP, DOWN, LEFT, RIGHT. The first pressed key that is not the reverse of the current direction wins.
3. The head moves one 20-pixel cell.
4. A copy of the head is inserted at the front. Then either the food is eaten (the score grows by the food's weight and new food is generated) or the tail segment is dropped.
5. A self-overlap or an out-of-bounds head ends the game.

Ending the game records the final (level, score). In the model that record is the `Ended(level, score)` outcome.

The model keeps two quirks of the program exactly:

- **The head is moved in place before it is copied.** After the move the body is `[h', h'] + old[1..]`, not `[h'] + old`.
- **The screen constants have swapped names.** `SCREEN_HEIGHT` = 700 bounds x, and `SCREEN_WIDTH` = 500 bounds y.

Files:

- `grid.dfy` (module `Grid`): the constants, points, directions, the head move and the bounds test.
- `food.dfy` (module `Food`): the weight-to-colour table and the food generator. The random draws are passed in as a `FoodDraw`, a type holding exactly the values the inclusive `randint` calls can return: column 1..34, row 1..24, weight 1..5.
- `game.dfy` (module `Game`): the tick as written. The proofs show three facts. A snake of two or more segments never survives a tick. Every game ends on its first tick. The game ends with its starting level and score.
- `intended.dfy` (module `Intended`): a corrected tick and a corrected start row, used for the findings below. It reuses the direction update, move, food generator and collision test of the other modules.

## Model

| member | source | states |
|---|---|---|
| Grid.Opposite | snake2.0.py:127-134 | the reversal each key is tested against is a different direction on the same axis |
| Grid.OppositeIsInvolution | snake2.0.py:127-134 | reversal is symmetric, so the program's test "old direction is not the reverse of the key" is the same as "the key is not the reverse of the old direction", the form `Game.Steer` uses |
| Grid.MoveHead | snake2.0.py:137-144 | a move changes exactly one coordinate by exactly 20: y for UP/DOWN, x for LEFT/RIGHT; UP and LEFT go towards the origin; the new head neighbours the old one along one axis |
| Grid.MoveThenReverse | snake2.0.py:137-144 | a move followed by the opposite move returns the head to where it was |
| Grid.MoveKeepsCellOffset | snake2.0.py:137-144 | a move keeps each coordinate's remainder modulo the 20-pixel cell |
| Grid.OutOfBoundsIsOffField | snake2.0.py:156-157 | the bounds test fires exactly outside x in [0, 700), y in [0, 500): x is bounded by the constant named SCREEN_HEIGHT, so (600, 0) is inside and (0, 600) outside |
| Food.ColorsTotal | snake2.0.py:89-95 | the colour table is defined for exactly the weights 1..5, so the lookup of any drawn weight succeeds |
| Food.ColorsDistinct | snake2.0.py:89-95 | different weights have different colours |
| Food.GenerateFood | snake2.0.py:108-114 | generated food lies on a multiple of 20 with x in 20..680 and y in 20..480, inside the field, carries the drawn weight (1..5) and that weight's colour |
| Food.GenerateFoodReachesEveryCell | snake2.0.py:109-113 | every such cell and weight is produced by some draw, so the generator's range is exactly the food cells |
| Game.Steer | snake2.0.py:127-134 | the new direction is never the reverse of the old; it changes only to an eligible (pressed, non-reversing) key; when any key is eligible the result is the eligible key first in UP, DOWN, LEFT, RIGHT order |
| Game.SteerSkipsReversal | snake2.0.py:127-134 | a blocked earlier key falls through to later ones: heading UP with DOWN and RIGHT held turns RIGHT; heading DOWN with UP and LEFT held turns LEFT |
| Game.Advance | snake2.0.py:137-147 | after the in-place move and the copy, the body is one longer, its first two segments are both the moved head, and the rest is the old body behind the head |
| Game.Step | snake2.0.py:146-152 | without eating: length, score and food unchanged and the old last segment dropped; with eating: length +1, score + food weight, food regenerated from the draw; level unchanged; first two segments coincide |
| Game.CheckCollision | snake2.0.py:155-157 | the scan reports a hit exactly when some segment behind the head equals the head or the head is off the 700-by-500 field |
| Game.Tick | snake2.0.py:118-160 | a quit ends with the current (level, score); otherwise the game ends exactly when the stepped body collides, with the stepped score; both exits report the unchanged level |
| Game.TickAlwaysEnds | snake2.0.py:138-160 | every tick of a snake with two or more segments ends the game, with the starting level and the starting score plus the weight only if this move ate |
| Game.StepBreaksAdjacency | snake2.0.py:138-152 | for every snake of two or more segments the as-written step breaks the one-cell spacing of consecutive segments, because its first two segments coincide |
| Game.SingleSegmentSurvives | snake2.0.py:147-157 | a one-segment snake that does not eat loses the duplicate to the tail drop and moves on, so the previous bound is tight |
| Game.Initial | snake2.0.py:103-116 | the start state: three segments on row 50 at x = 100, 80, 60, heading RIGHT, well-formed food, the given level and score, the head off the food rows, consecutive segments axis-aligned one cell apart |
| Game.NeverEats | snake2.0.py:105-149 | a head whose y is 10 modulo 20 never lands on a food cell; the step keeps score and food and keeps the head off the food rows |
| Game.Play | snake2.0.py:118-160 | over any number of ticks the level reported or carried on is the starting level |
| Game.GameOverOnFirstTick | snake2.0.py:103-160 | from the start state the first tick always ends the game and records exactly the starting (level, score) |
| Intended.AdvanceIntended | snake2.0.py:147-147 | corrected insertion: the moved head followed by the whole old body; unlike the as-written insertion the new head is one cell from the segment behind it along one axis, and a body whose consecutive segments are axis-aligned one cell apart keeps that spacing |
| Intended.StepIntended | snake2.0.py:146-152 | corrected step: the new head followed by the old body minus its last segment, or all of it when eating; score, food and level as in the as-written step |
| Intended.StepIntendedKeepsAdjacency | snake2.0.py:146-152 | for every state, keys and draw, the corrected step keeps consecutive segments axis-aligned and exactly one cell apart (a diagonal pair at distance 20 does not count, `Grid.DiagonalIsNotAdjacent`) |
| Intended.TickIntended | snake2.0.py:118-160 | the corrected tick keeps the quit, collision, stepped-score and level behaviour of the as-written tick |
| Intended.PlayIntended | snake2.0.py:118-160 | the corrected loop reports the starting level on every path |
| Intended.AsWrittenEndsOnFirstTick | snake2.0.py:137-160 | as written, the first step from the start with no key leaves [[120,50],[120,50],[80,50]], breaking the one-cell spacing the start had, and the first tick ends the game with the starting (level, score) |
| Intended.IntendedFirstTickMoves | snake2.0.py:137-152 | corrected, the same tick gives body [[120,50],[100,50],[80,50]] and the game goes on |
| Intended.IntendedStillNeverScores | snake2.0.py:105-149 | even with the corrected insertion, a head starting off the food rows never scores over any number of ticks |
| Intended.AlignedInitial | snake2.0.py:105-106 | corrected start: the same three segments on row 60, a multiple of the cell size, axis-aligned one cell apart |
| Intended.AlignedFoodIsEaten | snake2.0.py:146-150 | corrected, food drawn one cell ahead of the aligned start is eaten on the first tick: four segments, score + weight, new food, game goes on |

## Left out

- Database access (`initialize_database`, `setup_database`, `get_or_add_user`, `get_progress`, `record_progress`, lines 6-76): these are SQL calls on an external store. Recording progress is modelled only as the `Ended(level, score)` outcome.
- Window, rendering, text overlay, event polling and frame timing (`pygame` calls, `speed`, `clock.tick`, lines 81, 98-100, 119-123, 162-174): these are I/O. The quit event becomes the `quit` flag of an `Input`. The key state becomes `Keys`.
- The colour of the current food is rendering-only. It is kept in `Food` and stated in `Food.WellFormed`, but no step of the game reads it.
- Randomness: `random.randint` is replaced by a `FoodDraw` parameter restricted to the ranges those calls can return.
- The interactive entry point (`input()` prompt and process wiring, lines 176-183): this is I/O.
- Game.Tick: requires a non-empty snake. The program would raise an index error on an empty one. No reachable state is empty, since the start has three segments and a tick never shortens the snake.

## Findings

| source | as written | input that shows it | evidently intended | confidence | as-written member | corrected member |
|---|---|---|---|---|---|---|
| snake2.0.py:137-147 | the head is moved in place and then copied, so the body becomes [h', h'] + old[1..] and the self-overlap test always fires | the start state with no key pressed: the body becomes [[120,50],[120,50],[80,50]] and the game ends on the first tick | prepend the moved head to the old body, which keeps consecutive segments axis-aligned one cell apart on every step; from the start this gives [[120,50],[100,50],[80,50]] and the game goes on (Intended.IntendedFirstTickMoves) | high; not executed | Intended.AsWrittenEndsOnFirstTick | Intended.StepIntendedKeepsAdjacency |
| snake2.0.py:105-111 | the snake starts on row y = 50, but food y is always a multiple of 20 and moves change y by 0 or 20, so the head never meets food | any game; for example food drawn at column 6, row 3 is at (120, 60), and the head's y stays at 10 modulo 20 | start on a food row such as y = 60, so that food can be reached | medium; not executed | Intended.IntendedStillNeverScores | Intended.AlignedFoodIsEaten |
