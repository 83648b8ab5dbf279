/**
  The tick as the game evidently means it to run, next to the tick it runs.

  Two defects make the game as written unplayable. The head is moved in place
  and then copied, so the body always overlaps its own head and every game ends
  on its first tick. And the snake starts on row y = 50, which is not a multiple
  of the 20-pixel cell, while food only appears on multiples of 20, so even
  without the first defect the head could never reach any food.

  This module gives the corrected insertion (the moved head is prepended in
  front of the unchanged old body) and a grid-aligned start row, and proves the
  intended behaviour of both beside the as-written counterexamples. Direction
  update, head move, food generation and the collision test are shared with the
  as-written model.
*/
module Intended {
  import opened Grid
  import opened Food
  import opened Game

  const NoKeys: Keys := Keys(false, false, false, false)

  /**
    Corrected insertion: the moved head goes in front and the whole old body
    follows it. Unlike the as-written insertion, whose first two segments
    coincide, the new head lies one cell from the segment behind it, along
    one axis.
  */
  function AdvanceIntended(snake: seq<Point>, d: Direction): (body: seq<Point>)
    requires |snake| > 0
    ensures |body| == |snake| + 1
    ensures body[0] == MoveHead(snake[0], d)
    ensures body[1..] == snake
    ensures Neighbours(body[0], body[1]) && body[0] != body[1]
    ensures Adjacent(snake) ==> Adjacent(body)
  {
    [MoveHead(snake[0], d)] + snake
  }

  /**
    Corrected step. Without eating, the body is the new head followed by the old
    body minus its last segment; with eating, the new head followed by the whole
    old body. Score, food and level change as in the as-written step.
  */
  function StepIntended(s: State, keys: Keys, draw: FoodDraw): (t: State)
    requires |s.snake| > 0
    ensures t.level == s.level
    ensures t.direction == Steer(s.direction, keys)
    ensures |t.snake| > 0 && t.snake[0] == MoveHead(s.snake[0], t.direction)
    ensures Eats(s, keys) ==>
              && t.snake[1..] == s.snake
              && t.score == s.score + s.food.weight
              && t.food == GenerateFood(draw)
    ensures !Eats(s, keys) ==>
              && t.snake[1..] == s.snake[..|s.snake| - 1]
              && t.score == s.score
              && t.food == s.food
  {
    var d := Steer(s.direction, keys);
    var body := AdvanceIntended(s.snake, d);
    if body[0] == s.food.position then
      s.(snake := body, direction := d, food := GenerateFood(draw), score := s.score + s.food.weight)
    else
      s.(snake := body[..|body| - 1], direction := d)
  }

  /**
    The corrected step keeps the axis-aligned one-cell spacing of the body, for
    every state, keys and draw: the new head neighbours the old head, and the rest of
    the body is a prefix of the old one.
  */
  lemma {:induction false} StepIntendedKeepsAdjacency(s: State, keys: Keys, draw: FoodDraw)
    requires |s.snake| > 0 && Adjacent(s.snake)
    ensures Adjacent(StepIntended(s, keys, draw).snake)
  {
    var body := AdvanceIntended(s.snake, Steer(s.direction, keys));
    var t := StepIntended(s, keys, draw);
    if !Eats(s, keys) {
      assert t.snake == body[..|body| - 1];
      forall i | 0 <= i < |t.snake| - 1
        ensures Neighbours(t.snake[i], t.snake[i + 1])
      {
        assert t.snake[i] == body[i] && t.snake[i + 1] == body[i + 1];
      }
    }
  }

  /** The corrected tick: quit check, corrected step, and the shared collision test. */
  function TickIntended(s: State, inp: Input): (r: Outcome)
    requires |s.snake| > 0
    ensures inp.quit ==> r == Ended(s.level, s.score)
    ensures r.Ended? ==> r.level == s.level
    ensures !inp.quit ==> (r.Ended? <==> Collides(StepIntended(s, inp.keys, inp.draw).snake))
    ensures !inp.quit && r.Ended? ==> r.score == StepIntended(s, inp.keys, inp.draw).score
    ensures r.Running? ==> r.state == StepIntended(s, inp.keys, inp.draw) && |r.state.snake| > 0
  {
    if inp.quit then Ended(s.level, s.score)
    else
      var t := StepIntended(s, inp.keys, inp.draw);
      if Collides(t.snake) then Ended(t.level, t.score) else Running(t)
  }

  /** The corrected loop over a sequence of inputs; the level it reports is always the starting level. */
  function PlayIntended(s: State, inputs: seq<Input>): (r: Outcome)
    requires |s.snake| > 0
    ensures r.Ended? ==> r.level == s.level
    ensures r.Running? ==> r.state.level == s.level && |r.state.snake| > 0
    decreases |inputs|
  {
    if |inputs| == 0 then Running(s)
    else
      match TickIntended(s, inputs[0])
      case Ended(level, score) => Ended(level, score)
      case Running(t) => PlayIntended(t, inputs[1..])
  }

  /**
    As written: from the start, with no key pressed and no quit, the first
    step leaves the body [[120,50],[120,50],[80,50]], which breaks the one-cell
    spacing the start had, and the very first tick ends the game.
  */
  lemma AsWrittenEndsOnFirstTick(level: int, score: int, draw: FoodDraw)
    ensures Adjacent(Initial(level, score, draw).snake)
    ensures Step(Initial(level, score, draw), NoKeys, draw).snake == [Point(120, 50), Point(120, 50), Point(80, 50)]
    ensures !Adjacent(Step(Initial(level, score, draw), NoKeys, draw).snake)
    ensures Tick(Initial(level, score, draw), Input(false, NoKeys, draw)) == Ended(level, score)
  {
    var s := Initial(level, score, draw);
    StepBreaksAdjacency(s, NoKeys, draw);
    TickAlwaysEnds(s, Input(false, NoKeys, draw));
    NeverEats(s, NoKeys, draw);
  }

  /**
    Corrected: the same first tick moves the snake one cell to the right and the
    game goes on, with body [[120, 50], [100, 50], [80, 50]].
  */
  lemma IntendedFirstTickMoves(level: int, score: int, draw: FoodDraw)
    ensures TickIntended(Initial(level, score, draw), Input(false, NoKeys, draw))
            == Running(State([Point(120, 50), Point(100, 50), Point(80, 50)], Right, GenerateFood(draw), score, level))
  {
    var s := Initial(level, score, draw);
    NeverEats(s, NoKeys, draw);
    var t := StepIntended(s, NoKeys, draw);
    assert t.snake == [Point(120, 50), Point(100, 50), Point(80, 50)];
    assert !SelfOverlap(t.snake);
  }

  /**
    As written, the start row keeps food out of reach even with the corrected
    insertion: a head off the food rows stays off them over any number of ticks,
    so the score the game ends or continues with is always the starting score.
  */
  lemma {:induction false} IntendedStillNeverScores(s: State, inputs: seq<Input>)
    requires |s.snake| > 0 && HeadOffGrid(s) && FoodCell(s.food.position)
    ensures PlayIntended(s, inputs).Ended? ==> PlayIntended(s, inputs).score == s.score
    ensures PlayIntended(s, inputs).Running? ==> PlayIntended(s, inputs).state.score == s.score
    decreases |inputs|
  {
    if |inputs| > 0 && !inputs[0].quit {
      var inp := inputs[0];
      NeverEats(s, inp.keys, inp.draw);
      var t := StepIntended(s, inp.keys, inp.draw);
      MoveKeepsCellOffset(s.snake[0], t.direction);
      assert HeadOffGrid(t);
      if TickIntended(s, inp).Running? {
        IntendedStillNeverScores(t, inputs[1..]);
      }
    }
  }

  /** Corrected start: the same three segments, on the food row y = 60. */
  function AlignedInitial(level: int, score: int, draw: FoodDraw): (s: State)
    ensures |s.snake| == 3 && s.snake[0] == Point(100, 60)
    ensures forall i :: 0 <= i < |s.snake| ==> s.snake[i].y % SquareSize == 0 && s.snake[i].x == 100 - i * SquareSize
    ensures s.direction == Right && s.level == level && s.score == score && WellFormed(s.food)
    ensures Adjacent(s.snake)
  {
    State([Point(100, 60), Point(80, 60), Point(60, 60)], Right, GenerateFood(draw), score, level)
  }

  /**
    Corrected: food drawn one cell ahead of the aligned start is eaten on the
    first tick; the snake grows to four segments, the score grows by the food's
    weight, new food is generated, and the game goes on.
  */
  lemma AlignedFoodIsEaten(level: int, score: int, weight: int, next: FoodDraw)
    requires MinWeight <= weight <= MaxWeight
    ensures var s := AlignedInitial(level, score, Draw(6, 3, weight));
            var r := TickIntended(s, Input(false, NoKeys, next));
            && r.Running?
            && r.state.score == score + weight
            && r.state.snake == [Point(120, 60), Point(100, 60), Point(80, 60), Point(60, 60)]
            && r.state.food == GenerateFood(next)
  {
    var s := AlignedInitial(level, score, Draw(6, 3, weight));
    assert Eats(s, NoKeys);
    var t := StepIntended(s, NoKeys, next);
    assert t.snake == [Point(120, 60), Point(100, 60), Point(80, 60), Point(60, 60)];
    assert !SelfOverlap(t.snake);
  }
}
