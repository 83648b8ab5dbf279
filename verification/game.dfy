/**
  The per-tick step of the snake game loop, as the program performs it.

  One tick, in order: a pending quit event ends the game; the pressed keys may
  turn the snake; the head is moved one cell; a copy of the head is inserted at
  the front and either the food is eaten or the tail is dropped; and a collision
  with the body or the screen edge ends the game. Ending the game hands the final
  (level, score) to the progress store, modelled here as the `Ended` outcome.

  The head is moved in place before it is copied, so after every move the first
  two segments coincide. The consequences are proved below: on a snake of two or
  more segments every tick that gets past the quit check ends the game, and from
  the starting position food can never be eaten.
*/
module Game {
  import opened Grid
  import opened Food

  /** The state of the arrow keys sampled in one tick. */
  datatype Keys = Keys(up: bool, down: bool, left: bool, right: bool)

  /** What one tick reads from outside: a pending quit event, the keys, and the draws for new food. */
  datatype Input = Input(quit: bool, keys: Keys, draw: FoodDraw)

  /** The game state the loop owns; the snake is head-first. */
  datatype State = State(snake: seq<Point>, direction: Direction, food: Food, score: int, level: int)

  /** Either the loop goes on with a new state, or it stops and records (level, score). */
  datatype Outcome = Running(state: State) | Ended(level: int, score: int)

  // ----- Direction update -----

  predicate Pressed(keys: Keys, c: Direction) {
    match c
    case Up => keys.up
    case Down => keys.down
    case Left => keys.left
    case Right => keys.right
  }

  /** Position of a key in the order the keys are tested: UP, DOWN, LEFT, RIGHT. */
  function Rank(c: Direction): nat {
    match c
    case Up => 0
    case Down => 1
    case Left => 2
    case Right => 3
  }

  /** A key that would turn the snake: pressed, and not the reverse of the current direction. */
  predicate Eligible(d: Direction, keys: Keys, c: Direction) {
    Pressed(keys, c) && c != Opposite(d)
  }

  /**
    The direction update. The result is never the reverse of the old direction.
    When some key is eligible, the result is the
    eligible key tested first, so a key blocked by the reversal rule falls
    through to the keys tested after it. (Any change is made by an eligible
    key, so with no eligible key the direction stays as it was.)
  */
  function Steer(d: Direction, keys: Keys): (r: Direction)
    ensures r != Opposite(d)
    ensures r != d ==> Eligible(d, keys, r)
    ensures forall c :: Eligible(d, keys, c) ==> Eligible(d, keys, r) && Rank(r) <= Rank(c)
  {
    if keys.up && d != Down then Up
    else if keys.down && d != Up then Down
    else if keys.left && d != Right then Left
    else if keys.right && d != Left then Right
    else d
  }

  /**
    A blocked key falls through to the keys tested after it: heading up with
    DOWN and RIGHT held turns right, and heading down with UP and LEFT held
    turns left.
  */
  lemma SteerSkipsReversal()
    ensures Steer(Up, Keys(false, true, false, true)) == Right
    ensures Steer(Down, Keys(true, false, true, false)) == Left
  {
  }

  // ----- Head move and insertion -----

  /**
    The head is moved in place and then a copy of the moved head is inserted in
    front of it: the body grows by one, its first two segments are both the new
    head, and the rest is the old body behind the head.
  */
  function Advance(snake: seq<Point>, d: Direction): (body: seq<Point>)
    requires |snake| > 0
    ensures |body| == |snake| + 1
    ensures body[0] == MoveHead(snake[0], d) && body[1] == body[0]
    ensures body[2..] == snake[1..]
  {
    var moved := snake[0 := MoveHead(snake[0], d)];
    [moved[0]] + moved
  }

  /** Whether the head, after this tick's turn and move, lands on the food. */
  predicate Eats(s: State, keys: Keys)
    requires |s.snake| > 0
  {
    MoveHead(s.snake[0], Steer(s.direction, keys)) == s.food.position
  }

  /**
    Turn, move, insert, and eat or drop the tail: the state the collision test
    looks at. Without eating, length, score and food are unchanged and the last
    segment is gone; with eating, the length grows by one, the score by the
    food's weight, and new food is generated from the draw. The level never
    changes.
  */
  function Step(s: State, keys: Keys, draw: FoodDraw): (t: State)
    requires |s.snake| > 0
    ensures t.level == s.level
    ensures t.direction == Steer(s.direction, keys)
    ensures |t.snake| > 0 && t.snake[0] == MoveHead(s.snake[0], t.direction)
    ensures Eats(s, keys) ==>
              && |t.snake| == |s.snake| + 1
              && t.snake[2..] == s.snake[1..]
              && t.score == s.score + s.food.weight
              && t.food == GenerateFood(draw)
    ensures !Eats(s, keys) ==>
              && |t.snake| == |s.snake|
              && (|s.snake| >= 2 ==> t.snake[2..] == s.snake[1..|s.snake| - 1])
              && t.score == s.score
              && t.food == s.food
    ensures |t.snake| >= 2 ==> t.snake[1] == t.snake[0]
  {
    var d := Steer(s.direction, keys);
    var body := Advance(s.snake, d);
    if body[0] == s.food.position then
      s.(snake := body, direction := d, food := GenerateFood(draw), score := s.score + s.food.weight)
    else
      s.(snake := body[..|body| - 1], direction := d)
  }

  // ----- Collision test -----

  /** Some segment behind the head lies on the head. */
  predicate SelfOverlap(body: seq<Point>)
    requires |body| > 0
  {
    body[0] in body[1..]
  }

  predicate Collides(body: seq<Point>)
    requires |body| > 0
  {
    SelfOverlap(body) || OutOfBounds(body[0])
  }

  /**
    The collision test as the program runs it: the body behind the head is
    scanned front to back and the scan stops at the first segment equal to the
    head; the bounds are tested only when no such segment exists.
  */
  method CheckCollision(body: seq<Point>) returns (hit: bool)
    requires |body| > 0
    ensures hit <==> (exists i :: 1 <= i < |body| && body[i] == body[0]) || !OnField(body[0])
    ensures hit == Collides(body)
  {
    var i := 1;
    while i < |body|
      invariant 1 <= i <= |body|
      invariant forall j :: 1 <= j < i ==> body[j] != body[0]
    {
      if body[i] == body[0] {
        assert body[i] == body[1..][i - 1];
        return true;
      }
      i := i + 1;
    }
    OutOfBoundsIsOffField(body[0]);
    hit := OutOfBounds(body[0]);
  }

  // ----- The tick -----

  /**
    One iteration of the game loop. A quit event ends the game with the state's
    level and score; otherwise the game ends exactly when the stepped body
    collides, with the stepped score; a game that goes on continues from the
    stepped state. Both exits report the level the tick started with.
  */
  function Tick(s: State, inp: Input): (r: Outcome)
    requires |s.snake| > 0
    ensures inp.quit ==> r == Ended(s.level, s.score)
    ensures r.Ended? ==> r.level == s.level
    ensures !inp.quit ==> (r.Ended? <==> Collides(Step(s, inp.keys, inp.draw).snake))
    ensures !inp.quit && r.Ended? ==> r.score == Step(s, inp.keys, inp.draw).score
    ensures r.Running? ==> r.state == Step(s, inp.keys, inp.draw) && r.state.level == s.level
    ensures r.Running? ==> |r.state.snake| > 0
  {
    if inp.quit then Ended(s.level, s.score)
    else
      var t := Step(s, inp.keys, inp.draw);
      if Collides(t.snake) then Ended(t.level, t.score) else Running(t)
  }

  /**
    A snake of two or more segments never survives a tick: the duplicated head
    always overlaps itself. The game ends with the starting level, and with the
    starting score unless the food was eaten on this very move.
  */
  lemma TickAlwaysEnds(s: State, inp: Input)
    requires |s.snake| >= 2
    ensures Tick(s, inp).Ended?
    ensures Tick(s, inp).level == s.level
    ensures !inp.quit && !Eats(s, inp.keys) ==> Tick(s, inp).score == s.score
    ensures !inp.quit && Eats(s, inp.keys) ==> Tick(s, inp).score == s.score + s.food.weight
  {
    if !inp.quit {
      var t := Step(s, inp.keys, inp.draw);
      assert t.snake[0] == t.snake[1..][0];
      assert SelfOverlap(t.snake);
    }
  }

  /**
    The step as written breaks the one-cell spacing of the body for every
    snake of two or more segments: the first two segments coincide. From the
    start, with no key pressed, the body becomes [[120,50],[120,50],[80,50]].
  */
  lemma StepBreaksAdjacency(s: State, keys: Keys, draw: FoodDraw)
    requires |s.snake| >= 2
    ensures !Adjacent(Step(s, keys, draw).snake)
  {
    var t := Step(s, keys, draw);
    assert Distance(t.snake[0], t.snake[1]) == 0;
  }

  /**
    The bound of `TickAlwaysEnds` is tight: a one-segment snake loses its only
    copy of the head to the tail drop, so nothing overlaps and it can move on.
  */
  lemma SingleSegmentSurvives(draw: FoodDraw)
    ensures var s := State([Point(100, 50)], Right, GenerateFood(draw), 0, 1);
            Tick(s, Input(false, Keys(false, false, false, false), draw))
              == Running(State([Point(120, 50)], Right, GenerateFood(draw), 0, 1))
  {
    var s := State([Point(100, 50)], Right, GenerateFood(draw), 0, 1);
    var t := Step(s, Keys(false, false, false, false), draw);
    assert t.snake == [Point(120, 50)];
    assert !SelfOverlap(t.snake);
  }

  // ----- Start of a game, food reachability -----

  /** The head's y lies halfway between food rows: 10 more than a multiple of 20. */
  predicate HeadOffGrid(s: State)
    requires |s.snake| > 0
  {
    s.snake[0].y % SquareSize == 10
  }

  /** The state a game starts in: three segments heading right from x = 100 on row y = 50. */
  function Initial(level: int, score: int, draw: FoodDraw): (s: State)
    ensures |s.snake| == 3 && s.snake[0] == Point(100, 50)
    ensures forall i :: 0 <= i < |s.snake| ==> s.snake[i].y == 50 && s.snake[i].x == 100 - i * SquareSize
    ensures s.direction == Right && s.level == level && s.score == score
    ensures WellFormed(s.food) && HeadOffGrid(s) && Adjacent(s.snake)
  {
    State([Point(100, 50), Point(80, 50), Point(60, 50)], Right, GenerateFood(draw), score, level)
  }

  /** A head off the food rows never reaches food on a food cell, and stays off the food rows. */
  lemma NeverEats(s: State, keys: Keys, draw: FoodDraw)
    requires |s.snake| > 0 && HeadOffGrid(s) && FoodCell(s.food.position)
    ensures !Eats(s, keys)
    ensures Step(s, keys, draw).score == s.score
    ensures HeadOffGrid(Step(s, keys, draw)) && Step(s, keys, draw).food == s.food
  {
    MoveKeepsCellOffset(s.snake[0], Steer(s.direction, keys));
  }

  /** The loop driven by a sequence of ticks' inputs, until it ends or the inputs run out. */
  function Play(s: State, inputs: seq<Input>): (r: Outcome)
    requires |s.snake| > 0
    ensures r.Ended? ==> r.level == s.level
    ensures r.Running? ==> r.state.level == s.level && |r.state.snake| > 0
    decreases |inputs|
  {
    if |inputs| == 0 then Running(s)
    else
      match Tick(s, inputs[0])
      case Ended(level, score) => Ended(level, score)
      case Running(t) => Play(t, inputs[1..])
  }

  /**
    Every game ends on its first tick and records the level and score it was
    started with: the first tick either quits or collides, and its move cannot
    reach the food.
  */
  lemma GameOverOnFirstTick(level: int, score: int, draw: FoodDraw, inputs: seq<Input>)
    requires |inputs| > 0
    ensures Play(Initial(level, score, draw), inputs) == Ended(level, score)
  {
    var s := Initial(level, score, draw);
    TickAlwaysEnds(s, inputs[0]);
    NeverEats(s, inputs[0].keys, inputs[0].draw);
  }
}
