/**
  Food of the snake game: the weight-to-colour table and the food generator.

  The generator draws a random column, row and weight; the draws are not modelled
  as randomness but passed in as a `FoodDraw`, whose type admits exactly the
  values the inclusive `randint` calls can return.
*/
module Food {
  import opened Grid

  datatype Color = Rgb(red: int, green: int, blue: int)

  const MinWeight: int := 1
  const MaxWeight: int := 5

  /** The colour each food weight is drawn in. */
  const Colors: map<int, Color> := map[
    1 := Rgb(255, 215, 0),
    2 := Rgb(255, 140, 0),
    3 := Rgb(255, 0, 0),
    4 := Rgb(138, 43, 226),
    5 := Rgb(75, 0, 130)
  ]

  /** The table is defined on exactly the weights 1..5, so every drawn weight has a colour. */
  lemma ColorsTotal(w: int)
    ensures w in Colors <==> MinWeight <= w <= MaxWeight
  {
  }

  /** No two weights share a colour, so the colour identifies the weight. */
  lemma ColorsDistinct(v: int, w: int)
    requires v in Colors && w in Colors && v != w
    ensures Colors[v] != Colors[w]
  {
  }

  /** Largest column index the generator can draw: 700 / 20 - 1 = 34. */
  const LastColumn: int := ScreenHeight / SquareSize - 1

  /** Largest row index the generator can draw: 500 / 20 - 1 = 24. */
  const LastRow: int := ScreenWidth / SquareSize - 1

  /** The three random draws of one call of the generator. */
  datatype Draw = Draw(column: int, row: int, weight: int)

  predicate ValidDraw(d: Draw) {
    && 1 <= d.column <= LastColumn
    && 1 <= d.row <= LastRow
    && MinWeight <= d.weight <= MaxWeight
  }

  /** Draws the inclusive random calls can produce. */
  type FoodDraw = d: Draw | ValidDraw(d) witness Draw(1, 1, 1)

  datatype Food = Food(position: Point, weight: int, color: Color)

  /**
    The cells food can appear on: grid-aligned, at least one cell away from the
    origin edges, at most 680 in x and 480 in y.
  */
  predicate FoodCell(p: Point) {
    && p.x % SquareSize == 0 && SquareSize <= p.x <= 680
    && p.y % SquareSize == 0 && SquareSize <= p.y <= 480
  }

  /** A food value the generator can return: a food cell, a weight in 1..5 and that weight's colour. */
  predicate WellFormed(f: Food) {
    FoodCell(f.position) && MinWeight <= f.weight <= MaxWeight && f.weight in Colors && f.color == Colors[f.weight]
  }

  /** The food generator, with its random draws supplied. */
  function GenerateFood(d: FoodDraw): (f: Food)
    ensures WellFormed(f)
    ensures OnField(f.position)
    ensures f.weight == d.weight
  {
    ColorsTotal(d.weight);
    Food(Point(d.column * SquareSize, d.row * SquareSize), d.weight, Colors[d.weight])
  }

  /** Every food cell and weight is produced by some draw: the generator's range is exactly the food cells. */
  lemma GenerateFoodReachesEveryCell(p: Point, w: int)
    requires FoodCell(p) && MinWeight <= w <= MaxWeight
    ensures exists d: FoodDraw :: GenerateFood(d) == Food(p, w, Colors[w])
  {
    var d: FoodDraw := Draw(p.x / SquareSize, p.y / SquareSize, w);
    assert GenerateFood(d).position == p;
  }
}
