/** The static 10x10 board: cells, compass directions, terrain, the castle
    gates and the fixed starting coordinates of the pawns. Nothing here
    changes during a game. */
module Board {

  /** A cell as (row, column); the source indexes `people[x][y]` with x the row. */
  datatype Cell = Cell(x: int, y: int)

  datatype Direction = N | E | S | W

  /** A castle gate: the gate cell and the direction the king leaves it by. */
  datatype Gate = Gate(at: Cell, facing: Direction)

  const Size: int := 10

  predicate InBoard(c: Cell) {
    0 <= c.x < Size && 0 <= c.y < Size
  }

  /** One step in direction `d`: E and W change the column, S and N the row.
      Whatever the direction, the step reaches an orthogonal neighbour. */
  function Step(c: Cell, d: Direction): (r: Cell)
    ensures (r.x == c.x && (r.y == c.y + 1 || r.y == c.y - 1))
         || (r.y == c.y && (r.x == c.x + 1 || r.x == c.x - 1))
  {
    match d
    case E => Cell(c.x, c.y + 1)
    case W => Cell(c.x, c.y - 1)
    case S => Cell(c.x + 1, c.y)
    case N => Cell(c.x - 1, c.y)
  }

  /** The four directions lead to four different cells, so the direction
      of a step can be read back from the cell it reaches. */
  lemma StepsDistinct(c: Cell, d: Direction, e: Direction)
    ensures Step(c, d) == Step(c, e) <==> d == e
  {
  }

  function Opposite(d: Direction): (r: Direction)
    ensures r != d
  {
    match d
    case E => W
    case W => E
    case S => N
    case N => S
  }

  /** The cell a push walk reads from: one step back against `d`. */
  function Predecessor(c: Cell, d: Direction): Cell {
    Step(c, Opposite(d))
  }

  /** Stepping back against a direction undoes a step along it, and the
      opposite of the opposite is the direction itself. */
  lemma StepInverse(c: Cell, d: Direction)
    ensures Predecessor(Step(c, d), d) == c
    ensures Step(Predecessor(c, d), d) == c
    ensures Opposite(Opposite(d)) == d
  {
  }

  /** The cell `k` steps from `c` in direction `d`. */
  function Ray(c: Cell, d: Direction, k: nat): (r: Cell)
    ensures k == 0 ==> r == c
  {
    match d
    case E => Cell(c.x, c.y + k)
    case W => Cell(c.x, c.y - k)
    case S => Cell(c.x + k, c.y)
    case N => Cell(c.x - k, c.y)
  }

  /** A walk of `k + 1` steps is a walk of `k` steps and one more step. */
  lemma RayStep(c: Cell, d: Direction, k: nat)
    ensures Ray(c, d, k + 1) == Step(Ray(c, d, k), d)
  {
  }

  /** Distinct step counts reach distinct cells. */
  lemma RayInjective(c: Cell, d: Direction, i: nat, j: nat)
    requires i != j
    ensures Ray(c, d, i) != Ray(c, d, j)
  {
  }

  /** A walk that starts on the board and is still on the board after `k`
      steps has taken fewer than `Size` steps, and every cell in between is
      on the board too. */
  lemma RayBound(c: Cell, d: Direction, k: nat)
    requires InBoard(c) && InBoard(Ray(c, d, k))
    ensures k < Size
    ensures forall i :: 0 <= i <= k ==> InBoard(Ray(c, d, i))
  {
  }

  /** `c` lies on the ray from `o` in direction `d`, at most `k` steps away. */
  predicate OnRay(o: Cell, d: Direction, k: nat, c: Cell) {
    match d
    case E => c.x == o.x && o.y <= c.y <= o.y + k
    case W => c.x == o.x && o.y - k <= c.y <= o.y
    case S => c.y == o.y && o.x <= c.x <= o.x + k
    case N => c.y == o.y && o.x - k <= c.x <= o.x
  }

  /** The cells `OnRay` admits are exactly the first `k + 1` cells of the walk. */
  lemma OnRayIff(o: Cell, d: Direction, k: nat, c: Cell)
    ensures OnRay(o, d, k, c) <==> exists i :: 0 <= i <= k && c == Ray(o, d, i)
  {
    if OnRay(o, d, k, c) {
      var i: nat := match d
        case E => c.y - o.y
        case W => o.y - c.y
        case S => c.x - o.x
        case N => o.x - c.x;
      assert c == Ray(o, d, i);
    }
  }

  /** The cells of a segment lie between its ends, so a segment whose ends
      are on the board lies on the board. */
  lemma OnRayInBoard(o: Cell, d: Direction, k: nat, c: Cell)
    requires InBoard(o) && InBoard(Ray(o, d, k)) && OnRay(o, d, k, c)
    ensures InBoard(c)
  {
  }

  /** Growing a segment by one step adds exactly its new far end. */
  lemma OnRayGrow(o: Cell, d: Direction, k: nat, c: Cell)
    requires k > 0
    ensures OnRay(o, d, k, c) <==> OnRay(o, d, k - 1, c) || c == Ray(o, d, k)
  {
  }

  /** Every cell of a segment but its start has its predecessor on the
      one-step-shorter segment, which stops short of the far end. */
  lemma OnRayPredecessor(o: Cell, d: Direction, k: nat, c: Cell)
    requires k > 0 && OnRay(o, d, k, c) && c != o
    ensures OnRay(o, d, k - 1, Predecessor(c, d))
    ensures Predecessor(c, d) != Ray(o, d, k)
  {
  }

  /** Step `i` of a walk lies on every segment of at least `i` steps, and
      after the start its predecessor is step `i - 1`. */
  lemma RayOnSegment(o: Cell, d: Direction, k: nat, i: nat)
    requires i <= k
    ensures OnRay(o, d, k, Ray(o, d, i))
    ensures i > 0 ==> Ray(o, d, i) != o && Predecessor(Ray(o, d, i), d) == Ray(o, d, i - 1)
  {
  }

  /** Terrain rows: 'R' is roof, 'G' is ground. */
  const Rows: seq<string> := [
    "RRRRRGGRRR",
    "RRRRRGGRRR",
    "RGGGGGGGGR",
    "RGGGGGGGGG",
    "RGGGGRRGGG",
    "GGGGGRRGGG",
    "RRGGGRRGGG",
    "RRGGGRRGGG",
    "RRGGGGGGGG",
    "RRGGGGGGGG"
  ]

  predicate IsRoof(c: Cell)
    requires InBoard(c)
  {
    Rows[c.x][c.y] == 'R'
  }

  /** The two castle gates; the king wins on the cell one step beyond a gate. */
  const Castle: seq<Gate> := [Gate(Cell(2, 2), N), Gate(Cell(4, 1), W)]

  function Beyond(g: Gate): Cell {
    Step(g.at, g.facing)
  }

  /** The cells beyond the gates are (1,2) and (4,0); both are on the board
      and both are roof cells. */
  lemma GatesLeadOntoRoofs()
    ensures Beyond(Castle[0]) == Cell(1, 2) && Beyond(Castle[1]) == Cell(4, 0)
    ensures forall i :: 0 <= i < |Castle| ==> InBoard(Beyond(Castle[i])) && IsRoof(Beyond(Castle[i]))
  {
    assert Rows[1][2] == 'R';
    assert Rows[4][0] == 'R';
  }

  /** Starting coordinates of the pawns. */
  const KingStart: Cell := Cell(9, 9)

  const KnightStarts: seq<Cell> := [
    Cell(1, 3), Cell(3, 0), Cell(7, 8), Cell(8, 7), Cell(8, 8), Cell(8, 9), Cell(9, 8)
  ]

  const VillagerStarts: seq<Cell> := [
    Cell(1, 7), Cell(2, 1), Cell(3, 4), Cell(3, 6), Cell(5, 2), Cell(5, 5),
    Cell(5, 7), Cell(5, 9), Cell(7, 1), Cell(7, 5), Cell(8, 3), Cell(9, 5)
  ]
}
