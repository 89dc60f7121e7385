/** The occupancy grid: who stands on which cell, the push-chain search for a
    knight's move-and-push, and the shift that performs the push. */
module Occupancy {
  import opened Wrappers
  import opened Board

  /** What a cell holds. In the source these are the strings 'king',
      'knight', 'assassin', a villager's name, or None. */
  datatype Occupant = Empty | King | Knight | Villager(name: string) | Assassin

  /** The twelve villager names. */
  const Population: set<string> := {
    "monk", "plumwoman", "appleman", "hooker", "fishwoman", "butcher",
    "blacksmith", "shepherd", "squire", "carpenter", "witchhunter", "farmer"
  }

  /** The string the source stores for an occupant (None for an empty cell). */
  function Label(p: Occupant): Option<string> {
    match p
    case Empty => None
    case King => Some("king")
    case Knight => Some("knight")
    case Assassin => Some("assassin")
    case Villager(n) => Some(n)
  }

  /** The source's `p in POPULATION`: an unrevealed villager. */
  predicate IsVillager(p: Occupant) {
    p.Villager? && p.name in Population
  }

  /** The label of an occupant is a population name exactly when the
      occupant is an unrevealed villager. */
  lemma LabelInPopulation(p: Occupant)
    ensures (Label(p).Some? && Label(p).value in Population) <==> IsVillager(p)
  {
  }

  /** The grid, row-major: cell (x, y) is at index 10 * x + y. */
  type Grid = g: seq<Occupant> | |g| == Size * Size witness seq(Size * Size, i => Empty)

  function Index(c: Cell): (i: nat)
    requires InBoard(c)
    ensures i < Size * Size
  {
    c.x * Size + c.y
  }

  lemma IndexInjective(a: Cell, b: Cell)
    requires InBoard(a) && InBoard(b) && a != b
    ensures Index(a) != Index(b)
  {
  }

  function Get(g: Grid, c: Cell): Occupant
    requires InBoard(c)
  {
    g[Index(c)]
  }

  /** How many cells hold `p`. */
  function Count(g: Grid, p: Occupant): nat {
    multiset(g)[p]
  }

  /** The number of occurrences of `p` is the number of positions that
      hold it. */
  lemma {:induction false} CountPositions(g: seq<Occupant>, p: Occupant, positions: set<nat>)
    requires forall i :: 0 <= i < |g| ==> (g[i] == p <==> i in positions)
    requires forall i :: i in positions ==> i < |g|
    ensures multiset(g)[p] == |positions|
    decreases |g|
  {
    if |g| == 0 {
      assert positions == {};
    } else {
      var n := |g| - 1;
      var front := g[..n];
      var rest := positions - {n};
      forall i | 0 <= i < |front|
        ensures front[i] == p <==> i in rest
      {
        assert front[i] == g[i];
      }
      CountPositions(front, p, rest);
      LastCount(g, p);
      CardLast(positions, n, g[n] == p);
    }
  }

  /** The occurrences of `p` and the positions that hold something else
      together make up the whole sequence. */
  lemma {:induction false} CountComplement(g: seq<Occupant>, p: Occupant, others: set<nat>)
    requires forall i :: 0 <= i < |g| ==> (g[i] != p <==> i in others)
    requires forall i :: i in others ==> i < |g|
    ensures multiset(g)[p] + |others| == |g|
    decreases |g|
  {
    if |g| == 0 {
      assert others == {};
    } else {
      var n := |g| - 1;
      var front := g[..n];
      var rest := others - {n};
      forall i | 0 <= i < |front|
        ensures front[i] != p <==> i in rest
      {
        assert front[i] == g[i];
      }
      CountComplement(front, p, rest);
      LastCount(g, p);
      CardLast(others, n, g[n] != p);
    }
  }

  /** Occurrences in a sequence: those before its last element, plus that one. */
  lemma LastCount(g: seq<Occupant>, p: Occupant)
    requires |g| > 0
    ensures multiset(g)[p] == multiset(g[..|g| - 1])[p] + if g[|g| - 1] == p then 1 else 0
  {
    assert g == g[..|g| - 1] + [g[|g| - 1]];
  }

  /** Taking `n` out of a set of positions lowers its size by one exactly
      when `n` was in it. */
  lemma CardLast(positions: set<nat>, n: nat, b: bool)
    requires n in positions <==> b
    ensures |positions| == |positions - {n}| + if b then 1 else 0
  {
    if b {
      assert positions == (positions - {n}) + {n};
    } else {
      assert positions == positions - {n};
    }
  }

  /** `g` with cell `c` replaced by `p`. */
  function Set(g: Grid, c: Cell, p: Occupant): (r: Grid)
    requires InBoard(c)
    ensures Get(r, c) == p
    ensures forall e :: InBoard(e) && e != c ==> Get(r, e) == Get(g, e)
  {
    forall e | InBoard(e) && e != c
      ensures Index(e) != Index(c)
    {
      IndexInjective(e, c);
    }
    g[Index(c) := p]
  }

  /** Replacing one cell trades one occupant for another in the multiset of
      occupants. */
  lemma SetMultiset(g: Grid, c: Cell, p: Occupant)
    requires InBoard(c)
    ensures multiset(Set(g, c, p)) + multiset{Get(g, c)} == multiset(g) + multiset{p}
  {
  }

  /** The source's simultaneous assignment exchanging two cells. */
  function Swap(g: Grid, a: Cell, b: Cell): (r: Grid)
    requires InBoard(a) && InBoard(b) && a != b
    ensures Get(r, a) == Get(g, b) && Get(r, b) == Get(g, a)
    ensures forall e :: InBoard(e) && e != a && e != b ==> Get(r, e) == Get(g, e)
    ensures multiset(r) == multiset(g)
  {
    var g' := Set(g, a, Get(g, b));
    var r := Set(g', b, Get(g, a));
    SetMultiset(g, a, Get(g, b));
    SetMultiset(g', b, Get(g, a));
    assert forall x :: multiset(r)[x] == multiset(g)[x] by {
      forall x
        ensures multiset(r)[x] == multiset(g)[x]
      {
        assert (multiset(r) + multiset{Get(g', b)})[x] == (multiset(g') + multiset{Get(g, a)})[x];
        assert (multiset(g') + multiset{Get(g, a)})[x] == (multiset(g) + multiset{Get(g, b)})[x];
      }
    }
    r
  }

  // ---------------------------------------------------------------------
  // Push-chain search (the source's `_nextfree`)
  // ---------------------------------------------------------------------

  /** Cells `k .. m - 1` of the walk from `n` along `d` are villagers, none of
      them but the very first cell of the walk is a roof, and cell `m` is an
      empty cell on the board. */
  ghost predicate ChainFrom(g: Grid, n: Cell, d: Direction, k: nat, m: nat) {
    && k <= m
    && (forall i :: k <= i <= m ==> InBoard(Ray(n, d, i)))
    && Get(g, Ray(n, d, m)) == Empty
    && (forall i :: k <= i < m ==> IsVillager(Get(g, Ray(n, d, i))))
    && (forall i :: k <= i < m && i > 0 ==> !IsRoof(Ray(n, d, i)))
  }

  /** A run of `m` villagers starting at `n`, followed by a free cell. */
  ghost predicate Chain(g: Grid, n: Cell, d: Direction, m: nat) {
    InBoard(n) && ChainFrom(g, n, d, 0, m)
  }

  /** The walk of `_nextfree`, as a count of steps from `n`: the number of
      occupied cells crossed before the first free one. */
  function Scan(g: Grid, n: Cell, d: Direction, k: nat): Option<nat>
    requires InBoard(n) && k <= Size
    decreases Size - k
  {
    var c := Ray(n, d, k);
    if !InBoard(c) then None
    else if Get(g, c) == Empty then Some(k)
    else if !IsVillager(Get(g, c)) then None
    else if k > 0 && IsRoof(c) then None
    else
      RayBound(n, d, k);
      Scan(g, n, d, k + 1)
  }

  /** The first free cell of a push from `o` along `d`, or None when the
      walk meets a non-villager, crosses a roof after its first cell or leaves
      the board. */
  function NextFree(g: Grid, o: Cell, d: Direction): Option<Cell> {
    var n := Step(o, d);
    if !InBoard(n) then None
    else match Scan(g, n, d, 0)
      case None => None
      case Some(m) => Some(Ray(n, d, m))
  }

  lemma {:induction false} ScanSound(g: Grid, n: Cell, d: Direction, k: nat)
    requires InBoard(n) && k <= Size
    ensures Scan(g, n, d, k).Some? ==> ChainFrom(g, n, d, k, Scan(g, n, d, k).value)
    decreases Size - k
  {
    var c := Ray(n, d, k);
    if InBoard(c) && Get(g, c) != Empty && IsVillager(Get(g, c)) && !(k > 0 && IsRoof(c)) {
      RayBound(n, d, k);
      ScanSound(g, n, d, k + 1);
      assert Scan(g, n, d, k) == Scan(g, n, d, k + 1);
      if Scan(g, n, d, k + 1).Some? {
        ChainFromExtend(g, n, d, k, Scan(g, n, d, k + 1).value);
      }
    }
  }

  /** A chain from step `k + 1` preceded by a villager at step `k` (not on a
      roof unless it is the first cell) is a chain from step `k`. */
  lemma ChainFromExtend(g: Grid, n: Cell, d: Direction, k: nat, m: nat)
    requires ChainFrom(g, n, d, k + 1, m)
    requires InBoard(Ray(n, d, k)) && IsVillager(Get(g, Ray(n, d, k)))
    requires k > 0 ==> !IsRoof(Ray(n, d, k))
    ensures ChainFrom(g, n, d, k, m)
  {
  }

  lemma {:induction false} ScanComplete(g: Grid, n: Cell, d: Direction, k: nat, m: nat)
    requires InBoard(n) && k <= Size
    requires ChainFrom(g, n, d, k, m)
    ensures Scan(g, n, d, k) == Some(m)
    decreases Size - k
  {
    var c := Ray(n, d, k);
    assert InBoard(c);
    if k < m {
      assert IsVillager(Get(g, c));
      RayBound(n, d, k);
      ScanComplete(g, n, d, k + 1, m);
    }
  }

  /** `_nextfree` finds a free cell exactly when a push chain exists, and the
      cell it finds is the end of that chain. */
  lemma NextFreeIff(g: Grid, o: Cell, d: Direction)
    ensures NextFree(g, o, d).Some? <==> exists m :: Chain(g, Step(o, d), d, m)
    ensures forall m :: Chain(g, Step(o, d), d, m) ==> NextFree(g, o, d) == Some(Ray(Step(o, d), d, m))
  {
    var n := Step(o, d);
    if InBoard(n) {
      ScanSound(g, n, d, 0);
      forall m | Chain(g, n, d, m)
        ensures NextFree(g, o, d) == Some(Ray(n, d, m))
      {
        ScanComplete(g, n, d, 0, m);
      }
    }
  }

  /** The length of the chain `NextFree` walked, for callers that need it. */
  function ChainLength(g: Grid, o: Cell, d: Direction): (m: nat)
    requires NextFree(g, o, d).Some?
    ensures Chain(g, Step(o, d), d, m)
    ensures NextFree(g, o, d) == Some(Ray(Step(o, d), d, m))
  {
    ScanSound(g, Step(o, d), d, 0);
    Scan(g, Step(o, d), d, 0).value
  }

  // ---------------------------------------------------------------------
  // The push itself
  // ---------------------------------------------------------------------

  ghost predicate RayInBoard(o: Cell, d: Direction, j: nat) {
    InBoard(o) && forall i :: 0 <= i <= j ==> InBoard(Ray(o, d, i))
  }

  /** The copy loop of a push: walking back from the cell `j` steps from `o`
      towards `o`, each cell takes the occupant of the cell one step nearer
      the start, which is its predecessor against `d` (`ShiftBackAt`). */
  function ShiftBack(g: Grid, o: Cell, d: Direction, j: nat): Grid
    requires RayInBoard(o, d, j)
    decreases j
  {
    if j == 0 then g
    else ShiftBack(Set(g, Ray(o, d, j), Get(g, Ray(o, d, j - 1))), o, d, j - 1)
  }

  /** One iteration of the copy loop: the far cell takes the occupant of the
      cell just before it on the walk. */
  lemma ShiftBackUnfold(g: Grid, o: Cell, d: Direction, j: nat)
    requires RayInBoard(o, d, j) && j > 0
    ensures RayInBoard(o, d, j - 1)
    ensures ShiftBack(g, o, d, j) == ShiftBack(Set(g, Ray(o, d, j), Get(g, Ray(o, d, j - 1))), o, d, j - 1)
  {
    RayStep(o, d, j - 1);
    StepInverse(Ray(o, d, j - 1), d);
  }

  /** One cell after the copy loop: a cell of steps `1 .. j` of the walk
      holds what the cell behind it held; any other cell is untouched. */
  lemma {:induction false} ShiftBackAt(g: Grid, o: Cell, d: Direction, j: nat, c: Cell)
    requires RayInBoard(o, d, j) && InBoard(c)
    ensures OnRay(o, d, j, c) && c != o ==> InBoard(Predecessor(c, d))
    ensures Get(ShiftBack(g, o, d, j), c)
         == if OnRay(o, d, j, c) && c != o then Get(g, Predecessor(c, d)) else Get(g, c)
    decreases j
  {
    if j > 0 {
      ShiftBackUnfold(g, o, d, j);
      var g' := Set(g, Ray(o, d, j), Get(g, Ray(o, d, j - 1)));
      ShiftBackAt(g', o, d, j - 1, c);
      var v := Get(ShiftBack(g', o, d, j - 1), c);
      ShiftBackStep(g, g', o, d, j, c, v);
      assert Get(ShiftBack(g, o, d, j), c) == v;
    } else {
      assert !(OnRay(o, d, 0, c) && c != o);
    }
  }

  /** The inductive step of `ShiftBackAt`, for the value `v` the shorter
      loop leaves in cell `c`. */
  lemma ShiftBackStep(g: Grid, g': Grid, o: Cell, d: Direction, j: nat, c: Cell, v: Occupant)
    requires RayInBoard(o, d, j) && j > 0 && InBoard(c)
    requires g' == Set(g, Ray(o, d, j), Get(g, Ray(o, d, j - 1)))
    requires OnRay(o, d, j - 1, c) && c != o ==> InBoard(Predecessor(c, d))
    requires v == if OnRay(o, d, j - 1, c) && c != o then Get(g', Predecessor(c, d)) else Get(g', c)
    ensures OnRay(o, d, j, c) && c != o ==> InBoard(Predecessor(c, d))
    ensures v == if OnRay(o, d, j, c) && c != o then Get(g, Predecessor(c, d)) else Get(g, c)
  {
    var last := Ray(o, d, j);
    OnRayGrow(o, d, j, c);
    if c == o {
      RayInjective(o, d, 0, j);
    } else if OnRay(o, d, j - 1, c) {
      OnRayPredecessor(o, d, j - 1, c);
    } else if c == last {
      RayStep(o, d, j - 1);
      StepInverse(Ray(o, d, j - 1), d);
    }
    if OnRay(o, d, j, c) && c != o {
      OnRayPredecessor(o, d, j, c);
      OnRayInBoard(o, d, j, Predecessor(c, d));
    }
  }

  /** After the copy loop every cell `1 .. j` of the walk holds what the cell
      before it held, the start keeps its occupant, and every other cell is
      untouched. */
  lemma ShiftBackEffect(g: Grid, o: Cell, d: Direction, j: nat)
    requires RayInBoard(o, d, j)
    ensures forall i :: 1 <= i <= j ==> Get(ShiftBack(g, o, d, j), Ray(o, d, i)) == Get(g, Ray(o, d, i - 1))
    ensures Get(ShiftBack(g, o, d, j), o) == Get(g, o)
    ensures forall c :: InBoard(c) && !OnRay(o, d, j, c) ==> Get(ShiftBack(g, o, d, j), c) == Get(g, c)
  {
    forall i | 1 <= i <= j
      ensures Get(ShiftBack(g, o, d, j), Ray(o, d, i)) == Get(g, Ray(o, d, i - 1))
    {
      ShiftBackOnRay(g, o, d, j, i);
    }
    ShiftBackAt(g, o, d, j, o);
    forall c | InBoard(c) && !OnRay(o, d, j, c)
      ensures Get(ShiftBack(g, o, d, j), c) == Get(g, c)
    {
      ShiftBackAt(g, o, d, j, c);
    }
  }

  /** Step `i` of the walk, for `1 <= i <= j`, takes the occupant of step
      `i - 1`. */
  lemma ShiftBackOnRay(g: Grid, o: Cell, d: Direction, j: nat, i: nat)
    requires RayInBoard(o, d, j) && 1 <= i <= j
    ensures Get(ShiftBack(g, o, d, j), Ray(o, d, i)) == Get(g, Ray(o, d, i - 1))
  {
    RayOnSegment(o, d, j, i);
    ShiftBackAt(g, o, d, j, Ray(o, d, i));
  }

  /** Multiset bookkeeping for one step of the copy loop. */
  lemma Cancel(r: multiset<Occupant>, g: multiset<Occupant>, g': multiset<Occupant>, b: Occupant, c: Occupant, o: Occupant)
    requires r + multiset{b} == g' + multiset{o}
    requires g' + multiset{c} == g + multiset{b}
    ensures r + multiset{c} == g + multiset{o}
  {
    forall x
      ensures (r + multiset{c})[x] == (g + multiset{o})[x]
    {
      assert (r + multiset{b})[x] == (g' + multiset{o})[x];
      assert (g' + multiset{c})[x] == (g + multiset{b})[x];
    }
  }

  /** The copy loop loses the occupant of the far end and doubles the
      occupant of the start. */
  lemma {:induction false} ShiftBackMultiset(g: Grid, o: Cell, d: Direction, j: nat)
    requires RayInBoard(o, d, j)
    ensures multiset(ShiftBack(g, o, d, j)) + multiset{Get(g, Ray(o, d, j))}
         == multiset(g) + multiset{Get(g, o)}
    decreases j
  {
    if j > 0 {
      var g' := Set(g, Ray(o, d, j), Get(g, Ray(o, d, j - 1)));
      ShiftBackMultiset(g', o, d, j - 1);
      ShiftBackMultisetStep(g, g', ShiftBack(g', o, d, j - 1), o, d, j);
    }
  }

  /** The inductive step of `ShiftBackMultiset`, for the grid `r` the
      shorter loop leaves. */
  lemma ShiftBackMultisetStep(g: Grid, g': Grid, r: Grid, o: Cell, d: Direction, j: nat)
    requires RayInBoard(o, d, j) && j > 0
    requires g' == Set(g, Ray(o, d, j), Get(g, Ray(o, d, j - 1)))
    requires multiset(r) + multiset{Get(g', Ray(o, d, j - 1))} == multiset(g') + multiset{Get(g', o)}
    ensures multiset(r) + multiset{Get(g, Ray(o, d, j))} == multiset(g) + multiset{Get(g, o)}
  {
    var c := Ray(o, d, j);
    var b := Ray(o, d, j - 1);
    SetMultiset(g, c, Get(g, b));
    RayInjective(o, d, j - 1, j);
    RayInjective(o, d, 0, j);
    assert Get(g', b) == Get(g, b) && Get(g', o) == Get(g, o);
    Cancel(multiset(r), multiset(g), multiset(g'), Get(g, b), Get(g, c), Get(g, o));
  }

  /** A knight's move-and-push from `o` along `d` over a chain of `m`
      villagers: the copy loop, then the origin is vacated. */
  function Push(g: Grid, o: Cell, d: Direction, m: nat): (r: Grid)
    requires InBoard(o) && Chain(g, Step(o, d), d, m)
  {
    ChainOnOriginRay(g, o, d, m);
    Set(ShiftBack(g, o, d, m + 1), o, Empty)
  }

  /** The chain, seen from the origin: its cells are steps `1 .. m + 1`. */
  lemma ChainOnOriginRay(g: Grid, o: Cell, d: Direction, m: nat)
    requires InBoard(o) && Chain(g, Step(o, d), d, m)
    ensures RayInBoard(o, d, m + 1)
    ensures forall i :: 0 <= i <= m ==> Ray(o, d, i + 1) == Ray(Step(o, d), d, i)
  {
    var n := Step(o, d);
    forall i | 0 <= i <= m
      ensures Ray(o, d, i + 1) == Ray(n, d, i)
    {
    }
  }

  /** A push moves the knight one cell forward, shifts every villager of the
      chain one cell towards the free cell, empties the origin and leaves
      every other cell alone; the occupants are only rearranged. */
  lemma PushEffect(g: Grid, o: Cell, d: Direction, m: nat)
    requires InBoard(o) && Chain(g, Step(o, d), d, m)
    ensures var r := Push(g, o, d, m);
      && Get(r, o) == Empty
      && Get(r, Step(o, d)) == Get(g, o)
      && (forall i :: 1 <= i <= m ==> Get(r, Ray(Step(o, d), d, i)) == Get(g, Ray(Step(o, d), d, i - 1)))
      && (forall c :: InBoard(c) && !OnRay(o, d, m + 1, c) ==> Get(r, c) == Get(g, c))
      && multiset(r) == multiset(g)
  {
    PushCells(g, o, d, m);
    PushMultiset(g, o, d, m);
  }

  /** The cell-by-cell effect of a push. */
  lemma PushCells(g: Grid, o: Cell, d: Direction, m: nat)
    requires InBoard(o) && Chain(g, Step(o, d), d, m)
    ensures var r := Push(g, o, d, m);
      && Get(r, o) == Empty
      && Get(r, Step(o, d)) == Get(g, o)
      && (forall i :: 1 <= i <= m ==> Get(r, Ray(Step(o, d), d, i)) == Get(g, Ray(Step(o, d), d, i - 1)))
      && (forall c :: InBoard(c) && !OnRay(o, d, m + 1, c) ==> Get(r, c) == Get(g, c))
  {
    var n := Step(o, d);
    ChainOnOriginRay(g, o, d, m);
    var s := ShiftBack(g, o, d, m + 1);
    ShiftBackEffect(g, o, d, m + 1);
    var r := Push(g, o, d, m);
    RayInjective(o, d, 0, 1);
    assert Get(r, n) == Get(s, Ray(o, d, 1));
    forall i | 1 <= i <= m
      ensures Get(r, Ray(n, d, i)) == Get(g, Ray(n, d, i - 1))
    {
      assert Ray(n, d, i) == Ray(o, d, i + 1);
      assert Ray(n, d, i - 1) == Ray(o, d, i);
      RayInjective(o, d, 0, i + 1);
    }
    forall c | InBoard(c) && !OnRay(o, d, m + 1, c)
      ensures Get(r, c) == Get(g, c)
    {
      assert c != o;
    }
  }

  /** A push only rearranges the occupants: the free cell's emptiness moves
      to the origin. */
  lemma PushMultiset(g: Grid, o: Cell, d: Direction, m: nat)
    requires InBoard(o) && Chain(g, Step(o, d), d, m)
    ensures multiset(Push(g, o, d, m)) == multiset(g)
  {
    ChainOnOriginRay(g, o, d, m);
    var s := ShiftBack(g, o, d, m + 1);
    var far := Ray(o, d, m + 1);
    ShiftBackMultiset(g, o, d, m + 1);
    ShiftBackAt(g, o, d, m + 1, o);
    assert far == Ray(Step(o, d), d, m);
    var a := Get(g, o);
    assert multiset(s) + multiset{Empty} == multiset(g) + multiset{a};
    var r := Set(s, o, Empty);
    SetMultiset(s, o, Empty);
    assert multiset(r) + multiset{a} == multiset(s) + multiset{Empty};
    CancelOne(multiset(r), multiset(g), a);
  }

  /** One occupant added to both sides of a multiset equation cancels. */
  lemma CancelOne(x: multiset<Occupant>, y: multiset<Occupant>, a: Occupant)
    requires x + multiset{a} == y + multiset{a}
    ensures x == y
  {
    forall v
      ensures x[v] == y[v]
    {
      assert (x + multiset{a})[v] == (y + multiset{a})[v];
    }
  }
}
