/** The resolver's defective lines modelled as they are written, each next
    to a lemma that exhibits the discrepancy with the behaviour the rest of
    the model adopts. */
module AsWritten {
  import opened Wrappers
  import opened Board
  import opened Occupancy
  import opened Game

  /** Line 139 as Python parses it: `p in {'assassin'} or (p in POPULATION
      and player != 0)`. */
  predicate PopulationGuardAsWritten(p: Occupant, player: int) {
    p == Assassin || (IsVillager(p) && player != 0)
  }

  /** `move` as written: the side check of line 139 as parsed, and the call
      `_nextfree((x, y, d))` of line 148, which passes one argument to a
      three-argument method and so raises before any push happens. */
  function MoveAsWritten(s: State, o: Cell, d: Direction, player: int): Result<State, Reason> {
    var g := People(s);
    if !InBoard(o) then Failure(OffBoard)
    else
      var p := Get(g, o);
      if p == Empty then Failure(NothingToMove)
      else
        var n := Step(o, d);
        if !InBoard(n) then Failure(OffBoard)
        else
          var q := Get(g, n);
          if p != Knight && q != Empty then Failure(DestinationTaken)
          else if p == King && IsRoof(n) then Failure(KingOntoRoof)
          else if PopulationGuardAsWritten(p, player) then Failure(PopulationMovedOnlyByPlayer0)
          else if p in {King, Knight} && player != 1 then Failure(KingSideMovedOnlyByPlayer1)
          else if q == Empty then Success(WithPeople(s, Swap(g, o, n)))
          else Failure(Malformed)
  }

  /** As written, no assassin can ever be moved, whoever asks. */
  lemma AssassinNeverMovesAsWritten(s: State, o: Cell, d: Direction, player: int)
    requires InBoard(o) && Get(People(s), o) == Assassin
    ensures MoveAsWritten(s, o, d, player).Failure?
  {
  }

  /** As intended, player 0 moves a revealed assassin onto a free cell. */
  lemma AssassinMovesForPlayer0(s: State, o: Cell, d: Direction)
    requires InBoard(o) && Get(People(s), o) == Assassin
    requires InBoard(Step(o, d)) && Get(People(s), Step(o, d)) == Empty
    ensures MoveAction(s, o, d, 0).Success?
    ensures Get(People(MoveAction(s, o, d, 0).value), Step(o, d)) == Assassin
  {
    assert MoveLegal(People(s), o, d, 0);
    assert Slid(People(s), People(MoveAction(s, o, d, 0).value), o, Step(o, d));
  }

  /** As written, a knight never pushes: every move onto an occupied cell
      fails, even when a free cell lies beyond the villagers. */
  lemma PushNeverWorksAsWritten(s: State, o: Cell, d: Direction)
    requires InBoard(o) && Get(People(s), o) == Knight
    requires InBoard(Step(o, d)) && Get(People(s), Step(o, d)) != Empty
    ensures MoveAsWritten(s, o, d, 1) == Failure(Malformed)
  {
  }

  /** As intended, a knight of player 1 facing a push chain pushes it. */
  lemma KnightPushesChain(s: State, o: Cell, d: Direction, m: nat)
    requires InBoard(o) && Get(People(s), o) == Knight
    requires Chain(People(s), Step(o, d), d, m) && Get(People(s), Step(o, d)) != Empty
    ensures MoveAction(s, o, d, 1) == Success(WithPeople(s, Push(People(s), o, d, m)))
  {
    NextFreeIff(People(s), o, d);
    assert MoveLegal(People(s), o, d, 1);
    var t := MoveAction(s, o, d, 1).value;
    assert Pushed(People(s), People(t), o, d);
    var k :| Chain(People(s), Step(o, d), d, k) && People(t) == Push(People(s), o, d, k);
    ChainUnique(People(s), Step(o, d), d, k, m);
  }

  /** A push chain, when there is one, has one length. */
  lemma ChainUnique(g: Grid, n: Cell, d: Direction, k: nat, m: nat)
    requires Chain(g, n, d, k) && Chain(g, n, d, m)
    ensures k == m
  {
  }

  /** Line 153 as written: the cell behind the cursor is computed from
      `(nfx, nfx)`, the row used twice. */
  function PredecessorAsWritten(c: Cell, d: Direction): Cell {
    Step(Cell(c.x, c.x), Opposite(d))
  }

  /** For an east or west push the as-written cursor stops moving after one
      step: it is stuck on one cell and the loop ends only if that cell is
      the origin. A knight at (3, 3) pushing east onto (3, 4) with (3, 5)
      free sends the cursor from (3, 5) to (3, 2), where it stays. */
  lemma PushWalkStallsAsWritten(c: Cell, d: Direction)
    requires d == E || d == W
    ensures PredecessorAsWritten(PredecessorAsWritten(c, d), d) == PredecessorAsWritten(c, d)
    ensures PredecessorAsWritten(Cell(3, 5), E) == Cell(3, 2) != Predecessor(Cell(3, 5), E)
  {
  }

  /** Lines 152-155 as written (with line 153 read as intended): the copy
      loop, with the origin never emptied. */
  function PushAsWritten(g: Grid, o: Cell, d: Direction, m: nat): Grid
    requires InBoard(o) && Chain(g, Step(o, d), d, m)
  {
    ChainOnOriginRay(g, o, d, m);
    ShiftBack(g, o, d, m + 1)
  }

  /** As written, a push leaves a copy of the knight on its origin: the
      board gains a knight. */
  lemma PushDuplicatesKnightAsWritten(g: Grid, o: Cell, d: Direction, m: nat)
    requires InBoard(o) && Get(g, o) == Knight && Chain(g, Step(o, d), d, m)
    ensures Get(PushAsWritten(g, o, d, m), o) == Knight
    ensures Get(PushAsWritten(g, o, d, m), Step(o, d)) == Knight
    ensures Count(PushAsWritten(g, o, d, m), Knight) == Count(g, Knight) + 1
  {
    ChainOnOriginRay(g, o, d, m);
    ShiftBackEffect(g, o, d, m + 1);
    ShiftBackMultiset(g, o, d, m + 1);
    var r := ShiftBack(g, o, d, m + 1);
    RayStep(o, d, 0);
    assert Get(g, Ray(o, d, m + 1)) == Empty;
    assert (multiset(r) + multiset{Empty})[Knight] == (multiset(g) + multiset{Knight})[Knight];
  }

  /** `kill` as written: lines 184 and 187 empty `people[tx][tx]`, the cell
      on the target's row whose column equals that row. */
  function KillAsWritten(s: State, o: Cell, d: Direction, player: int): Result<State, Reason> {
    var g := People(s);
    if !InBoard(o) then Failure(OffBoard)
    else
      var killer := Get(g, o);
      if killer == Assassin && player != 0 then Failure(AssassinKillsOnlyByPlayer0)
      else if killer == Knight && player != 1 then Failure(KnightKillsOnlyByPlayer1)
      else
        var t := Step(o, d);
        if !InBoard(t) then Failure(OffBoard)
        else
          var target := Get(g, t);
          var cleared := Cell(t.x, t.x);
          if target == Empty then Failure(NothingToKill)
          else if killer == Assassin && target == Knight then
            Success(s.(visible := s.visible.(
              people := Set(g, cleared, Empty),
              knightsKilled := s.visible.knightsKilled + 1)))
          else if killer == Knight && target == Assassin then
            Success(s.(visible := s.visible.(
              people := Set(g, cleared, Empty),
              assassinsKilled := s.visible.assassinsKilled + 1)))
          else Failure(ForbiddenKill)
  }

  /** As written, a victim off the diagonal survives its own kill while the
      counter goes up, and whoever stands on (row, row) disappears instead.
      An assassin at (3, 3) killing east a knight at (3, 4) empties (3, 3),
      itself, and leaves the knight standing. */
  lemma KillMissesVictimAsWritten(s: State, o: Cell, d: Direction)
    requires InBoard(o) && Get(People(s), o) == Assassin
    requires InBoard(Step(o, d)) && Get(People(s), Step(o, d)) == Knight
    requires Step(o, d).x != Step(o, d).y
    ensures KillAsWritten(s, o, d, 0).Success?
    ensures var t := KillAsWritten(s, o, d, 0).value;
      && Get(People(t), Step(o, d)) == Knight
      && Get(People(t), Cell(Step(o, d).x, Step(o, d).x)) == Empty
      && t.visible.knightsKilled == s.visible.knightsKilled + 1
    ensures Get(People(KillAction(s, o, d, 0).value), Step(o, d)) == Empty
  {
  }
}
