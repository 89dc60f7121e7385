/** What every action and every turn preserves, and what follows for whole
    games: the king never stands on a roof, so the castle branch of the
    winner is never taken; pieces are only moved, removed into the counters,
    or revealed; the counters and the king's wounds only grow. */
module Invariants {
  import opened Wrappers
  import opened Board
  import opened Occupancy
  import opened Game

  /** The king stands only on ground cells. */
  ghost predicate KingOnGround(g: Grid) {
    forall c :: InBoard(c) && Get(g, c) == King ==> !IsRoof(c)
  }

  /** Pieces of the population still on the board (villagers and revealed
      assassins): every cell that holds neither nobody, the king nor a knight. */
  function PopulationOnBoard(g: Grid): int {
    Size * Size - Count(g, Empty) - Count(g, King) - Count(g, Knight)
  }

  /** The hidden names, once chosen, are villagers' names, as the server's
      set-up move checks. */
  ghost predicate HiddenNamesValid(s: State) {
    s.hidden.assassins.Some? ==> s.hidden.assassins.value <= Population
  }

  /** The state invariant: the king on the ground and valid hidden names. */
  ghost predicate Sound(s: State) {
    KingOnGround(People(s)) && HiddenNamesValid(s)
  }

  /** The three quantities no action changes: the number of kings, the
      knights on the board plus the knights killed, and the population on
      the board plus those arrested and the assassins killed. */
  ghost predicate Conserved(s: State, t: State) {
    && Count(People(t), King) == Count(People(s), King)
    && Count(People(t), Knight) + t.visible.knightsKilled == Count(People(s), Knight) + s.visible.knightsKilled
    && PopulationOnBoard(People(t)) + |t.visible.arrested| + t.visible.assassinsKilled
       == PopulationOnBoard(People(s)) + |s.visible.arrested| + s.visible.assassinsKilled
  }

  /** Nothing is undone: the arrested list only grows at its end, the kill
      counters only go up, the king only gets worse, and the hidden
      assassins stay the same. */
  ghost predicate Progress(s: State, t: State) {
    && s.visible.arrested <= t.visible.arrested
    && s.visible.knightsKilled <= t.visible.knightsKilled
    && s.visible.assassinsKilled <= t.visible.assassinsKilled
    && Severity(s.visible.king) <= Severity(t.visible.king)
    && t.hidden.assassins == s.hidden.assassins
  }

  /** The per-value effect of replacing one cell. */
  lemma SetCount(g: Grid, c: Cell, p: Occupant, x: Occupant)
    requires InBoard(c)
    ensures Count(Set(g, c, p), x) + (if Get(g, c) == x then 1 else 0) == Count(g, x) + (if p == x then 1 else 0)
  {
    SetMultiset(g, c, p);
    assert (multiset(Set(g, c, p)) + multiset{Get(g, c)})[x] == (multiset(g) + multiset{p})[x];
  }

  /** Emptying one cell that held `p`. */
  lemma ClearCounts(g: Grid, c: Cell)
    requires InBoard(c)
    ensures var g' := Set(g, c, Empty);
      && Count(g', King) == Count(g, King) - (if Get(g, c) == King then 1 else 0)
      && Count(g', Knight) == Count(g, Knight) - (if Get(g, c) == Knight then 1 else 0)
      && PopulationOnBoard(g') == PopulationOnBoard(g) - (if Get(g, c) in {Empty, King, Knight} then 0 else 1)
  {
    SetCount(g, c, Empty, Empty);
    SetCount(g, c, Empty, King);
    SetCount(g, c, Empty, Knight);
  }

  /** A push leaves the king where it was: only the origin and the chain
      change, and they end up holding nobody, the knight, or villagers. */
  lemma PushSparesKing(g: Grid, o: Cell, d: Direction, m: nat, c: Cell)
    requires InBoard(o) && Get(g, o) == Knight && Chain(g, Step(o, d), d, m) && InBoard(c)
    ensures Get(Push(g, o, d, m), c) == King ==> Get(g, c) == King
  {
    var n := Step(o, d);
    PushEffect(g, o, d, m);
    ChainOnOriginRay(g, o, d, m);
    if OnRay(o, d, m + 1, c) {
      OnRayIff(o, d, m + 1, c);
      var i :| 0 <= i <= m + 1 && c == Ray(o, d, i);
      if i >= 2 {
        assert c == Ray(n, d, i - 1);
        assert Get(Push(g, o, d, m), c) == Get(g, Ray(n, d, i - 2));
        assert IsVillager(Get(g, Ray(n, d, i - 2)));
      } else if i == 1 {
        assert c == n;
      }
    }
  }

  /** Moves only rearrange the board, and the king's own move avoids roofs. */
  lemma MoveInvariants(s: State, o: Cell, d: Direction, player: int)
    requires Sound(s)
    ensures MoveAction(s, o, d, player).Success? ==>
      var t := MoveAction(s, o, d, player).value;
      Sound(t) && Conserved(s, t) && Progress(s, t)
  {
    var r := MoveAction(s, o, d, player);
    if r.Success? {
      var g := People(s);
      var t := r.value;
      var n := Step(o, d);
      if Get(g, n) == Empty {
        assert Slid(g, People(t), o, n);
      } else {
        assert Pushed(g, People(t), o, d);
        var m :| Chain(g, n, d, m) && People(t) == Push(g, o, d, m);
        forall c | InBoard(c) && Get(People(t), c) == King
          ensures !IsRoof(c)
        {
          PushSparesKing(g, o, d, m, c);
        }
      }
    }
  }

  /** An arrest moves one villager from the board to the arrested list. */
  lemma ArrestInvariants(s: State, o: Cell, d: Direction, player: int)
    requires Sound(s)
    ensures ArrestAction(s, o, d, player).Success? ==>
      var t := ArrestAction(s, o, d, player).value;
      Sound(t) && Conserved(s, t) && Progress(s, t)
  {
    if ArrestAction(s, o, d, player).Success? {
      ClearCounts(People(s), Step(o, d));
    }
  }

  /** A kill moves one knight or one assassin from the board to its counter. */
  lemma KillInvariants(s: State, o: Cell, d: Direction, player: int)
    requires Sound(s)
    ensures KillAction(s, o, d, player).Success? ==>
      var t := KillAction(s, o, d, player).value;
      Sound(t) && Conserved(s, t) && Progress(s, t)
  {
    if KillAction(s, o, d, player).Success? {
      ClearCounts(People(s), Step(o, d));
    }
  }

  /** A reveal relabels one villager; with valid hidden names it is never a
      king or a knight that gets relabelled. */
  lemma RevealInvariants(s: State, o: Cell, player: int)
    requires Sound(s)
    ensures RevealAction(s, o, player).Success? ==>
      var t := RevealAction(s, o, player).value;
      Sound(t) && Conserved(s, t) && Progress(s, t)
  {
    if RevealAction(s, o, player).Success? {
      var g := People(s);
      LabelInPopulation(Get(g, o));
      SetCount(g, o, Assassin, Empty);
      SetCount(g, o, Assassin, King);
      SetCount(g, o, Assassin, Knight);
    }
  }

  /** Every accepted action keeps the state sound, conserves the pieces and
      makes progress. */
  lemma ActionInvariants(s: State, a: Action, player: int)
    requires Sound(s)
    ensures ApplyAction(s, a, player).Success? ==>
      var t := ApplyAction(s, a, player).value;
      Sound(t) && Conserved(s, t) && Progress(s, t)
  {
    match a
    case Move(o, d) => MoveInvariants(s, o, d, player);
    case Arrest(o, d) => ArrestInvariants(s, o, d, player);
    case Kill(o, d) => KillInvariants(s, o, d, player);
    case Attack(o, d) =>
    case Reveal(o) => RevealInvariants(s, o, player);
    case Unrecognised =>
  }

  /** The invariants carry over from one action to the whole batch. */
  lemma {:induction false} ReplayInvariants(s: State, actions: seq<Action>, player: int)
    requires Sound(s)
    ensures Replay(s, actions, player).Some? ==>
      var t := Replay(s, actions, player).value;
      Sound(t) && Conserved(s, t) && Progress(s, t)
    decreases |actions|
  {
    if |actions| > 0 && ApplyAction(s, actions[0], player).Success? {
      var u := ApplyAction(s, actions[0], player).value;
      ActionInvariants(s, actions[0], player);
      ReplayInvariants(u, actions[1..], player);
    }
  }

  /** A turn, accepted or stopped part-way, keeps the invariants for the
      state it leaves behind. */
  lemma TurnInvariants(s: State, actions: seq<Action>, player: int)
    requires Sound(s)
    ensures var t := ApplyTurn(s, actions, player).state;
      Sound(t) && Conserved(s, t) && Progress(s, t)
  {
    var o := ApplyActions(s, actions, player);
    ReplayInvariants(s, actions[..o.applied], player);
  }

  /** A turn is a batch of actions by one player. */
  datatype Turn = Turn(actions: seq<Action>, player: int)

  /** A sequence of turns, each applied to whatever state the previous one
      left, including the part of a refused batch that was committed. */
  function Play(s: State, turns: seq<Turn>): State
    decreases |turns|
  {
    if |turns| == 0 then s
    else Play(ApplyTurn(s, turns[0].actions, turns[0].player).state, turns[1..])
  }

  lemma {:induction false} PlayInvariants(s: State, turns: seq<Turn>)
    requires Sound(s)
    ensures Sound(Play(s, turns))
    ensures Conserved(s, Play(s, turns)) && Progress(s, Play(s, turns))
    decreases |turns|
  {
    if |turns| > 0 {
      var u := ApplyTurn(s, turns[0].actions, turns[0].player).state;
      TurnInvariants(s, turns[0].actions, turns[0].player);
      PlayInvariants(u, turns[1..]);
    }
  }

  /** The king starts on a ground cell, (9, 9). */
  lemma InitialSound(placement: seq<string>, deck: seq<Card>)
    ensures Sound(Initial(placement, deck))
  {
    var g := People(Initial(placement, deck));
    forall c | InBoard(c) && Get(g, c) == King
      ensures !IsRoof(c)
    {
      assert StartOccupant(c, placement) == King;
      assert c == KingStart;
      assert Rows[9][9] == 'G';
    }
  }

  /** Since the cells beyond both gates are roofs and the king stays on the
      ground, the king never reaches a castle gate. */
  lemma NoKingAtGate(g: Grid)
    requires KingOnGround(g)
    ensures !KingAtGate(g)
  {
    GatesLeadOntoRoofs();
  }

  /** Whatever the shuffles, the chosen names and the turns played, the
      castle branch of the winner is never taken: player 1 can only win by
      neutralising three assassins. The pieces are conserved: exactly one
      king stays on the board, every one of the seven knights is on the
      board or counted as killed, and, when every villager cell received a
      name, every one of the twelve villagers is on the board (hidden,
      or revealed as an assassin), arrested, or killed as an assassin. */
  lemma CastleNeverReached(placement: seq<string>, deck: seq<Card>, names: seq<string>, turns: seq<Turn>)
    ensures var s0 := ChooseAssassins(Initial(placement, deck), names).state;
      var s := Play(s0, turns);
      && !KingAtGate(People(s))
      && (Winner(s) == 1 ==> Neutralised(s) == 3)
      && Conserved(s0, s)
      && Count(People(s), King) == 1
      && Count(People(s), Knight) + s.visible.knightsKilled == |KnightStarts|
      && (|placement| >= |VillagerStarts| ==>
           PopulationOnBoard(People(s)) + |s.visible.arrested| + s.visible.assassinsKilled == |VillagerStarts|)
  {
    var init := Initial(placement, deck);
    InitialSound(placement, deck);
    InitialPieces(placement, deck);
    if FirstUnknown(names).None? {
      TurnInvariants(SetAssassins(init, names), [], 0);
    }
    var s0 := ChooseAssassins(init, names).state;
    PlayInvariants(s0, turns);
    NoKingAtGate(People(Play(s0, turns)));
  }
}
