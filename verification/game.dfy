/** The game state and its rules: the per-action resolver, a player's turn
    with its card draw, the win evaluator and the one-time choice of the
    hidden assassins. */
module Game {
  import opened Wrappers
  import opened Board
  import opened Occupancy

  /** A card: action points of the king, of the knights, whether the knights
      are fettered, and action points of the population and assassins. */
  datatype Card = Card(kingPoints: nat, knightPoints: nat, fettered: bool, populationPoints: nat)

  const Cards: seq<Card> := [
    Card(1, 6, true, 5), Card(1, 5, false, 4), Card(1, 6, true, 5),
    Card(1, 6, true, 5), Card(1, 5, true, 4), Card(1, 5, false, 4),
    Card(2, 7, false, 5), Card(2, 7, false, 4), Card(1, 6, true, 5),
    Card(1, 6, true, 5), Card(2, 7, false, 5), Card(2, 5, false, 4),
    Card(1, 5, true, 5), Card(1, 5, false, 4), Card(1, 5, false, 4)
  ]

  datatype Health = Healthy | Injured | Dead

  /** How badly the king is hurt: 0, 1 or 2. */
  function Severity(h: Health): nat {
    match h
    case Healthy => 0
    case Injured => 1
    case Dead => 2
  }

  /** What both players see. The terrain and the castle gates are constants
      of `Board` and are not repeated here. */
  datatype Visible = Visible(
    people: Grid,
    card: Option<Card>,
    king: Health,
    arrested: seq<string>,
    knightsKilled: nat,
    assassinsKilled: nat)

  /** What only the engine knows: the assassins' names (None until chosen)
      and the remaining deck, whose last element is drawn next. */
  datatype Hidden = Hidden(assassins: Option<set<string>>, cards: seq<Card>)

  datatype State = State(visible: Visible, hidden: Hidden)

  /** Player 0 plays the population and the assassins, player 1 the king and
      the knights. An action kind the resolver does not know is ignored. */
  datatype Action =
    | Move(at: Cell, dir: Direction)
    | Arrest(at: Cell, dir: Direction)
    | Kill(at: Cell, dir: Direction)
    | Attack(at: Cell, dir: Direction)
    | Reveal(at: Cell)
    | Unrecognised

  /** Why an action (or the set-up) was refused. `Malformed` stands for the
      runtime errors of the source that the server reports as an invalid
      move, such as the `TypeError` of the one-argument `_nextfree` call, or
      a reveal before any assassins are chosen (reachable only by calling
      the rules directly, since the server routes every move to the set-up
      until then); `OffBoard` for a coordinate outside 0..9. */
  datatype Reason =
    | OffBoard
    | Malformed
    | NothingToMove
    | DestinationTaken
    | KingOntoRoof
    | PopulationMovedOnlyByPlayer0
    | KingSideMovedOnlyByPlayer1
    | CannotPush
    | ArrestOnlyByPlayer1
    | ArresterNotKnight
    | OnlyVillagersArrested
    | AssassinKillsOnlyByPlayer0
    | KnightKillsOnlyByPlayer1
    | NothingToKill
    | ForbiddenKill
    | AttackOnlyByPlayer0
    | AttackerNotAssassin
    | OnlyKingAttacked
    | RevealOnlyByPlayer0
    | NotAnAssassin
    | NoCardLeft
    | UnknownVillager(name: string)

  function People(s: State): Grid {
    s.visible.people
  }

  function WithPeople(s: State, g: Grid): State {
    s.(visible := s.visible.(people := g))
  }

  /** Cells outside `changed` hold what they held before. */
  ghost predicate OnlyChanged(g: Grid, g': Grid, changed: set<Cell>) {
    forall c :: InBoard(c) && c !in changed ==> Get(g', c) == Get(g, c)
  }

  /** A villager or a revealed assassin: the pieces player 0 moves. */
  predicate IsPopulation(p: Occupant) {
    p == Assassin || IsVillager(p)
  }

  // ---------------------------------------------------------------------
  // move
  // ---------------------------------------------------------------------

  /** The side check for population pieces as line 139 means it: a villager
      or an assassin moved by anyone but player 0 is refused. */
  predicate PopulationGuard(p: Occupant, player: int) {
    IsPopulation(p) && player != 0
  }

  /** When a move is allowed, stated without the resolver's order of checks:
      something stands on an on-board origin; only a knight may enter an
      occupied cell, and then only if a push chain starts there; the king
      never steps on a roof; each side moves only its own pieces. */
  ghost predicate MoveLegal(g: Grid, o: Cell, d: Direction, player: int) {
    && InBoard(o) && InBoard(Step(o, d))
    && Get(g, o) != Empty
    && (Get(g, o) != Knight ==> Get(g, Step(o, d)) == Empty)
    && (Get(g, o) == King ==> !IsRoof(Step(o, d)))
    && (IsPopulation(Get(g, o)) ==> player == 0)
    && (Get(g, o) in {King, Knight} ==> player == 1)
    && (Get(g, Step(o, d)) != Empty ==> exists m :: Chain(g, Step(o, d), d, m))
  }

  /** A plain move: the mover and the empty destination trade places. */
  ghost predicate Slid(g: Grid, g': Grid, o: Cell, n: Cell) {
    InBoard(o) && InBoard(n) && Get(g', o) == Empty && Get(g', n) == Get(g, o) && OnlyChanged(g, g', {o, n})
  }

  /** A move-and-push by a knight over a chain of villagers. */
  ghost predicate Pushed(g: Grid, g': Grid, o: Cell, d: Direction) {
    InBoard(o) && Get(g, o) == Knight && exists m :: Chain(g, Step(o, d), d, m) && g' == Push(g, o, d, m)
  }

  /** The `move` action, with the side check meant by the source (line 139
      as intended) and the push walking from the destination. */
  function MoveAction(s: State, o: Cell, d: Direction, player: int): (r: Result<State, Reason>)
    ensures r.Success? <==> MoveLegal(People(s), o, d, player)
    ensures r.Success? ==> r.value == WithPeople(s, People(r.value))
    ensures r.Success? ==> multiset(People(r.value)) == multiset(People(s))
    ensures r.Success? && Get(People(s), Step(o, d)) == Empty ==> Slid(People(s), People(r.value), o, Step(o, d))
    ensures r.Success? && Get(People(s), Step(o, d)) != Empty ==> Pushed(People(s), People(r.value), o, d)
  {
    var g := People(s);
    NextFreeIff(g, o, d);
    if !InBoard(o) then Failure(OffBoard)
    else
      var p := Get(g, o);
      if p == Empty then Failure(NothingToMove)
      else
        var n := Step(o, d);
        if !InBoard(n) then Failure(OffBoard)
        else
          var q := Get(g, n);
          if p != Knight && q != Empty then Failure(DestinationTaken)
          else if p == King && IsRoof(n) then Failure(KingOntoRoof)
          else if PopulationGuard(p, player) then Failure(PopulationMovedOnlyByPlayer0)
          else if p in {King, Knight} && player != 1 then Failure(KingSideMovedOnlyByPlayer1)
          else if q == Empty then
            Success(WithPeople(s, Swap(g, o, n)))
          else if NextFree(g, o, d).None? then Failure(CannotPush)
          else
            var m := ChainLength(g, o, d);
            PushEffect(g, o, d, m);
            Success(WithPeople(s, Push(g, o, d, m)))
  }

  // ---------------------------------------------------------------------
  // arrest, kill, attack, reveal
  // ---------------------------------------------------------------------

  /** `arrest`: a knight of player 1 takes the unrevealed villager in the
      next cell off the board and records its name. */
  function ArrestAction(s: State, o: Cell, d: Direction, player: int): (r: Result<State, Reason>)
    ensures r.Success? <==>
      player == 1 && InBoard(o) && Get(People(s), o) == Knight
      && InBoard(Step(o, d)) && IsVillager(Get(People(s), Step(o, d)))
    ensures r.Success? ==>
      var t := Step(o, d);
      && r.value.visible.arrested == s.visible.arrested + [Get(People(s), t).name]
      && Get(People(r.value), t) == Empty
      && OnlyChanged(People(s), People(r.value), {t})
      && r.value == s.(visible := s.visible.(people := People(r.value), arrested := r.value.visible.arrested))
  {
    var g := People(s);
    if player != 1 then Failure(ArrestOnlyByPlayer1)
    else if !InBoard(o) then Failure(OffBoard)
    else if Get(g, o) != Knight then Failure(ArresterNotKnight)
    else
      var t := Step(o, d);
      if !InBoard(t) then Failure(OffBoard)
      else if !IsVillager(Get(g, t)) then Failure(OnlyVillagersArrested)
      else
        Success(s.(visible := s.visible.(
          people := Set(g, t, Empty),
          arrested := s.visible.arrested + [Get(g, t).name])))
  }

  /** `kill`: an assassin of player 0 kills a knight, or a knight of player 1
      kills a revealed assassin; the victim's cell is emptied and the
      matching counter goes up by one. */
  function KillAction(s: State, o: Cell, d: Direction, player: int): (r: Result<State, Reason>)
    ensures r.Success? <==>
      InBoard(o) && InBoard(Step(o, d))
      && ((Get(People(s), o) == Assassin && Get(People(s), Step(o, d)) == Knight && player == 0)
       || (Get(People(s), o) == Knight && Get(People(s), Step(o, d)) == Assassin && player == 1))
    ensures r.Success? ==>
      var t := Step(o, d);
      var v := r.value.visible;
      && Get(People(r.value), t) == Empty
      && OnlyChanged(People(s), People(r.value), {t})
      && (if Get(People(s), o) == Assassin
          then v.knightsKilled == s.visible.knightsKilled + 1 && v.assassinsKilled == s.visible.assassinsKilled
          else v.assassinsKilled == s.visible.assassinsKilled + 1 && v.knightsKilled == s.visible.knightsKilled)
      && r.value == s.(visible := s.visible.(people := v.people, knightsKilled := v.knightsKilled, assassinsKilled := v.assassinsKilled))
  {
    var g := People(s);
    if !InBoard(o) then Failure(OffBoard)
    else
      var killer := Get(g, o);
      if killer == Assassin && player != 0 then Failure(AssassinKillsOnlyByPlayer0)
      else if killer == Knight && player != 1 then Failure(KnightKillsOnlyByPlayer1)
      else
        var t := Step(o, d);
        if !InBoard(t) then Failure(OffBoard)
        else
          var target := Get(g, t);
          if target == Empty then Failure(NothingToKill)
          else if killer == Assassin && target == Knight then
            Success(s.(visible := s.visible.(
              people := Set(g, t, Empty),
              knightsKilled := s.visible.knightsKilled + 1)))
          else if killer == Knight && target == Assassin then
            Success(s.(visible := s.visible.(
              people := Set(g, t, Empty),
              assassinsKilled := s.visible.assassinsKilled + 1)))
          else Failure(ForbiddenKill)
  }

  /** One more wound: healthy becomes injured, anything else dead. */
  function Wound(h: Health): (r: Health)
    ensures r != Healthy
    ensures h != Dead ==> Severity(r) == Severity(h) + 1
    ensures h == Dead ==> r == Dead
  {
    if h == Healthy then Injured else Dead
  }

  /** `attack`: an assassin of player 0 wounds the king in the next cell;
      nothing but the king's health changes. */
  function AttackAction(s: State, o: Cell, d: Direction, player: int): (r: Result<State, Reason>)
    ensures r.Success? <==>
      player == 0 && InBoard(o) && Get(People(s), o) == Assassin
      && InBoard(Step(o, d)) && Get(People(s), Step(o, d)) == King
    ensures r.Success? ==> Severity(r.value.visible.king) == if s.visible.king == Healthy then 1 else 2
    ensures r.Success? ==> r.value == s.(visible := s.visible.(king := r.value.visible.king))
  {
    var g := People(s);
    if player != 0 then Failure(AttackOnlyByPlayer0)
    else if !InBoard(o) then Failure(OffBoard)
    else if Get(g, o) != Assassin then Failure(AttackerNotAssassin)
    else
      var t := Step(o, d);
      if !InBoard(t) then Failure(OffBoard)
      else if Get(g, t) != King then Failure(OnlyKingAttacked)
      else Success(s.(visible := s.visible.(king := Wound(s.visible.king))))
  }

  /** Whether the source's membership test `p in hidden['assassins']`
      accepts the occupant `p`. */
  predicate HiddenAssassin(s: State, p: Occupant) {
    s.hidden.assassins.Some? && Label(p).Some? && Label(p).value in s.hidden.assassins.value
  }

  /** `reveal`: player 0 turns one of the hidden assassins into a visible
      assassin, in place. */
  function RevealAction(s: State, o: Cell, player: int): (r: Result<State, Reason>)
    ensures r.Success? <==> player == 0 && InBoard(o) && HiddenAssassin(s, Get(People(s), o))
    ensures r.Success? ==> Get(People(r.value), o) == Assassin && OnlyChanged(People(s), People(r.value), {o})
    ensures r.Success? ==> r.value == WithPeople(s, People(r.value))
  {
    var g := People(s);
    if player != 0 then Failure(RevealOnlyByPlayer0)
    else if !InBoard(o) then Failure(OffBoard)
    else if s.hidden.assassins.None? then Failure(Malformed)
    else if !HiddenAssassin(s, Get(g, o)) then Failure(NotAnAssassin)
    else Success(WithPeople(s, Set(g, o, Assassin)))
  }

  /** With the hidden names drawn from the population, as the server's
      validation ensures, `reveal` succeeds exactly on an unrevealed villager
      whose name is one of them. */
  lemma RevealOnlyHiddenVillagers(s: State, o: Cell, player: int)
    requires s.hidden.assassins.Some? && s.hidden.assassins.value <= Population
    ensures RevealAction(s, o, player).Success? <==>
      player == 0 && InBoard(o) && Get(People(s), o).Villager? && Get(People(s), o).name in s.hidden.assassins.value
  {
    if InBoard(o) {
      var p := Get(People(s), o);
      assert "king" !in Population && "knight" !in Population && "assassin" !in Population;
      if HiddenAssassin(s, p) {
        assert Label(p).value in Population;
      }
    }
  }

  // ---------------------------------------------------------------------
  // Actions, turns and the card draw
  // ---------------------------------------------------------------------

  /** One action of a turn. No action touches the hidden part or the
      current card. */
  function ApplyAction(s: State, a: Action, player: int): (r: Result<State, Reason>)
    ensures r.Success? ==> r.value.hidden == s.hidden && r.value.visible.card == s.visible.card
    ensures a.Unrecognised? ==> r == Success(s)
  {
    match a
    case Move(o, d) => MoveAction(s, o, d, player)
    case Arrest(o, d) => ArrestAction(s, o, d, player)
    case Kill(o, d) => KillAction(s, o, d, player)
    case Attack(o, d) => AttackAction(s, o, d, player)
    case Reveal(o) => RevealAction(s, o, player)
    case Unrecognised => Success(s)
  }

  /** All-or-nothing application of a batch: the state after every action,
      or None if any action is refused. */
  function Replay(s: State, actions: seq<Action>, player: int): Option<State>
    decreases |actions|
  {
    if |actions| == 0 then Some(s)
    else match ApplyAction(s, actions[0], player)
      case Failure(_) => None
      case Success(t) => Replay(t, actions[1..], player)
  }

  /** Where a batch ended: the state reached, how many actions were
      committed, and the reason the next one was refused, if any. */
  datatype Outcome = Outcome(state: State, applied: nat, failure: Option<Reason>)

  /** The actions of a turn applied in order, each committed at once; the
      first refused action stops the batch and the earlier ones stay. */
  function ApplyActions(s: State, actions: seq<Action>, player: int): (r: Outcome)
    ensures r.applied <= |actions|
    ensures r.failure.None? <==> r.applied == |actions|
    ensures r.failure.Some? ==> ApplyAction(r.state, actions[r.applied], player) == Failure(r.failure.value)
    ensures Replay(s, actions[..r.applied], player) == Some(r.state)
    decreases |actions|
  {
    if |actions| == 0 then Outcome(s, 0, None)
    else match ApplyAction(s, actions[0], player)
      case Failure(e) => Outcome(s, 0, Some(e))
      case Success(t) =>
        var o := ApplyActions(t, actions[1..], player);
        assert actions[..o.applied + 1][1..] == actions[1..][..o.applied];
        Outcome(o.state, o.applied + 1, o.failure)
  }

  /** Drawing from the deck takes its last card and makes it the current
      card; putting it back gives the old deck. */
  function DrawCard(s: State): (r: Result<State, Reason>)
    ensures r.Failure? <==> |s.hidden.cards| == 0
    ensures r.Success? ==>
      && r.value.visible.card.Some?
      && r.value.hidden.cards + [r.value.visible.card.value] == s.hidden.cards
      && r.value == s.(visible := s.visible.(card := r.value.visible.card),
                       hidden := s.hidden.(cards := r.value.hidden.cards))
  {
    var deck := s.hidden.cards;
    if |deck| == 0 then Failure(NoCardLeft)
    else
      Success(s.(visible := s.visible.(card := Some(deck[|deck| - 1])),
                 hidden := s.hidden.(cards := deck[..|deck| - 1])))
  }

  /** A player's turn: the batch, then, after a turn of player 0 whose
      actions were all accepted, one card is drawn. The turn commits what
      the batch committed, and it is accepted when every action is and,
      for player 0, a card is left to draw. */
  function ApplyTurn(s: State, actions: seq<Action>, player: int): (r: Outcome)
    ensures var o := ApplyActions(s, actions, player);
      && r.applied == o.applied
      && r.state.visible.(card := o.state.visible.card) == o.state.visible
      && (o.failure.Some? ==> r.failure == o.failure && r.state == o.state)
      && (r.failure.None? <==> o.failure.None? && (player != 0 || |s.hidden.cards| > 0))
    ensures player != 0 || r.failure.Some? ==>
      r.state.hidden.cards == s.hidden.cards && r.state.visible.card == s.visible.card
    ensures player == 0 && r.failure.None? ==>
      && |r.state.hidden.cards| == |s.hidden.cards| - 1
      && r.state.visible.card.Some?
      && r.state.hidden.cards + [r.state.visible.card.value] == s.hidden.cards
    ensures r.state.hidden.assassins == s.hidden.assassins
    ensures r.failure.None? ==> r.applied == |actions| && Replay(s, actions, player).Some?
    ensures player == 0 && ApplyActions(s, actions, player).failure.None? && |s.hidden.cards| == 0 ==>
      r.failure == Some(NoCardLeft)
  {
    var o := ApplyActions(s, actions, player);
    ReplayKeepsHidden(s, actions[..o.applied], player);
    assert actions[..o.applied] == actions || o.failure.Some?;
    if o.failure.Some? || player != 0 then o
    else match DrawCard(o.state)
      case Failure(e) => Outcome(o.state, o.applied, Some(e))
      case Success(t) => Outcome(t, o.applied, None)
  }

  /** A batch never changes the hidden part or the current card. */
  lemma {:induction false} ReplayKeepsHidden(s: State, actions: seq<Action>, player: int)
    ensures Replay(s, actions, player).Some? ==>
      Replay(s, actions, player).value.hidden == s.hidden
      && Replay(s, actions, player).value.visible.card == s.visible.card
    decreases |actions|
  {
    if |actions| > 0 && ApplyAction(s, actions[0], player).Success? {
      ReplayKeepsHidden(ApplyAction(s, actions[0], player).value, actions[1..], player);
    }
  }

  /** Committing each action at once and validating the whole batch first
      agree whenever the batch is accepted; they differ only in what a
      refused batch leaves behind. */
  lemma {:induction false} CommitMatchesReplay(s: State, actions: seq<Action>, player: int)
    ensures Replay(s, actions, player).Some? <==> ApplyActions(s, actions, player).failure.None?
    ensures Replay(s, actions, player).Some? ==> Replay(s, actions, player).value == ApplyActions(s, actions, player).state
    decreases |actions|
  {
    if |actions| > 0 && ApplyAction(s, actions[0], player).Success? {
      CommitMatchesReplay(ApplyAction(s, actions[0], player).value, actions[1..], player);
    }
  }

  // ---------------------------------------------------------------------
  // Winner
  // ---------------------------------------------------------------------

  /** The king stands on the cell beyond some castle gate. */
  ghost predicate KingAtGate(g: Grid) {
    exists i :: 0 <= i < |Castle| && InBoard(Beyond(Castle[i])) && Get(g, Beyond(Castle[i])) == King
  }

  /** The gate loop of `winner`, from gate `i` on. */
  function GateReached(g: Grid, i: nat): (r: bool)
    requires i <= |Castle|
    ensures r <==> exists j :: i <= j < |Castle| && InBoard(Beyond(Castle[j])) && Get(g, Beyond(Castle[j])) == King
    decreases |Castle| - i
  {
    if i == |Castle| then false
    else
      var c := Beyond(Castle[i]);
      (InBoard(c) && Get(g, c) == King) || GateReached(g, i + 1)
  }

  /** The hidden assassins among the arrested, by name. */
  function ArrestedAssassins(s: State): set<string> {
    var arrested := set n | n in s.visible.arrested;
    if s.hidden.assassins.Some? then arrested * s.hidden.assassins.value else {}
  }

  /** Assassins put out of the game: killed once revealed, or arrested while
      still hidden. */
  function Neutralised(s: State): nat {
    s.visible.assassinsKilled + |ArrestedAssassins(s)|
  }

  /** The winner: 1 for player 1 (the king), 0 for player 0, -1 while the
      game goes on. The conditions are tried in a fixed order. */
  function Winner(s: State): (r: int)
    ensures r in {-1, 0, 1}
    ensures KingAtGate(People(s)) ==> r == 1
    ensures !KingAtGate(People(s)) && |s.hidden.cards| == 0 ==> r == 0
    ensures !KingAtGate(People(s)) && s.visible.king == Dead ==> r == 0
    ensures r == 1 <==> KingAtGate(People(s)) || (|s.hidden.cards| > 0 && s.visible.king != Dead && Neutralised(s) == 3)
    ensures r == -1 <==> !KingAtGate(People(s)) && |s.hidden.cards| > 0 && s.visible.king != Dead && Neutralised(s) != 3
  {
    if GateReached(People(s), 0) then 1
    else if |s.hidden.cards| == 0 then 0
    else if s.visible.king == Dead then 0
    else if Neutralised(s) == 3 then 1
    else -1
  }

  // ---------------------------------------------------------------------
  // Set-up
  // ---------------------------------------------------------------------

  /** Position of `c` in `cells`, if it is there. */
  function Find(cells: seq<Cell>, c: Cell): (r: Option<nat>)
    ensures r.Some? ==> r.value < |cells| && cells[r.value] == c
    ensures r.None? <==> c !in cells
  {
    if |cells| == 0 then None
    else if cells[0] == c then Some(0)
    else match Find(cells[1..], c)
      case None => None
      case Some(i) => Some(i + 1)
  }

  /** Who stands on `c` at the start: the king, the knights, then the
      villagers, the i-th villager cell receiving the i-th name of the
      shuffled `placement` (cells beyond the names stay empty). */
  function StartOccupant(c: Cell, placement: seq<string>): Occupant {
    var v := Find(VillagerStarts, c);
    if v.Some? && v.value < |placement| then Villager(placement[v.value])
    else if c in KnightStarts then Knight
    else if c == KingStart then King
    else Empty
  }

  function CellAt(i: nat): (c: Cell)
    requires i < Size * Size
    ensures InBoard(c) && Index(c) == i
  {
    Cell(i / Size, i % Size)
  }

  /** The state a new game starts from, given the shuffled names and deck:
      no assassins chosen yet, no current card, a healthy king. */
  function Initial(placement: seq<string>, deck: seq<Card>): (s: State)
    ensures forall c :: InBoard(c) ==> Get(People(s), c) == StartOccupant(c, placement)
    ensures s.hidden == Hidden(None, deck)
    ensures s.visible.card.None? && s.visible.king == Healthy && s.visible.arrested == []
    ensures s.visible.knightsKilled == 0 && s.visible.assassinsKilled == 0
  {
    var g: Grid := seq(Size * Size, i requires 0 <= i < Size * Size => StartOccupant(CellAt(i), placement));
    assert forall c :: InBoard(c) ==> CellAt(Index(c)) == c;
    State(Visible(g, None, Healthy, [], 0, 0), Hidden(None, deck))
  }

  /** Who stands on a knight's or the king's starting cell, and only there. */
  lemma StartPieces(c: Cell, placement: seq<string>)
    ensures StartOccupant(c, placement) == Knight <==> c in KnightStarts
    ensures StartOccupant(c, placement) == King <==> c == KingStart
  {
    assert forall k :: 0 <= k < |KnightStarts| ==> KnightStarts[k] !in VillagerStarts;
    assert KingStart !in VillagerStarts && KingStart !in KnightStarts;
  }

  /** The grid positions (`Index`) of the knights' starting cells. */
  const KnightIndices: set<nat> := {13, 30, 78, 87, 88, 89, 98}

  /** The grid positions (`Index`) of the villagers' starting cells. */
  const VillagerIndices: set<nat> := {17, 21, 34, 36, 52, 55, 57, 59, 71, 75, 83, 95}

  /** The grid positions a new game fills: knights, villagers and the king. */
  const StartIndices: set<nat> := KnightIndices + VillagerIndices + {Index(KingStart)}

  lemma KnightPositions(i: nat)
    requires i < Size * Size
    ensures CellAt(i) in KnightStarts <==> i in KnightIndices
  {
  }

  lemma VillagerPositions(i: nat)
    requires i < Size * Size
    ensures CellAt(i) in VillagerStarts <==> i in VillagerIndices
  {
  }

  /** A new game fills twenty cells and leaves the other eighty empty. */
  lemma StartIndicesSize()
    ensures |StartIndices| == 1 + |KnightStarts| + |VillagerStarts|
  {
    KnightIndicesSize();
    VillagerIndicesSize();
    IndicesDisjoint();
    DisjointUnionSize(KnightIndices, VillagerIndices);
    var kv := KnightIndices + VillagerIndices;
    KingIndexApart();
    DisjointUnionSize(kv, {Index(KingStart)});
  }

  /** The size of a union of two sets with nothing in common. */
  lemma DisjointUnionSize(a: set<nat>, b: set<nat>)
    requires a * b == {}
    ensures |a + b| == |a| + |b|
  {
  }

  lemma StartIndicesBound()
    ensures forall i :: i in StartIndices ==> i < Size * Size
  {
  }

  lemma KingIndexApart()
    ensures (KnightIndices + VillagerIndices) * {Index(KingStart)} == {}
  {
    assert Index(KingStart) == 99;
  }

  lemma KnightIndicesSize()
    ensures |KnightIndices| == 7
  {
  }

  lemma VillagerIndicesSize()
    ensures |VillagerIndices| == 12
  {
  }

  lemma IndicesDisjoint()
    ensures KnightIndices * VillagerIndices == {}
  {
  }

  /** Where a new game holds the king and the knights. */
  lemma InitialAt(placement: seq<string>, deck: seq<Card>, i: nat)
    requires i < Size * Size
    ensures var g := People(Initial(placement, deck));
      && (g[i] == Knight <==> i in KnightIndices)
      && (g[i] == King <==> i == Index(KingStart))
  {
    var c := CellAt(i);
    assert People(Initial(placement, deck))[i] == StartOccupant(c, placement);
    StartPieces(c, placement);
    KnightPositions(i);
  }

  /** With a name on every villager cell, a new game occupies exactly the
      starting positions. */
  lemma InitialOccupiedAt(placement: seq<string>, deck: seq<Card>, i: nat)
    requires i < Size * Size
    requires |placement| >= |VillagerStarts|
    ensures People(Initial(placement, deck))[i] != Empty <==> i in StartIndices
  {
    var c := CellAt(i);
    assert People(Initial(placement, deck))[i] == StartOccupant(c, placement);
    StartPieces(c, placement);
    KnightPositions(i);
    VillagerPositions(i);
  }

  /** Seven knights on a grid that holds them exactly on their starting
      positions. */
  lemma KnightCount(g: Grid)
    requires forall i :: 0 <= i < |g| ==> (g[i] == Knight <==> i in KnightIndices)
    ensures Count(g, Knight) == |KnightStarts|
  {
    KnightIndicesSize();
    CountPositions(g, Knight, KnightIndices);
  }

  /** Eighty empty cells on a grid that is occupied exactly on the starting
      positions. */
  lemma EmptyCount(g: Grid)
    requires forall i :: 0 <= i < |g| ==> (g[i] != Empty <==> i in StartIndices)
    ensures Count(g, Empty) == Size * Size - 1 - |KnightStarts| - |VillagerStarts|
  {
    StartIndicesSize();
    StartIndicesBound();
    CountComplement(g, Empty, StartIndices);
  }

  /** A new game has exactly one king on the board. */
  lemma InitialKing(placement: seq<string>, deck: seq<Card>)
    ensures Count(People(Initial(placement, deck)), King) == 1
  {
    var g := People(Initial(placement, deck));
    forall i | 0 <= i < |g|
      ensures g[i] == King <==> i in {Index(KingStart)}
    {
      InitialAt(placement, deck, i);
    }
    CountPositions(g, King, {Index(KingStart)});
  }

  /** A new game has exactly seven knights on the board. */
  lemma InitialKnights(placement: seq<string>, deck: seq<Card>)
    ensures Count(People(Initial(placement, deck)), Knight) == |KnightStarts|
  {
    var g := People(Initial(placement, deck));
    forall i | 0 <= i < |g|
      ensures g[i] == Knight <==> i in KnightIndices
    {
      InitialAt(placement, deck, i);
    }
    KnightCount(g);
  }

  /** With a name on every villager cell, a new game leaves eighty cells
      empty. */
  lemma InitialEmpty(placement: seq<string>, deck: seq<Card>)
    requires |placement| >= |VillagerStarts|
    ensures Count(People(Initial(placement, deck)), Empty) == Size * Size - 1 - |KnightStarts| - |VillagerStarts|
  {
    var g := People(Initial(placement, deck));
    forall i | 0 <= i < |g|
      ensures g[i] != Empty <==> i in StartIndices
    {
      InitialOccupiedAt(placement, deck, i);
    }
    EmptyCount(g);
  }

  /** A new game has exactly one king and seven knights on the board; when
      the shuffle names every villager cell, as the source's shuffle of all
      twelve names does, the twelve villagers stand on it too and the other
      eighty cells are empty. */
  lemma InitialPieces(placement: seq<string>, deck: seq<Card>)
    ensures Count(People(Initial(placement, deck)), King) == 1
    ensures Count(People(Initial(placement, deck)), Knight) == |KnightStarts|
    ensures |placement| >= |VillagerStarts| ==>
      Count(People(Initial(placement, deck)), Empty) == Size * Size - 1 - |KnightStarts| - |VillagerStarts|
  {
    InitialKing(placement, deck);
    InitialKnights(placement, deck);
    if |placement| >= |VillagerStarts| {
      InitialEmpty(placement, deck);
    }
  }

  /** The source's `isinitial`: the assassins have not been chosen yet. */
  predicate IsInitial(s: State) {
    s.hidden.assassins.None?
  }

  /** The source's `setassassins`: fixes the hidden set and nothing else. */
  function SetAssassins(s: State, names: seq<string>): (r: State)
    ensures !IsInitial(r)
    ensures forall n :: n in r.hidden.assassins.value <==> n in names
    ensures r.visible == s.visible && r.hidden.cards == s.hidden.cards
  {
    s.(hidden := s.hidden.(assassins := Some(set n | n in names)))
  }

  /** The first name of `names` that is not a villager's, if any. */
  function FirstUnknown(names: seq<string>): (r: Option<string>)
    ensures r.None? <==> forall i :: 0 <= i < |names| ==> names[i] in Population
    ensures r.Some? ==> r.value in names && r.value !in Population
    ensures r.Some? ==> exists i :: 0 <= i < |names| && names[i] == r.value && forall j :: 0 <= j < i ==> names[j] in Population
  {
    if |names| == 0 then None
    else if names[0] !in Population then Some(names[0])
    else
      var r := FirstUnknown(names[1..]);
      if r.Some? then
        var i :| 0 <= i < |names| - 1 && names[1..][i] == r.value && forall j :: 0 <= j < i ==> names[1..][j] in Population;
        assert names[i + 1] == r.value;
        r
      else r
  }

  /** The server's one-time set-up move: every name must be a villager's
      (neither their number nor their distinctness is checked); the hidden
      set is fixed and player 0's empty turn draws the first card. */
  function ChooseAssassins(s: State, names: seq<string>): (r: Outcome)
    ensures (exists i :: 0 <= i < |names| && names[i] !in Population) ==>
      && r.state == s && r.applied == 0
      && r.failure.Some? && r.failure.value.UnknownVillager?
      && exists i :: 0 <= i < |names| && names[i] == r.failure.value.name && names[i] !in Population
           && forall j :: 0 <= j < i ==> names[j] in Population
    ensures (forall i :: 0 <= i < |names| ==> names[i] in Population) ==>
      && !IsInitial(r.state)
      && r.state.visible.(card := s.visible.card) == s.visible
      && (forall n :: n in r.state.hidden.assassins.value <==> n in names)
      && r.applied == 0
      && (|s.hidden.cards| > 0 <==> r.failure.None?)
      && (r.failure.Some? ==>
           r.failure.value == NoCardLeft && r.state.visible.card == s.visible.card && r.state.hidden.cards == s.hidden.cards)
      && (r.failure.None? ==>
           r.state.visible.card.Some? && r.state.hidden.cards + [r.state.visible.card.value] == s.hidden.cards)
  {
    match FirstUnknown(names)
    case Some(n) => Outcome(s, 0, Some(UnknownVillager(n)))
    case None => ApplyTurn(SetAssassins(s, names), [], 0)
  }

  /** The server routes moves to the set-up until it succeeds: a new game is
      initial, and it stays initial exactly when a name is refused. */
  lemma SetUpRouting(placement: seq<string>, deck: seq<Card>, names: seq<string>)
    ensures IsInitial(Initial(placement, deck))
    ensures IsInitial(ChooseAssassins(Initial(placement, deck), names).state) <==>
      exists i :: 0 <= i < |names| && names[i] !in Population
  {
  }

  /** With the server's deck, a shuffle of the fifteen cards, a valid choice
      of names always succeeds: the first card drawn is one of the cards and
      fourteen remain. */
  lemma ServerStart(placement: seq<string>, deck: seq<Card>, names: seq<string>)
    requires multiset(deck) == multiset(Cards)
    requires forall i :: 0 <= i < |names| ==> names[i] in Population
    ensures var r := ChooseAssassins(Initial(placement, deck), names);
      && r.failure.None?
      && r.state.visible.card.Some? && r.state.visible.card.value in Cards
      && |r.state.hidden.cards| == |Cards| - 1 == 14
  {
    assert |deck| == |multiset(deck)| == |multiset(Cards)| == |Cards|;
    var r := ChooseAssassins(Initial(placement, deck), names);
    var card := r.state.visible.card.value;
    assert deck[|deck| - 1] == card;
    assert card in multiset(deck);
  }
}
