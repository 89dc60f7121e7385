# King & Assassins rule engine, modelled in Dafny

This project models the rule engine of the two-player board game King &
Assassins (`KingAndAssassinsState` and the set-up validation of
`KingAndAssassinsServer` in `CharlesCastermans/kingandassassins.py`) and proves
properties of it.

The game is played on a fixed 10x10 board of roof and ground cells. Player 1
moves the king and seven knights. The rules let player 1 win by walking the
king out through a castle gate, but in this code the king can never reach a
gate (see `Invariants.CastleNeverReached`). Player 0 moves twelve villagers.
Three of them are secretly assassins, and player 0 wins by killing the king
or by outlasting the card deck. Player 1 can also win by arresting or killing
all three assassins.

The model is purely functional. A state is an immutable value, and each rule
is a function returning either the new state or the reason for refusal.

| file | module | contents |
|---|---|---|
| `wrappers.dfy` | `Wrappers` | `Option`, `Result` |
| `board.dfy` | `Board` | cells, directions and `_getcoord`, terrain `BOARD`, castle gates, starting coordinates |
| `occupancy.dfy` | `Occupancy` | occupants, `POPULATION`, the grid, `_nextfree`, the push shift |
| `game.dfy` | `Game` | `CARDS`, the state, the resolver `update` action by action, turns and the card draw, `winner`, the initial state, `isinitial`, `setassassins`, `_setassassins` |
| `invariants.dfy` | `Invariants` | what actions, turns and whole games preserve |
| `aswritten.dfy` | `AsWritten` | the defective source lines as written, next to the intended behaviour |

Modelling choices:

- **Grid layout.** The grid is a row-major sequence of 100 occupants. Cell
  `(x, y)` is row `x` and column `y`, as in `people[x][y]`.
- **Occupants.** `Empty | King | Knight | Villager(name) | Assassin` replaces
  the source's strings and `None`. `Label` maps an occupant back to the source's
  string, so the membership test of `reveal` is modelled as written.
- **Randomness as parameters.** The villager shuffle and the deck shuffle are
  parameters of `Game.Initial`. The i-th villager coordinate receives the i-th
  name, as `zip` pairs them. The source's villager coordinates form a set,
  whose iteration order is fixed but unspecified. The model uses the listing
  order instead. Because the names arrive shuffled, every assignment of names
  to cells remains reachable.
- **Card draw.** `list.pop()` takes the last card, so the deck's last element
  is drawn next.
- **Errors.** `InvalidMoveException` becomes a `Reason`. `Malformed` stands for
  the Python runtime errors that `applymove` reports as an invalid move (lines
  299-301). An example is the `TypeError` raised by the one-argument call to
  `_nextfree` at line 148 (`AsWritten.MoveAsWritten`). A `reveal` while no
  hidden set is chosen also gives `Malformed`, but only on a direct `update`
  call: the server sends every move to the set-up until the names are
  accepted (`Game.SetUpRouting`).
- **Off-board cells.** A coordinate outside 0..9, as origin or target, is
  refused with `OffBoard`, at the point where the source indexes that cell. In
  the source, index 10 raises and a negative index silently wraps around.
- **Partial turns.** A turn commits each action as it goes. The first refused
  action stops the turn, and the actions before it stay applied, as in the
  source's loop. `Game.Replay` is the all-or-nothing alternative.
  `Game.CommitMatchesReplay` proves that the two agree on every accepted batch.
- **Set-up validation follows the code.** The game's rules call for exactly
  three assassins. The code checks only that each name is a villager's,
  and the model follows the code: no count check and no duplicate check.
- **Neutralised count uses `==`.** The winner compares the number of
  neutralised assassins with `==`, not `>=`, and the model does the same.

## Model

| member | source | states |
|---|---|---|
| Board.Step | CharlesCastermans/kingandassassins.py:94-99 | whatever the direction, a step reaches one of the four orthogonally adjacent cells |
| Board.StepsDistinct | CharlesCastermans/kingandassassins.py:94-99 | the four direction vectors are different: two directions reach the same cell from a cell only if they are the same direction |
| Board.StepInverse | CharlesCastermans/kingandassassins.py:153 | stepping in the opposite direction of the map at line 153 undoes a step, and the map is an involution |
| Board.RayBound | CharlesCastermans/kingandassassins.py:108 | a walk that starts on the board and is still on it after k steps has k < 10, and every cell in between is on the board |
| Board.GatesLeadOntoRoofs | CharlesCastermans/kingandassassins.py:79 | the cells beyond the two gates are (1,2) and (4,0); both are on the board and both are roof cells |
| Occupancy.LabelInPopulation | CharlesCastermans/kingandassassins.py:110 | an occupant's string is in POPULATION exactly when it is an unrevealed villager |
| Occupancy.Swap | CharlesCastermans/kingandassassins.py:145 | the two cells trade occupants, no other cell changes, and the multiset of occupants is unchanged |
| Occupancy.ScanSound | CharlesCastermans/kingandassassins.py:108-117 | when the walk returns a cell, every cell crossed holds a POPULATION name, none after the first is a roof, and the returned cell is an empty cell on the board |
| Occupancy.ScanComplete | CharlesCastermans/kingandassassins.py:108-117 | whenever such a chain of villagers ends in a free cell, the walk returns exactly that cell |
| Occupancy.NextFreeIff | CharlesCastermans/kingandassassins.py:104-118 | `_nextfree` returns a cell if and only if a push chain exists, and then it returns the chain's free end; it returns None on a non-villager, on a roof after the first cell, or at the board's edge |
| Occupancy.ShiftBackAt | CharlesCastermans/kingandassassins.py:152-155 | after the copy loop, each cell 1..j of the walk holds what the cell behind it held, and every other cell is untouched |
| Occupancy.ShiftBackEffect | CharlesCastermans/kingandassassins.py:152-155 | the same for all cells at once: cells shifted by one, start kept, outside cells untouched |
| Occupancy.ShiftBackMultiset | CharlesCastermans/kingandassassins.py:152-155 | the copy loop loses the far end's occupant and doubles the start's occupant |
| Occupancy.PushEffect | CharlesCastermans/kingandassassins.py:146-155 | a push empties the origin, puts the knight on the first cell, shifts each villager one cell toward the free cell, touches nothing else, and keeps the multiset of occupants |
| Game.MoveAction | CharlesCastermans/kingandassassins.py:127-155 | a move is accepted iff the origin is occupied, only a knight enters an occupied cell and only when a push chain starts there, the king avoids roofs, and each side moves only its own pieces; an accepted move swaps origin and empty destination or performs the push, and only the grid changes |
| Game.ArrestAction | CharlesCastermans/kingandassassins.py:157-169 | accepted iff player 1's knight faces an unrevealed villager; that name is appended to the arrested list, and only the target cell is emptied |
| Game.KillAction | CharlesCastermans/kingandassassins.py:171-189 | accepted iff assassin kills knight for player 0, or knight kills assassin for player 1; the matching counter rises by exactly one, and only the target cell is emptied |
| Game.Wound | CharlesCastermans/kingandassassins.py:202 | a wound never leaves the king healthy; it makes a living king exactly one level worse, and a dead king stays dead |
| Game.AttackAction | CharlesCastermans/kingandassassins.py:191-202 | accepted iff player 0's assassin faces the king; only the king's health changes, to injured or dead |
| Game.RevealAction | CharlesCastermans/kingandassassins.py:204-211 | accepted iff player 0 names a cell whose occupant's string is in the hidden set; only that cell changes, and it becomes an assassin |
| Game.RevealOnlyHiddenVillagers | CharlesCastermans/kingandassassins.py:204-211 | with hidden names drawn from POPULATION, reveal succeeds exactly on an unrevealed villager whose name is hidden |
| Game.ApplyAction | CharlesCastermans/kingandassassins.py:124-211 | no action touches the hidden part or the current card; an unknown action kind is a no-op |
| Game.ApplyActions | CharlesCastermans/kingandassassins.py:124-211 | the actions are applied in order; the state reached is the all-or-nothing replay of the committed prefix, and a failure names the first refused action |
| Game.ReplayKeepsHidden | CharlesCastermans/kingandassassins.py:124-211 | a batch never changes the hidden assassins, the deck or the current card |
| Game.CommitMatchesReplay | CharlesCastermans/kingandassassins.py:124-211 | committing action by action and validating the whole batch first agree exactly on the batches that are accepted |
| Game.DrawCard | CharlesCastermans/kingandassassins.py:213-214 | drawing fails only on an empty deck; otherwise the new current card put back on the deck gives the old deck |
| Game.ApplyTurn | CharlesCastermans/kingandassassins.py:120-214 | a turn commits exactly what the in-order batch commits, and a refused turn keeps that committed state and reports the batch's reason; the turn is accepted iff every action is and, for player 0, a card is left, and a player-0 turn whose actions all pass on an empty deck fails with `NoCardLeft`; an accepted turn of player 0 pops the deck's last card and makes it current; otherwise deck and card stay; the hidden set never changes |
| Game.GateReached | CharlesCastermans/kingandassassins.py:223-226 | the gate loop finds the king iff the king stands beyond some gate |
| Game.Winner | CharlesCastermans/kingandassassins.py:219-236 | the king beyond a gate wins for player 1 before anything else; then an empty deck, then a dead king, win for player 0; then exactly three neutralised assassins win for player 1; otherwise -1 |
| Game.Initial | CharlesCastermans/kingandassassins.py:61-88 | the start: the king, knights and named villagers on their fixed cells, no assassins chosen, no card, a healthy king, nobody arrested or killed |
| Game.InitialPieces | CharlesCastermans/kingandassassins.py:61-74 | a new game has exactly one king and exactly seven knights on the board; when the shuffle names every villager cell, the other eighty cells are empty |
| Game.SetUpRouting | CharlesCastermans/kingandassassins.py:238-239 | `isinitial` holds for a new game, and it still holds after the set-up move exactly when a name was refused, so the server keeps routing moves to the set-up until every name is accepted |
| Game.SetAssassins | CharlesCastermans/kingandassassins.py:238-242 | after `setassassins` the state is no longer initial, the hidden set holds exactly the given names, and nothing else changes |
| Game.FirstUnknown | CharlesCastermans/kingandassassins.py:281-285 | finds a name outside POPULATION iff there is one, and returns the first such name: every name before it is a villager's |
| Game.ChooseAssassins | CharlesCastermans/kingandassassins.py:275-287 | an unknown name refuses set-up, names the first unknown villager, and leaves the state as it was; otherwise the hidden set is fixed, the first card is drawn, failing only on an empty deck. On that failure the card and the deck stay as they were and no action counts as applied. Nothing else visible changes |
| Game.ServerStart | CharlesCastermans/kingandassassins.py:270-273 | with the server's deck, a shuffle of the fifteen CARDS, a valid choice of names always succeeds; the first card drawn is one of CARDS, and fourteen remain |
| Invariants.PushSparesKing | CharlesCastermans/kingandassassins.py:146-155 | a push never puts the king on a cell |
| Invariants.MoveInvariants | CharlesCastermans/kingandassassins.py:127-155 | an accepted move keeps the king on ground and conserves every piece |
| Invariants.ArrestInvariants | CharlesCastermans/kingandassassins.py:157-169 | an arrest moves one villager from the board into the arrested list |
| Invariants.KillInvariants | CharlesCastermans/kingandassassins.py:171-189 | a kill moves one knight or one assassin from the board into its counter |
| Invariants.RevealInvariants | CharlesCastermans/kingandassassins.py:204-211 | a reveal with valid hidden names relabels a villager and never a king or a knight |
| Invariants.ActionInvariants | CharlesCastermans/kingandassassins.py:124-211 | every accepted action keeps the king on ground, conserves the pieces, and never lowers a counter, shortens the arrested list, heals the king or changes the hidden set |
| Invariants.ReplayInvariants | CharlesCastermans/kingandassassins.py:124-211 | the same holds over a whole batch |
| Invariants.TurnInvariants | CharlesCastermans/kingandassassins.py:120-214 | the same holds for the state a turn leaves behind, whether or not the turn was refused part-way |
| Invariants.PlayInvariants | CharlesCastermans/kingandassassins.py:120-214 | the same holds across any sequence of turns |
| Invariants.InitialSound | CharlesCastermans/kingandassassins.py:63-64 | the starting state satisfies the invariant: the king stands on ground at (9,9), and no hidden set has been chosen yet |
| Invariants.NoKingAtGate | CharlesCastermans/kingandassassins.py:223-226 | a king on ground is never beyond a gate |
| Invariants.CastleNeverReached | CharlesCastermans/kingandassassins.py:219-236 | in every game, whatever the shuffles, names and turns, the castle branch of `winner` is never taken, player 1 wins only with three neutralised assassins, exactly one king stays on the board, and each of the seven knights is on the board or counted as killed. When every villager cell received a name, each of the twelve villagers is on the board, arrested, or killed as an assassin |
| AsWritten.AssassinNeverMovesAsWritten | CharlesCastermans/kingandassassins.py:139 | as written, no assassin can ever be moved |
| AsWritten.AssassinMovesForPlayer0 | CharlesCastermans/kingandassassins.py:139 | as intended, player 0 moves a revealed assassin onto a free cell |
| AsWritten.PushNeverWorksAsWritten | CharlesCastermans/kingandassassins.py:148 | as written, every knight move onto an occupied cell fails |
| AsWritten.KnightPushesChain | CharlesCastermans/kingandassassins.py:146-155 | as intended, a knight of player 1 facing a push chain performs exactly that push |
| AsWritten.PushWalkStallsAsWritten | CharlesCastermans/kingandassassins.py:153 | as written, an east or west push cursor is stuck on one cell after one step |
| AsWritten.PushDuplicatesKnightAsWritten | CharlesCastermans/kingandassassins.py:152-155 | as written, the knight stays on its origin as well, and the board gains a knight |
| AsWritten.KillMissesVictimAsWritten | CharlesCastermans/kingandassassins.py:182-187 | as written, a victim off the diagonal survives and the counter still rises, while cell (row, row) is emptied |

## Left out

- Socket, JSON and session plumbing is not modelled: `applymove`'s decoding and exception translation, `buffersize`, the launcher and the `print` of each move. They are I/O with no rule content.
- The `lib.game` base classes are not part of this model. Their `InvalidMoveException` is the `Reason` datatype, and the turn order they impose is the `player` argument.
- The `lastopponentmove` field is not modelled. It is maintained by the framework, and the engine never reads or writes it.
- The shuffles are not modelled. The villager shuffle and the deck shuffle are parameters of `Game.Initial`, because they are randomness.
- The model assumes an interpreter on which `random.sample` accepts a set, as the villager shuffle (line 73) requires. Recent Python versions reject a set there. The deck shuffle (line 272) samples the tuple CARDS and is unaffected.
- `prettyprint` is not modelled. It is text rendering only.
- The client AI is not modelled. It is a non-normative move-selection heuristic.
- Direction and coordinate parsing are not modelled: the string direction lookup and the `int(...)` conversions. Actions arrive already typed, so an unknown direction string cannot occur.
- The shape checks of `_setassassins` are not modelled: the `assassins` key, the list type and the string type. They concern the JSON encoding, which typed input already guarantees.
- Game.Winner: with no hidden set chosen, the source raises at the neutralisation check. The model treats the hidden set as empty there. The server chooses the set before any turn, so this case does not arise in play.
- Invariants.ActionInvariants: a single action conserves the piece counts relative to the state it starts from. The absolute counts of one king, seven knights and twelve villagers follow for whole games, in Invariants.CastleNeverReached.

## Findings

| source | as written | input that shows it | evidently intended | confidence | as-written member | corrected member |
|---|---|---|---|---|---|---|
| CharlesCastermans/kingandassassins.py:139 | `p in {'assassin'} or p in POPULATION and player != 0` groups as `A or (B and C)` | player 0 moves a revealed assassin onto a free cell, and the move is refused | refuse villagers and assassins only when `player != 0` | high, not executed | AsWritten.AssassinNeverMovesAsWritten | AsWritten.AssassinMovesForPlayer0 |
| CharlesCastermans/kingandassassins.py:148 | `self._nextfree((x, y, d))` passes one tuple to a three-argument method, which raises `TypeError` | a knight at (3,3) of player 1 moves E onto a villager at (3,4) with (3,5) free, and the move is refused | `self._nextfree(x, y, d)` | high, not executed | AsWritten.PushNeverWorksAsWritten | AsWritten.KnightPushesChain |
| CharlesCastermans/kingandassassins.py:153 | the predecessor is computed from `(nfx, nfx, ...)` | masked as written, because line 148 raises first. With line 148 corrected, the same push sends the cursor from (3,5) to (3,2), where it stays, so the loop never ends | `(nfx, nfy, ...)` | high, not executed | AsWritten.PushWalkStallsAsWritten | Occupancy.ShiftBackEffect |
| CharlesCastermans/kingandassassins.py:152-155 | the copy loop never empties the origin `(x, y)` | masked as written, because lines 148 and 153 fail first. With both corrected, the same push leaves knights on both (3,3) and (3,4) | empty the origin after the loop | high, not executed | AsWritten.PushDuplicatesKnightAsWritten | Occupancy.PushEffect |
| CharlesCastermans/kingandassassins.py:182-187 | `people[tx][tx] = None` | an assassin at (3,3) kills E the knight at (3,4): (3,3), the assassin itself, is emptied and the knight stays | `people[tx][ty] = None` | high, not executed | AsWritten.KillMissesVictimAsWritten | Game.KillAction |
