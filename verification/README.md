# Neon Ludo Bet: rules engine and bet ledger in Dafny

This project models the rules core of a four-player Ludo game that has a side bet. The source keeps this logic inside one React component. Here it is pulled out as pure transition functions over immutable records:

- **Types** (`types.dfy`): the records of `types.ts`.
  - The four colours.
  - A piece. Its position is a tagged sum type `Base | Track(cell) | Home(step) | Finished` in place of the source's integers -1, 0..51, 100+k and 999. `Encode`/`Decode` connect the two.
  - A player's record, the game state, the bet and the wallet.
  - The colour-to-player table is a four-field datatype, so it is total by construction.
- **Constants** (`constants.dfy`): the per-colour entry cells 0, 13, 26 and 39.
- **Rules** (`rules.dfy`): the per-piece rules.
  - Turn rotation (`getNextPlayer`).
  - Move legality (`canMovePiece`).
  - The single-piece movement rule from the body of `movePiece`.
  - Captures on a cell, and the win check (`checkWinCondition`).
  - The reference definition `PositionAfter`: where a piece of a colour stands after walking n steps. A piece is `Consistent` when its position agrees with it.
- **Engine** (`engine.dfy`): the state updates.
  - `rollDice`, with the die value as an input in 1..6.
  - `handleTurnEnd`, and the auto-pass effect guard.
  - The `movePiece` updater: moving, captures, the win, the extra turn on a six, and the turn log capped at five entries.
- **GameInvariant** (`invariant.dfy`): the invariant every reachable game state keeps, and what one click does to every piece.
- **Ledger** (`ledger.dfy`): `placeBet` and `handleGameEnd`, with the 4× payout.
- **Session** (`session.dfy`): one game plus one wallet. The move that wins settles the bet. Any sequence of bets, rolls, passes and clicks from the initial state keeps the invariant.

Behaviour of the code that the model keeps as written:

- A move may end with `stepsTaken + roll == 57`. That yields home step 6, the integer position 106, which is outside the documented 100..105. A piece there can never move or be captured again, so its colour can never win (`ReachesDeadEnd`, `DeadEndIsStuck`, `DeadEndIsPermanent`).
- Home step 5 (position 105) is never reached. The sixth home step is the finish itself (`ConsistentPositions`).
- `placeBet` checks only the balance. A second bet replaces the first, and the first stake is lost (`SecondBetForfeitsFirst`).
- `hasFinished` is never set, not even for the winner (part of `Inv`).
- The roll is refused only while rolling, while a move is awaited, or after a win. A player whose roll had no legal move may therefore roll again before the automatic pass fires (`RerollBeforePass`).
- A refused roll, pass or click returns the unchanged state, with no reason code.
- A roll adds nothing to the turn log; only moves and the win do.
- Settlement reports its outcome only through a browser alert, which is not modelled.

## Model

| member | source | states |
|---|---|---|
| Types.Ordinal | types.ts:1-6 | there are exactly four colours, each at its own place in the declaration order, which is also the turn order that `getNextPlayer` looks colours up in |
| Types.Decode | types.ts:11 | an integer decodes to a position exactly when it is -1, 0..51, 100..998 or 999, and re-encoding the result gives the integer back |
| Types.DecodeEncode | types.ts:11 | decoding the encoding of a position gives the position back (every home step below 899) |
| Types.DocumentedEncodings | types.ts:11 | the documented positions are exactly those encoded as -1, 0..51, 100..105 or 999 |
| Constants.StartOffset | constants.ts:14-19 | a colour's entry cell is a track cell, 13 times the colour's place in the order |
| Constants.StartOffsetsDistinct | constants.ts:14-19 | different colours enter the track on different cells |
| Constants.StartOffsetsQuarterApart | constants.ts:14-19 | in rotation order each entry cell is the previous one plus 13, modulo 52 |
| Rules.NextPlayer | App.tsx:37-41 | the next colour is never the current one and sits one place further round the four-entry rotation |
| Rules.AfterIndex | App.tsx:37-41 | k turns on, a colour's place in the rotation has moved k places modulo 4 |
| Rules.RotationIsFourCycle | App.tsx:37-41 | four turns bring the rotation back to the same colour, and every colour is reached within four turns |
| Rules.AllFinished | App.tsx:43-45 | the win test: every piece of the side is finished |
| Rules.WinConditionEncoded | App.tsx:43-45 | for consistent pieces, "every position is the integer 999" holds exactly when every piece is finished |
| Rules.CanMove | App.tsx:99-112 | a base piece may move iff the roll is 6; a finished piece never; a piece on the track or in the home stretch iff its steps plus the roll are at most 57 |
| Rules.Advance | App.tsx:127-161 | a moved piece keeps its id and colour, and a piece not in base has its steps increased by exactly the roll |
| Rules.AdvanceFollowsPath | App.tsx:127-161 | a legal move out of base lands on the colour's entry cell with 0 steps; any other legal move lands where n + roll steps from the entry cell lead, with wrap-around at 52, home entry after 50 and the finish at 56 |
| Rules.AdvanceConsistent | App.tsx:127-161 | legal moves keep a piece's position in agreement with its step counter |
| Rules.AdvanceMonotone | App.tsx:128-134 | a legal move never decreases a piece's step counter |
| Rules.ConsistentPositions | App.tsx:146-155 | a consistent piece is never on home step 5; its position is outside the documented range only on home step 6, and then it has 57 steps |
| Rules.ReachesDeadEnd | App.tsx:110-155 | a legal move ends on home step 6 exactly when an on-board piece reaches 57 steps |
| Rules.DeadEndIsStuck | App.tsx:110 | a consistent piece on home step 6 can never move, whatever the roll |
| Rules.PathExamples | App.tsx:127-161 | cell 10 with 10 steps plus 4 goes to cell 14; 48 steps plus 5 goes to home step 2; 50 plus 6 finishes; 51 plus 6 is legal and goes to home step 6 |
| Rules.MoveMatching | App.tsx:124-125 | a piece with the clicked id advances; every other piece is returned unchanged |
| Rules.FindById | App.tsx:166 | the lookup finds the first piece carrying the id, or reports that none does |
| Rules.CaptureOn | App.tsx:175-181 | a piece on the landed cell goes back to base with 0 steps; every other piece is untouched |
| Rules.CountOn | App.tsx:175-181 | the number of pieces on a cell equals the number of times that track cell occurs among the pieces' positions; it is zero exactly when no piece stands there |
| Rules.CaptureClearsCell | App.tsx:175-181 | after a capture no piece of that colour is left on the cell, and no piece that was elsewhere has changed |
| Rules.CaptureKeepsUnfinished | App.tsx:175-182 | a capture never makes a side all-finished |
| Engine.RollDice | App.tsx:47-74 | a roll is a no-op while rolling, while awaiting a move, or after a win; otherwise the die shows the roll, and a move is awaited iff some piece of the current player may move; pieces, turn, winner and log are unchanged |
| Engine.StartRoll | App.tsx:48-50 | a refused roll changes nothing; an accepted one sets the die spinning, after which further rolls are refused; pieces, turn, die, awaited move, winner and log are unchanged |
| Engine.ResolveRoll | App.tsx:53-66 | the die stops on the roll, and a move is awaited iff some piece of the current player may move that far; pieces, turn, winner and log are unchanged |
| Engine.TurnEnd | App.tsx:87-97 | ending a turn hands it to the next colour, clears the die and awaits no move |
| Engine.AutoPass | App.tsx:76-85 | the pass fires only when a die value shows with no move awaited, no roll in progress and no winner; it advances the turn and clears the die |
| Engine.AutoPassIdempotent | App.tsx:78 | a pass is never due right after a pass |
| Engine.LandedCell | App.tsx:166-170 | a capture cell is reported exactly when the first piece carrying the clicked id stands on a track cell, and then it is that piece's cell |
| Engine.CaptureEnemies | App.tsx:170-185 | the mover's record is unchanged; each other colour's pieces are those of the capture on the landed cell |
| Engine.CapturedColorsCount | App.tsx:172-184 | the capture record names each other colour once per piece of it on the cell, and never names the mover |
| Engine.CapturedColorsAll | App.tsx:170-184 | over all four colours, the capture record names each colour other than the mover once per piece of it on the cell, and the mover never |
| Engine.MovePlayers | App.tsx:164-185 | after an accepted move the mover's record holds the moved pieces, and every other colour has lost exactly its pieces on the landed track cell, or nothing when the moved piece is off the track |
| Engine.MoveEntry | App.tsx:167-191 | the log entry is the win exactly when the mover's pieces are all finished; otherwise it names the mover and the roll, with no captures when the moved piece is off the track |
| Engine.MovePiece | App.tsx:114-212 | a move is a no-op unless a move is awaited with a die value, for a piece of the current player that may move; otherwise it clears the die and the awaited move; the winner becomes the mover iff all the mover's pieces are finished; the same player goes again iff the roll was 6 and nobody won; the log gains one entry at the front and keeps at most 5 |
| Engine.MoveLogsCaptures | App.tsx:167-209 | the log entry of a non-winning move names the mover and the roll, and records each capture |
| Engine.Click | components/Board3D.tsx:103-110 | a click changes nothing unless a move is awaited with a die value and the clicked colour has a piece with that id; otherwise it is the move of the first such piece |
| GameInvariant.InitialInv | App.tsx:14-27 | the initial state keeps the invariant |
| GameInvariant.RollInv | App.tsx:47-74 | starting and finishing a roll keep the invariant |
| GameInvariant.AutoPassInv | App.tsx:87-97 | the automatic pass keeps the invariant |
| GameInvariant.ClickTargetSeated | App.tsx:114-116 | in a reachable state a click refers to the piece whose index is its id, of the clicked colour |
| GameInvariant.ClickMoves | App.tsx:124-170 | an accepted click is by the current player; it advances the clicked piece, leaves the other one alone, and captures on the clicked piece's new cell only when that is a track cell |
| GameInvariant.CaptureOnSeated | App.tsx:175-182 | a capture keeps a colour's record well formed |
| GameInvariant.ClickInv | App.tsx:114-212 | a click keeps the invariant: consistent pieces, `hasFinished` unset, 1..5 log entries, a move awaited only with a legal move, and the winner the one colour whose pieces are all finished |
| GameInvariant.ClickKeepsPieces | App.tsx:124-185 | every colour keeps its two pieces through a click |
| GameInvariant.RollingIsExclusive | App.tsx:48-50 | while the die spins, a second roll, the pass and every click are refused |
| GameInvariant.TerminalAfterWin | App.tsx:48-115 | once there is a winner, no roll, pass or click changes the state |
| GameInvariant.RerollBeforePass | App.tsx:48 | when the pass is due, a roll is still accepted and keeps the same player on turn |
| GameInvariant.BaseExitOnSix | App.tsx:100-135 | a piece leaves its base only on a six rolled by its own colour, and lands on its entry cell with 0 steps |
| GameInvariant.ClickCaptures | App.tsx:164-185 | an opposing piece goes back to base iff it stood on the track cell the moved piece reached; otherwise it is unchanged |
| GameInvariant.ClickLogsCaptures | App.tsx:167-177 | a non-winning click's log entry records one colour per captured piece |
| GameInvariant.StepsMonotone | App.tsx:128-178 | a step counter never decreases, unless a capture resets it to 0 |
| GameInvariant.DeadEndIsPermanent | App.tsx:110-170 | a piece on home step 6 stays there through every click, roll and pass |
| Ledger.PlaceBet | App.tsx:228-235 | a bet above the balance changes nothing; otherwise the bet is recorded and the balance plus the new stake equals the old balance |
| Ledger.Settle | App.tsx:214-226 | settling clears the bet and pays 4 times the stake iff the bet was on the winner; without a bet nothing changes |
| Ledger.BetThenSettle | App.tsx:214-233 | from a wallet with no bet, betting and settling nets 3 times the stake on a win and loses the stake otherwise |
| Ledger.SettleIdempotent | App.tsx:214-226 | settling a second time changes nothing |
| Ledger.SecondBetForfeitsFirst | App.tsx:228-233 | an accepted second bet replaces the first: balance plus stake drops by the earlier stake |
| Ledger.SolventPreserved | App.tsx:214-233 | with non-negative stakes, betting and settling keep the balance and the stake non-negative |
| Ledger.SettlementExamples | App.tsx:9-12 | from the initial 1000, a 100 bet on red ends at 1300 if red wins and 900 if green wins |
| Session.ClickApp | App.tsx:187-194 | a click moves the game as the engine does and either leaves the wallet alone or settles it against the mover |
| Session.SettlesOnWin | App.tsx:187-194 | the wallet changes on a click exactly when that click produces the winner, and then it is settled against that winner |
| Session.NoSecondSettlement | App.tsx:188-194 | after a win, rolls, passes and clicks change nothing, so the bet is settled at most once |
| Session.StepInv | App.tsx:114-235 | every action keeps the game invariant and a solvent wallet |
| Session.RunInv | App.tsx:114-235 | any sequence of actions keeps the invariant |
| Session.ReachableInv | App.tsx:9-27 | every state reachable from the initial game and wallet keeps the invariant |

## Left out

- Rendering. `components/Board3D.tsx`, `components/Dice3D.tsx` and the JSX of `App.tsx` are not modelled. That covers the betting dialog, its open flag and the roll button's disabled state. Nothing in the model is gated on the dialog.
- Float geometry. `getMainPathCoords`, `getHomePathCoords`, `getBasePosition` and `TILE_SIZE` are visual layout only. `PLAYER_COLORS` is display only.
- The commentary service (`services/geminiService.ts`). It is a network call whose result only feeds a display string.
- Authentication and seeding (`src/supabaseClient.ts`, `scripts/seedUsers.js`). These are I/O.
- The `setTimeout` delays and the effect's timer cancellation. A roll is modelled as one step, `RollDice`. `RollingIsExclusive` shows that nothing else can change the state while the die spins.
- `Math.random`. The die value is an input of type `Die` (1..6).
- The `alert` calls, and the text of the log messages. A log entry is a `LogEntry` value that keeps what the message reports: mover, roll, captured colours, or the win.
- Stale closures in `movePiece` and `handleGameEnd`. Both read the current state, as in a sequential run.
- `canMovePiece`'s third parameter. The source never reads it.
- Engine.MovePiece: the clicked piece is an input value, as in the source. `Engine.Click` resolves a click to the state's own copy of the piece. The invariant lemmas are stated for `Click`.
- Types.DecodeEncode: a home step of 899 or more would encode as 999, the finished marker. The model keeps these two distinct. They need over 900 steps, and every reachable piece has at most 57.
- Ledger.PlaceBet: JavaScript numbers are doubles; the model uses unbounded integers. Session actions bet a natural amount, while the dialog always bets 100. With a negative stake the payout could drive the balance negative.
