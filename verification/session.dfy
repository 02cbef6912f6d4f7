/** The application: one game and one wallet, where the move that wins the
    game settles the bet. */
module Session {
  import opened Types
  import opened Rules
  import opened Engine
  import opened GameInvariant
  import opened Ledger

  datatype App = App(game: GameState, wallet: Wallet)

  const InitialApp: App := App(Initial, InitialWallet)

  /** What can happen next: a bet, a roll (the die value is an input), the
      automatic pass, or a click on a piece. */
  datatype Action = PlaceBetOn(color: Color, amount: nat) | Roll(value: Die) | Pass | ClickOn(color: Color, id: nat)

  /** A click; when the move wins, the bet is settled against the mover. */
  function ClickApp(a: App, c: Color, id: nat): (r: App)
    ensures r.game == Click(a.game, c, id)
    ensures r.wallet == a.wallet || r.wallet == Settle(a.wallet, a.game.currentPlayer)
  {
    match ClickTarget(a.game, c, id)
    case None => a
    case Some(t) =>
      App(MovePiece(a.game, t), if WinningMove(a.game, t) then Settle(a.wallet, a.game.currentPlayer) else a.wallet)
  }

  function Step(a: App, act: Action): App
  {
    match act
    case PlaceBetOn(c, amount) => a.(wallet := PlaceBet(a.wallet, c, amount))
    case Roll(v) => a.(game := RollDice(a.game, v))
    case Pass => a.(game := AutoPass(a.game))
    case ClickOn(c, id) => ClickApp(a, c, id)
  }

  /** The application after the actions `acts`, in order. */
  function Run(a: App, acts: seq<Action>): App
    decreases |acts|
  {
    if acts == [] then a else Run(Step(a, acts[0]), acts[1..])
  }

  predicate AppInv(a: App)
  {
    Inv(a.game) && Solvent(a.wallet)
  }

  /** The wallet changes on a click exactly when that click produces the
      winner, and then it is settled against the winner. */
  lemma {:induction false} SettlesOnWin(a: App, c: Color, id: nat)
    requires Inv(a.game)
    ensures var r := ClickApp(a, c, id);
            && (r.game.winner != a.game.winner ==>
                  a.game.winner.None? && r.game.winner.Some? && r.wallet == Settle(a.wallet, r.game.winner.value))
            && (r.game.winner == a.game.winner ==> r.wallet == a.wallet)
  {
    match ClickTarget(a.game, c, id)
    case None =>
    case Some(t) =>
      if Accepts(a.game, t) {
        assert a.game.winner.None?;
      }
  }

  /** Once the game has a winner, only a bet can still change anything, so
      the bet is settled at most once. */
  lemma NoSecondSettlement(a: App, act: Action)
    requires Inv(a.game) && a.game.winner.Some? && !act.PlaceBetOn?
    ensures Step(a, act) == a
  {
    match act
    case Roll(v) =>
    case Pass =>
    case ClickOn(c, id) =>
      assert !a.game.waitingForMove;
  }

  lemma StepInv(a: App, act: Action)
    requires AppInv(a)
    ensures AppInv(Step(a, act))
  {
    match act
    case PlaceBetOn(c, amount) => SolventPreserved(a.wallet, c, amount, c);
    case Roll(v) => RollInv(a.game, v);
    case Pass => AutoPassInv(a.game);
    case ClickOn(c, id) =>
      ClickInv(a.game, c, id);
      SolventPreserved(a.wallet, c, 0, a.game.currentPlayer);
  }

  /** Every state reached from a state that keeps the invariant keeps it. */
  lemma {:induction false} RunInv(a: App, acts: seq<Action>)
    requires AppInv(a)
    ensures AppInv(Run(a, acts))
    decreases |acts|
  {
    if acts != [] {
      StepInv(a, acts[0]);
      RunInv(Step(a, acts[0]), acts[1..]);
    }
  }

  /** Every reachable state: each colour has its two consistent pieces and
      an unset `hasFinished`, the log holds one to five entries, and the
      winner is the one colour whose pieces are all finished. */
  lemma ReachableInv(acts: seq<Action>)
    ensures AppInv(Run(InitialApp, acts))
  {
    InitialInv();
    RunInv(InitialApp, acts);
  }
}
