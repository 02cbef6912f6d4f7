/** The wallet: placing the single bet and settling it when a colour wins. */
module Ledger {
  import opened Types

  /** A winning bet is paid back this many times its stake. */
  const Payout := 4

  const InitialWallet: Wallet := Wallet(1000, None)

  /** The amount currently staked; zero without a bet. */
  function Stake(w: Wallet): int
  {
    match w.bet
    case None => 0
    case Some(b) => b.amount
  }

  /** Bets `amount` on colour `c`. Only the balance is checked: a bet already
      outstanding is replaced, its stake gone. */
  function PlaceBet(w: Wallet, c: Color, amount: int): (r: Wallet)
    ensures amount > w.balance ==> r == w
    ensures amount <= w.balance ==> r.bet == Some(Bet(c, amount)) && r.balance + Stake(r) == w.balance
  {
    if amount > w.balance then w
    else Wallet(w.balance - amount, Some(Bet(c, amount)))
  }

  /** Settles the outstanding bet against the winning colour. */
  function Settle(w: Wallet, winner: Color): (r: Wallet)
    ensures r.bet.None?
    ensures r.balance == w.balance + if w.bet.Some? && w.bet.value.color == winner then Payout * Stake(w) else 0
  {
    match w.bet
    case Some(b) =>
      if b.color == winner then Wallet(w.balance + b.amount * Payout, None)
      else w.(bet := None)
    case None => w
  }

  /** From a wallet without a bet, a bet followed by its settlement nets
      three times the stake on a win and loses the stake otherwise. */
  lemma BetThenSettle(w: Wallet, c: Color, amount: int, winner: Color)
    requires w.bet.None? && amount <= w.balance
    ensures Settle(PlaceBet(w, c, amount), winner)
            == Wallet(w.balance + if c == winner then (Payout - 1) * amount else -amount, None)
  {
  }

  /** Settling twice is settling once: the second call finds no bet. */
  lemma SettleIdempotent(w: Wallet, first: Color, second: Color)
    ensures Settle(Settle(w, first), second) == Settle(w, first)
  {
  }

  /** An accepted second bet replaces the first, whose stake is lost: the
      balance plus the amount at stake drops by the earlier stake. */
  lemma SecondBetForfeitsFirst(w: Wallet, c: Color, amount: int)
    requires w.bet.Some? && amount <= w.balance
    ensures PlaceBet(w, c, amount).balance + Stake(PlaceBet(w, c, amount)) == w.balance + Stake(w) - w.bet.value.amount
  {
  }

  /** With non-negative stakes the balance never goes negative. */
  predicate Solvent(w: Wallet)
  {
    w.balance >= 0 && Stake(w) >= 0
  }

  lemma SolventPreserved(w: Wallet, c: Color, amount: nat, winner: Color)
    requires Solvent(w)
    ensures Solvent(PlaceBet(w, c, amount)) && Solvent(Settle(w, winner))
  {
  }

  /** Balance 1000, 100 on red: red wins gives 1300, green wins gives 900. */
  lemma SettlementExamples()
    ensures Settle(PlaceBet(InitialWallet, Red, 100), Red) == Wallet(1300, None)
    ensures Settle(PlaceBet(InitialWallet, Red, 100), Green) == Wallet(900, None)
  {
  }
}
