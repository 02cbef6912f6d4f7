/** The invariant every state reached from the initial one keeps, and what a
    click, a roll and a pass do to the pieces of such a state. */
module GameInvariant {
  import opened Types
  import opened Constants
  import opened Rules
  import opened Engine

  /** A colour's record: two pieces with ids 0 and 1, of that colour, each
      consistent; `hasFinished` is never set. */
  predicate WellSeated(side: PlayerState, c: Color)
  {
    && side.color == c
    && |side.pieces| == 2
    && (forall i :: 0 <= i < 2 ==> side.pieces[i].id == i && side.pieces[i].color == c && Consistent(side.pieces[i]))
    && !side.hasFinished
  }

  predicate Inv(s: GameState)
  {
    && (forall c :: WellSeated(s.players.Get(c), c))
    && 1 <= |s.turnLog| <= LogLimit
    && (s.isRolling ==> !s.waitingForMove && s.winner.None?)
    && (s.waitingForMove ==>
          s.dice.Some? && !s.isRolling && s.winner.None? && AnyMovable(Pieces(s, s.currentPlayer), s.dice.value))
    && (forall c :: AllFinished(Pieces(s, c)) <==> s.winner == Some(c))
  }

  lemma InitialInv()
    ensures Inv(Initial)
  {
    forall c ensures WellSeated(Initial.players.Get(c), c) && !AllFinished(Pieces(Initial, c)) {
      assert Pieces(Initial, c)[0].pos == Base;
    }
  }

  /** A roll keeps the invariant; so does the moment the die starts to spin. */
  lemma RollInv(s: GameState, roll: Die)
    requires Inv(s)
    ensures Inv(StartRoll(s))
    ensures Inv(RollDice(s, roll))
  {
    var r := RollDice(s, roll);
    forall c ensures WellSeated(r.players.Get(c), c) && (AllFinished(Pieces(r, c)) <==> r.winner == Some(c)) {
      assert r.players.Get(c) == s.players.Get(c);
    }
  }

  lemma AutoPassInv(s: GameState)
    requires Inv(s)
    ensures Inv(AutoPass(s))
  {
    var r := AutoPass(s);
    forall c ensures WellSeated(r.players.Get(c), c) && (AllFinished(Pieces(r, c)) <==> r.winner == Some(c)) {
      assert r.players.Get(c) == s.players.Get(c);
    }
  }

  /** What a click refers to in a state that keeps the invariant: the
      piece of that colour whose index is its id. */
  lemma ClickTargetSeated(s: GameState, c: Color, id: nat)
    requires Inv(s) && ClickTarget(s, c, id).Some?
    ensures id < 2
    ensures ClickTarget(s, c, id).value == Pieces(s, c)[id]
    ensures ClickTarget(s, c, id).value.color == c
  {
    assert WellSeated(s.players.Get(c), c);
  }

  /** The effect of an accepted click on the mover's own pieces: the
      clicked piece advances, the other one stays, and captures happen on
      the cell the clicked piece reaches if that is a track cell. */
  lemma {:induction false} ClickMoves(s: GameState, c: Color, id: nat)
    requires Inv(s) && ClickTarget(s, c, id).Some? && Accepts(s, ClickTarget(s, c, id).value)
    ensures c == s.currentPlayer && id < 2
    ensures MovedPieces(s, Pieces(s, c)[id])[id] == Advance(Pieces(s, c)[id], s.dice.value, c)
    ensures MovedPieces(s, Pieces(s, c)[id])[1 - id] == Pieces(s, c)[1 - id]
    ensures LandedCell(MovedPieces(s, Pieces(s, c)[id]), id)
            == (var q := Advance(Pieces(s, c)[id], s.dice.value, c); if q.pos.Track? then Some(q.pos.cell) else None)
  {
    ClickTargetSeated(s, c, id);
    var t := Pieces(s, c)[id];
    assert WellSeated(s.players.Get(c), c);
    var moved := MovedPieces(s, t);
    assert moved[0].id == 0 && moved[1].id == 1;
    var found := FindById(moved, id);
    assert found == Some(moved[id]);
  }

  lemma CaptureOnSeated(side: PlayerState, c: Color, cell: Cell)
    requires WellSeated(side, c)
    ensures WellSeated(side.(pieces := CaptureOn(side.pieces, cell)), c)
  {
  }

  /** A click keeps the invariant. */
  lemma {:induction false} ClickInv(s: GameState, c: Color, id: nat)
    requires Inv(s)
    ensures Inv(Click(s, c, id))
  {
    if ClickTarget(s, c, id).Some? && Accepts(s, ClickTarget(s, c, id).value) {
      ClickMoves(s, c, id);
      var t := Pieces(s, c)[id];
      var r := Click(s, c, id);
      assert r == MovePiece(s, t);
      var roll := s.dice.value;
      assert WellSeated(s.players.Get(c), c);
      AdvanceConsistent(t, roll);
      var moved := MovedPieces(s, t);
      assert WellSeated(s.players.Get(c).(pieces := moved), c) by {
        assert forall i :: 0 <= i < 2 ==> moved[i] == (if i == id then Advance(t, roll, c) else Pieces(s, c)[i]);
      }
      forall d ensures WellSeated(r.players.Get(d), d) && (AllFinished(Pieces(r, d)) <==> r.winner == Some(d)) {
        assert WellSeated(s.players.Get(d), d);
        if d != c {
          assert !AllFinished(Pieces(s, d));
          match LandedCell(moved, t.id)
          case None =>
          case Some(cell) =>
            CaptureOnSeated(s.players.Get(d), d, cell);
            CaptureKeepsUnfinished(Pieces(s, d), cell);
        }
      }
    }
  }

  /** While the die spins nothing else can happen: a second roll, a pass
      and any click are all refused. */
  lemma RollingIsExclusive(s: GameState, roll: Die, t: Piece)
    requires Inv(s) && s.isRolling
    ensures StartRoll(s) == s && RollDice(s, roll) == s
    ensures AutoPass(s) == s && MovePiece(s, t) == s
  {
  }

  /** Once a colour has won, no roll, pass or click changes the state. */
  lemma TerminalAfterWin(s: GameState, roll: Die, c: Color, id: nat)
    requires Inv(s) && s.winner.Some?
    ensures RollDice(s, roll) == s && AutoPass(s) == s && Click(s, c, id) == s
  {
  }

  /** After a roll that left no legal move the roll button is still live:
      the same player may roll again before the pass fires. */
  lemma RerollBeforePass(s: GameState, roll: Die)
    requires AutoPassDue(s)
    ensures RollDice(s, roll).dice == Some(roll)
    ensures RollDice(s, roll).currentPlayer == s.currentPlayer
  {
  }

  /** After a click every colour still has its two pieces. */
  lemma ClickKeepsPieces(s: GameState, c: Color, id: nat, d: Color)
    requires Inv(s)
    ensures |Pieces(Click(s, c, id), d)| == 2
  {
    ClickInv(s, c, id);
    assert WellSeated(Click(s, c, id).players.Get(d), d);
  }

  /** A piece leaves its base only on a six, and then stands on its
      colour's entry cell with no steps counted. */
  lemma {:induction false} BaseExitOnSix(s: GameState, c: Color, id: nat, d: Color, i: nat)
    requires Inv(s) && i < 2 && Pieces(s, d)[i].pos == Base
    ensures |Pieces(Click(s, c, id), d)| == 2
    ensures Pieces(Click(s, c, id), d)[i].pos != Base ==>
              && s.dice == Some(6) && d == s.currentPlayer
              && Pieces(Click(s, c, id), d)[i] == Pieces(s, d)[i].(pos := Track(StartOffset(d)), steps := 0)
  {
    ClickKeepsPieces(s, c, id, d);
    if ClickTarget(s, c, id).Some? && Accepts(s, ClickTarget(s, c, id).value) {
      ClickMoves(s, c, id);
      if d != c {
        ClickCaptures(s, c, id, d, i);
      }
    }
  }

  /** What a click does to the other colours' pieces: exactly those standing
      on the track cell the moved piece reached go back to base. */
  lemma {:induction false} ClickCaptures(s: GameState, c: Color, id: nat, d: Color, i: nat)
    requires Inv(s) && ClickTarget(s, c, id).Some? && Accepts(s, ClickTarget(s, c, id).value)
    requires d != s.currentPlayer && i < 2
    ensures |Pieces(Click(s, c, id), d)| == 2
    ensures var q := Advance(ClickTarget(s, c, id).value, s.dice.value, c);
            Pieces(Click(s, c, id), d)[i]
            == if q.pos.Track? && Pieces(s, d)[i].pos == q.pos then Pieces(s, d)[i].(pos := Base, steps := 0)
               else Pieces(s, d)[i]
  {
    ClickKeepsPieces(s, c, id, d);
    ClickMoves(s, c, id);
    var t := Pieces(s, c)[id];
    assert Click(s, c, id) == MovePiece(s, t);
  }

  /** The log entry of a click that did not win records one colour per
      captured piece. */
  lemma {:induction false} ClickLogsCaptures(s: GameState, c: Color, id: nat, d: Color)
    requires Inv(s) && ClickTarget(s, c, id).Some?
    requires Accepts(s, ClickTarget(s, c, id).value) && !WinningMove(s, ClickTarget(s, c, id).value)
    ensures |Click(s, c, id).turnLog| > 0
    ensures var q := Advance(ClickTarget(s, c, id).value, s.dice.value, c);
            var e := Click(s, c, id).turnLog[0];
            && e.Moved? && e.mover == c && e.roll == s.dice.value
            && multiset(e.captured)[d] == if d != c && q.pos.Track? then CountOn(Pieces(s, d), q.pos.cell) else 0
  {
    ClickMoves(s, c, id);
    var t := Pieces(s, c)[id];
    assert Click(s, c, id) == MovePiece(s, t);
    MoveLogsCaptures(s, t, d);
  }

  /** Step counters only grow, except when a capture resets one to zero. */
  lemma {:induction false} StepsMonotone(s: GameState, c: Color, id: nat, d: Color, i: nat)
    requires Inv(s) && i < 2
    ensures |Pieces(Click(s, c, id), d)| == 2
    ensures var before := Pieces(s, d)[i];
            var after := Pieces(Click(s, c, id), d)[i];
            after.steps >= before.steps || (after.pos == Base && after.steps == 0 && before.pos.Track?)
  {
    ClickKeepsPieces(s, c, id, d);
    if ClickTarget(s, c, id).Some? && Accepts(s, ClickTarget(s, c, id).value) {
      ClickMoves(s, c, id);
      var t := Pieces(s, c)[id];
      if d == c {
        if i == id {
          AdvanceMonotone(t, s.dice.value);
        }
      } else {
        ClickCaptures(s, c, id, d, i);
      }
    }
  }

  /** A piece on home step 6 stays there for good: it cannot move, and it
      is off the track, so nothing captures it. */
  lemma {:induction false} DeadEndIsPermanent(s: GameState, c: Color, id: nat, roll: Die, d: Color, i: nat)
    requires Inv(s) && i < 2 && Pieces(s, d)[i].pos == Home(6)
    ensures |Pieces(Click(s, c, id), d)| == 2
    ensures Pieces(Click(s, c, id), d)[i].pos == Home(6)
    ensures Pieces(RollDice(s, roll), d) == Pieces(s, d) && Pieces(AutoPass(s), d) == Pieces(s, d)
  {
    ClickKeepsPieces(s, c, id, d);
    if ClickTarget(s, c, id).Some? && Accepts(s, ClickTarget(s, c, id).value) {
      ClickMoves(s, c, id);
      var t := Pieces(s, c)[id];
      if d == c {
        if i == id {
          DeadEndIsStuck(t, s.dice.value);
        }
      } else {
        ClickCaptures(s, c, id, d, i);
      }
    }
  }
}
