/** The game's state transitions: rolling the die, passing a turn that has
    no legal move, and moving a piece (with captures, the win check, the
    bonus turn on a six and the turn log). */
module Engine {
  import opened Types
  import opened Constants
  import opened Rules

  /** Number of entries the turn log keeps. */
  const LogLimit := 5

  function Min(a: int, b: int): int
  {
    if a < b then a else b
  }

  function InitialPlayer(c: Color): PlayerState
  {
    PlayerState(c, [Piece(0, c, Base, 0), Piece(1, c, Base, 0)], false)
  }

  /** The state a game starts in: every piece in its base, red to roll. */
  const Initial: GameState :=
    GameState(Players(InitialPlayer(Red), InitialPlayer(Green), InitialPlayer(Yellow), InitialPlayer(Blue)),
              Red, None, false, false, None, [Welcome])

  function Pieces(s: GameState, c: Color): seq<Piece>
  {
    s.players.Get(c).pieces
  }

  // ---------------------------------------------------------------- rolling

  /** A roll is refused while the die spins, while a move is awaited and
      once the game has a winner. */
  predicate RollBlocked(s: GameState)
  {
    s.isRolling || s.waitingForMove || s.winner.Some?
  }

  /** The die starts spinning. */
  function StartRoll(s: GameState): (r: GameState)
    ensures RollBlocked(s) ==> r == s
    ensures !RollBlocked(s) ==> r.isRolling && RollBlocked(r)
    ensures r.players == s.players && r.currentPlayer == s.currentPlayer && r.dice == s.dice
    ensures r.waitingForMove == s.waitingForMove && r.winner == s.winner && r.turnLog == s.turnLog
  {
    if RollBlocked(s) then s else s.(isRolling := true)
  }

  predicate AnyMovable(ps: seq<Piece>, roll: Die)
  {
    exists i :: 0 <= i < |ps| && CanMove(ps[i], roll)
  }

  /** The die stops on `roll`; a move is awaited iff the player has one. */
  function ResolveRoll(s: GameState, roll: Die): (r: GameState)
    ensures !r.isRolling && r.dice == Some(roll)
    ensures r.waitingForMove <==>
              exists i :: 0 <= i < |Pieces(s, s.currentPlayer)| && CanMove(Pieces(s, s.currentPlayer)[i], roll)
    ensures r.players == s.players && r.currentPlayer == s.currentPlayer
    ensures r.winner == s.winner && r.turnLog == s.turnLog
  {
    s.(isRolling := false, dice := Some(roll), waitingForMove := AnyMovable(Pieces(s, s.currentPlayer), roll))
  }

  /** A whole roll: the die is an input instead of a random draw. */
  function RollDice(s: GameState, roll: Die): (r: GameState)
    ensures RollBlocked(s) ==> r == s
    ensures !RollBlocked(s) ==> r.dice == Some(roll) && !r.isRolling
    ensures !RollBlocked(s) ==>
              (r.waitingForMove <==> exists i :: 0 <= i < |Pieces(s, s.currentPlayer)| && CanMove(Pieces(s, s.currentPlayer)[i], roll))
    ensures r.players == s.players && r.currentPlayer == s.currentPlayer
    ensures r.winner == s.winner && r.turnLog == s.turnLog
  {
    if RollBlocked(s) then s
    else
      var rolling := StartRoll(s);
      assert Pieces(rolling, rolling.currentPlayer) == Pieces(s, s.currentPlayer);
      ResolveRoll(rolling, roll)
  }

  // ------------------------------------------------------------- passing

  /** A die value is showing, no move is awaited, the die is not spinning
      and nobody has won: the turn passes by itself. */
  predicate AutoPassDue(s: GameState)
  {
    !s.isRolling && !s.waitingForMove && s.dice.Some? && s.winner.None?
  }

  /** Hands the turn to the next colour. */
  function TurnEnd(s: GameState): (r: GameState)
    ensures r.currentPlayer == NextPlayer(s.currentPlayer) && r.dice.None? && !r.waitingForMove
    ensures r.players == s.players && r.winner == s.winner && r.isRolling == s.isRolling && r.turnLog == s.turnLog
  {
    s.(currentPlayer := NextPlayer(s.currentPlayer), dice := None, waitingForMove := false)
  }

  /** The pass that fires after a roll with no legal move. */
  function AutoPass(s: GameState): (r: GameState)
    ensures !AutoPassDue(s) ==> r == s
    ensures AutoPassDue(s) ==> r.currentPlayer == NextPlayer(s.currentPlayer) && r.dice.None? && !r.waitingForMove
    ensures r.players == s.players && r.winner == s.winner && r.isRolling == s.isRolling && r.turnLog == s.turnLog
  {
    if AutoPassDue(s) then TurnEnd(s) else s
  }

  /** A pass is never due right after a pass. */
  lemma AutoPassIdempotent(s: GameState)
    ensures AutoPass(AutoPass(s)) == AutoPass(s)
  {
  }

  // -------------------------------------------------------------- moving

  /** A move of the clicked piece `t` is carried out only while a move is
      awaited with a die value showing, for a piece of the player on turn
      that may move that far. */
  predicate Accepts(s: GameState, t: Piece)
  {
    s.waitingForMove && s.dice.Some? && t.color == s.currentPlayer && CanMove(t, s.dice.value)
  }

  /** The mover's pieces after the move: every piece carrying the clicked
      piece's id advances. */
  function MovedPieces(s: GameState, t: Piece): seq<Piece>
    requires s.dice.Some?
  {
    MoveMatching(Pieces(s, s.currentPlayer), t.id, s.dice.value, s.currentPlayer)
  }

  /** An accepted move after which all of the mover's pieces are finished. */
  predicate WinningMove(s: GameState, t: Piece)
  {
    Accepts(s, t) && AllFinished(MovedPieces(s, t))
  }

  /** The track cell the first piece with id `id` stands on, if it stands on
      the track (not in base, the home stretch or finished). */
  function LandedCell(ps: seq<Piece>, id: nat): (r: Option<Cell>)
    ensures r.Some? <==> exists i :: 0 <= i < |ps| && ps[i].id == id && ps[i].pos.Track?
                                    && forall j :: 0 <= j < i ==> ps[j].id != id
    ensures r.Some? ==> exists i :: 0 <= i < |ps| && ps[i].id == id && ps[i].pos == Track(r.value)
                                   && forall j :: 0 <= j < i ==> ps[j].id != id
  {
    match FindById(ps, id)
    case None => None
    case Some(p) => if p.pos.Track? then Some(p.pos.cell) else None
  }

  function CaptureSide(players: Players, mover: Color, cell: Cell, c: Color): PlayerState
  {
    var side := players.Get(c);
    if c == mover then side else side.(pieces := CaptureOn(side.pieces, cell))
  }

  /** Every piece of the other colours standing on `cell` goes back to base. */
  function CaptureEnemies(players: Players, mover: Color, cell: Cell): (r: Players)
    ensures r.Get(mover) == players.Get(mover)
    ensures forall c :: c != mover ==> r.Get(c) == players.Get(c).(pieces := CaptureOn(players.Get(c).pieces, cell))
  {
    var r := Players(CaptureSide(players, mover, cell, Red), CaptureSide(players, mover, cell, Green),
                     CaptureSide(players, mover, cell, Yellow), CaptureSide(players, mover, cell, Blue));
    CaptureSidesInPlace(players, mover, cell);
    r
  }

  lemma CaptureSidesInPlace(players: Players, mover: Color, cell: Cell)
    ensures var r := Players(CaptureSide(players, mover, cell, Red), CaptureSide(players, mover, cell, Green),
                             CaptureSide(players, mover, cell, Yellow), CaptureSide(players, mover, cell, Blue));
            forall c :: r.Get(c) == CaptureSide(players, mover, cell, c)
  {
  }

  function Repeat(c: Color, n: nat): (r: seq<Color>)
    ensures |r| == n
    ensures forall i :: 0 <= i < n ==> r[i] == c
  {
    if n == 0 then [] else [c] + Repeat(c, n - 1)
  }

  lemma {:induction false} RepeatCount(c: Color, n: nat, d: Color)
    ensures multiset(Repeat(c, n))[d] == if c == d then n else 0
  {
    if n > 0 {
      RepeatCount(c, n - 1, d);
      assert Repeat(c, n) == [c] + Repeat(c, n - 1);
    }
  }

  predicate Distinct(order: seq<Color>)
  {
    forall i, j :: 0 <= i < j < |order| ==> order[i] != order[j]
  }

  /** The capture record of a move: one colour per captured piece, the
      colours taken in `order`. */
  function CapturedColors(players: Players, mover: Color, cell: Cell, order: seq<Color>): seq<Color>
  {
    if order == [] then []
    else
      (if order[0] == mover then [] else Repeat(order[0], CountOn(players.Get(order[0]).pieces, cell)))
      + CapturedColors(players, mover, cell, order[1..])
  }

  /** The capture record names each other colour once per piece of it on
      the cell. */
  lemma {:induction false} CapturedColorsCount(players: Players, mover: Color, cell: Cell, order: seq<Color>, d: Color)
    requires Distinct(order)
    ensures multiset(CapturedColors(players, mover, cell, order))[d]
            == if d in order && d != mover then CountOn(players.Get(d).pieces, cell) else 0
  {
    if order != [] {
      var head := if order[0] == mover then [] else Repeat(order[0], CountOn(players.Get(order[0]).pieces, cell));
      var rest := CapturedColors(players, mover, cell, order[1..]);
      assert CapturedColors(players, mover, cell, order) == head + rest;
      if order[0] != mover {
        RepeatCount(order[0], CountOn(players.Get(order[0]).pieces, cell), d);
      }
      assert Distinct(order[1..]);
      CapturedColorsCount(players, mover, cell, order[1..], d);
      assert d in order <==> d == order[0] || d in order[1..];
      assert order[0] !in order[1..];
      assert multiset(head + rest)[d] == multiset(head)[d] + multiset(rest)[d];
    }
  }

  /** Over all four colours, the capture record names each colour other
      than the mover once per piece of it on the cell. */
  lemma CapturedColorsAll(players: Players, mover: Color, cell: Cell, d: Color)
    ensures multiset(CapturedColors(players, mover, cell, Colors))[d]
            == if d != mover then CountOn(players.Get(d).pieces, cell) else 0
  {
    assert Distinct(Colors);
    CapturedColorsCount(players, mover, cell, Colors, d);
    assert d in Colors by { assert Colors[Ordinal(d)] == d; }
  }

  /** The players after an accepted move: the mover's pieces moved, then
      captures on the cell the moved piece landed on. */
  function MovePlayers(s: GameState, t: Piece): (r: Players)
    requires Accepts(s, t)
    ensures r.Get(s.currentPlayer) == s.players.Get(s.currentPlayer).(pieces := MovedPieces(s, t))
    ensures forall c :: c != s.currentPlayer ==>
              r.Get(c) == match LandedCell(MovedPieces(s, t), t.id)
                          case None => s.players.Get(c)
                          case Some(cell) => s.players.Get(c).(pieces := CaptureOn(Pieces(s, c), cell))
  {
    var cur := s.currentPlayer;
    var players := s.players.Set(cur, s.players.Get(cur).(pieces := MovedPieces(s, t)));
    match LandedCell(MovedPieces(s, t), t.id)
    case None => players
    case Some(cell) => CaptureEnemies(players, cur, cell)
  }

  /** The turn-log entry of an accepted move: the win, or the move with its
      captures. */
  function MoveEntry(s: GameState, t: Piece): (r: LogEntry)
    requires Accepts(s, t)
    ensures r.Wins? <==> AllFinished(MovedPieces(s, t))
    ensures r.Wins? ==> r.winner == s.currentPlayer
    ensures !r.Wins? ==> r.Moved? && r.mover == s.currentPlayer && r.roll == s.dice.value
    ensures r.Moved? && LandedCell(MovedPieces(s, t), t.id).None? ==> r.captured == []
  {
    var cur := s.currentPlayer;
    if AllFinished(MovedPieces(s, t)) then Wins(cur)
    else
      var players := s.players.Set(cur, s.players.Get(cur).(pieces := MovedPieces(s, t)));
      match LandedCell(MovedPieces(s, t), t.id)
      case None => Moved(cur, s.dice.value, [])
      case Some(cell) => Moved(cur, s.dice.value, CapturedColors(players, cur, cell, Colors))
  }

  /** One move of the clicked piece `t`. */
  function MovePiece(s: GameState, t: Piece): (r: GameState)
    ensures !Accepts(s, t) ==> r == s
    ensures Accepts(s, t) ==> !r.waitingForMove && r.dice.None? && r.isRolling == s.isRolling
    ensures Accepts(s, t) ==> Pieces(r, s.currentPlayer) == MovedPieces(s, t)
    ensures Accepts(s, t) ==>
              r.winner == if AllFinished(Pieces(r, s.currentPlayer)) then Some(s.currentPlayer) else s.winner
    ensures Accepts(s, t) ==>
              r.currentPlayer == if s.dice.value == 6 && r.winner.None? then s.currentPlayer else NextPlayer(s.currentPlayer)
    ensures Accepts(s, t) ==>
              && |r.turnLog| == 1 + Min(4, |s.turnLog|) <= LogLimit
              && r.turnLog[1..] == s.turnLog[..Min(4, |s.turnLog|)]
    ensures forall c :: r.players.Get(c).color == s.players.Get(c).color
    ensures forall c :: r.players.Get(c).hasFinished == s.players.Get(c).hasFinished
  {
    if !Accepts(s, t) then s
    else
      var cur := s.currentPlayer;
      var winner := if AllFinished(MovedPieces(s, t)) then Some(cur) else s.winner;
      s.(players := MovePlayers(s, t),
         waitingForMove := false,
         currentPlayer := if s.dice.value == 6 && winner.None? then cur else NextPlayer(cur),
         dice := None,
         winner := winner,
         turnLog := [MoveEntry(s, t)] + s.turnLog[..Min(4, |s.turnLog|)])
  }

  lemma MoveLogHead(s: GameState, t: Piece)
    requires Accepts(s, t)
    ensures |MovePiece(s, t).turnLog| > 0 && MovePiece(s, t).turnLog[0] == MoveEntry(s, t)
  {
  }

  /** The log entry of an accepted move that does not win names the mover,
      the roll and, once per captured piece, each captured colour. */
  lemma {:induction false} MoveLogsCaptures(s: GameState, t: Piece, d: Color)
    requires Accepts(s, t) && !WinningMove(s, t)
    ensures |MovePiece(s, t).turnLog| > 0
    ensures var e := MovePiece(s, t).turnLog[0];
            && e.Moved? && e.mover == s.currentPlayer && e.roll == s.dice.value
            && multiset(e.captured)[d]
               == match LandedCell(MovedPieces(s, t), t.id)
                  case Some(cell) => if d != s.currentPlayer then CountOn(Pieces(s, d), cell) else 0
                  case None => 0
  {
    MoveLogHead(s, t);
    var cur := s.currentPlayer;
    var moved := MovedPieces(s, t);
    var e := MoveEntry(s, t);
    var players := s.players.Set(cur, s.players.Get(cur).(pieces := moved));
    match LandedCell(moved, t.id)
    case None =>
    case Some(cell) =>
      assert e == Moved(cur, s.dice.value, CapturedColors(players, cur, cell, Colors));
      CapturedColorsAll(players, cur, cell, d);
      assert d != cur ==> players.Get(d) == s.players.Get(d);
  }

  /** The piece a click on colour `c`'s piece `id` refers to: the state's
      own copy of it. */
  function ClickTarget(s: GameState, c: Color, id: nat): Option<Piece>
  {
    FindById(Pieces(s, c), id)
  }

  /** A click on colour `c`'s piece `id`. */
  function Click(s: GameState, c: Color, id: nat): (r: GameState)
    ensures !s.waitingForMove || s.dice.None? ==> r == s
    ensures (forall i :: 0 <= i < |Pieces(s, c)| ==> Pieces(s, c)[i].id != id) ==> r == s
    ensures forall i ::
              (0 <= i < |Pieces(s, c)| && Pieces(s, c)[i].id == id && forall j :: 0 <= j < i ==> Pieces(s, c)[j].id != id)
              ==> r == MovePiece(s, Pieces(s, c)[i])
  {
    match ClickTarget(s, c, id)
    case None => s
    case Some(t) => MovePiece(s, t)
  }
}
