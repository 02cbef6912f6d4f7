/** The records of the game and the wallet, with the piece position as a
    tagged sum type instead of the source's overloaded integer. */
module Types {

  datatype Option<+T> = None | Some(value: T)

  /** The four player colours, in the order the enum declares them. */
  datatype Color = Red | Green | Yellow | Blue

  /** Every colour, in declaration order; this is also the turn order. */
  const Colors: seq<Color> := [Red, Green, Yellow, Blue]

  /** Position of a colour in the declaration order. */
  function Ordinal(c: Color): (i: nat)
    ensures i < |Colors| && Colors[i] == c
  {
    match c
    case Red => 0
    case Green => 1
    case Yellow => 2
    case Blue => 3
  }

  /** A face of the die. */
  type Die = r: int | 1 <= r <= 6 witness 1

  /** A cell of the 52-cell shared track. */
  type Cell = c: int | 0 <= c < 52

  /** Where a piece is: in its base, on a cell of the shared track, on a
      step of its colour's home stretch, or finished. */
  datatype Position = Base | Track(cell: Cell) | Home(step: nat) | Finished

  /** A piece; `steps` counts the steps walked since it left its base. */
  datatype Piece = Piece(id: nat, color: Color, pos: Position, steps: nat)

  datatype PlayerState = PlayerState(color: Color, pieces: seq<Piece>, hasFinished: bool)

  /** One player record per colour: a total table by construction. */
  datatype Players = Players(red: PlayerState, green: PlayerState, yellow: PlayerState, blue: PlayerState)
  {
    function Get(c: Color): PlayerState
    {
      match c
      case Red => red
      case Green => green
      case Yellow => yellow
      case Blue => blue
    }

    function Set(c: Color, p: PlayerState): (r: Players)
      ensures r.Get(c) == p
      ensures forall d :: d != c ==> r.Get(d) == Get(d)
    {
      match c
      case Red => this.(red := p)
      case Green => this.(green := p)
      case Yellow => this.(yellow := p)
      case Blue => this.(blue := p)
    }
  }

  /** A turn-log entry; the wording of the messages is not modelled, only
      what they report. `captured` holds one colour per captured piece. */
  datatype LogEntry = Welcome | Moved(mover: Color, roll: Die, captured: seq<Color>) | Wins(winner: Color)

  datatype GameState = GameState(
    players: Players,
    currentPlayer: Color,
    dice: Option<Die>,
    isRolling: bool,
    waitingForMove: bool,
    winner: Option<Color>,
    turnLog: seq<LogEntry>)

  datatype Bet = Bet(color: Color, amount: int)

  datatype Wallet = Wallet(balance: int, bet: Option<Bet>)

  /** The source's integer encoding of a position. */
  function Encode(p: Position): int
  {
    match p
    case Base => -1
    case Track(c) => c
    case Home(k) => 100 + k
    case Finished => 999
  }

  /** Reads an encoded position back; integers that encode nothing give None. */
  function Decode(n: int): (r: Option<Position>)
    ensures r.Some? ==> Encode(r.value) == n
    ensures r.None? <==> (n < -1 || 52 <= n < 100 || 999 < n)
  {
    if n == -1 then Some(Base)
    else if 0 <= n < 52 then Some(Track(n))
    else if 100 <= n < 999 then Some(Home(n - 100))
    else if n == 999 then Some(Finished)
    else None
  }

  /** The positions the type's comment documents: -1, 0..51, 100..105, 999. */
  predicate Documented(p: Position)
  {
    !p.Home? || p.step <= 5
  }

  lemma DecodeEncode(p: Position)
    requires p.Home? ==> p.step < 899
    ensures Decode(Encode(p)) == Some(p)
  {
  }

  lemma DocumentedEncodings(p: Position)
    requires p.Home? ==> p.step < 899
    ensures Documented(p) <==> (Encode(p) == -1 || 0 <= Encode(p) <= 51 || 100 <= Encode(p) <= 105 || Encode(p) == 999)
  {
  }
}
