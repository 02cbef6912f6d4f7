/** The per-piece rules of the game: turn rotation, move legality, where a
    piece lands, captures on a cell and the win condition. */
module Rules {
  import opened Types
  import opened Constants

  /** A move may take a piece to at most this many steps. */
  const MaxSteps := 57

  /** A piece that has walked more than this many steps is off the track. */
  const BoardLimit := 50

  /** Home-stretch index at which a piece finishes. */
  const FinishStep := 6

  /** The colour whose turn follows `c`'s. */
  function NextPlayer(c: Color): (n: Color)
    ensures n != c
    ensures Ordinal(n) == (Ordinal(c) + 1) % 4
  {
    Colors[(Ordinal(c) + 1) % 4]
  }

  /** The colour `k` turns after `c`. */
  function After(c: Color, k: nat): Color
  {
    if k == 0 then c else NextPlayer(After(c, k - 1))
  }

  /** `k` turns on, a colour's place in the rotation has moved `k` places. */
  lemma {:induction false} AfterIndex(c: Color, k: nat)
    ensures Ordinal(After(c, k)) == (Ordinal(c) + k) % 4
  {
    if k > 0 {
      AfterIndex(c, k - 1);
    }
  }

  /** The rotation is a single four-cycle: every colour gets a turn before
      `c` plays again. */
  lemma RotationIsFourCycle(c: Color, d: Color)
    ensures After(c, 4) == c
    ensures exists k :: 0 <= k < 4 && After(c, k) == d
  {
    AfterIndex(c, 4);
    IndexInjective(After(c, 4), c);
    var i, j := Ordinal(c), Ordinal(d);
    var k := if j >= i then j - i else j + 4 - i;
    AfterIndex(c, k);
    assert (i + k) % 4 == j;
    IndexInjective(After(c, k), d);
  }

  lemma IndexInjective(a: Color, b: Color)
    requires Ordinal(a) == Ordinal(b)
    ensures a == b
  {
    assert a == Colors[Ordinal(a)];
  }

  /** True iff every piece is finished (vacuously true of no pieces). */
  predicate AllFinished(ps: seq<Piece>)
  {
    forall i :: 0 <= i < |ps| ==> ps[i].pos == Finished
  }

  /** The win test reads "every position is the finished code 999"; for
      consistent pieces that is exactly `AllFinished`. */
  lemma WinConditionEncoded(ps: seq<Piece>)
    requires forall i :: 0 <= i < |ps| ==> Consistent(ps[i])
    ensures AllFinished(ps) <==> forall i :: 0 <= i < |ps| ==> Encode(ps[i].pos) == 999
  {
  }

  /** Whether `p` may move `roll` steps. */
  function CanMove(p: Piece, roll: Die): (ok: bool)
    ensures p.pos == Base ==> (ok <==> roll == 6)
    ensures p.pos == Finished ==> !ok
    ensures (p.pos.Track? || p.pos.Home?) ==> (ok <==> p.steps + roll <= MaxSteps)
  {
    if roll == 6 && p.pos == Base then true
    else if p.pos == Base then false
    else if p.pos == Finished then false
    else p.steps + roll <= MaxSteps
  }

  /** The piece `p` after moving `roll` steps for the player `mover`
      (the mover's colour picks the entry cell). */
  function Advance(p: Piece, roll: Die, mover: Color): (q: Piece)
    ensures q.id == p.id && q.color == p.color
    ensures p.pos != Base ==> q.steps == p.steps + roll
  {
    if p.pos == Base then
      if roll == 6 then p.(pos := Track(StartOffset(mover)), steps := 0)
      else p.(steps := p.steps + roll)
    else
      var total := p.steps + roll;
      if total > BoardLimit then
        var inHome := total - BoardLimit;
        p.(pos := if inHome == FinishStep then Finished else Home(inHome - 1), steps := total)
      else
        p.(pos := Track((Encode(p.pos) + roll) % TrackLength), steps := total)
  }

  /** Where a piece of colour `c` stands after walking `n` steps from its
      entry cell: the absolute reading of the step counter. */
  function PositionAfter(c: Color, n: nat): Position
  {
    if n <= BoardLimit then Track((StartOffset(c) + n) % TrackLength)
    else if n == BoardLimit + FinishStep then Finished
    else Home(n - BoardLimit - 1)
  }

  /** A piece's position agrees with its step counter and its colour's entry
      cell. */
  predicate Consistent(p: Piece)
  {
    if p.pos == Base then p.steps == 0
    else p.steps <= MaxSteps && p.pos == PositionAfter(p.color, p.steps)
  }

  /** Adding to a track cell and wrapping equals adding before wrapping,
      for the sums that occur on the track. */
  lemma ModShift(a: int, b: int)
    requires 0 <= a < 2 * TrackLength && 0 <= b
    ensures (a % TrackLength + b) % TrackLength == (a + b) % TrackLength
  {
    if a >= TrackLength {
      assert a % TrackLength == a - TrackLength;
    }
  }

  /** A legal move from base enters on the colour's cell at step 0, and any
      other legal move walks the piece `roll` further along its path. */
  lemma {:induction false} AdvanceFollowsPath(p: Piece, roll: Die)
    requires Consistent(p) && CanMove(p, roll)
    ensures p.pos == Base ==> Advance(p, roll, p.color) == p.(pos := PositionAfter(p.color, 0), steps := 0)
    ensures p.pos != Base ==> Advance(p, roll, p.color) == p.(pos := PositionAfter(p.color, p.steps + roll), steps := p.steps + roll)
  {
    if p.pos.Track? && p.steps + roll <= BoardLimit {
      ModShift(StartOffset(p.color) + p.steps, roll);
    }
  }

  /** Legal moves keep a piece consistent. */
  lemma AdvanceConsistent(p: Piece, roll: Die)
    requires Consistent(p) && CanMove(p, roll)
    ensures Consistent(Advance(p, roll, p.color))
  {
    AdvanceFollowsPath(p, roll);
  }

  /** A legal move never takes a piece backwards. */
  lemma AdvanceMonotone(p: Piece, roll: Die)
    requires Consistent(p) && CanMove(p, roll)
    ensures Advance(p, roll, p.color).steps >= p.steps
  {
  }

  /** Of the documented positions a consistent piece can occupy every one
      but home step 5; the one undocumented position it can occupy is home
      step 6, and only with 57 steps. */
  lemma ConsistentPositions(p: Piece)
    requires Consistent(p)
    ensures p.pos != Home(5)
    ensures Documented(p.pos) <==> p.pos != Home(6)
    ensures p.pos == Home(6) ==> p.steps == MaxSteps
  {
  }

  /** A legal move ends on home step 6 exactly when it takes an on-board
      piece to 57 steps. */
  lemma ReachesDeadEnd(p: Piece, roll: Die)
    requires Consistent(p) && CanMove(p, roll)
    ensures Advance(p, roll, p.color).pos == Home(6) <==> (p.pos != Base && p.steps + roll == MaxSteps)
  {
    AdvanceFollowsPath(p, roll);
  }

  /** A consistent piece on home step 6 can never move again. */
  lemma DeadEndIsStuck(p: Piece, roll: Die)
    requires Consistent(p) && p.pos == Home(6)
    ensures !CanMove(p, roll)
  {
  }

  /** Worked moves of a red piece: a plain step along the track, entering
      the home stretch, finishing exactly, and overshooting onto home
      step 6. */
  lemma PathExamples()
    ensures Advance(Piece(0, Red, Track(10), 10), 4, Red) == Piece(0, Red, Track(14), 14)
    ensures Advance(Piece(0, Red, Track(48), 48), 5, Red) == Piece(0, Red, Home(2), 53)
    ensures Advance(Piece(0, Red, Track(50), 50), 6, Red) == Piece(0, Red, Finished, 56)
    ensures CanMove(Piece(0, Red, Home(0), 51), 6)
    ensures Advance(Piece(0, Red, Home(0), 51), 6, Red) == Piece(0, Red, Home(6), 57)
  {
  }

  /** Moves every piece whose id is `id`, leaving the others as they are. */
  function MoveMatching(ps: seq<Piece>, id: nat, roll: Die, mover: Color): (r: seq<Piece>)
    ensures |r| == |ps|
    ensures forall i :: 0 <= i < |ps| && ps[i].id != id ==> r[i] == ps[i]
    ensures forall i :: 0 <= i < |ps| && ps[i].id == id ==> r[i] == Advance(ps[i], roll, mover)
  {
    if ps == [] then []
    else [if ps[0].id == id then Advance(ps[0], roll, mover) else ps[0]] + MoveMatching(ps[1..], id, roll, mover)
  }

  /** The first piece whose id is `id`, if any. */
  function FindById(ps: seq<Piece>, id: nat): (r: Option<Piece>)
    ensures r.None? <==> forall i :: 0 <= i < |ps| ==> ps[i].id != id
    ensures r.Some? ==> exists i :: 0 <= i < |ps| && ps[i] == r.value && ps[i].id == id
                                   && forall j :: 0 <= j < i ==> ps[j].id != id
  {
    if ps == [] then None
    else if ps[0].id == id then Some(ps[0])
    else
      var r := FindById(ps[1..], id);
      if r.Some? then
        ghost var i :| 0 <= i < |ps[1..]| && ps[1..][i] == r.value && ps[1..][i].id == id
                      && forall j :: 0 <= j < i ==> ps[1..][j].id != id;
        assert ps[i + 1] == r.value;
        r
      else r
  }

  /** Sends every piece standing on `cell` back to its base. */
  function CaptureOn(ps: seq<Piece>, cell: Cell): (r: seq<Piece>)
    ensures |r| == |ps|
    ensures forall i :: 0 <= i < |ps| && ps[i].pos == Track(cell) ==> r[i] == ps[i].(pos := Base, steps := 0)
    ensures forall i :: 0 <= i < |ps| && ps[i].pos != Track(cell) ==> r[i] == ps[i]
  {
    if ps == [] then []
    else [if ps[0].pos == Track(cell) then ps[0].(pos := Base, steps := 0) else ps[0]] + CaptureOn(ps[1..], cell)
  }

  /** The positions of `ps`, piece by piece. */
  function Positions(ps: seq<Piece>): (r: seq<Position>)
    ensures |r| == |ps| && forall i :: 0 <= i < |ps| ==> r[i] == ps[i].pos
  {
    seq(|ps|, i requires 0 <= i < |ps| => ps[i].pos)
  }

  /** Number of pieces standing on `cell`: how often `Track(cell)` occurs
      among their positions. */
  function CountOn(ps: seq<Piece>, cell: Cell): (n: nat)
    ensures n <= |ps|
    ensures n == 0 <==> forall i :: 0 <= i < |ps| ==> ps[i].pos != Track(cell)
    ensures n == multiset(Positions(ps))[Track(cell)]
  {
    if ps == [] then 0
    else
      assert Positions(ps) == [ps[0].pos] + Positions(ps[1..]);
      (if ps[0].pos == Track(cell) then 1 else 0) + CountOn(ps[1..], cell)
  }

  /** After a capture nobody of that colour is left on the cell, and no
      piece that was off it has moved. */
  lemma CaptureClearsCell(ps: seq<Piece>, cell: Cell)
    ensures CountOn(CaptureOn(ps, cell), cell) == 0
    ensures forall i :: 0 <= i < |ps| && ps[i].pos != Track(cell) ==> CaptureOn(ps, cell)[i] == ps[i]
  {
  }

  /** A capture cannot make a side all-finished. */
  lemma CaptureKeepsUnfinished(ps: seq<Piece>, cell: Cell)
    requires !AllFinished(ps)
    ensures !AllFinished(CaptureOn(ps, cell))
  {
    var i :| 0 <= i < |ps| && ps[i].pos != Finished;
    assert CaptureOn(ps, cell)[i].pos != Finished;
  }
}
