/** The per-colour entry cells of the shared track. */
module Constants {
  import opened Types

  /** Number of cells of the shared track. */
  const TrackLength := 52

  /** The cell a colour's pieces enter the track on when they leave base. */
  function StartOffset(c: Color): (cell: Cell)
    ensures cell == 13 * Ordinal(c)
  {
    match c
    case Red => 0
    case Green => 13
    case Yellow => 26
    case Blue => 39
  }

  /** Different colours enter the track on different cells. */
  lemma StartOffsetsDistinct(c: Color, d: Color)
    requires c != d
    ensures StartOffset(c) != StartOffset(d)
  {
  }

  /** In turn order (the declaration order) each entry cell is a quarter of
      the track after the previous one. */
  lemma StartOffsetsQuarterApart(i: nat)
    requires i < |Colors|
    ensures StartOffset(Colors[(i + 1) % 4]) == (StartOffset(Colors[i]) + 13) % TrackLength
  {
  }
}
