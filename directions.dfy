/**
 * Connector directions of a pipe and the two ways the engine turns a
 * direction into a grid offset.
 *
 * Slots are numbered Up = 0, Right = 1, Down = 2, Left = 3.  Maze
 * generation (`getNeighbour`) and the connectivity check (`checkPipes`)
 * use different offsets for the same direction; both are kept here, side
 * by side, as the two cases of `Convention`.
 */
module Directions {

  /** A connector slot: Up, Right, Down or Left. */
  type Direction = d: int | 0 <= d < 4

  const UP: Direction := 0
  const RIGHT: Direction := 1
  const DOWN: Direction := 2
  const LEFT: Direction := 3

  /** The grid's `reverse_direction` table: the slot facing back. */
  function Reverse(d: Direction): (r: Direction)
    ensures r != d
    ensures r == (d + 2) % 4
  {
    if d == DOWN then UP
    else if d == LEFT then RIGHT
    else if d == RIGHT then LEFT
    else DOWN
  }

  lemma ReverseIsInvolution(d: Direction)
    ensures Reverse(Reverse(d)) == d
    ensures (d == UP <==> Reverse(d) == DOWN) && (d == RIGHT <==> Reverse(d) == LEFT)
  {
  }

  /**
   * The offset `Pipe.getNeighbour` adds to (x, y): Right and Left move
   * along x, Up moves to y + 1 and Down to y - 1.
   */
  function NeighbourOffset(d: Direction): (o: (int, int))
    ensures (o.0 == 0) != (o.1 == 0) && -1 <= o.0 <= 1 && -1 <= o.1 <= 1
    ensures o.1 == 0 <==> d == RIGHT || d == LEFT
    ensures o.0 + o.1 == 1 <==> d == RIGHT || d == UP
  {
    var dx := if d == RIGHT then 1 else if d == LEFT then -1 else 0;
    var dy := if d == UP then 1 else if d == DOWN then -1 else 0;
    (dx, dy)
  }

  /**
   * The offset `checkPipes` uses: Up looks at x - 1, Down at x + 1,
   * Right at y + 1 and Left at y - 1.
   */
  function FloodOffset(d: Direction): (o: (int, int))
    ensures (o.0 == 0) != (o.1 == 0) && -1 <= o.0 <= 1 && -1 <= o.1 <= 1
    ensures o.1 == 0 <==> d == UP || d == DOWN
    ensures o.0 + o.1 == 1 <==> d == DOWN || d == RIGHT
  {
    if d == UP then (-1, 0)
    else if d == DOWN then (1, 0)
    else if d == RIGHT then (0, 1)
    else (0, -1)
  }

  /** Which of the two offset tables a walk over the grid follows. */
  datatype Convention = NeighbourConvention | FloodConvention

  function Offset(conv: Convention, d: Direction): (o: (int, int))
  {
    match conv
    case NeighbourConvention => NeighbourOffset(d)
    case FloodConvention => FloodOffset(d)
  }

  /** Every offset is one step along exactly one axis. */
  lemma OffsetIsUnitStep(conv: Convention, d: Direction)
    ensures var o := Offset(conv, d);
      (o.0 == 0 || o.1 == 0) && -1 <= o.0 <= 1 && -1 <= o.1 <= 1 && o != (0, 0)
  {
  }

  /** In both conventions the reverse direction steps straight back. */
  lemma OffsetOfReverse(conv: Convention, d: Direction)
    ensures Offset(conv, Reverse(d)) == (-Offset(conv, d).0, -Offset(conv, d).1)
  {
  }

  /**
   * The two conventions differ by one step of the cyclic order: direction
   * `d` of `getNeighbour` has the offset of direction `(d + 1) % 4` of
   * `checkPipes`.
   */
  lemma ConventionsDifferByOneTurn(d: Direction)
    ensures NeighbourOffset(d) == FloodOffset((d + 1) % 4)
    ensures NeighbourOffset(d) != FloodOffset(d)
  {
  }
}
