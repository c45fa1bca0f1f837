/**
 * A single pipe: its four connector slots, the rotation that turns them,
 * and the `Pipe` object the grid holds for every cell.
 */
module Pipes {
  import opened Directions

  datatype Option<T> = None | Some(value: T)

  /**
   * A pipe's `connections` array: one slot per direction, in the order Up,
   * Right, Down, Left; a slot holding 1 is open.
   */
  datatype Slots = Slots(up: int, right: int, down: int, left: int)
  {
    /** The four-element array itself, index d holding the slot of direction d. */
    function Array(): (a: seq<int>)
      ensures |a| == 4
    {
      [up, right, down, left]
    }

    /** `connections[d]`: element d of the array. */
    function Slot(d: Direction): (v: int)
      ensures v == Array()[d]
    {
      if d == UP then up else if d == RIGHT then right else if d == DOWN then down else left
    }

    /** The array after `connections[d] = 1`. */
    function Opened(d: Direction): (r: Slots)
      ensures r.Slot(d) == 1
      ensures forall e: Direction :: e != d ==> r.Slot(e) == Slot(e)
    {
      if d == UP then this.(up := 1)
      else if d == RIGHT then this.(right := 1)
      else if d == DOWN then this.(down := 1)
      else this.(left := 1)
    }

    /** `connections.indexOf(1) != -1`: some connector is open. */
    predicate AnyOpen(): (b: bool)
      ensures b <==> 1 in Array()
    {
      up == 1 || right == 1 || down == 1 || left == 1
    }
  }

  /** The slots of a freshly created pipe: nothing open. */
  const Closed: Slots := Slots(0, 0, 0, 0)

  /** `connections.indexOf(1) != -1` holds exactly when some direction's slot is 1. */
  lemma AnyOpenIsSomeSlot(s: Slots)
    ensures s.AnyOpen() <==> exists d: Direction :: s.Slot(d) == 1
  {
    if s.AnyOpen() {
      assert s.Slot(UP) == 1 || s.Slot(RIGHT) == 1 || s.Slot(DOWN) == 1 || s.Slot(LEFT) == 1;
    }
  }

  /**
   * One `rotate`: the last slot is cut out and put back in front, so the
   * array [c0, c1, c2, c3] becomes [c3, c0, c1, c2].
   */
  function Rotated(s: Slots): (r: Slots)
    ensures r.Array() == s.Array()[3..] + s.Array()[..3]
  {
    Slots(s.left, s.up, s.right, s.down)
  }

  /** Each slot's value moves one step round the cycle Up, Right, Down, Left: an open Up becomes an open Right. */
  lemma RotatedMovesSlot(s: Slots, d: Direction)
    ensures Rotated(s).Slot((d + 1) % 4) == s.Slot(d)
  {
  }

  /** How many connectors of the pipe are open, i.e. how many slots hold 1. */
  function OpenCount(s: Slots): (k: nat)
  {
    (if s.up == 1 then 1 else 0) + (if s.right == 1 then 1 else 0) +
    (if s.down == 1 then 1 else 0) + (if s.left == 1 then 1 else 0)
  }

  /** The open count is 0 exactly when `connections.indexOf(1)` finds nothing. */
  lemma OpenCountZero(s: Slots)
    ensures OpenCount(s) == 0 <==> !s.AnyOpen()
  {
  }

  /** `k` rotations in a row. */
  function Turned(s: Slots, k: nat): (r: Slots)
    decreases k
  {
    if k == 0 then s else Rotated(Turned(s, k - 1))
  }

  lemma {:induction false} TurnedMovesSlots(s: Slots, k: nat, d: Direction)
    ensures Turned(s, k).Slot((d + k) % 4) == s.Slot(d)
    decreases k
  {
    if k > 0 {
      TurnedMovesSlots(s, k - 1, d);
      var e: Direction := (d + k - 1) % 4;
      assert (e + 1) % 4 == (d + k) % 4;
      RotatedMovesSlot(Turned(s, k - 1), e);
    }
  }

  /** Rotating a pipe any number of times keeps its number of open connectors. */
  lemma {:induction false} TurnedKeepsOpenCount(s: Slots, k: nat)
    ensures OpenCount(Turned(s, k)) == OpenCount(s)
    decreases k
  {
    if k > 0 {
      TurnedKeepsOpenCount(s, k - 1);
    }
  }

  /** Four rotations give the pipe back unchanged. */
  lemma FourTurnsAreIdentity(s: Slots)
    ensures Turned(s, 4) == s
  {
    var r := Turned(s, 4);
    forall d: Direction
      ensures r.Slot(d) == s.Slot(d)
    {
      TurnedMovesSlots(s, 4, d);
      assert (d + 4) % 4 == d;
    }
    assert r.Slot(UP) == s.Slot(UP) && r.Slot(RIGHT) == s.Slot(RIGHT);
    assert r.Slot(DOWN) == s.Slot(DOWN) && r.Slot(LEFT) == s.Slot(LEFT);
  }

  lemma {:induction false} TurnsAdd(s: Slots, a: nat, b: nat)
    ensures Turned(Turned(s, a), b) == Turned(s, a + b)
    decreases b
  {
    if b > 0 {
      TurnsAdd(s, a, b - 1);
    }
  }

  /** Only the number of rotations modulo four matters. */
  lemma {:induction false} TurnsModFour(s: Slots, k: nat)
    ensures Turned(s, k) == Turned(s, k % 4)
    decreases k
  {
    if k >= 4 {
      TurnsModFour(s, k - 4);
      TurnsAdd(s, k - 4, 4);
      FourTurnsAreIdentity(Turned(s, k - 4));
      assert k % 4 == (k - 4) % 4;
    }
  }

  /**
   * A grid cell.  The coordinates are set once, when the grid creates the
   * pipe, and never change; `active` and `connections` are updated in
   * place by the grid.
   */
  class Pipe {
    const x: int
    const y: int
    var active: int
    var connections: Slots

    /** `new Pipe()` followed by the assignments of `x` and `y`. */
    constructor (x: int, y: int)
      ensures this.x == x && this.y == y
      ensures active == 0 && connections == Closed
    {
      this.x := x;
      this.y := y;
      active := 0;
      connections := Closed;
    }

    /** `new Pipe()` followed by the four field assignments of `load`. */
    constructor Restored(x: int, y: int, connections: Slots, active: int)
      ensures this.x == x && this.y == y
      ensures this.connections == connections && this.active == active
    {
      this.x := x;
      this.y := y;
      this.active := active;
      this.connections := connections;
    }

    /** `isActive`: the flag is exactly 1; any other stored value reads as inactive. */
    predicate IsActive(): (b: bool)
      reads this`active
      ensures b <==> active == 1
    {
      active == 1
    }

    /** Stores 1 for true and 0 for false, so that `IsActive` reads back the flag. */
    method SetActive(on: bool)
      modifies this`active
      ensures active == (if on then 1 else 0)
      ensures IsActive() == on
    {
      active := if on then 1 else 0;
    }

    /** `hasConnection`: element d of the `connections` array is exactly 1. */
    predicate HasConnection(d: Direction): (b: bool)
      reads this`connections
      ensures b <==> connections.Array()[d] == 1
    {
      connections.Slot(d) == 1
    }

    /**
     * `rotate`: an open Up becomes an open Right, and so on round the
     * cycle; the flag and the coordinates stay.
     */
    method Rotate()
      modifies this`connections
      ensures connections == Rotated(old(connections))
      ensures forall d: Direction :: HasConnection((d + 1) % 4) == old(HasConnection(d))
      ensures OpenCount(connections) == OpenCount(old(connections))
    {
      connections := Rotated(connections);
    }

    /** The inner loop of `scramblePipes`: `rotate` called k times in a row. */
    method RotateTimes(k: nat)
      modifies this`connections
      ensures connections == Turned(old(connections), k)
    {
      var i := 0;
      while i < k
        invariant 0 <= i <= k
        invariant connections == Turned(old(connections), i)
      {
        Rotate();
        i := i + 1;
      }
    }
  }
}
