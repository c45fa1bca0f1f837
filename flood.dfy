/**
 * The connectivity check of `checkPipes`, seen on cells: a depth-first
 * flood from the centre along matched connector pairs, under its own
 * offsets.  The loop's state is the set of lit cells, the cells of the
 * pipes on the stack and the cells of `connected_pipes`; the lemmas show
 * that the loop keeps an invariant from which, once the stack is empty,
 * the lit cells are exactly those reachable from the centre.
 */
module Flood {
  import opened Directions
  import opened Pipes
  import opened Boards

  /**
   * The state of the `checkPipes` loop: the cells whose pipe is active, the
   * cells of the pipes on `stack` (top last) and those of `connected_pipes`,
   * in the order they were lit.
   */
  datatype Search = Search(lit: set<Cell>, stack: seq<Cell>, connected: seq<Cell>)

  /** After the centre pipe is marked active and pushed on both lists. */
  function Start(n: int): (s: Search)
    requires n >= 1
    ensures s.stack == [CentreCell(n)] && s.lit == {CentreCell(n)}
  {
    var m := CentreCell(n);
    Search({m}, [m], [m])
  }

  /**
   * One direction check for the popped cell c: if c is open towards d,
   * the cell there exists and is open back, and it is not lit yet, it is
   * lit and pushed on both lists.
   */
  function Look(B: Board, c: Cell, d: Direction, s: Search): (r: Search)
    ensures s.lit <= r.lit && |r.lit| <= |s.lit| + 1
    ensures forall a :: a in r.lit && a !in s.lit ==> a == Step(FloodConvention, c, d) && Linked(B, FloodConvention, c, d)
    ensures Linked(B, FloodConvention, c, d) ==> Step(FloodConvention, c, d) in r.lit
  {
    var q := Step(FloodConvention, c, d);
    if Linked(B, FloodConvention, c, d) && q !in s.lit then
      Search(s.lit + {q}, s.stack + [q], s.connected + [q])
    else
      s
  }

  /** The loop body for the popped cell c: the checks Up, Down, Right, Left, in that order. */
  function Expand(B: Board, c: Cell, s: Search): (r: Search)
    ensures s.lit <= r.lit
    ensures forall e: Direction :: Linked(B, FloodConvention, c, e) ==> Step(FloodConvention, c, e) in r.lit
  {
    Look(B, c, LEFT, Look(B, c, RIGHT, Look(B, c, DOWN, Look(B, c, UP, s))))
  }

  /** One turn of the loop: pop the top cell and run the four checks for it. */
  function Next(B: Board, s: Search): (r: Search)
    requires |s.stack| > 0
    ensures s.lit <= r.lit
    ensures var c := s.stack[|s.stack| - 1];
      forall e: Direction :: Linked(B, FloodConvention, c, e) ==> Step(FloodConvention, c, e) in r.lit
  {
    Expand(B, s.stack[|s.stack| - 1], s.(stack := s.stack[..|s.stack| - 1]))
  }

  /** Every link out of cell a ends in a lit cell. */
  ghost predicate Settled(B: Board, s: Search, a: Cell)
  {
    forall e: Direction :: Linked(B, FloodConvention, a, e) ==> Step(FloodConvention, a, e) in s.lit
  }

  /**
   * What holds of the state whatever the stack: the lit cells lie on the
   * grid, include the centre and are reachable from it, the stack and
   * `connected_pipes` hold lit cells only, and `connected_pipes` lists
   * every lit cell exactly once.
   */
  ghost predicate Sound(n: int, B: Board, s: Search)
  {
    n >= 1 && Covers(n, B) &&
    (forall a :: a in s.lit ==> InGrid(n, a)) &&
    CentreCell(n) in s.lit &&
    (forall a :: a in s.lit ==> Reachable(B, FloodConvention, CentreCell(n), a)) &&
    (forall a :: a in s.stack ==> a in s.lit) &&
    (forall a :: a in s.connected ==> a in s.lit) &&
    Distinct(s.connected) && |s.connected| == |s.lit|
  }

  /** The loop invariant: in addition, a lit cell that is off the stack has all its links lit. */
  ghost predicate SearchInv(n: int, B: Board, s: Search)
  {
    Sound(n, B, s) &&
    forall a :: a in s.lit && a !in s.stack ==> Settled(B, s, a)
  }

  /**
   * The invariant in the middle of the loop body for the popped cell c,
   * after the checks of the directions in D: c itself is settled only
   * in the directions of D so far.
   */
  ghost predicate Expanding(n: int, B: Board, c: Cell, D: set<Direction>, s: Search)
  {
    Sound(n, B, s) && c in s.lit &&
    (forall a :: a in s.lit && a !in s.stack && a != c ==> Settled(B, s, a)) &&
    (forall e: Direction :: e in D && Linked(B, FloodConvention, c, e) ==> Step(FloodConvention, c, e) in s.lit)
  }

  /** The state the loop starts from satisfies the invariant. */
  lemma StartInv(n: int, B: Board)
    requires n >= 1 && Covers(n, B)
    ensures SearchInv(n, B, Start(n))
  {
    ReachableFromItself(B, FloodConvention, CentreCell(n));
  }

  /** Popping the top cell c leaves the invariant for c with no direction checked. */
  lemma PopInv(n: int, B: Board, s: Search)
    requires SearchInv(n, B, s) && |s.stack| > 0
    ensures var c := s.stack[|s.stack| - 1];
      Expanding(n, B, c, {}, s.(stack := s.stack[..|s.stack| - 1]))
  {
    var c := s.stack[|s.stack| - 1];
    var s0 := s.(stack := s.stack[..|s.stack| - 1]);
    assert s.stack == s0.stack + [c];
    forall a | a in s0.lit && a !in s0.stack && a != c
      ensures Settled(B, s0, a)
    {
      assert a !in s.stack;
    }
  }

  /** Checking one more direction d keeps the invariant and settles c in d. */
  lemma LookInv(n: int, B: Board, c: Cell, D: set<Direction>, d: Direction, s: Search)
    requires Expanding(n, B, c, D, s)
    ensures Expanding(n, B, c, D + {d}, Look(B, c, d, s))
  {
    var q := Step(FloodConvention, c, d);
    if Linked(B, FloodConvention, c, d) && q !in s.lit {
      var r := Look(B, c, d, s);
      ReachableStep(B, FloodConvention, CentreCell(n), c, d);
      assert |r.lit| == |s.lit| + 1;
      forall a | a in r.lit && a !in r.stack && a != c
        ensures Settled(B, r, a)
      {
        assert a in s.lit && a !in s.stack;
      }
    }
  }

  /** After the check of all four directions, c is settled and the loop invariant holds again. */
  lemma FinishInv(n: int, B: Board, c: Cell, D: set<Direction>, s: Search)
    requires Expanding(n, B, c, D, s) && UP in D && DOWN in D && RIGHT in D && LEFT in D
    ensures SearchInv(n, B, s)
  {
    forall e: Direction | Linked(B, FloodConvention, c, e)
      ensures Step(FloodConvention, c, e) in s.lit
    {
      assert e in D;
    }
  }

  /** The four direction checks for the popped cell c, in the engine's order, settle c. */
  lemma ExpandInv(n: int, B: Board, c: Cell, s: Search)
    requires Expanding(n, B, c, {}, s)
    ensures SearchInv(n, B, Expand(B, c, s))
  {
    var s1 := Look(B, c, UP, s);
    LookInv(n, B, c, {}, UP, s);
    var s2 := Look(B, c, DOWN, s1);
    LookInv(n, B, c, {} + {UP}, DOWN, s1);
    var s3 := Look(B, c, RIGHT, s2);
    LookInv(n, B, c, {} + {UP} + {DOWN}, RIGHT, s2);
    LookInv(n, B, c, {} + {UP} + {DOWN} + {RIGHT}, LEFT, s3);
    FinishInv(n, B, c, {} + {UP} + {DOWN} + {RIGHT} + {LEFT}, Expand(B, c, s));
  }

  /** A direction check either changes nothing or lights one cell and pushes it. */
  lemma LookGrows(B: Board, c: Cell, d: Direction, s: Search)
    ensures var r := Look(B, c, d, s); var q := Step(FloodConvention, c, d);
      (r == s && (q in s.lit || !Linked(B, FloodConvention, c, d))) ||
      (q !in s.lit && Linked(B, FloodConvention, c, d) &&
       r == Search(s.lit + {q}, s.stack + [q], s.connected + [q]))
  {
  }

  /** The four checks either change nothing or light at least one cell. */
  lemma ExpandGrows(B: Board, c: Cell, s: Search)
    ensures var r := Expand(B, c, s);
      r == s || |r.connected| > |s.connected|
  {
    var s1 := Look(B, c, UP, s);
    var s2 := Look(B, c, DOWN, s1);
    var s3 := Look(B, c, RIGHT, s2);
    LookGrows(B, c, UP, s);
    LookGrows(B, c, DOWN, s1);
    LookGrows(B, c, RIGHT, s2);
    LookGrows(B, c, LEFT, s3);
  }

  /**
   * One turn of the loop keeps the invariant, and either lights a cell or
   * shrinks the stack, while at most n * n cells are ever lit: the loop
   * ends.
   */
  lemma ExpandKeepsInv(n: int, B: Board, s: Search)
    requires SearchInv(n, B, s) && |s.stack| > 0
    ensures var r := Next(B, s);
      SearchInv(n, B, r) && |r.connected| <= n * n &&
      (|r.connected| > |s.connected| || (r.connected == s.connected && |r.stack| < |s.stack|))
  {
    var c := s.stack[|s.stack| - 1];
    var s0 := s.(stack := s.stack[..|s.stack| - 1]);
    PopInv(n, B, s);
    ExpandInv(n, B, c, s0);
    ExpandGrows(B, c, s0);
    FullSubsetIsGrid(n, Next(B, s).lit);
  }

  /**
   * When the stack is empty the lit cells are exactly the cells reachable
   * from the centre, and `connected_pipes` has n * n entries exactly when
   * every cell is lit.
   */
  lemma SearchDone(n: int, B: Board, s: Search)
    requires SearchInv(n, B, s) && s.stack == []
    ensures forall c :: InGrid(n, c) ==> (c in s.lit <==> Reachable(B, FloodConvention, CentreCell(n), c))
    ensures |s.connected| == n * n <==> forall c :: InGrid(n, c) ==> c in s.lit
  {
    assert ClosedUnderLinks(B, FloodConvention, s.lit) by {
      forall a, d: Direction | a in s.lit && Linked(B, FloodConvention, a, d)
        ensures Step(FloodConvention, a, d) in s.lit
      {
        assert Settled(B, s, a);
      }
    }
    forall c | InGrid(n, c) && Reachable(B, FloodConvention, CentreCell(n), c)
      ensures c in s.lit
    {
      ClosedSetHoldsReachable(B, FloodConvention, s.lit, CentreCell(n), c);
    }
    FullSubsetIsGrid(n, s.lit);
  }
}
