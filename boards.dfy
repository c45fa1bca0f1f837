/**
 * The grid seen as a value: a board maps each cell (x, y) to the slots of
 * the pipe there.  Here are the links between neighbouring pipes, walks
 * along links, reachability, and the row-by-row order of the cells.
 */
module Boards {
  import opened Directions
  import opened Pipes

  type Cell = (int, int)
  type Board = map<Cell, Slots>

  /** The cells of a size-n grid: 1 <= x <= n and 1 <= y <= n. */
  predicate InGrid(n: int, c: Cell)
  {
    1 <= c.0 <= n && 1 <= c.1 <= n
  }

  /** `Math.ceil(size / 2)`. */
  function Centre(n: int): (m: int)
    requires n >= 1
    ensures 1 <= m <= n && n <= 2 * m <= n + 1
  {
    (n + 1) / 2
  }

  function CentreCell(n: int): (c: Cell)
    requires n >= 1
    ensures InGrid(n, c)
  {
    (Centre(n), Centre(n))
  }

  /** The board has a pipe exactly at the cells of the size-n grid. */
  ghost predicate Covers(n: int, B: Board)
  {
    forall c :: c in B <==> InGrid(n, c)
  }

  /** A board of n×n pipes with nothing open, as `initPipes` leaves it. */
  function ClosedBoard(n: int): (B: Board)
    ensures Covers(n, B)
    ensures forall c :: c in B ==> B[c] == Closed
  {
    map c | c in AllCells(n) :: Closed
  }

  function AllCells(n: int): (cells: set<Cell>)
    ensures forall c :: c in cells <==> InGrid(n, c)
  {
    set x, y | 1 <= x <= n && 1 <= y <= n :: (x, y)
  }

  /** The `active` flags of an n×n grid on which exactly the cells of A are lit. */
  ghost function Lit(n: int, A: set<Cell>): (F: map<Cell, int>)
  {
    map c | c in AllCells(n) :: if c in A then 1 else 0
  }

  /** Lighting one more grid cell q adds q to the lit set and changes no other flag. */
  lemma LitOneMore(n: int, A: set<Cell>, q: Cell)
    requires InGrid(n, q)
    ensures Lit(n, A)[q := 1] == Lit(n, A + {q})
  {
    var F, G := Lit(n, A)[q := 1], Lit(n, A + {q});
    assert forall c :: c in F ==> F[c] == G[c];
    assert F.Keys == G.Keys;
  }

  /** The cell one step from c in direction d, under a convention. */
  function Step(conv: Convention, c: Cell, d: Direction): (q: Cell)
    ensures q != c
  {
    (c.0 + Offset(conv, d).0, c.1 + Offset(conv, d).1)
  }

  /**
   * c and its neighbour in direction d face each other with open
   * connectors: c has d open and the neighbour exists and has the reverse
   * of d open.
   */
  predicate Linked(B: Board, conv: Convention, c: Cell, d: Direction): (b: bool)
    ensures b ==> IsOpen(B, c, d) && IsOpen(B, Step(conv, c, d), Reverse(d)) && Step(conv, c, d) != c
  {
    c in B && B[c].Slot(d) == 1 &&
    Step(conv, c, d) in B && B[Step(conv, c, d)].Slot(Reverse(d)) == 1
  }

  predicate IsOpen(B: Board, c: Cell, d: Direction)
  {
    c in B && B[c].Slot(d) == 1
  }

  /** Every open connector of the board faces an open connector of its neighbour. */
  ghost predicate Matched(B: Board, conv: Convention)
  {
    forall c, d: Direction :: IsOpen(B, c, d) ==> Linked(B, conv, c, d)
  }

  /** A link can be followed back: the neighbour is linked to c by the reverse direction. */
  lemma LinkedIsSymmetric(B: Board, conv: Convention, c: Cell, d: Direction)
    requires Linked(B, conv, c, d)
    ensures Step(conv, Step(conv, c, d), Reverse(d)) == c
    ensures Linked(B, conv, Step(conv, c, d), Reverse(d))
  {
    OffsetOfReverse(conv, d);
    ReverseIsInvolution(d);
  }

  ghost predicate Adjacent(B: Board, conv: Convention, a: Cell, b: Cell)
  {
    exists d: Direction :: Linked(B, conv, a, d) && Step(conv, a, d) == b
  }

  /** A non-empty sequence of cells of the board, each linked to the next. */
  ghost predicate IsWalk(B: Board, conv: Convention, w: seq<Cell>)
  {
    |w| > 0 && w[0] in B &&
    forall i :: 0 <= i < |w| - 1 ==> Adjacent(B, conv, w[i], w[i + 1])
  }

  ghost predicate Reachable(B: Board, conv: Convention, s: Cell, t: Cell)
  {
    exists w :: IsWalk(B, conv, w) && w[0] == s && w[|w| - 1] == t
  }

  lemma ReachableFromItself(B: Board, conv: Convention, s: Cell)
    requires s in B
    ensures Reachable(B, conv, s, s)
  {
    assert IsWalk(B, conv, [s]);
  }

  /** A walk can be extended along a link out of its last cell. */
  lemma ReachableStep(B: Board, conv: Convention, s: Cell, a: Cell, d: Direction)
    requires Reachable(B, conv, s, a) && Linked(B, conv, a, d)
    ensures Reachable(B, conv, s, Step(conv, a, d))
  {
    var w :| IsWalk(B, conv, w) && w[0] == s && w[|w| - 1] == a;
    var w' := w + [Step(conv, a, d)];
    forall i | 0 <= i < |w'| - 1
      ensures Adjacent(B, conv, w'[i], w'[i + 1])
    {
      if i < |w| - 1 {
        assert w'[i] == w[i] && w'[i + 1] == w[i + 1];
      } else {
        assert w'[i] == a && w'[i + 1] == Step(conv, a, d);
      }
    }
    assert IsWalk(B, conv, w');
  }

  /** R is closed under following links: a flood fill that has stopped. */
  ghost predicate ClosedUnderLinks(B: Board, conv: Convention, R: set<Cell>)
  {
    forall a, d: Direction :: a in R && Linked(B, conv, a, d) ==> Step(conv, a, d) in R
  }

  lemma {:induction false} WalkStaysInClosedSet(B: Board, conv: Convention, R: set<Cell>, w: seq<Cell>, i: nat)
    requires IsWalk(B, conv, w) && w[0] in R && ClosedUnderLinks(B, conv, R)
    requires i < |w|
    ensures w[i] in R
    decreases i
  {
    if i > 0 {
      WalkStaysInClosedSet(B, conv, R, w, i - 1);
      assert Adjacent(B, conv, w[i - 1], w[i]);
      var d: Direction :| Linked(B, conv, w[i - 1], d) && Step(conv, w[i - 1], d) == w[i];
    }
  }

  /** Every cell reachable from a member of a closed set is in the set. */
  lemma ClosedSetHoldsReachable(B: Board, conv: Convention, R: set<Cell>, s: Cell, t: Cell)
    requires s in R && ClosedUnderLinks(B, conv, R)
    requires Reachable(B, conv, s, t)
    ensures t in R
  {
    var w :| IsWalk(B, conv, w) && w[0] == s && w[|w| - 1] == t;
    WalkStaysInClosedSet(B, conv, R, w, |w| - 1);
  }

  /** Every pipe of the board turned once. */
  function TurnAll(B: Board): (T: Board)
    ensures T.Keys == B.Keys
    ensures forall c :: c in B ==> T[c] == Rotated(B[c])
  {
    map c | c in B :: Rotated(B[c])
  }

  /**
   * A link that `getNeighbour` would follow in direction d is, once every
   * pipe is turned once, exactly a link that `checkPipes` follows in
   * direction d + 1, to the same cell.
   */
  lemma NeighbourLinkIsFloodLinkAfterTurn(B: Board, c: Cell, d: Direction)
    ensures Step(NeighbourConvention, c, d) == Step(FloodConvention, c, (d + 1) % 4)
    ensures Linked(B, NeighbourConvention, c, d) <==> Linked(TurnAll(B), FloodConvention, c, (d + 1) % 4)
  {
    ConventionsDifferByOneTurn(d);
    var e: Direction := (d + 1) % 4;
    assert Reverse(e) == (Reverse(d) + 1) % 4;
    var q := Step(NeighbourConvention, c, d);
    if c in B {
      RotatedMovesSlot(B[c], d);
    }
    if q in B {
      RotatedMovesSlot(B[q], Reverse(d));
    }
  }

  lemma {:induction false} NeighbourWalkIsFloodWalkAfterTurn(B: Board, w: seq<Cell>)
    requires IsWalk(B, NeighbourConvention, w)
    ensures IsWalk(TurnAll(B), FloodConvention, w)
  {
    var T := TurnAll(B);
    forall i | 0 <= i < |w| - 1
      ensures Adjacent(T, FloodConvention, w[i], w[i + 1])
    {
      assert Adjacent(B, NeighbourConvention, w[i], w[i + 1]);
      var d: Direction :| Linked(B, NeighbourConvention, w[i], d) && Step(NeighbourConvention, w[i], d) == w[i + 1];
      NeighbourLinkIsFloodLinkAfterTurn(B, w[i], d);
      var e: Direction := (d + 1) % 4;
      assert Linked(T, FloodConvention, w[i], e) && Step(FloodConvention, w[i], e) == w[i + 1];
    }
  }

  lemma ReachableAfterTurn(B: Board, s: Cell, t: Cell)
    requires Reachable(B, NeighbourConvention, s, t)
    ensures Reachable(TurnAll(B), FloodConvention, s, t)
  {
    var w :| IsWalk(B, NeighbourConvention, w) && w[0] == s && w[|w| - 1] == t;
    NeighbourWalkIsFloodWalkAfterTurn(B, w);
  }

  // ---------------------------------------------------------------------
  // Row-by-row order of the cells and counting

  ghost predicate Distinct<T>(s: seq<T>)
  {
    forall i, j :: 0 <= i < j < |s| ==> s[i] != s[j]
  }

  /** The cells (x, 1), ..., (x, k) of row x. */
  function RowOrder(x: int, k: nat): (r: seq<Cell>)
    ensures |r| == k
    ensures forall i :: 0 <= i < k ==> r[i] == (x, i + 1)
  {
    if k == 0 then [] else RowOrder(x, k - 1) + [(x, k)]
  }

  /** Rows 1 to m of n cells each, in the order `for x .. for y ..` visits them. */
  function GridOrder(n: nat, m: nat): (r: seq<Cell>)
    ensures forall i :: 0 <= i < |r| ==> 1 <= r[i].0 <= m && 1 <= r[i].1 <= n
  {
    if m == 0 then [] else GridOrder(n, m - 1) + RowOrder(m, n)
  }

  lemma RowOrderCells(x: int, k: nat)
    ensures Distinct(RowOrder(x, k))
    ensures forall c :: c in RowOrder(x, k) <==> c.0 == x && 1 <= c.1 <= k
  {
    var r := RowOrder(x, k);
    forall c: Cell | c.0 == x && 1 <= c.1 <= k
      ensures c in r
    {
      assert r[c.1 - 1] == c;
    }
  }

  lemma MulSucc(m: int, n: int)
    ensures m * n == (m - 1) * n + n
  {
  }

  /** The listing of rows 1..m has m·n entries. */
  lemma {:induction false} GridOrderLength(n: nat, m: nat)
    ensures |GridOrder(n, m)| == m * n
    decreases m
  {
    if m > 0 {
      GridOrderLength(n, m - 1);
      MulSucc(m, n);
    }
  }

  /** Two repeat-free lists with no common element join into a repeat-free list. */
  lemma DistinctConcat<T>(a: seq<T>, b: seq<T>)
    requires Distinct(a) && Distinct(b)
    requires forall e :: e in a ==> e !in b
    ensures Distinct(a + b)
  {
    forall i, j | 0 <= i < j < |a + b|
      ensures (a + b)[i] != (a + b)[j]
    {
      if j < |a| {
        assert (a + b)[i] == a[i] && (a + b)[j] == a[j];
      } else if i >= |a| {
        assert (a + b)[i] == b[i - |a|] && (a + b)[j] == b[j - |a|];
      } else {
        assert (a + b)[i] in a && (a + b)[j] in b;
      }
    }
  }

  /** The listing has no repeats and holds exactly the cells of rows 1..m. */
  lemma {:induction false} GridOrderCells(n: nat, m: nat)
    ensures Distinct(GridOrder(n, m))
    ensures forall c :: c in GridOrder(n, m) <==> 1 <= c.0 <= m && 1 <= c.1 <= n
    decreases m
  {
    if m > 0 {
      GridOrderCells(n, m - 1);
      RowOrderCells(m, n);
      var a := GridOrder(n, m - 1);
      var b := RowOrder(m, n);
      assert GridOrder(n, m) == a + b;
      DistinctConcat(a, b);
      forall c: Cell
        ensures c in a + b <==> 1 <= c.0 <= m && 1 <= c.1 <= n
      {
        assert c in a + b <==> c in a || c in b;
      }
    }
  }

  /** Cell a comes before cell b when `for x .. for y ..` visits them: by row, then by column. */
  predicate RowMajorBefore(a: Cell, b: Cell)
  {
    a.0 < b.0 || (a.0 == b.0 && a.1 < b.1)
  }

  /** The listing visits the cells row by row and, within a row, column by column. */
  lemma {:induction false} GridOrderIsRowMajor(n: nat, m: nat)
    ensures forall i, j :: 0 <= i < j < |GridOrder(n, m)| ==> RowMajorBefore(GridOrder(n, m)[i], GridOrder(n, m)[j])
    decreases m
  {
    if m > 0 {
      GridOrderIsRowMajor(n, m - 1);
      var a, b := GridOrder(n, m - 1), RowOrder(m, n);
      var r := GridOrder(n, m);
      assert r == a + b;
      forall i, j | 0 <= i < j < |r|
        ensures RowMajorBefore(r[i], r[j])
      {
        if j < |a| {
          assert r[i] == a[i] && r[j] == a[j];
        } else if i >= |a| {
          assert r[i] == b[i - |a|] && r[j] == b[j - |a|];
        } else {
          assert r[i] == a[i] && r[j] == b[j - |a|];
        }
      }
    }
  }

  lemma {:induction false} DistinctCardinality<T>(s: seq<T>)
    requires Distinct(s)
    ensures |set i | 0 <= i < |s| :: s[i]| == |s|
    decreases |s|
  {
    if |s| > 0 {
      var t := s[..|s| - 1];
      DistinctCardinality(t);
      var A := set i | 0 <= i < |t| :: t[i];
      var B := set i | 0 <= i < |s| :: s[i];
      assert B == A + {s[|s| - 1]} by {
        forall e | e in B ensures e in A + {s[|s| - 1]} {
          var i :| 0 <= i < |s| && s[i] == e;
          if i < |s| - 1 { assert t[i] == e; }
        }
        forall e | e in A ensures e in B {
          var i :| 0 <= i < |t| && t[i] == e;
          assert s[i] == e;
        }
      }
      forall i | 0 <= i < |t|
        ensures t[i] != s[|s| - 1]
      {
        assert t[i] == s[i];
      }
    }
  }

  /** The size-n grid has n·n cells. */
  lemma GridHasSquareManyCells(n: nat)
    ensures |AllCells(n)| == n * n
  {
    var r := GridOrder(n, n);
    GridOrderLength(n, n);
    GridOrderCells(n, n);
    DistinctCardinality(r);
    assert (set i | 0 <= i < |r| :: r[i]) == AllCells(n) by {
      forall c | c in AllCells(n)
        ensures c in (set i | 0 <= i < |r| :: r[i])
      {
        assert c in r;
        var i :| 0 <= i < |r| && r[i] == c;
      }
    }
  }

  /** A subset of the grid's cells with n·n members is the whole grid. */
  lemma FullSubsetIsGrid(n: nat, A: set<Cell>)
    requires forall c :: c in A ==> InGrid(n, c)
    ensures |A| <= n * n
    ensures |A| == n * n <==> A == AllCells(n)
  {
    GridHasSquareManyCells(n);
    var G := AllCells(n);
    assert A <= G;
    assert G == A + (G - A);
    assert |G| == |A| + |G - A|;
    if A != G {
      var c :| c in G - A;
      assert |G - A| > 0;
    }
  }

  /**
   * A repeat-free sequence of grid cells has at most n·n entries, and one
   * with exactly n·n entries lists every cell.
   */
  lemma DistinctCellsFillGrid(n: nat, S: seq<Cell>)
    requires Distinct(S)
    requires forall i :: 0 <= i < |S| ==> InGrid(n, S[i])
    ensures |S| <= n * n
    ensures |S| == n * n ==> forall c :: InGrid(n, c) ==> c in S
  {
    var A := set i | 0 <= i < |S| :: S[i];
    DistinctCardinality(S);
    FullSubsetIsGrid(n, A);
    if |S| == n * n {
      forall c | InGrid(n, c)
        ensures c in S
      {
        assert c in AllCells(n);
        var i :| 0 <= i < |S| && S[i] == c;
      }
    }
  }
}
