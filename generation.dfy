/**
 * Maze generation and scrambling as functions on boards.
 *
 * `buildPipes` grows a tree of pipes from the centre: it repeatedly picks
 * a member of the tree and a direction, and when the neighbour in that
 * direction (under the `getNeighbour` offsets) exists and has no
 * connector open yet, it opens the facing pair and adds the neighbour.
 * The random numbers are passed in.
 */
module Generation {
  import opened Directions
  import opened Pipes
  import opened Boards

  /** A value of `Math.random()`. */
  type Random = r: real | 0.0 <= r < 1.0

  /** One loop turn of `buildPipes` draws a tree member and a direction. */
  type Draw = (Random, Random)

  /** `Math.floor(r * n)`: the index that random number r picks below n. */
  function Pick(r: Random, n: nat): (i: nat)
    requires n > 0
    ensures i < n
  {
    var p := r * n as real;
    assert 0.0 <= p < n as real by {
      assert r * n as real < 1.0 * n as real;
    }
    p.Floor
  }

  ghost predicate Members(B: Board, S: seq<Cell>)
  {
    forall i :: 0 <= i < |S| ==> S[i] in B
  }

  /**
   * One turn of the `buildPipes` loop: pick member p and direction d; if
   * p's neighbour q exists and has no open connector, open d on p and the
   * reverse of d on q, and add q to the tree.
   */
  function BuildStep(B: Board, S: seq<Cell>, draw: Draw): (r: (Board, seq<Cell>))
    requires |S| > 0 && Members(B, S)
    ensures r.0.Keys == B.Keys && Members(r.0, r.1)
    ensures r.1 == S || (|r.1| == |S| + 1 && r.1[..|S|] == S)
  {
    var p := S[Pick(draw.0, |S|)];
    var d: Direction := Pick(draw.1, 4);
    var q := Step(NeighbourConvention, p, d);
    if q in B && !B[q].AnyOpen() then
      (B[p := B[p].Opened(d)][q := B[q].Opened(Reverse(d))], S + [q])
    else
      (B, S)
  }

  /**
   * The `buildPipes` loop run on a finite supply of draws: it stops when
   * the tree holds n·n pipes or when the draws run out.
   */
  function Build(n: int, B: Board, S: seq<Cell>, draws: seq<Draw>): (r: (Board, seq<Cell>))
    requires |S| > 0 && Members(B, S)
    ensures r.0.Keys == B.Keys && Members(r.0, r.1)
    ensures |r.1| >= |S| && r.1[..|S|] == S
    decreases |draws|
  {
    if |S| >= n * n || draws == [] then
      (B, S)
    else
      var next := BuildStep(B, S, draws[0]);
      Build(n, next.0, next.1, draws[1..])
  }

  /** A loop that finds the tree complete or the draws used up stops where it is. */
  lemma BuildStops(n: int, B: Board, S: seq<Cell>, draws: seq<Draw>)
    requires |S| > 0 && Members(B, S) && (|S| >= n * n || draws == [])
    ensures Build(n, B, S, draws) == (B, S)
  {
  }

  /** A loop turn that finds the tree incomplete and a draw left takes one `BuildStep`. */
  lemma BuildUnfolds(n: int, B: Board, S: seq<Cell>, draws: seq<Draw>, k: int)
    requires |S| > 0 && Members(B, S) && |S| < n * n && 0 <= k < |draws|
    ensures var next := BuildStep(B, S, draws[k]);
      Build(n, B, S, draws[k..]) == Build(n, next.0, next.1, draws[k + 1..])
  {
    assert draws[k..][0] == draws[k] && draws[k..][1..] == draws[k + 1..];
  }

  /** The open connector slots of a board, each as (cell, direction). */
  ghost function OpenSlots(B: Board): (O: set<(Cell, int)>)
  {
    set c, d | c in B && 0 <= d < 4 && B[c].Slot(d) == 1 :: (c, d)
  }

  /** Member i of the tree hangs, by one link, on a member added before it. */
  ghost predicate Attached(B: Board, S: seq<Cell>, i: int)
    requires 0 <= i < |S|
  {
    exists j, d: Direction :: 0 <= j < i && Linked(B, NeighbourConvention, S[j], d) && Step(NeighbourConvention, S[j], d) == S[i]
  }

  /**
   * What the `buildPipes` loop keeps: the tree starts at the centre and
   * has distinct members; pipes outside it have no connector open (and
   * inside it, once it has grown, every pipe has one); every open connector
   * faces an open connector of its neighbour; every member after the first
   * hangs on an earlier one; and the open connectors are 2·(|S| - 1), one
   * pair per member added.
   */
  ghost predicate TreeInv(n: int, B: Board, S: seq<Cell>)
  {
    n >= 1 && Covers(n, B) &&
    |S| > 0 && S[0] == CentreCell(n) && Members(B, S) && Distinct(S) &&
    (forall c :: c in B && c !in S ==> !B[c].AnyOpen()) &&
    (|S| > 1 ==> forall i :: 0 <= i < |S| ==> B[S[i]].AnyOpen()) &&
    Matched(B, NeighbourConvention) &&
    (forall i :: 0 < i < |S| ==> Attached(B, S, i)) &&
    |OpenSlots(B)| == 2 * (|S| - 1)
  }

  /** `initPipes` followed by the start of `buildPipes`: only the centre is in the tree. */
  lemma TreeInvAtStart(n: int)
    requires n >= 1
    ensures TreeInv(n, ClosedBoard(n), [CentreCell(n)])
  {
    var B := ClosedBoard(n);
    assert OpenSlots(B) == {};
  }

  /** The neighbour that a successful step adds is not yet in the tree, and both slots it opens were closed. */
  lemma StepTargetIsNew(n: int, B: Board, S: seq<Cell>, p: Cell, d: Direction)
    requires TreeInv(n, B, S) && p in S
    requires Step(NeighbourConvention, p, d) in B && !B[Step(NeighbourConvention, p, d)].AnyOpen()
    ensures Step(NeighbourConvention, p, d) !in S
    ensures Step(NeighbourConvention, p, d) != p
    ensures B[p].Slot(d) != 1
  {
    var q := Step(NeighbourConvention, p, d);
    OffsetIsUnitStep(NeighbourConvention, d);
    assert q != p;
    forall i | 0 <= i < |S|
      ensures S[i] != q
    {
      if |S| > 1 {
        assert B[S[i]].AnyOpen();
      } else {
        assert S[i] == S[0];
        var k :| 0 <= k < |S| && S[k] == p;
        assert S[k] == S[0];
      }
    }
    assert !Linked(B, NeighbourConvention, p, d);
    assert !IsOpen(B, p, d);
  }

  /** Opening a pair only adds open slots, so every existing link stays. */
  lemma LinksPersist(B: Board, B': Board, conv: Convention)
    requires B'.Keys == B.Keys
    requires forall c, e: Direction :: c in B && B[c].Slot(e) == 1 ==> B'[c].Slot(e) == 1
    ensures forall c, e: Direction :: Linked(B, conv, c, e) ==> Linked(B', conv, c, e)
  {
  }

  lemma OpenSlotsGrowByOne(B: Board, p: Cell, d: Direction)
    requires p in B && B[p].Slot(d) != 1
    ensures |OpenSlots(B[p := B[p].Opened(d)])| == |OpenSlots(B)| + 1
  {
    var B' := B[p := B[p].Opened(d)];
    var O := OpenSlots(B);
    var O' := OpenSlots(B');
    forall e | e in O'
      ensures e in O + {(p, d)}
    {
      var c, k :| c in B' && 0 <= k < 4 && B'[c].Slot(k) == 1 && e == (c, k);
      if c != p || k != d {
        assert B[c].Slot(k) == 1;
      }
    }
    forall e | e in O
      ensures e in O'
    {
      var c, k :| c in B && 0 <= k < 4 && B[c].Slot(k) == 1 && e == (c, k);
      assert B'[c].Slot(k) == 1;
    }
    assert B'[p].Slot(d) == 1;
    assert O' == O + {(p, d)};
  }

  /**
   * The board after a successful turn opens d on p and the reverse of d on
   * its neighbour q: the two slots become open, every open slot stays open,
   * no other slot opens, and no other cell changes.
   */
  function OpenPair(B: Board, p: Cell, d: Direction): (B': Board)
    requires p in B && Step(NeighbourConvention, p, d) in B
    ensures var q := Step(NeighbourConvention, p, d);
      B'.Keys == B.Keys &&
      B'[p].Slot(d) == 1 && B'[q].Slot(Reverse(d)) == 1 &&
      (forall c, e: Direction :: c in B && B[c].Slot(e) == 1 ==> B'[c].Slot(e) == 1) &&
      (forall c, e: Direction :: c in B && B'[c].Slot(e) == 1 && (c, e) != (p, d) && (c, e) != (q, Reverse(d)) ==> B[c].Slot(e) == 1) &&
      (forall c :: c in B && c != p && c != q ==> B'[c] == B[c])
  {
    var q := Step(NeighbourConvention, p, d);
    B[p := B[p].Opened(d)][q := B[q].Opened(Reverse(d))]
  }

  /** After opening the pair, every open connector still faces an open connector. */
  lemma OpenPairKeepsMatching(B: Board, p: Cell, d: Direction)
    requires p in B && Step(NeighbourConvention, p, d) in B
    requires Matched(B, NeighbourConvention)
    ensures Matched(OpenPair(B, p, d), NeighbourConvention)
  {
    var B' := OpenPair(B, p, d);
    var q := Step(NeighbourConvention, p, d);
    LinksPersist(B, B', NeighbourConvention);
    assert Linked(B', NeighbourConvention, p, d);
    LinkedIsSymmetric(B', NeighbourConvention, p, d);
    forall c, e: Direction | IsOpen(B', c, e)
      ensures Linked(B', NeighbourConvention, c, e)
    {
      if (c, e) != (p, d) && (c, e) != (q, Reverse(d)) {
        assert Linked(B, NeighbourConvention, c, e);
      }
    }
  }

  lemma OpenPairKeepsAttached(B: Board, S: seq<Cell>, k: int, d: Direction)
    requires 0 <= k < |S| && S[k] in B && Step(NeighbourConvention, S[k], d) in B
    requires forall i :: 0 < i < |S| ==> Attached(B, S, i)
    ensures var B' := OpenPair(B, S[k], d); var S' := S + [Step(NeighbourConvention, S[k], d)];
      forall i :: 0 < i < |S'| ==> Attached(B', S', i)
  {
    var p := S[k];
    var B' := OpenPair(B, p, d);
    var S' := S + [Step(NeighbourConvention, p, d)];
    LinksPersist(B, B', NeighbourConvention);
    forall i | 0 < i < |S'|
      ensures Attached(B', S', i)
    {
      if i < |S| {
        assert Attached(B, S, i);
        var j, e: Direction :| 0 <= j < i && Linked(B, NeighbourConvention, S[j], e) && Step(NeighbourConvention, S[j], e) == S[i];
        assert S'[j] == S[j] && S'[i] == S[i];
        assert Linked(B', NeighbourConvention, S'[j], e);
      } else {
        assert S'[k] == p;
        assert Linked(B', NeighbourConvention, S'[k], d);
      }
    }
  }

  lemma OpenPairKeepsOccupancy(B: Board, S: seq<Cell>, k: int, d: Direction)
    requires 0 <= k < |S| && S[k] in B && Step(NeighbourConvention, S[k], d) in B
    requires Members(B, S) && Step(NeighbourConvention, S[k], d) !in S
    requires forall c :: c in B && c !in S ==> !B[c].AnyOpen()
    requires |S| > 1 ==> forall i :: 0 <= i < |S| ==> B[S[i]].AnyOpen()
    ensures var B' := OpenPair(B, S[k], d); var S' := S + [Step(NeighbourConvention, S[k], d)];
      (forall c :: c in B' && c !in S' ==> !B'[c].AnyOpen()) &&
      (forall i :: 0 <= i < |S'| ==> B'[S'[i]].AnyOpen())
  {
    var p := S[k];
    var q := Step(NeighbourConvention, p, d);
    var B' := OpenPair(B, p, d);
    var S' := S + [q];
    forall c | c in B' && c !in S'
      ensures !B'[c].AnyOpen()
    {
      assert c != p && c != q;
    }
    forall i | 0 <= i < |S'|
      ensures B'[S'[i]].AnyOpen()
    {
      if S'[i] == p {
        assert B'[p].Slot(d) == 1;
      } else if S'[i] == q {
        assert B'[q].Slot(Reverse(d)) == 1;
      } else {
        assert i < |S| && S'[i] == S[i] && i != k;
        assert |S| > 1;
        assert B[S[i]].AnyOpen();
        AnyOpenIsSomeSlot(B[S[i]]);
        var m: Direction :| B[S[i]].Slot(m) == 1;
        assert B'[S'[i]].Slot(m) == 1;
      }
    }
  }

  lemma OpenPairKeepsTree(n: int, B: Board, S: seq<Cell>, k: int, d: Direction)
    requires TreeInv(n, B, S) && 0 <= k < |S|
    requires Step(NeighbourConvention, S[k], d) in B && !B[Step(NeighbourConvention, S[k], d)].AnyOpen()
    ensures TreeInv(n, OpenPair(B, S[k], d), S + [Step(NeighbourConvention, S[k], d)])
  {
    var p := S[k];
    var q := Step(NeighbourConvention, p, d);
    var rd := Reverse(d);
    var B' := OpenPair(B, p, d);
    var S' := S + [q];
    StepTargetIsNew(n, B, S, p, d);
    assert B'.Keys == B.Keys && Members(B', S') && S'[0] == CentreCell(n);
    assert Matched(B', NeighbourConvention) by {
      OpenPairKeepsMatching(B, p, d);
    }
    assert forall i :: 0 < i < |S'| ==> Attached(B', S', i) by {
      OpenPairKeepsAttached(B, S, k, d);
    }
    assert (forall c :: c in B' && c !in S' ==> !B'[c].AnyOpen()) &&
      (forall i :: 0 <= i < |S'| ==> B'[S'[i]].AnyOpen()) by {
      OpenPairKeepsOccupancy(B, S, k, d);
    }
    assert |OpenSlots(B')| == 2 * (|S'| - 1) by {
      var B1 := B[p := B[p].Opened(d)];
      OpenSlotsGrowByOne(B, p, d);
      assert B1[q] == B[q];
      OpenSlotsGrowByOne(B1, q, rd);
      assert B' == B1[q := B1[q].Opened(rd)];
    }
    assert Distinct(S') by {
      forall i, j | 0 <= i < j < |S'|
        ensures S'[i] != S'[j]
      {
        if j == |S| {
          assert S'[i] == S[i];
        }
      }
    }
  }

  /** Each turn of the loop keeps the tree invariant. */
  lemma BuildStepKeepsTree(n: int, B: Board, S: seq<Cell>, draw: Draw)
    requires TreeInv(n, B, S)
    ensures TreeInv(n, BuildStep(B, S, draw).0, BuildStep(B, S, draw).1)
  {
    var k := Pick(draw.0, |S|);
    var d: Direction := Pick(draw.1, 4);
    var q := Step(NeighbourConvention, S[k], d);
    if q in B && !B[q].AnyOpen() {
      OpenPairKeepsTree(n, B, S, k, d);
    }
  }

  lemma {:induction false} BuildKeepsTree(n: int, B: Board, S: seq<Cell>, draws: seq<Draw>)
    requires TreeInv(n, B, S)
    ensures TreeInv(n, Build(n, B, S, draws).0, Build(n, B, S, draws).1)
    decreases |draws|
  {
    if |S| < n * n && draws != [] {
      var next := BuildStep(B, S, draws[0]);
      BuildStepKeepsTree(n, B, S, draws[0]);
      BuildKeepsTree(n, next.0, next.1, draws[1..]);
    }
  }

  /**
   * Running the loop on `draws` and then on `more` is running it on
   * `draws + more`: a run that stops short of the end of its draws has a
   * full tree and ignores whatever follows.
   */
  lemma {:induction false} BuildResumes(n: int, B: Board, S: seq<Cell>, draws: seq<Draw>, more: seq<Draw>)
    requires |S| > 0 && Members(B, S)
    ensures var r := Build(n, B, S, draws);
      Build(n, B, S, draws + more) == Build(n, r.0, r.1, more)
    decreases |draws|
  {
    if |S| >= n * n {
    } else if draws == [] {
      assert draws + more == more;
    } else {
      var next := BuildStep(B, S, draws[0]);
      assert (draws + more)[0] == draws[0] && (draws + more)[1..] == draws[1..] + more;
      BuildResumes(n, next.0, next.1, draws[1..], more);
    }
  }

  /**
   * The run ends with at most n·n members, and one that ends short of n·n
   * has used up its draws: the first draw after them drives the next turn.
   */
  lemma BuildStopsWhenFullOrOutOfDraws(n: int, B: Board, S: seq<Cell>, draws: seq<Draw>, more: seq<Draw>)
    requires TreeInv(n, B, S)
    ensures |Build(n, B, S, draws).1| <= n * n
    ensures var r := Build(n, B, S, draws);
      |r.1| < n * n && more != [] ==>
      var next := BuildStep(r.0, r.1, more[0]);
      Build(n, B, S, draws + more) == Build(n, next.0, next.1, more[1..])
  {
    BuildKeepsTree(n, B, S, draws);
    var r := Build(n, B, S, draws);
    DistinctCellsFillGrid(n, r.1);
    BuildResumes(n, B, S, draws, more);
  }

  lemma {:induction false} MembersReachFromCentre(n: int, B: Board, S: seq<Cell>, i: int)
    requires TreeInv(n, B, S) && 0 <= i < |S|
    ensures Reachable(B, NeighbourConvention, CentreCell(n), S[i])
    decreases i
  {
    if i == 0 {
      ReachableFromItself(B, NeighbourConvention, S[0]);
    } else {
      assert Attached(B, S, i);
      var j, d: Direction :| 0 <= j < i && Linked(B, NeighbourConvention, S[j], d) && Step(NeighbourConvention, S[j], d) == S[i];
      MembersReachFromCentre(n, B, S, j);
      ReachableStep(B, NeighbourConvention, CentreCell(n), S[j], d);
    }
  }

  /**
   * When the loop stops with n·n members, the open connectors form a
   * spanning tree: every cell is in it and reachable from the centre under
   * the `getNeighbour` offsets, and there are n·n - 1 open pairs.
   */
  lemma FullTreeSpansGrid(n: int, B: Board, S: seq<Cell>)
    requires TreeInv(n, B, S) && |S| == n * n
    ensures forall c :: InGrid(n, c) ==> c in S && Reachable(B, NeighbourConvention, CentreCell(n), c)
    ensures |OpenSlots(B)| == 2 * (n * n - 1)
  {
    DistinctCellsFillGrid(n, S);
    forall c | InGrid(n, c)
      ensures Reachable(B, NeighbourConvention, CentreCell(n), c)
    {
      var i :| 0 <= i < |S| && S[i] == c;
      MembersReachFromCentre(n, B, S, i);
    }
  }

  /**
   * The generated layout becomes a solution for `checkPipes` once every
   * pipe is turned once: then every cell is reachable from the centre
   * under the flood fill's offsets.
   */
  lemma FullTreeSolvedAfterOneTurn(n: int, B: Board, S: seq<Cell>)
    requires TreeInv(n, B, S) && |S| == n * n
    ensures forall c :: InGrid(n, c) ==> Reachable(TurnAll(B), FloodConvention, CentreCell(n), c)
  {
    FullTreeSpansGrid(n, B, S);
    forall c | InGrid(n, c)
      ensures Reachable(TurnAll(B), FloodConvention, CentreCell(n), c)
    {
      ReachableAfterTurn(B, CentreCell(n), c);
    }
  }

  /**
   * The layout exactly as generated is not, in general, a solution: after
   * one loop turn on a 3×3 grid that opens Up on the centre, the pipe
   * just added is not reachable by the flood fill.
   */
  lemma FirstPairIsNotFollowedByFlood()
    ensures var r := Build(3, ClosedBoard(3), [(2, 2)], [(0.0, 0.0)]);
      r.1 == [(2, 2), (2, 3)] && !Reachable(r.0, FloodConvention, (2, 2), (2, 3))
  {
    var B := ClosedBoard(3);
    assert Pick(0.0, 1) == 0 && Pick(0.0, 4) == 0;
    assert Step(NeighbourConvention, (2, 2), UP) == (2, 3);
    assert (2, 3) in B && !B[(2, 3)].AnyOpen();
    var B' := B[(2, 2) := B[(2, 2)].Opened(UP)][(2, 3) := B[(2, 3)].Opened(DOWN)];
    assert OpenPair(B, (2, 2), UP) == B';
    assert BuildStep(B, [(2, 2)], (0.0, 0.0)).1 == [(2, 2), (2, 3)];
    assert BuildStep(B, [(2, 2)], (0.0, 0.0)) == (B', [(2, 2), (2, 3)]);
    assert Build(3, B, [(2, 2)], [(0.0, 0.0)]) == Build(3, B', [(2, 2), (2, 3)], []);
    var R := {(2, 2)};
    forall d: Direction
      ensures !Linked(B', FloodConvention, (2, 2), d)
    {
      assert B'[(2, 2)] == Slots(1, 0, 0, 0);
      assert B'[(1, 2)] == Closed;
    }
    assert ClosedUnderLinks(B', FloodConvention, R);
    if Reachable(B', FloodConvention, (2, 2), (2, 3)) {
      ClosedSetHoldsReachable(B', FloodConvention, R, (2, 2), (2, 3));
    }
  }

  // ---------------------------------------------------------------------
  // Scrambling

  /** One random number per pipe, row by row, as `scramblePipes` draws them. */
  predicate TurnsFit(n: int, turns: seq<seq<Random>>)
  {
    |turns| == n && forall i :: 0 <= i < n ==> |turns[i]| == n
  }

  /** How often `scramblePipes` rotates the pipe at c: `Math.floor(Math.random() * 4)`. */
  function TurnCount(n: int, turns: seq<seq<Random>>, c: Cell): (k: nat)
    requires TurnsFit(n, turns) && InGrid(n, c)
    ensures k < 4
  {
    Pick(turns[c.0 - 1][c.1 - 1], 4)
  }

  function Scrambled(n: int, B: Board, turns: seq<seq<Random>>): (F: Board)
    requires TurnsFit(n, turns) && Covers(n, B)
    ensures F.Keys == B.Keys
  {
    map c | c in B :: Turned(B[c], TurnCount(n, turns, c))
  }

  /**
   * The board part-way through `scramblePipes`: the cells before (x, y),
   * row by row, already hold their scrambled slots T, the rest still B.
   */
  ghost function ScrambledBefore(B: Board, T: Board, x: int, y: int): (F: Board)
    requires T.Keys == B.Keys
  {
    map c | c in B :: if c.0 < x || (c.0 == x && c.1 < y) then T[c] else B[c]
  }

  /** Before the first cell nothing is turned; after the last row the whole board is scrambled. */
  lemma ScrambleStartAndEnd(n: int, B: Board, T: Board)
    requires Covers(n, B) && T.Keys == B.Keys
    ensures ScrambledBefore(B, T, 1, 1) == B
    ensures ScrambledBefore(B, T, n + 1, 1) == T
  {
    var F, G := ScrambledBefore(B, T, 1, 1), ScrambledBefore(B, T, n + 1, 1);
    assert forall c :: c in F ==> F[c] == B[c];
    assert F.Keys == B.Keys;
    assert forall c :: c in G ==> G[c] == T[c];
    assert G.Keys == T.Keys;
  }

  /**
   * One step of the inner loop turns the cell (x, y), still unturned, by
   * its own count, and changes nothing else.
   */
  lemma ScrambleOneMore(n: int, B: Board, turns: seq<seq<Random>>, T: Board, x: int, y: int)
    requires TurnsFit(n, turns) && Covers(n, B) && T == Scrambled(n, B, turns) && InGrid(n, (x, y))
    ensures var F := ScrambledBefore(B, T, x, y);
      ScrambledBefore(B, T, x, y + 1) == F[(x, y) := Turned(F[(x, y)], Pick(turns[x - 1][y - 1], 4))]
  {
    var F := ScrambledBefore(B, T, x, y + 1);
    var G := ScrambledBefore(B, T, x, y)[(x, y) := T[(x, y)]];
    assert forall c :: c in F ==> F[c] == G[c];
    assert F.Keys == G.Keys;
  }

  /** The end of row x is the start of row x + 1. */
  lemma ScrambleNextRow(n: int, B: Board, T: Board, x: int)
    requires Covers(n, B) && T.Keys == B.Keys
    ensures ScrambledBefore(B, T, x, n + 1) == ScrambledBefore(B, T, x + 1, 1)
  {
    var F, G := ScrambledBefore(B, T, x, n + 1), ScrambledBefore(B, T, x + 1, 1);
    assert forall c :: c in F ==> F[c] == G[c];
    assert F.Keys == G.Keys;
  }

  /** The clicks that undo a scramble of k turns and add the one turn that solves the layout. */
  function ClicksToSolve(k: nat): (m: nat)
    requires k < 4
    ensures m < 4 && (k + m) % 4 == 1
  {
    (5 - k) % 4
  }

  /** Scrambling only turns pipes, so each pipe keeps its number of open connectors. */
  lemma ScrambleKeepsConnectorCounts(n: int, B: Board, turns: seq<seq<Random>>)
    requires TurnsFit(n, turns) && Covers(n, B)
    ensures forall c :: c in B ==> OpenCount(Scrambled(n, B, turns)[c]) == OpenCount(B[c])
  {
    forall c | c in B
      ensures OpenCount(Scrambled(n, B, turns)[c]) == OpenCount(B[c])
    {
      TurnedKeepsOpenCount(B[c], TurnCount(n, turns, c));
    }
  }

  /** The board a player reaches by clicking each pipe of F `ClicksToSolve` times. */
  function Clicked(n: int, F: Board, turns: seq<seq<Random>>): (G: Board)
    requires TurnsFit(n, turns) && Covers(n, F)
    ensures G.Keys == F.Keys
  {
    map c | c in F :: Turned(F[c], ClicksToSolve(TurnCount(n, turns, c)))
  }

  /** k scrambling turns followed by `ClicksToSolve(k)` clicks add up to one turn. */
  lemma ClicksRestoreOneTurn(s: Slots, k: nat)
    requires k < 4
    ensures Turned(Turned(s, k), ClicksToSolve(k)) == Rotated(s)
  {
    var m := ClicksToSolve(k);
    TurnsAdd(s, k, m);
    TurnsModFour(s, k + m);
    assert Turned(s, 1) == Rotated(Turned(s, 0));
  }

  /** Undoing the scramble that way leaves every generated pipe turned exactly once. */
  lemma ClickingUndoesScramble(n: int, B: Board, turns: seq<seq<Random>>)
    requires TurnsFit(n, turns) && Covers(n, B)
    ensures Clicked(n, Scrambled(n, B, turns), turns) == TurnAll(B)
  {
    var F := Scrambled(n, B, turns);
    var G := Clicked(n, F, turns);
    var T := TurnAll(B);
    forall c | c in B
      ensures G[c] == T[c]
    {
      var k := TurnCount(n, turns, c);
      assert F[c] == Turned(B[c], k);
      ClicksRestoreOneTurn(B[c], k);
    }
    assert G.Keys == T.Keys;
  }

  /**
   * The scrambled puzzle is solvable: clicking each pipe `ClicksToSolve`
   * times makes every cell reachable from the centre under `checkPipes`.
   */
  lemma ScrambledPuzzleIsSolvable(n: int, B: Board, S: seq<Cell>, turns: seq<seq<Random>>)
    requires TreeInv(n, B, S) && |S| == n * n && TurnsFit(n, turns)
    ensures forall c :: InGrid(n, c) ==>
      Reachable(Clicked(n, Scrambled(n, B, turns), turns), FloodConvention, CentreCell(n), c)
  {
    ClickingUndoesScramble(n, B, turns);
    FullTreeSolvedAfterOneTurn(n, B, S);
  }

  /**
   * A run of `buildPipes` from a closed board that completes the tree
   * leaves every cell reachable from the centre along the generator's links,
   * with exactly the size * size - 1 links of a spanning tree.
   */
  lemma CompleteBuildSpansGrid(n: int, draws: seq<Draw>)
    requires n >= 1 && |Build(n, ClosedBoard(n), [CentreCell(n)], draws).1| >= n * n
    ensures var r := Build(n, ClosedBoard(n), [CentreCell(n)], draws);
      (forall c :: InGrid(n, c) ==> Reachable(r.0, NeighbourConvention, CentreCell(n), c)) &&
      |OpenSlots(r.0)| == 2 * (n * n - 1)
  {
    var r := Build(n, ClosedBoard(n), [CentreCell(n)], draws);
    TreeInvAtStart(n);
    BuildKeepsTree(n, ClosedBoard(n), [CentreCell(n)], draws);
    BuildStopsWhenFullOrOutOfDraws(n, ClosedBoard(n), [CentreCell(n)], draws, []);
    FullTreeSpansGrid(n, r.0, r.1);
  }

  /**
   * The whole of `init` on values: grow a tree from a closed board, then
   * scramble it.  If the tree was completed, the puzzle can be solved.
   */
  lemma GeneratedPuzzleIsSolvable(n: int, draws: seq<Draw>, turns: seq<seq<Random>>)
    requires n >= 1 && TurnsFit(n, turns)
    requires |Build(n, ClosedBoard(n), [CentreCell(n)], draws).1| >= n * n
    ensures var r := Build(n, ClosedBoard(n), [CentreCell(n)], draws);
      forall c :: InGrid(n, c) ==>
        Reachable(Clicked(n, Scrambled(n, r.0, turns), turns), FloodConvention, CentreCell(n), c)
  {
    var r := Build(n, ClosedBoard(n), [CentreCell(n)], draws);
    TreeInvAtStart(n);
    BuildKeepsTree(n, ClosedBoard(n), [CentreCell(n)], draws);
    BuildStopsWhenFullOrOutOfDraws(n, ClosedBoard(n), [CentreCell(n)], draws, []);
    ScrambledPuzzleIsSolvable(n, r.0, r.1, turns);
  }
}
