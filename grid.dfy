/**
 * The `grid` object: a size x size array of `Pipe` objects indexed from 1,
 * the maze generator that opens connectors between them, the scrambler,
 * and the connectivity check that lights every pipe joined to the centre.
 *
 * The grid's methods update the pipes in place; their contracts compare the
 * heap with the value-level model of `Boards` and `Generation` through the
 * snapshot `Board()` of every pipe's slots.
 */
module Grids {
  import opened Directions
  import opened Pipes
  import opened Boards
  import opened Generation
  import opened Flood
  import opened Saves

  class Grid {
    var size: int
    /**
     * The engine's nested arrays `pipes[x][y]`, 1 <= x, y <= size, held as
     * one map from the cell (x, y) to its pipe.
     */
    var pipes: map<Cell, Pipe>

    /** Exactly the cells of the grid hold a pipe, and each pipe knows the cell it sits in. */
    ghost predicate Valid()
      reads this
    {
      size >= 0 &&
      (forall c :: c in pipes <==> InGrid(size, c)) &&
      (forall c :: c in pipes ==> pipes[c].x == c.0 && pipes[c].y == c.1)
    }

    /** Every pipe the grid holds. */
    ghost function Repr(): (R: set<Pipe>)
      reads this
    {
      pipes.Values
    }

    /** The pipe at cell c. */
    function At(c: Cell): (p: Pipe)
      requires Valid() && InGrid(size, c)
      reads this
      ensures p in Repr() && p.x == c.0 && p.y == c.1
    {
      pipes[c]
    }

    /** Every cell's connector slots, as a value. */
    ghost function Board(): (B: Board)
      requires Valid()
      reads this, Repr()`connections
      ensures Covers(size, B)
      ensures forall c :: InGrid(size, c) ==> B[c] == At(c).connections
    {
      map c | c in AllCells(size) :: At(c).connections
    }

    /** Every cell's `active` flag, as a value. */
    ghost function Flags(): (F: map<Cell, int>)
      requires Valid()
      reads this, Repr()`active
      ensures forall c :: c in F <==> InGrid(size, c)
      ensures forall c :: InGrid(size, c) ==> F[c] == At(c).active
    {
      map c | c in AllCells(size) :: At(c).active
    }

    /** A pipe of the grid sits at its own coordinates, so no two cells share a pipe. */
    lemma AtOwnCell(p: Pipe)
      requires Valid() && p in Repr()
      ensures InGrid(size, (p.x, p.y)) && At((p.x, p.y)) == p
    {
      var c :| c in pipes && pipes[c] == p;
    }

    /** `getPipe`: the pipe at (x, y), or nothing when (x, y) is off the grid. */
    function GetPipe(x: int, y: int): (r: Option<Pipe>)
      reads this
      ensures Valid() ==> (r.Some? <==> InGrid(size, (x, y)))
      ensures Valid() && r.Some? ==> r.value == At((x, y)) && r.value.x == x && r.value.y == y
    {
      if (x, y) in pipes then Some(pipes[(x, y)]) else None
    }

    /**
     * `Pipe.getNeighbour`: the pipe one step from p in direction d under the
     * generator's offsets, or nothing at the edge of the grid.
     */
    function GetNeighbour(p: Pipe, d: Direction): (r: Option<Pipe>)
      reads this
      ensures Valid() ==> (r.Some? <==> InGrid(size, Step(NeighbourConvention, (p.x, p.y), d)))
      ensures Valid() && r.Some? ==> r.value == At(Step(NeighbourConvention, (p.x, p.y), d))
    {
      var o := NeighbourOffset(d);
      GetPipe(p.x + o.0, p.y + o.1)
    }

    /** Going to a neighbour and back through the reverse direction returns to the same pipe. */
    lemma NeighbourOfNeighbourIsSelf(p: Pipe, d: Direction)
      requires Valid() && p in Repr() && GetNeighbour(p, d).Some?
      ensures GetNeighbour(GetNeighbour(p, d).value, Reverse(d)) == Some(p)
    {
      AtOwnCell(p);
      OffsetOfReverse(NeighbourConvention, d);
    }

    /** The empty grid the engine starts from. */
    constructor ()
      ensures size == 0 && pipes == map[]
      ensures Valid()
    {
      size := 0;
      pipes := map[];
    }

    /** Between two states in which only the slots of pipe p changed, the board differs at p's cell alone. */
    twostate lemma OnlyOneCellChanged(p: Pipe)
      requires old(Valid()) && unchanged(this) && p in old(Repr())
      requires forall q :: q in old(Repr()) && q != p ==> q.connections == old(q.connections)
      ensures Valid() && Board() == old(Board())[(p.x, p.y) := p.connections]
    {
      AtOwnCell(p);
      var B := old(Board())[(p.x, p.y) := p.connections];
      forall c | InGrid(size, c)
        ensures Board()[c] == B[c]
      {
        if c != (p.x, p.y) {
          assert At(c) != p;
        }
      }
    }

    /** Between two states in which no pipe's slots changed, the board is the same. */
    twostate lemma SlotsUnchanged()
      requires old(Valid()) && unchanged(this)
      requires forall q :: q in old(Repr()) ==> q.connections == old(q.connections)
      ensures Valid() && Board() == old(Board())
    {
    }

    /** Between two states in which no pipe's flag changed, the flags are the same. */
    twostate lemma FlagsUnchanged()
      requires old(Valid()) && unchanged(this)
      requires forall q :: q in old(Repr()) ==> q.active == old(q.active)
      ensures Valid() && Flags() == old(Flags())
    {
    }

    /**
     * `initPipes`: replaces the grid by n x n new pipes, the one at (x, y)
     * carrying those coordinates, nothing open and nothing active.
     */
    method InitPipes(n: int)
      requires n >= 0
      modifies this
      ensures size == n && Valid()
      ensures forall p :: p in Repr() ==> fresh(p)
      ensures Board() == ClosedBoard(n)
      ensures forall c :: InGrid(n, c) ==> At(c).active == 0
    {
      size := n;
      pipes := map[];
      var x := 1;
      while x <= n
        invariant 1 <= x <= n + 1 && size == n
        invariant forall c :: c in pipes <==> InGrid(n, c) && c.0 < x
        invariant forall c :: c in pipes ==>
          pipes[c].x == c.0 && pipes[c].y == c.1 && fresh(pipes[c]) &&
          pipes[c].connections == Closed && pipes[c].active == 0
      {
        var y := 1;
        while y <= n
          invariant 1 <= y <= n + 1 && size == n
          invariant forall c :: c in pipes <==> InGrid(n, c) && (c.0 < x || (c.0 == x && c.1 < y))
          invariant forall c :: c in pipes ==>
            pipes[c].x == c.0 && pipes[c].y == c.1 && fresh(pipes[c]) &&
            pipes[c].connections == Closed && pipes[c].active == 0
        {
          var pipe := new Pipe(x, y);
          pipes := pipes[(x, y) := pipe];
          y := y + 1;
        }
        x := x + 1;
      }
      assert Valid();
      assert forall c :: c in Board() ==> Board()[c] == ClosedBoard(n)[c];
    }

    /**
     * `getPipes`: every pipe once, row by row (x ascending, then y
     * ascending), in the order of `GridOrder`.
     */
    method GetPipes() returns (ps: seq<Pipe>)
      requires Valid()
      ensures |ps| == size * size == |GridOrder(size, size)|
      ensures forall i :: 0 <= i < |ps| ==> InGrid(size, GridOrder(size, size)[i]) && ps[i] == At(GridOrder(size, size)[i])
      ensures Distinct(ps)
      ensures forall p :: p in ps <==> p in Repr()
    {
      ps := [];
      ghost var order: seq<Cell> := [];
      var x := 1;
      while x <= size
        invariant 1 <= x <= size + 1
        invariant order == GridOrder(size, x - 1) && |ps| == |order|
        invariant forall i :: 0 <= i < |ps| ==> InGrid(size, order[i]) && ps[i] == At(order[i])
      {
        var y := 1;
        while y <= size
          invariant 1 <= y <= size + 1
          invariant order == GridOrder(size, x - 1) + RowOrder(x, y - 1) && |ps| == |order|
          invariant forall i :: 0 <= i < |ps| ==> InGrid(size, order[i]) && ps[i] == At(order[i])
        {
          ps := ps + [GetPipe(x, y).value];
          order := order + [(x, y)];
          y := y + 1;
        }
        x := x + 1;
      }
      GridOrderLength(size, size);
      ListingHoldsEveryPipeOnce(ps);
    }

    /** A list holding the pipe of every cell in row-by-row order holds each pipe of the grid exactly once. */
    lemma ListingHoldsEveryPipeOnce(ps: seq<Pipe>)
      requires Valid() && |ps| == |GridOrder(size, size)|
      requires forall i :: 0 <= i < |ps| ==> InGrid(size, GridOrder(size, size)[i]) && ps[i] == At(GridOrder(size, size)[i])
      ensures Distinct(ps)
      ensures forall p :: p in ps <==> p in Repr()
    {
      var order := GridOrder(size, size);
      GridOrderCells(size, size);
      forall i, j | 0 <= i < j < |ps|
        ensures ps[i] != ps[j]
      {
        assert order[i] != order[j];
      }
      forall p | p in Repr()
        ensures p in ps
      {
        AtOwnCell(p);
        var c := (p.x, p.y);
        assert c in order;
        var i :| 0 <= i < |order| && order[i] == c;
        assert ps[i] == p;
      }
    }

    /** One connector assignment of `buildPipes`: slot d of p becomes 1, the rest of the board stays. */
    method Open(p: Pipe, d: Direction)
      requires Valid() && p in Repr()
      modifies p`connections
      ensures Board() == old(Board())[(p.x, p.y) := old(p.connections).Opened(d)]
    {
      p.connections := p.connections.Opened(d);
      OnlyOneCellChanged(p);
    }

    /**
     * One turn of the `buildPipes` loop carried out on the pipes: pick a
     * member and a direction; if the neighbour there exists and has no
     * open connector, open the pair and append the neighbour.  It does to
     * the board and the member list exactly what `BuildStep` does.
     */
    method Grow(draw: Draw, connected: seq<Pipe>, ghost S: seq<Cell>) returns (connected': seq<Pipe>, ghost S': seq<Cell>)
      requires Valid() && |S| > 0 && |connected| == |S|
      requires forall i :: 0 <= i < |S| ==> InGrid(size, S[i]) && connected[i] == At(S[i])
      modifies Repr()`connections
      ensures Members(old(Board()), S)
      ensures (Board(), S') == BuildStep(old(Board()), S, draw)
      ensures |connected'| == |S'|
      ensures forall i :: 0 <= i < |S'| ==> InGrid(size, S'[i]) && connected'[i] == At(S'[i])
    {
      ghost var B := Board();
      assert Members(B, S);
      var pipe := connected[Pick(draw.0, |connected|)];
      var direction: Direction := Pick(draw.1, 4);
      var neighbor := GetNeighbour(pipe, direction);
      var reverse := Reverse(direction);
      connected', S' := connected, S;
      if neighbor.Some? && !neighbor.value.connections.AnyOpen() {
        Open(pipe, direction);
        Open(neighbor.value, reverse);
        connected' := connected + [neighbor.value];
        S' := S + [(neighbor.value.x, neighbor.value.y)];
      }
    }

    /**
     * `buildPipes`: marks the centre pipe active, then grows a tree from it,
     * one `BuildStep` per draw, until it holds size * size pipes or the
     * draws run out; `complete` says which.  Started from a closed board, a
     * complete run leaves a tree that reaches every cell.
     */
    method BuildPipes(draws: seq<Draw>) returns (complete: bool)
      requires Valid() && size >= 1
      modifies Repr()
      ensures Valid()
      ensures var r := Build(size, old(Board()), [CentreCell(size)], draws);
        Board() == r.0 && complete == (|r.1| >= size * size)
      ensures complete && old(Board()) == ClosedBoard(size) ==>
        forall c :: InGrid(size, c) ==> Reachable(Board(), NeighbourConvention, CentreCell(size), c)
      ensures Flags() == old(Flags())[CentreCell(size) := 1]
    {
      var middle := Centre(size);
      var first := GetPipe(middle, middle).value;
      first.active := 1;
      OnlyOneFlagChanged(first);
      SlotsUnchanged();
      var connected := [first];
      label Grown:
      complete := GrowTree(draws, connected, [CentreCell(size)]);
      FlagsUnchanged@Grown();
      if old(Board()) == ClosedBoard(size) && complete {
        CompleteBuildSpansGrid(size, draws);
      }
    }

    /**
     * The loop of `buildPipes`: one `Grow` per draw while the tree holds
     * fewer than size * size pipes; it does to the board what `Build` does.
     */
    method GrowTree(draws: seq<Draw>, connected: seq<Pipe>, ghost S: seq<Cell>) returns (complete: bool)
      requires Valid() && |S| > 0 && |connected| == |S|
      requires forall i :: 0 <= i < |S| ==> InGrid(size, S[i]) && connected[i] == At(S[i])
      modifies Repr()`connections
      ensures Members(old(Board()), S)
      ensures var r := Build(size, old(Board()), S, draws);
        Board() == r.0 && complete == (|r.1| >= size * size)
    {
      var total := size * size;
      var connected := connected;
      ghost var T := S;
      ghost var goal := Build(size, old(Board()), S, draws);
      var k := 0;
      while |connected| < total && k < |draws|
        invariant 0 <= k <= |draws|
        invariant |connected| == |T| > 0
        invariant forall i :: 0 <= i < |T| ==> InGrid(size, T[i]) && connected[i] == At(T[i])
        invariant Members(Board(), T)
        invariant Build(size, Board(), T, draws[k..]) == goal
        decreases |draws| - k
      {
        BuildUnfolds(size, Board(), T, draws, k);
        connected, T := Grow(draws[k], connected, T);
        k := k + 1;
      }
      BuildStops(size, Board(), T, draws[k..]);
      complete := |connected| >= total;
    }

    /**
     * `scramblePipes`: rotates the pipe at every cell, row by row, as many
     * times as that cell's random number picks; nothing else changes.
     * The rows run while x < pipes.length, which for a valid grid is size + 1.
     */
    method ScramblePipes(turns: seq<seq<Random>>)
      requires Valid() && TurnsFit(size, turns)
      modifies Repr()`connections
      ensures Board() == Scrambled(size, old(Board()), turns)
      ensures forall c :: InGrid(size, c) ==> OpenCount(Board()[c]) == OpenCount(old(Board())[c])
    {
      ghost var B := Board();
      ghost var T := Scrambled(size, B, turns);
      ScrambleStartAndEnd(size, B, T);
      var x := 1;
      while x < size + 1
        invariant 1 <= x <= size + 1
        invariant Board() == ScrambledBefore(B, T, x, 1)
      {
        ScrambleRow(turns, x, B, T);
        x := x + 1;
      }
      ScrambleKeepsConnectorCounts(size, B, turns);
    }

    /** One pass of the inner loop of `scramblePipes`: row x from column 1 to size. */
    method ScrambleRow(turns: seq<seq<Random>>, x: int, ghost B: Board, ghost T: Board)
      requires Valid() && TurnsFit(size, turns) && 1 <= x <= size
      requires Covers(size, B) && T == Scrambled(size, B, turns)
      requires Board() == ScrambledBefore(B, T, x, 1)
      modifies Repr()`connections
      ensures Board() == ScrambledBefore(B, T, x + 1, 1)
    {
      var y := 1;
      while y < size + 1
        invariant 1 <= y <= size + 1
        invariant Board() == ScrambledBefore(B, T, x, y)
      {
        ScrambleCell(turns, x, y, B, T);
        y := y + 1;
      }
      ScrambleNextRow(size, B, T, x);
    }

    /**
     * The body of the inner loop of `scramblePipes`: the pipe at (x, y) is
     * rotated as often as its random number picks, and that cell of the
     * board takes its scrambled value.
     */
    method ScrambleCell(turns: seq<seq<Random>>, x: int, y: int, ghost B: Board, ghost T: Board)
      requires Valid() && TurnsFit(size, turns) && InGrid(size, (x, y))
      requires Covers(size, B) && T == Scrambled(size, B, turns)
      requires Board() == ScrambledBefore(B, T, x, y)
      modifies Repr()`connections
      ensures Board() == ScrambledBefore(B, T, x, y + 1)
    {
      var pipe := GetPipe(x, y).value;
      var random := Pick(turns[x - 1][y - 1], 4);
      ScrambleOneMore(size, B, turns, T, x, y);
      pipe.RotateTimes(random);
      OnlyOneCellChanged(pipe);
    }

    /** `deactivatePipes`: clears every pipe's flag and leaves the slots alone. */
    method DeactivatePipes()
      requires Valid()
      modifies Repr()`active
      ensures Board() == old(Board())
      ensures forall c :: InGrid(size, c) ==> At(c).active == 0
    {
      var x := 1;
      while x < size + 1
        invariant 1 <= x <= size + 1
        invariant forall c :: InGrid(size, c) && c.0 < x ==> At(c).active == 0
      {
        var y := 1;
        while y < size + 1
          invariant 1 <= y <= size + 1
          invariant forall c :: InGrid(size, c) && (c.0 < x || (c.0 == x && c.1 < y)) ==> At(c).active == 0
        {
          GetPipe(x, y).value.SetActive(false);
          y := y + 1;
        }
        x := x + 1;
      }
      SlotsUnchanged();
    }

    /** Between two states in which only the flag of pipe p changed, the flags differ at p's cell alone. */
    twostate lemma OnlyOneFlagChanged(p: Pipe)
      requires old(Valid()) && unchanged(this) && p in old(Repr())
      requires forall q :: q in old(Repr()) && q != p ==> q.active == old(q.active)
      ensures Valid() && Flags() == old(Flags())[(p.x, p.y) := p.active]
    {
      AtOwnCell(p);
      var F := old(Flags())[(p.x, p.y) := p.active];
      forall c | InGrid(size, c)
        ensures Flags()[c] == F[c]
      {
        if c != (p.x, p.y) {
          assert At(c) != p;
        }
      }
    }

    /** `setActive(true)` on one pipe of the grid: its cell joins the lit set, the rest stays. */
    method Light(p: Pipe, ghost A: set<Cell>)
      requires Valid() && p in Repr() && Flags() == Lit(size, A)
      modifies p`active
      ensures Board() == old(Board()) && Flags() == Lit(size, A + {(p.x, p.y)})
    {
      p.SetActive(true);
      OnlyOneFlagChanged(p);
      SlotsUnchanged();
      AtOwnCell(p);
      LitOneMore(size, A, (p.x, p.y));
    }

    /**
     * One of the four direction checks of the `checkPipes` loop: when pipe
     * is open towards d and the pipe there (under the offsets of `checkPipes`) is
     * open back towards it and not yet active, that pipe is activated and
     * pushed on both lists.  It does to the flags and the two lists what
     * `Look` does to the cells.
     */
    method Follow(pipe: Pipe, d: Direction, ghost B: Board, ghost s: Search, connected: seq<Pipe>, stack: seq<Pipe>)
      returns (ghost s': Search, connected': seq<Pipe>, stack': seq<Pipe>)
      requires Valid() && pipe in Repr() && Board() == B && Flags() == Lit(size, s.lit)
      requires s.stack == CellsOf(stack) && s.connected == CellsOf(connected)
      requires forall p :: p in stack ==> p in Repr()
      modifies Repr()`active
      ensures s' == Look(B, (pipe.x, pipe.y), d, s)
      ensures Board() == B && Flags() == Lit(size, s'.lit)
      ensures s'.stack == CellsOf(stack') && s'.connected == CellsOf(connected')
      ensures forall p :: p in stack' ==> p in Repr()
    {
      s', connected', stack' := s, connected, stack;
      AtOwnCell(pipe);
      ghost var c := (pipe.x, pipe.y);
      ghost var q := Step(FloodConvention, c, d);
      if pipe.HasConnection(d) {
        var o := FloodOffset(d);
        var next := GetPipe(pipe.x + o.0, pipe.y + o.1);
        if next.Some? && next.value.HasConnection(Reverse(d)) && !next.value.IsActive() {
          assert next.value == At(q) && q !in s.lit;
          Light(next.value, s.lit);
          CellsOfPush(stack, next.value);
          CellsOfPush(connected, next.value);
          connected' := connected + [next.value];
          stack' := stack + [next.value];
          s' := Search(s.lit + {q}, s.stack + [q], s.connected + [q]);
          assert Linked(B, FloodConvention, c, d);
        } else {
          assert next.Some? ==> next.value == At(q);
        }
      }
    }

    /**
     * The body of the `checkPipes` loop for one popped pipe: the four
     * direction checks in the engine's order Up, Down, Right, Left, doing
     * what `Expand` does to the cells.
     */
    method Visit(pipe: Pipe, ghost B: Board, ghost s: Search, connected: seq<Pipe>, stack: seq<Pipe>)
      returns (ghost s': Search, connected': seq<Pipe>, stack': seq<Pipe>)
      requires Valid() && pipe in Repr() && Board() == B && Flags() == Lit(size, s.lit)
      requires s.stack == CellsOf(stack) && s.connected == CellsOf(connected)
      requires forall p :: p in stack ==> p in Repr()
      modifies Repr()`active
      ensures s' == Expand(B, (pipe.x, pipe.y), s)
      ensures Board() == B && Flags() == Lit(size, s'.lit)
      ensures s'.stack == CellsOf(stack') && s'.connected == CellsOf(connected')
      ensures forall p :: p in stack' ==> p in Repr()
    {
      ghost var s1, s2, s3;
      var connected1, connected2, connected3, stack1, stack2, stack3;
      s1, connected1, stack1 := Follow(pipe, UP, B, s, connected, stack);
      s2, connected2, stack2 := Follow(pipe, DOWN, B, s1, connected1, stack1);
      s3, connected3, stack3 := Follow(pipe, RIGHT, B, s2, connected2, stack2);
      s', connected', stack' := Follow(pipe, LEFT, B, s3, connected3, stack3);
    }

    /**
     * `checkPipes`: clears every flag, then floods from the centre along
     * matching connector pairs (its own offsets), lighting each pipe it
     * reaches.  Afterwards a pipe is active exactly when it is reachable
     * from the centre; `won` is the engine's "Winner" test
     * (connected_pipes.length == size * size), true exactly when every
     * pipe is active.
     */
    method CheckPipes() returns (won: bool)
      requires Valid() && size >= 1
      modifies Repr()`active
      ensures Board() == old(Board())
      ensures forall c :: InGrid(size, c) ==>
        At(c).active == if Reachable(Board(), FloodConvention, CentreCell(size), c) then 1 else 0
      ensures won <==> forall c :: InGrid(size, c) ==> At(c).IsActive()
      ensures won <==> forall c :: InGrid(size, c) ==> Reachable(Board(), FloodConvention, CentreCell(size), c)
    {
      DeactivatePipes();
      ghost var B := Board();
      var middle := Centre(size);
      var centre := GetPipe(middle, middle).value;
      assert Flags() == Lit(size, {});
      Light(centre, {});
      var connected := [centre];
      var stack := [centre];
      ghost var s := Start(size);
      StartInv(size, B);
      while |stack| > 0
        invariant Board() == B && Flags() == Lit(size, s.lit)
        invariant SearchInv(size, B, s)
        invariant s.stack == CellsOf(stack) && s.connected == CellsOf(connected)
        invariant forall p :: p in stack ==> p in Repr()
        decreases size * size - |s.connected|, |s.stack|
      {
        ExpandKeepsInv(size, B, s);
        ghost var next := Next(B, s);
        CellsOfPop(stack);
        var pipe := stack[|stack| - 1];
        stack := stack[..|stack| - 1];
        s := s.(stack := s.stack[..|s.stack| - 1]);
        s, connected, stack := Visit(pipe, B, s, connected, stack);
        assert s == next;
      }
      SearchDone(size, B, s);
      won := |connected| == size * size;
    }

    /**
     * `save` without the storage: the size and, for each pipe in the order
     * `getPipes` lists them, the record of its fields.
     */
    method Save() returns (n: int, rs: seq<Record>)
      requires Valid()
      ensures n == size
      ensures forall c :: c in GridOrder(size, size) ==> InGrid(size, c)
      ensures rs == RecordsOf(GridOrder(size, size), Board(), Flags())
    {
      n := size;
      var ps := GetPipes();
      rs := seq(|ps|, i requires 0 <= i < |ps| reads ps => Record(ps[i].x, ps[i].y, ps[i].connections, ps[i].active));
      ghost var order := GridOrder(size, size);
      ghost var B, F := Board(), Flags();
      GridOrderCells(size, size);
      ghost var ts := RecordsOf(order, B, F);
      forall i | 0 <= i < |ps|
        ensures rs[i] == ts[i]
      {
        var c := order[i];
        assert B[c] == At(c).connections && F[c] == At(c).active;
      }
    }

    /**
     * The rebuild in `load` followed by its `checkPipes`.  The flags the
     * records carry are cleared and recomputed by the check.
     */
    method Load(n: int, rs: seq<Record>) returns (won: bool)
      requires n >= 1 && Fills(n, rs)
      modifies this, Repr()
      ensures size == n && Valid() && forall p :: p in Repr() ==> fresh(p)
      ensures Board() == LoadedBoard(rs)
      ensures forall c :: InGrid(n, c) ==>
        At(c).active == if Reachable(Board(), FloodConvention, CentreCell(n), c) then 1 else 0
      ensures won <==> forall c :: InGrid(n, c) ==> At(c).IsActive()
    {
      Rebuild(n, rs);
      won := CheckPipes();
    }

    /**
     * The rebuild loop of `load`: the grid takes the saved size and, record
     * by record, a new pipe at the record's cell carrying its slots and flag.
     */
    method Rebuild(n: int, rs: seq<Record>)
      requires n >= 1 && Fills(n, rs)
      modifies this
      ensures size == n && Valid() && forall p :: p in Repr() ==> fresh(p)
      ensures Board() == LoadedBoard(rs)
      ensures forall c :: InGrid(n, c) ==> At(c).active == Placed(rs)[c].active
    {
      size := n;
      pipes := map[];
      PlacedAtOwnCell(rs);
      var i := 0;
      while i < |rs|
        invariant 0 <= i <= |rs| && size == n
        invariant pipes.Keys == Placed(rs[..i]).Keys
        invariant forall c :: c in pipes ==>
          pipes[c].x == c.0 && pipes[c].y == c.1 && fresh(pipes[c]) &&
          pipes[c].connections == Placed(rs[..i])[c].connections &&
          pipes[c].active == Placed(rs[..i])[c].active
      {
        var pipe := new Pipe.Restored(rs[i].x, rs[i].y, rs[i].connections, rs[i].active);
        PlacedOneMore(rs, i);
        pipes := pipes[(pipe.x, pipe.y) := pipe];
        i := i + 1;
      }
      assert rs[..|rs|] == rs;
      RebuiltBoard(rs);
    }

    /** Once every record is placed, the grid is valid and holds the saved slots and flags. */
    lemma RebuiltBoard(rs: seq<Record>)
      requires size >= 1 && Fills(size, rs) && pipes.Keys == Placed(rs).Keys
      requires forall c :: c in pipes ==>
        pipes[c].x == c.0 && pipes[c].y == c.1 &&
        pipes[c].connections == Placed(rs)[c].connections && pipes[c].active == Placed(rs)[c].active
      ensures Valid() && Board() == LoadedBoard(rs)
      ensures forall c :: InGrid(size, c) ==> At(c).active == Placed(rs)[c].active
    {
      assert Valid();
      assert forall c :: c in Board() ==> Board()[c] == LoadedBoard(rs)[c];
    }

    /**
     * `init`: an even size is refused and nothing changes.  An odd size
     * builds a fresh grid, grows the tree, scrambles it and checks it.
     * When the tree was completed, clicking each pipe `ClicksToSolve`
     * times lights the whole grid.
     */
    method Init(n: int, draws: seq<Draw>, turns: seq<seq<Random>>) returns (started: bool, complete: bool, won: bool)
      requires n % 2 != 0 ==> n >= 1 && TurnsFit(n, turns)
      modifies this, Repr()
      ensures started <==> n % 2 != 0
      ensures !started ==> size == old(size) && pipes == old(pipes) && unchanged(old(Repr()))
      ensures started ==> Valid() && size == n && forall p :: p in Repr() ==> fresh(p)
      ensures started ==>
        var r := Build(n, ClosedBoard(n), [CentreCell(n)], draws);
        Board() == Scrambled(n, r.0, turns) && complete == (|r.1| >= n * n)
      ensures started ==> forall c :: InGrid(n, c) ==>
        At(c).active == if Reachable(Board(), FloodConvention, CentreCell(n), c) then 1 else 0
      ensures started ==> (won <==> forall c :: InGrid(n, c) ==> At(c).IsActive())
      ensures started && complete ==> forall c :: InGrid(n, c) ==>
        Reachable(Clicked(n, Board(), turns), FloodConvention, CentreCell(n), c)
    {
      if n % 2 == 0 {
        return false, false, false;
      }
      started := true;
      InitPipes(n);
      complete := BuildPipes(draws);
      ScramblePipes(turns);
      won := CheckPipes();
      if complete {
        GeneratedPuzzleIsSolvable(n, draws, turns);
      }
    }
  }

  /** The cells of a list of pipes; a pipe's coordinates never change, so this reads nothing. */
  function CellsOf(ps: seq<Pipe>): (cs: seq<Cell>)
    ensures |cs| == |ps|
  {
    if ps == [] then [] else CellsOf(ps[..|ps| - 1]) + [(ps[|ps| - 1].x, ps[|ps| - 1].y)]
  }

  lemma CellsOfPush(ps: seq<Pipe>, p: Pipe)
    ensures CellsOf(ps + [p]) == CellsOf(ps) + [(p.x, p.y)]
  {
    assert (ps + [p])[..|ps|] == ps;
  }

  lemma CellsOfPop(ps: seq<Pipe>)
    requires |ps| > 0
    ensures CellsOf(ps[..|ps| - 1]) == CellsOf(ps)[..|ps| - 1]
    ensures CellsOf(ps)[|ps| - 1] == (ps[|ps| - 1].x, ps[|ps| - 1].y)
  {
  }

  /**
   * `rotatePipe`, the click handler: turns the pipe at (x, y) once and
   * re-runs the check.  Only that pipe's slots change; the flags then mark
   * exactly the pipes reachable from the centre on the new board.
   */
  method RotatePipe(g: Grid, x: int, y: int) returns (won: bool)
    requires g.Valid() && g.size >= 1 && InGrid(g.size, (x, y))
    modifies g.Repr()
    ensures g.Board() == old(g.Board())[(x, y) := Rotated(old(g.Board())[(x, y)])]
    ensures forall c :: InGrid(g.size, c) ==>
      g.At(c).active == if Reachable(g.Board(), FloodConvention, CentreCell(g.size), c) then 1 else 0
    ensures won <==> forall c :: InGrid(g.size, c) ==> g.At(c).IsActive()
  {
    var pipe := g.GetPipe(x, y).value;
    pipe.Rotate();
    g.OnlyOneCellChanged(pipe);
    won := g.CheckPipes();
  }
}
