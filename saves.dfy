/**
 * The saved game as values: `save` writes the size and the `getPipes`
 * listing, one record per pipe with its coordinates, slots and flag;
 * `load` places every record back at `pipes[x][y]`, a later record for the
 * same cell replacing an earlier one.
 */
module Saves {
  import opened Pipes
  import opened Boards

  /** One entry of the saved `pipes` list: the four fields of a pipe. */
  datatype Record = Record(x: int, y: int, connections: Slots, active: int)
  {
    function Cell(): (c: Cell)
    {
      (x, y)
    }
  }

  /** The records of the cells cs, in that order, for the slots B and the flags F. */
  function RecordsOf(cs: seq<Cell>, B: Board, F: map<Cell, int>): (rs: seq<Record>)
    requires forall c :: c in cs ==> c in B && c in F
    ensures |rs| == |cs|
    ensures forall i :: 0 <= i < |cs| ==> rs[i] == Record(cs[i].0, cs[i].1, B[cs[i]], F[cs[i]])
  {
    if cs == [] then [] else RecordsOf(cs[..|cs| - 1], B, F) + [var c := cs[|cs| - 1]; Record(c.0, c.1, B[c], F[c])]
  }

  /** The table the rebuild loop of `load` leaves: each record at its own cell, the last one for a cell winning. */
  function Placed(rs: seq<Record>): (m: map<Cell, Record>)
    ensures forall c :: c in m ==> m[c].Cell() == c
  {
    if rs == [] then map[] else Placed(rs[..|rs| - 1])[rs[|rs| - 1].Cell() := rs[|rs| - 1]]
  }

  /** Every record's cell is filled, and only with one of the records. */
  lemma {:induction false} PlacedAtOwnCell(rs: seq<Record>)
    ensures forall i :: 0 <= i < |rs| ==> rs[i].Cell() in Placed(rs)
    ensures forall c :: c in Placed(rs) ==> Placed(rs)[c] in rs
    decreases |rs|
  {
    if rs != [] {
      var t := rs[..|rs| - 1];
      PlacedAtOwnCell(t);
      forall i | 0 <= i < |rs| - 1
        ensures rs[i].Cell() in Placed(rs)
      {
        assert rs[i] == t[i];
      }
    }
  }

  /** The loop of `load` after one more record: that record now sits at its cell. */
  lemma PlacedOneMore(rs: seq<Record>, i: int)
    requires 0 <= i < |rs|
    ensures Placed(rs[..i + 1]) == Placed(rs[..i])[rs[i].Cell() := rs[i]]
  {
    assert rs[..i + 1][..i] == rs[..i];
  }

  /** The saved records fill exactly the cells of the size-n grid. */
  ghost predicate Fills(n: int, rs: seq<Record>)
  {
    forall c :: c in Placed(rs) <==> InGrid(n, c)
  }

  /** The slots the rebuilt grid holds. */
  ghost function LoadedBoard(rs: seq<Record>): (B: Board)
    ensures B.Keys == Placed(rs).Keys
  {
    map c | c in Placed(rs) :: Placed(rs)[c].connections
  }

  /**
   * Placing the records of the cells cs puts at each listed cell the record
   * of its own slots and flag, whatever the order and even with repeats.
   */
  lemma {:induction false} PlacedRecordsOf(cs: seq<Cell>, B: Board, F: map<Cell, int>)
    requires forall c :: c in cs ==> c in B && c in F
    ensures forall c :: c in Placed(RecordsOf(cs, B, F)) <==> c in cs
    ensures forall c :: c in cs ==> Placed(RecordsOf(cs, B, F))[c] == Record(c.0, c.1, B[c], F[c])
    decreases |cs|
  {
    if cs != [] {
      var t := cs[..|cs| - 1];
      PlacedRecordsOf(t, B, F);
      assert RecordsOf(cs, B, F)[..|cs| - 1] == RecordsOf(t, B, F);
      assert forall c :: c in cs <==> c in t || c == cs[|cs| - 1];
    }
  }

  /** Records listing exactly the grid's cells, each once or more, load back into the board they were taken from. */
  lemma LoadRecordsOf(n: int, cs: seq<Cell>, B: Board, F: map<Cell, int>)
    requires Covers(n, B) && (forall c :: c in F <==> InGrid(n, c))
    requires forall c :: c in cs <==> InGrid(n, c)
    ensures var rs := RecordsOf(cs, B, F);
      Fills(n, rs) && LoadedBoard(rs) == B &&
      forall c :: InGrid(n, c) ==> Placed(rs)[c].active == F[c]
  {
    PlacedRecordsOf(cs, B, F);
    var rs := RecordsOf(cs, B, F);
    var m, L := Placed(rs), LoadedBoard(rs);
    forall c | c in B
      ensures L[c] == B[c]
    {
      assert m[c] == Record(c.0, c.1, B[c], F[c]);
    }
    assert L.Keys == B.Keys;
  }

  /**
   * Loading what `save` wrote restores the grid: the row-by-row records of
   * a board fill the grid and give back its slots and flags.
   */
  lemma LoadUndoesSave(n: nat, B: Board, F: map<Cell, int>)
    requires Covers(n, B) && forall c :: c in F <==> InGrid(n, c)
    ensures forall c :: c in GridOrder(n, n) ==> InGrid(n, c)
    ensures var rs := RecordsOf(GridOrder(n, n), B, F);
      Fills(n, rs) && LoadedBoard(rs) == B &&
      forall c :: InGrid(n, c) ==> Placed(rs)[c].active == F[c]
  {
    GridOrderCells(n, n);
    LoadRecordsOf(n, GridOrder(n, n), B, F);
  }
}
