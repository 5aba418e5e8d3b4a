/**
 * The lookup table of range_check_2: one table column holding the values
 * 0, 1, ..., LOOKUP_TABLE_RANGE - 1, value o at offset o.
 */
module RangeCheck2Table {
  import opened Field
  import opened Circuit

  /** The rows `load` writes: offset o of `column` holds o, for every o below `range`. */
  function RangeTable(P: nat, column: nat, range: nat): Table
    requires P > 1
  {
    map o: nat | o < range :: (column, o) := o % P
  }

  /** No cell of `column` has been written yet. */
  predicate ColumnFree(table: Table, column: nat)
  {
    forall key :: key in table ==> key.0 != column
  }

  lemma RangeTableStep(P: nat, column: nat, n: nat)
    requires P > 1
    ensures (column, n) !in RangeTable(P, column, n)
    ensures RangeTable(P, column, n + 1) == RangeTable(P, column, n)[(column, n) := n % P]
  {
  }

  /** Writing a fresh cell of `column` on top of other columns' cells. */
  lemma LoadStep(before: Table, P: nat, column: nat, n: nat)
    requires P > 1 && ColumnFree(before, column)
    ensures (column, n) !in before + RangeTable(P, column, n)
    ensures (before + RangeTable(P, column, n))[(column, n) := n % P] == before + RangeTable(P, column, n + 1)
  {
    RangeTableStep(P, column, n);
    assert (column, n) !in before;
  }

  /** `load`: writes offsets 0 .. range - 1 of a fresh table column, each once. */
  method Load(lay: Layouter, P: nat, column: nat, range: nat)
    requires P > 1
    requires ColumnFree(lay.table, column)
    modifies lay
    ensures lay.table == old(lay.table) + RangeTable(P, column, range)
    ensures lay.regions == old(lay.regions) && lay.copies == old(lay.copies)
  {
    var offset := 0;
    while offset < range
      invariant offset <= range
      invariant lay.table == old(lay.table) + RangeTable(P, column, offset)
      invariant lay.regions == old(lay.regions) && lay.copies == old(lay.copies)
    {
      LoadStep(old(lay.table), P, column, offset);
      lay.AssignTableCell(column, offset, offset % P);
      offset := offset + 1;
    }
  }

  /** The table's cells are offsets 0 .. range - 1 of its column and nothing else. */
  lemma RangeTableDomain(P: nat, column: nat, range: nat, c: nat, o: nat)
    requires P > 1
    ensures (c, o) in RangeTable(P, column, range) <==> c == column && o < range
  {
  }

  /** The table has exactly `range` rows. */
  lemma {:induction false} RangeTableSize(P: nat, column: nat, range: nat)
    requires P > 1
    ensures |RangeTable(P, column, range)| == range
  {
    if range > 0 {
      RangeTableSize(P, column, range - 1);
      RangeTableStep(P, column, range - 1);
    } else {
      assert RangeTable(P, column, 0).Keys == {};
    }
  }

  /** A field element is in the table exactly when it is below `range`. */
  lemma RangeTableMembership(P: nat, column: nat, range: nat, x: int)
    requires P > 1 && range <= P && 0 <= x < P
    ensures InTable(RangeTable(P, column, range), [column], [x]) <==> x < range
  {
    var t := RangeTable(P, column, range);
    if x < range {
      ModSmall(x, P);
      assert RowMatches(t, [column], [x], x);
    }
    if InTable(t, [column], [x]) {
      var o: nat :| RowMatches(t, [column], [x], o);
      assert [column][0] == column && [x][0] == x;
      assert (column, o) in t && t[(column, o)] == x;
      ModSmall(o, P);
    }
  }
}
