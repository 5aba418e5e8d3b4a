/**
 * The two-column lookup table of range_check_3: every value below
 * 2^NUM_BITS next to its bit width, with the row (1, 0) first so that 0
 * counts as a 1-bit value.
 */
module RangeCheck3Table {
  import opened Field
  import opened Circuit
  import RangeCheck2Table

  /** The number of bits needed to write v: 0 for 0, else 1 + the width of v / 2. */
  function BitLength(v: nat): nat
  {
    if v == 0 then 0 else 1 + BitLength(v / 2)
  }

  /** A nonzero v has BitLength(v) bits: 2^(BitLength(v) - 1) <= v < 2^BitLength(v). */
  lemma {:induction false} BitLengthBounds(v: nat)
    requires v >= 1
    ensures BitLength(v) >= 1 && Pow2(BitLength(v) - 1) <= v < Pow2(BitLength(v))
  {
    if v > 1 {
      BitLengthBounds(v / 2);
    }
  }

  /** The bit width is the unique nb with 2^(nb - 1) <= v < 2^nb. */
  lemma BitLengthOfRange(v: nat, nb: nat)
    requires nb >= 1 && Pow2(nb - 1) <= v < Pow2(nb)
    ensures BitLength(v) == nb
  {
    BitLengthBounds(v);
    var m := BitLength(v);
    if m < nb {
      Pow2Monotone(m, nb - 1);
    } else if m > nb {
      Pow2Monotone(nb, m - 1);
    }
  }

  /** The width column's entry for value v: 0 is listed as a 1-bit value. */
  function Tag(v: nat): (t: nat)
    ensures t >= 1 && (v > 0 ==> Pow2(t - 1) <= v < Pow2(t))
  {
    if v == 0 then 1
    else
      BitLengthBounds(v);
      BitLength(v)
  }

  lemma {:induction false} LinearBelowPow2(n: nat)
    ensures n < Pow2(n)
  {
    if n > 0 {
      LinearBelowPow2(n - 1);
    }
  }

  /** Values below 2^n have a tag of at most n (at least 1), hence below 2^n too. */
  lemma TagBelow(v: nat, n: nat)
    requires v < Pow2(n)
    ensures 1 <= Tag(v) <= Pow2(n) && (v > 0 ==> Tag(v) <= n)
  {
    LinearBelowPow2(n);
    if v > 0 {
      BitLengthBounds(v);
      if BitLength(v) > n {
        Pow2Monotone(n, BitLength(v) - 1);
      }
    }
  }

  /** The first `count` rows `load` writes, in order: offset o holds (Tag(o), o). */
  function BitWidthTable(P: nat, numBitsCol: nat, valueCol: nat, count: nat): Table
    requires P > 1
  {
    if count == 0 then map[]
    else BitWidthTable(P, numBitsCol, valueCol, count - 1)[(numBitsCol, count - 1) := Tag(count - 1) % P][(valueCol, count - 1) := (count - 1) % P]
  }

  /** The table holds exactly offsets 0 .. count - 1 of its two columns, with (Tag(o), o) at offset o. */
  lemma {:induction false} BitWidthTableDomain(P: nat, numBitsCol: nat, valueCol: nat, count: nat, c: nat, o: nat)
    requires P > 1 && numBitsCol != valueCol
    ensures (c, o) in BitWidthTable(P, numBitsCol, valueCol, count) <==> (c == numBitsCol || c == valueCol) && o < count
  {
    if count > 0 {
      BitWidthTableDomain(P, numBitsCol, valueCol, count - 1, c, o);
    }
  }

  lemma {:induction false} BitWidthTableAt(P: nat, numBitsCol: nat, valueCol: nat, count: nat, o: nat)
    requires P > 1 && numBitsCol != valueCol && o < count
    ensures (numBitsCol, o) in BitWidthTable(P, numBitsCol, valueCol, count)
    ensures (valueCol, o) in BitWidthTable(P, numBitsCol, valueCol, count)
    ensures BitWidthTable(P, numBitsCol, valueCol, count)[(numBitsCol, o)] == Tag(o) % P
    ensures BitWidthTable(P, numBitsCol, valueCol, count)[(valueCol, o)] == o % P
  {
    if o < count - 1 {
      BitWidthTableAt(P, numBitsCol, valueCol, count - 1, o);
    }
  }

  lemma UnionUpdate(before: Table, m: Table, k: (nat, nat), v: int)
    ensures (before + m)[k := v] == before + m[k := v]
  {
  }

  /** One more row of the table, written on top of other columns' cells. */
  lemma LoadStep(before: Table, P: nat, numBitsCol: nat, valueCol: nat, n: nat)
    requires P > 1 && numBitsCol != valueCol
    requires RangeCheck2Table.ColumnFree(before, numBitsCol) && RangeCheck2Table.ColumnFree(before, valueCol)
    ensures (numBitsCol, n) !in before + BitWidthTable(P, numBitsCol, valueCol, n)
    ensures (valueCol, n) !in (before + BitWidthTable(P, numBitsCol, valueCol, n))[(numBitsCol, n) := Tag(n) % P]
    ensures (before + BitWidthTable(P, numBitsCol, valueCol, n))[(numBitsCol, n) := Tag(n) % P][(valueCol, n) := n % P]
         == before + BitWidthTable(P, numBitsCol, valueCol, n + 1)
  {
    var m := BitWidthTable(P, numBitsCol, valueCol, n);
    assert (numBitsCol, n) !in before && (valueCol, n) !in before;
    BitWidthTableDomain(P, numBitsCol, valueCol, n, numBitsCol, n);
    BitWidthTableDomain(P, numBitsCol, valueCol, n, valueCol, n);
    UnionUpdate(before, m, (numBitsCol, n), Tag(n) % P);
    UnionUpdate(before, m[(numBitsCol, n) := Tag(n) % P], (valueCol, n), n % P);
  }

  /** One row of `load`: the width `tag` and the value `offset` at offset `offset`. */
  method AssignRow(lay: Layouter, P: nat, numBitsCol: nat, valueCol: nat, ghost before: Table, offset: nat, tag: nat)
    requires P > 1 && numBitsCol != valueCol && tag == Tag(offset)
    requires RangeCheck2Table.ColumnFree(before, numBitsCol) && RangeCheck2Table.ColumnFree(before, valueCol)
    requires lay.table == before + BitWidthTable(P, numBitsCol, valueCol, offset)
    modifies lay
    ensures lay.table == before + BitWidthTable(P, numBitsCol, valueCol, offset + 1)
    ensures lay.regions == old(lay.regions) && lay.copies == old(lay.copies)
  {
    LoadStep(before, P, numBitsCol, valueCol, offset);
    lay.AssignTableCell(numBitsCol, offset, tag % P);
    lay.AssignTableCell(valueCol, offset, offset % P);
  }

  /**
   * `load`: the row (1, 0), then for each width nb from 1 to NUM_BITS the
   * values 2^(nb - 1) .. 2^nb - 1 next to nb; 2^NUM_BITS rows in all, the
   * value at offset o being o.
   */
  method Load(lay: Layouter, P: nat, numBitsCol: nat, valueCol: nat, numBits: nat)
    requires P > 1 && numBitsCol != valueCol && numBits <= 30
    requires RangeCheck2Table.ColumnFree(lay.table, numBitsCol) && RangeCheck2Table.ColumnFree(lay.table, valueCol)
    modifies lay
    ensures lay.table == old(lay.table) + BitWidthTable(P, numBitsCol, valueCol, Pow2(numBits))
    ensures lay.regions == old(lay.regions) && lay.copies == old(lay.copies)
  {
    ghost var before := lay.table;
    var offset := 0;
    assert lay.table == before + BitWidthTable(P, numBitsCol, valueCol, 0);
    AssignRow(lay, P, numBitsCol, valueCol, before, offset, 1);
    offset := offset + 1;
    var nb := 1;
    while nb <= numBits
      invariant 1 <= nb <= numBits + 1
      invariant offset == Pow2(nb - 1)
      invariant lay.table == before + BitWidthTable(P, numBitsCol, valueCol, offset)
      invariant lay.regions == old(lay.regions) && lay.copies == old(lay.copies)
    {
      var value := Pow2(nb - 1);
      while value < Pow2(nb)
        invariant Pow2(nb - 1) <= value <= Pow2(nb)
        invariant offset == value
        invariant lay.table == before + BitWidthTable(P, numBitsCol, valueCol, offset)
        invariant lay.regions == old(lay.regions) && lay.copies == old(lay.copies)
      {
        BitLengthOfRange(value, nb);
        AssignRow(lay, P, numBitsCol, valueCol, before, offset, nb);
        offset := offset + 1;
        value := value + 1;
      }
      nb := nb + 1;
    }
    assert nb - 1 == numBits;
    assert offset == Pow2(numBits);
  }

  /**
   * With P > 2^NUM_BITS, a pair of field elements is a row of the table
   * exactly when the value is below 2^NUM_BITS and the width is its tag.
   */
  lemma BitWidthTableMembership(P: nat, numBitsCol: nat, valueCol: nat, numBits: nat, t: int, x: int)
    requires numBitsCol != valueCol && P > Pow2(numBits) && 0 <= t < P && 0 <= x < P
    ensures InTable(BitWidthTable(P, numBitsCol, valueCol, Pow2(numBits)), [numBitsCol, valueCol], [t, x])
        <==> x < Pow2(numBits) && t == Tag(x)
  {
    var table := BitWidthTable(P, numBitsCol, valueCol, Pow2(numBits));
    var cols, tuple := [numBitsCol, valueCol], [t, x];
    assert cols[0] == numBitsCol && cols[1] == valueCol && tuple[0] == t && tuple[1] == x;
    if x < Pow2(numBits) && t == Tag(x) {
      TagBelow(x, numBits);
      ModSmall(x, P);
      ModSmall(Tag(x), P);
      BitWidthTableAt(P, numBitsCol, valueCol, Pow2(numBits), x);
      assert RowMatches(table, cols, tuple, x);
    }
    if InTable(table, cols, tuple) {
      var o: nat :| RowMatches(table, cols, tuple, o);
      assert (valueCol, o) in table && table[(valueCol, o)] == x;
      assert (numBitsCol, o) in table && table[(numBitsCol, o)] == t;
      BitWidthTableDomain(P, numBitsCol, valueCol, Pow2(numBits), valueCol, o);
      BitWidthTableAt(P, numBitsCol, valueCol, Pow2(numBits), o);
      TagBelow(o, numBits);
      ModSmall(o, P);
      ModSmall(Tag(o), P);
    }
  }
}
