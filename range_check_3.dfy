/**
 * Range check by bit width: a lookup of the pair (num_bits, value) into the
 * table of range_check_3_table, so that a value is accepted together with
 * its exact bit width. Rows where the lookup is off look up the default
 * pair (1, 0), which the table holds.
 */
module RangeCheck3 {
  import opened Field
  import opened Circuit
  import RangeCheck3Table

  datatype RangeCheckConfig = RangeCheckConfig(qLookup: nat, numBitsCol: nat, valueCol: nat, tableNumBits: nat, tableValue: nat)

  /** The two cells the chip constrained: the width and the value. */
  datatype RangeConstrained = RangeConstrained(numBits: AssignedCell, assignedCell: AssignedCell)

  /**
   * What `configure` registers: no gate and one lookup of the gated pair
   * into (width, value), reading the two advice cells of the current row
   * under `q_lookup`.
   */
  function Configure(cfg: RangeCheckConfig): (cs: ConstraintSystem)
    ensures cs.gates == [] && |cs.lookups| == 1 && |cs.lookups[0].inputs| == 2
    ensures SelectorsOf(cs.lookups[0].inputs[0]) == {cfg.qLookup} && Queries(cs.lookups[0].inputs[0]) == {(cfg.numBitsCol, 0)}
    ensures SelectorsOf(cs.lookups[0].inputs[1]) == {cfg.qLookup} && Queries(cs.lookups[0].inputs[1]) == {(cfg.valueCol, 0)}
  {
    GatedOrDefaultReads(cfg.qLookup, Advice(cfg.numBitsCol, 0), 1);
    GatedOrDefaultReads(cfg.qLookup, Advice(cfg.valueCol, 0), 0);
    ConstraintSystem(
      [],
      [Lookup([GatedOrDefault(cfg.qLookup, Advice(cfg.numBitsCol, 0), 1), GatedOrDefault(cfg.qLookup, Advice(cfg.valueCol, 0), 0)],
              [cfg.tableNumBits, cfg.tableValue])],
      {})
  }

  /** The tuple looked up on a row: the row's (num_bits, value) when enabled, else (1, 0). */
  lemma LookupInput(P: nat, cfg: RangeCheckConfig, reg: RegionState, row: nat)
    requires P > 1
    ensures EvalTuple(P, Configure(cfg).lookups[0].inputs, reg, row)
         == if (cfg.qLookup, row) in reg.enabled
            then [CellValue(reg, cfg.numBitsCol, row) % P, CellValue(reg, cfg.valueCol, row) % P]
            else [1, 0]
  {
    GatedOrDefaultValue(P, cfg.qLookup, Advice(cfg.numBitsCol, 0), 1, reg, row);
    GatedOrDefaultValue(P, cfg.qLookup, Advice(cfg.valueCol, 0), 0, reg, row);
    ModSmall(1, P);
    ModSmall(0, P);
  }

  function LookupRegion(cfg: RangeCheckConfig, v: int, numBits: nat): RegionState
  {
    RegionState("Assign lookup table", map[(cfg.numBitsCol, 0) := numBits, (cfg.valueCol, 0) := v], {(cfg.qLookup, 0)})
  }

  /** `assign_lookup_table`: the width and the value side by side at row 0, under the lookup. */
  method AssignLookupTable(lay: Layouter, cfg: RangeCheckConfig, v: int, numBits: nat) returns (c: RangeConstrained)
    requires numBits < 256 && cfg.numBitsCol != cfg.valueCol
    modifies lay
    ensures c == RangeConstrained(AssignedCell(Cell(|old(lay.regions)|, cfg.numBitsCol, 0), numBits),
                                  AssignedCell(Cell(|old(lay.regions)|, cfg.valueCol, 0), v))
    ensures lay.regions == old(lay.regions) + [LookupRegion(cfg, v, numBits)]
    ensures lay.copies == old(lay.copies) && lay.table == old(lay.table)
  {
    var r := lay.AssignRegion("Assign lookup table");
    lay.Enable(r, cfg.qLookup, 0);
    var numBitsCell := lay.AssignAdvice(r, cfg.numBitsCol, 0, numBits);
    var valueCell := lay.AssignAdvice(r, cfg.valueCol, 0, v);
    c := RangeConstrained(numBitsCell, valueCell);
    assert lay.regions[r] == LookupRegion(cfg, v, numBits);
    assert lay.regions == old(lay.regions) + [LookupRegion(cfg, v, numBits)];
  }

  function Table(P: nat, cfg: RangeCheckConfig, tableBits: nat): Circuit.Table
    requires P > 1
  {
    RangeCheck3Table.BitWidthTable(P, cfg.tableNumBits, cfg.tableValue, Pow2(tableBits))
  }

  /**
   * The lookup fails on a row exactly when it is enabled there and the
   * row's pair is not (Tag(value), value) for a value below 2^NUM_BITS.
   */
  lemma LookupFailsWhere(P: nat, cfg: RangeCheckConfig, tableBits: nat, reg: RegionState, row: nat)
    requires cfg.tableNumBits != cfg.tableValue && P > Pow2(tableBits)
    ensures LookupFails(P, Configure(cfg).lookups[0], Table(P, cfg, tableBits), reg, row)
        <==> (cfg.qLookup, row) in reg.enabled &&
             !(CellValue(reg, cfg.valueCol, row) % P < Pow2(tableBits) &&
               CellValue(reg, cfg.numBitsCol, row) % P == RangeCheck3Table.Tag(CellValue(reg, cfg.valueCol, row) % P))
  {
    LookupInput(P, cfg, reg, row);
    var t, x := CellValue(reg, cfg.numBitsCol, row) % P, CellValue(reg, cfg.valueCol, row) % P;
    if (cfg.qLookup, row) in reg.enabled {
      RangeCheck3Table.BitWidthTableMembership(P, cfg.tableNumBits, cfg.tableValue, tableBits, t, x);
    } else {
      RangeCheck3Table.BitWidthTableMembership(P, cfg.tableNumBits, cfg.tableValue, tableBits, 1, 0);
    }
  }

  /**
   * `assign_lookup_table` is accepted exactly when the value is below
   * 2^NUM_BITS and num_bits is its bit width (1 for the value 0).
   */
  lemma LookupRegionSatisfied(P: nat, cfg: RangeCheckConfig, tableBits: nat, v: int, numBits: nat)
    requires cfg.tableNumBits != cfg.tableValue && cfg.numBitsCol != cfg.valueCol && P > Pow2(tableBits)
    ensures RegionSatisfied(P, Configure(cfg), Table(P, cfg, tableBits), LookupRegion(cfg, v, numBits))
        <==> v % P < Pow2(tableBits) && numBits % P == RangeCheck3Table.Tag(v % P)
  {
    var cs, table, reg := Configure(cfg), Table(P, cfg, tableBits), LookupRegion(cfg, v, numBits);
    forall row: nat
      ensures LookupFails(P, cs.lookups[0], table, reg, row)
          <==> row == 0 && !(v % P < Pow2(tableBits) && numBits % P == RangeCheck3Table.Tag(v % P))
    {
      LookupFailsWhere(P, cfg, tableBits, reg, row);
    }
    if !(v % P < Pow2(tableBits) && numBits % P == RangeCheck3Table.Tag(v % P)) {
      assert LookupFails(P, cs.lookups[0], table, reg, 0);
    }
  }

  /** Every value of every width from 1 to NUM_BITS is accepted with that width. */
  lemma AcceptsEachWidth(P: nat, cfg: RangeCheckConfig, tableBits: nat, numBits: nat, v: nat)
    requires cfg.tableNumBits != cfg.tableValue && cfg.numBitsCol != cfg.valueCol && P > Pow2(tableBits)
    requires 1 <= numBits <= tableBits && Pow2(numBits - 1) <= v < Pow2(numBits)
    ensures RegionSatisfied(P, Configure(cfg), Table(P, cfg, tableBits), LookupRegion(cfg, v, numBits))
  {
    Pow2Monotone(numBits, tableBits);
    RangeCheck3Table.BitLengthOfRange(v, numBits);
    RangeCheck3Table.TagBelow(v, numBits);
    ModSmall(v, P);
    ModSmall(numBits, P);
    LookupRegionSatisfied(P, cfg, tableBits, v, numBits);
  }

  /** With NUM_BITS = 8, the pair (8, 8) fails the lookup once, at row 0: 8 has 4 bits. */
  lemma RejectsEightAsEightBits(P: nat, cfg: RangeCheckConfig, row: nat)
    requires cfg.tableNumBits != cfg.tableValue && P > Pow2(8)
    ensures LookupFails(P, Configure(cfg).lookups[0], Table(P, cfg, 8), LookupRegion(cfg, 8, 8), row) <==> row == 0
  {
    ModSmall(8, P);
    RangeCheck3Table.BitLengthOfRange(8, 4);
    LookupFailsWhere(P, cfg, 8, LookupRegion(cfg, 8, 8), row);
  }
}
