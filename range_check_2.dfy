/**
 * Two ways of range-checking a value with one advice column: the polynomial
 * gate of range_check_1 for a small range R, and a lookup into the table
 * [0, LOOKUP_TABLE_RANGE) for a larger one. Each has its own selector.
 */
module RangeCheck2 {
  import opened Field
  import opened Circuit
  import RangeCheck1
  import RangeCheck2Table

  datatype RangeCheckConfig = RangeCheckConfig(value: nat, qRangeCheck: nat, qLookup: nat, tableValue: nat)

  /** An assigned cell that the chip has constrained to its range. */
  datatype RangeConstrained = RangeConstrained(cell: AssignedCell)

  /**
   * What `configure` registers: the gate "Range Check" on `qRangeCheck`, and a
   * lookup of `qLookup * value` into the table column; each reads the value
   * on the current row under its own selector.
   */
  function Configure(R: nat, cfg: RangeCheckConfig): (cs: ConstraintSystem)
    ensures |cs.gates| == 1 && |cs.lookups| == 1 && |cs.lookups[0].inputs| == 1
    ensures GateSelectors(cs.gates[0].polys) == {cfg.qRangeCheck} && GateQueries(cs.gates[0].polys) == {(cfg.value, 0)}
    ensures SelectorsOf(cs.lookups[0].inputs[0]) == {cfg.qLookup} && Queries(cs.lookups[0].inputs[0]) == {(cfg.value, 0)}
  {
    SinglePolyReads(Product(Selector(cfg.qRangeCheck), RangeCheck1.RangeCheckExpr(R, Advice(cfg.value, 0))));
    ConstraintSystem(
      [Gate("Range Check", [Product(Selector(cfg.qRangeCheck), RangeCheck1.RangeCheckExpr(R, Advice(cfg.value, 0)))])],
      [Lookup([Product(Selector(cfg.qLookup), Advice(cfg.value, 0))], [cfg.tableValue])],
      {})
  }

  /** Off its selector the lookup input is 0; on it, the value in the cell. */
  lemma LookupInput(P: nat, R: nat, cfg: RangeCheckConfig, reg: RegionState, row: nat)
    requires P > 1
    ensures EvalTuple(P, Configure(R, cfg).lookups[0].inputs, reg, row)
         == [if (cfg.qLookup, row) in reg.enabled then CellValue(reg, cfg.value, row) % P else 0]
  {
    GatedByRow(P, cfg.qLookup, Advice(cfg.value, 0), reg, row);
  }

  function SimpleRegion(cfg: RangeCheckConfig, v: int): RegionState
  {
    RegionState("Assign simple", map[(cfg.value, 0) := v], {(cfg.qRangeCheck, 0)})
  }

  function LookupRegion(cfg: RangeCheckConfig, v: int): RegionState
  {
    RegionState("Assign lookup table", map[(cfg.value, 0) := v], {(cfg.qLookup, 0)})
  }

  /** `assign_simple`: the value at row 0 of its own region, under the gate. */
  method AssignSimple(lay: Layouter, cfg: RangeCheckConfig, v: int) returns (c: RangeConstrained)
    modifies lay
    ensures c == RangeConstrained(AssignedCell(Cell(|old(lay.regions)|, cfg.value, 0), v))
    ensures lay.regions == old(lay.regions) + [SimpleRegion(cfg, v)]
    ensures lay.copies == old(lay.copies) && lay.table == old(lay.table)
  {
    var r := lay.AssignRegion("Assign simple");
    lay.Enable(r, cfg.qRangeCheck, 0);
    var cell := lay.AssignAdvice(r, cfg.value, 0, v);
    c := RangeConstrained(cell);
    assert lay.regions[r] == SimpleRegion(cfg, v);
    assert lay.regions == old(lay.regions) + [SimpleRegion(cfg, v)];
  }

  /** `assign_lookup_table`: the value at row 0 of its own region, under the lookup. */
  method AssignLookupTable(lay: Layouter, cfg: RangeCheckConfig, v: int) returns (c: RangeConstrained)
    modifies lay
    ensures c == RangeConstrained(AssignedCell(Cell(|old(lay.regions)|, cfg.value, 0), v))
    ensures lay.regions == old(lay.regions) + [LookupRegion(cfg, v)]
    ensures lay.copies == old(lay.copies) && lay.table == old(lay.table)
  {
    var r := lay.AssignRegion("Assign lookup table");
    lay.Enable(r, cfg.qLookup, 0);
    var cell := lay.AssignAdvice(r, cfg.value, 0, v);
    c := RangeConstrained(cell);
    assert lay.regions[r] == LookupRegion(cfg, v);
    assert lay.regions == old(lay.regions) + [LookupRegion(cfg, v)];
  }

  /**
   * On a row where `qLookup` is off the input is 0, which the table holds, so
   * a region can only fail the lookup on a row where the lookup is enabled.
   */
  lemma LookupFailsWhere(P: nat, R: nat, LR: nat, cfg: RangeCheckConfig, reg: RegionState, row: nat)
    requires P > 1 && 1 <= LR <= P
    ensures LookupFails(P, Configure(R, cfg).lookups[0], RangeCheck2Table.RangeTable(P, cfg.tableValue, LR), reg, row)
        <==> (cfg.qLookup, row) in reg.enabled && CellValue(reg, cfg.value, row) % P >= LR
  {
    LookupInput(P, R, cfg, reg, row);
    var x := if (cfg.qLookup, row) in reg.enabled then CellValue(reg, cfg.value, row) % P else 0;
    RangeCheck2Table.RangeTableMembership(P, cfg.tableValue, LR, x);
  }

  /** `assign_simple` is accepted exactly when the value is below R. */
  lemma SimpleRegionSatisfied(P: nat, R: nat, LR: nat, cfg: RangeCheckConfig, v: int)
    requires IsPrime(P) && R >= 1 && 1 <= LR <= P && cfg.qRangeCheck != cfg.qLookup
    ensures RegionSatisfied(P, Configure(R, cfg), RangeCheck2Table.RangeTable(P, cfg.tableValue, LR), SimpleRegion(cfg, v))
        <==> v % P < R
  {
    var cs := Configure(R, cfg);
    var table := RangeCheck2Table.RangeTable(P, cfg.tableValue, LR);
    var reg := SimpleRegion(cfg, v);
    forall row: nat
      ensures !LookupFails(P, cs.lookups[0], table, reg, row)
    {
      LookupFailsWhere(P, R, LR, cfg, reg, row);
    }
    forall row: nat
      ensures Eval(P, cs.gates[0].polys[0], reg, row) == 0 <==> row != 0 || v % P < R
    {
      RangeCheck1.RangeGateZero(P, R, cfg.qRangeCheck, cfg.value, reg, row);
    }
    if v % P >= R {
      assert GateFails(P, cs.gates[0], reg, 0, 0);
    }
  }

  /** `assign_lookup_table` is accepted exactly when the value is below LOOKUP_TABLE_RANGE. */
  lemma LookupRegionSatisfied(P: nat, R: nat, LR: nat, cfg: RangeCheckConfig, v: int)
    requires IsPrime(P) && R >= 1 && 1 <= LR <= P && cfg.qRangeCheck != cfg.qLookup
    ensures RegionSatisfied(P, Configure(R, cfg), RangeCheck2Table.RangeTable(P, cfg.tableValue, LR), LookupRegion(cfg, v))
        <==> v % P < LR
  {
    var cs := Configure(R, cfg);
    var table := RangeCheck2Table.RangeTable(P, cfg.tableValue, LR);
    var reg := LookupRegion(cfg, v);
    forall row: nat
      ensures LookupFails(P, cs.lookups[0], table, reg, row) <==> row == 0 && v % P >= LR
    {
      LookupFailsWhere(P, R, LR, cfg, reg, row);
    }
    forall row: nat
      ensures Eval(P, cs.gates[0].polys[0], reg, row) == 0
    {
      RangeCheck1.RangeGateZero(P, R, cfg.qRangeCheck, cfg.value, reg, row);
    }
    if v % P >= LR {
      assert LookupFails(P, cs.lookups[0], table, reg, 0);
    }
  }

  /**
   * Neither region has the gate read an unassigned cell: in `assign_simple`'s
   * the gate reads the value it assigns, in `assign_lookup_table`'s its
   * selector is off.
   */
  lemma RegionsCellsAssigned(R: nat, cfg: RangeCheckConfig, v: int)
    requires cfg.qRangeCheck != cfg.qLookup
    ensures GateCellsAssigned(Configure(R, cfg), SimpleRegion(cfg, v))
    ensures GateCellsAssigned(Configure(R, cfg), LookupRegion(cfg, v))
  {
    var body := RangeCheck1.RangeCheckExpr(R, Advice(cfg.value, 0));
    SelectorGateCells(Configure(R, cfg), SimpleRegion(cfg, v), cfg.qRangeCheck, body);
    SelectorGateCells(Configure(R, cfg), LookupRegion(cfg, v), cfg.qRangeCheck, body);
  }

  /** With R = 8, the value 8 fails the gate of `assign_simple` once, at row 0. */
  lemma SimpleRejectsEight(P: nat, LR: nat, cfg: RangeCheckConfig, k: nat, row: nat)
    requires IsPrime(P) && P > 8
    ensures GateFails(P, Configure(8, cfg).gates[0], SimpleRegion(cfg, 8), k, row) <==> k == 0 && row == 0
  {
    ModSmall(8, P);
    RangeCheck1.RangeGateZero(P, 8, cfg.qRangeCheck, cfg.value, SimpleRegion(cfg, 8), row);
  }

  /** With LOOKUP_TABLE_RANGE = 256, the value 256 fails the lookup once, at row 0. */
  lemma LookupRejects256(P: nat, R: nat, cfg: RangeCheckConfig, row: nat)
    requires IsPrime(P) && P > 256
    ensures LookupFails(P, Configure(R, cfg).lookups[0], RangeCheck2Table.RangeTable(P, cfg.tableValue, 256), LookupRegion(cfg, 256), row)
        <==> row == 0
  {
    ModSmall(256, P);
    LookupFailsWhere(P, R, 256, cfg, LookupRegion(cfg, 256), row);
  }
}
