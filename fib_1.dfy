/**
 * The three-column Fibonacci chip: one region per row, each row holding
 * a | b | c with the gate a + b - c = 0, and the next row copying b and c of
 * the previous one into its a and b.
 */
module Fib1 {
  import opened Field
  import opened Circuit
  import opened Fibonacci

  /** The advice columns a, b, c and the selector of the gate. */
  datatype FibConfig = FibConfig(a: nat, b: nat, c: nat, selector: nat)

  /** `configure` takes three distinct advice columns. */
  predicate Distinct(cfg: FibConfig)
  {
    cfg.a != cfg.b && cfg.b != cfg.c && cfg.a != cfg.c
  }

  /** The body of the "fibonacci" gate: a + b - c on the current row. */
  function GateBody(cfg: FibConfig): Expr
  {
    Sub(Sum(Advice(cfg.a, 0), Advice(cfg.b, 0)), Advice(cfg.c, 0))
  }

  /**
   * What `configure` registers: one gate of degree 2, switched by the
   * selector and reading a, b and c on the current row, no lookup, and
   * equality on the three advice columns and the instance column.
   */
  function Configure(cfg: FibConfig): (cs: ConstraintSystem)
    ensures |cs.gates| == 1 && |cs.gates[0].polys| == 1 && cs.lookups == [] && Degree(cs.gates[0].polys[0]) == 2
    ensures GateSelectors(cs.gates[0].polys) == {cfg.selector}
    ensures GateQueries(cs.gates[0].polys) == {(cfg.a, 0), (cfg.b, 0), (cfg.c, 0)}
  {
    SubReads(Sum(Advice(cfg.a, 0), Advice(cfg.b, 0)), Advice(cfg.c, 0));
    SubDegree(Sum(Advice(cfg.a, 0), Advice(cfg.b, 0)), Advice(cfg.c, 0));
    assert Degree(Product(Selector(cfg.selector), GateBody(cfg))) == 2;
    SinglePolyReads(Product(Selector(cfg.selector), GateBody(cfg)));
    ConstraintSystem(
      [Gate("fibonacci", [Product(Selector(cfg.selector), GateBody(cfg))])],
      [],
      {AdviceColumn(cfg.a), AdviceColumn(cfg.b), AdviceColumn(cfg.c), InstanceColumn(0)})
  }

  /** The gate on a row: a + b - c in the field where the selector is on, 0 elsewhere. */
  lemma {:induction false} GateValue(P: nat, cfg: FibConfig, reg: RegionState, row: nat)
    requires P > 1
    ensures Eval(P, Configure(cfg).gates[0].polys[0], reg, row)
         == if (cfg.selector, row) in reg.enabled
            then (CellValue(reg, cfg.a, row) + CellValue(reg, cfg.b, row) - CellValue(reg, cfg.c, row)) % P
            else 0
  {
    GatedByRow(P, cfg.selector, GateBody(cfg), reg, row);
    EvalReduces(P, GateBody(cfg), reg, row);
    var x, y, z := CellValue(reg, cfg.a, row), CellValue(reg, cfg.b, row), CellValue(reg, cfg.c, row);
    assert EvalInt(Sum(Advice(cfg.a, 0), Advice(cfg.b, 0)), reg, row) == x + y;
    assert EvalInt(Negated(Advice(cfg.c, 0)), reg, row) == -z;
  }

  /** A region of one row: a, b and c at row 0 with the selector on. */
  function RowRegion(name: string, cfg: FibConfig, x: int, y: int, z: int): RegionState
  {
    RegionState(name, map[(cfg.a, 0) := x, (cfg.b, 0) := y, (cfg.c, 0) := z], {(cfg.selector, 0)})
  }

  /** A one-row region satisfies the gate exactly when c = a + b in the field. */
  lemma {:induction false} RowRegionSatisfied(P: nat, cfg: FibConfig, name: string, x: int, y: int, z: int, table: Table)
    requires P > 1 && Distinct(cfg)
    ensures RegionSatisfied(P, Configure(cfg), table, RowRegion(name, cfg, x, y, z)) <==> (x + y - z) % P == 0
  {
    var cs := Configure(cfg);
    var reg := RowRegion(name, cfg, x, y, z);
    GateValue(P, cfg, reg, 0);
    if (x + y - z) % P == 0 {
      forall g, k: nat, row: nat | 0 <= g < |cs.gates|
        ensures !GateFails(P, cs.gates[g], reg, k, row)
      {
        GateValue(P, cfg, reg, row);
      }
    } else {
      assert GateFails(P, cs.gates[0], reg, 0, 0);
    }
  }

  /** The gate reads a, b and c on row 0, the only row with the selector, and the region assigns all three. */
  lemma {:induction false} RowRegionCellsAssigned(cfg: FibConfig, name: string, x: int, y: int, z: int)
    ensures GateCellsAssigned(Configure(cfg), RowRegion(name, cfg, x, y, z))
  {
    var reg := RowRegion(name, cfg, x, y, z);
    SubReads(Sum(Advice(cfg.a, 0), Advice(cfg.b, 0)), Advice(cfg.c, 0));
    SelectorGateCells(Configure(cfg), reg, cfg.selector, GateBody(cfg));
    assert Queries(GateBody(cfg)) == {(cfg.a, 0), (cfg.b, 0), (cfg.c, 0)};
  }

  /**
   * `assign_first_row`: a and b from instance rows 0 and 1, c their field
   * sum, the selector on row 0; returns the three cells.
   */
  method AssignFirstRow(lay: Layouter, P: nat, cfg: FibConfig) returns (aCell: AssignedCell, bCell: AssignedCell, cCell: AssignedCell)
    requires P > 1 && Distinct(cfg) && Configure(cfg).equality <= lay.equality
    modifies lay
    ensures var r, x, y := |old(lay.regions)|, InstanceValue(lay.instance, 0), InstanceValue(lay.instance, 1);
      && aCell == AssignedCell(Cell(r, cfg.a, 0), x)
      && bCell == AssignedCell(Cell(r, cfg.b, 0), y)
      && cCell == AssignedCell(Cell(r, cfg.c, 0), (x + y) % P)
      && lay.regions == old(lay.regions) + [RowRegion("first row", cfg, x, y, (x + y) % P)]
      && lay.copies == old(lay.copies) + {(AdviceCell(aCell.cell), InstanceCell(0)), (AdviceCell(bCell.cell), InstanceCell(1))}
    ensures lay.table == old(lay.table)
  {
    var r := lay.AssignRegion("first row");
    lay.Enable(r, cfg.selector, 0);
    aCell := lay.AssignAdviceFromInstance(0, r, cfg.a, 0);
    bCell := lay.AssignAdviceFromInstance(1, r, cfg.b, 0);
    cCell := lay.AssignAdvice(r, cfg.c, 0, (aCell.value + bCell.value) % P);
    assert lay.regions[r] == RowRegion("first row", cfg, aCell.value, bCell.value, cCell.value);
  }

  /**
   * `assign_row`: copies `prev_b` into a and `prev_c` into b, writes their
   * field sum into c and enables the selector; returns the c cell.
   */
  method AssignRow(lay: Layouter, P: nat, cfg: FibConfig, prevB: AssignedCell, prevC: AssignedCell) returns (cCell: AssignedCell)
    requires P > 1 && Distinct(cfg) && Configure(cfg).equality <= lay.equality
    requires AdviceColumn(prevB.cell.column) in lay.equality && AdviceColumn(prevC.cell.column) in lay.equality
    modifies lay
    ensures var r := |old(lay.regions)|;
      && cCell == AssignedCell(Cell(r, cfg.c, 0), (prevB.value + prevC.value) % P)
      && lay.regions == old(lay.regions) + [RowRegion("next row", cfg, prevB.value, prevC.value, cCell.value)]
      && lay.copies == old(lay.copies) + {(AdviceCell(prevB.cell), AdviceCell(Cell(r, cfg.a, 0))), (AdviceCell(prevC.cell), AdviceCell(Cell(r, cfg.b, 0)))}
    ensures lay.table == old(lay.table)
  {
    var r := lay.AssignRegion("next row");
    lay.Enable(r, cfg.selector, 0);
    var _ := lay.CopyAdvice(prevB, r, cfg.a, 0);
    var _ := lay.CopyAdvice(prevC, r, cfg.b, 0);
    cCell := lay.AssignAdvice(r, cfg.c, 0, (prevB.value + prevC.value) % P);
    assert lay.regions[r] == RowRegion("next row", cfg, prevB.value, prevC.value, cCell.value);
  }

  /** `expose_public`: binds a cell to a row of the instance column. */
  method ExposePublic(lay: Layouter, cfg: FibConfig, cell: AssignedCell, row: nat)
    requires Configure(cfg).equality <= lay.equality && AdviceColumn(cell.cell.column) in lay.equality
    modifies lay
    ensures lay.copies == old(lay.copies) + {(AdviceCell(cell.cell), InstanceCell(row))}
    ensures lay.regions == old(lay.regions) && lay.table == old(lay.table)
  {
    lay.ConstrainInstance(cell.cell, row);
  }

  // ---------------------------------------------------------------------
  // The circuit that drives the chip: the first row, then one `assign_row`
  // per further term, then the last c exposed at instance row 2.
  // ---------------------------------------------------------------------

  /** Regions 0 .. k: region i holds the terms i, i + 1, i + 2. */
  function FibRegions(P: nat, cfg: FibConfig, x: int, y: int, k: nat): seq<RegionState>
    requires P > 1
  {
    seq(k + 1, i requires 0 <= i <= k =>
      RowRegion(if i == 0 then "first row" else "next row", cfg, Fib(P, x, y, i), Fib(P, x, y, i + 1), Fib(P, x, y, i + 2)))
  }

  /** The cell `prev_b` names when region i is laid out. */
  function PrevB(cfg: FibConfig, i: nat): Cell
    requires i >= 1
  {
    if i == 1 then Cell(0, cfg.b, 0) else Cell(i - 2, cfg.c, 0)
  }

  /** The copy constraints laid down with region i. */
  function RowCopies(cfg: FibConfig, i: nat): set<(CellRef, CellRef)>
  {
    if i == 0 then {(AdviceCell(Cell(0, cfg.a, 0)), InstanceCell(0)), (AdviceCell(Cell(0, cfg.b, 0)), InstanceCell(1))}
    else {(AdviceCell(PrevB(cfg, i)), AdviceCell(Cell(i, cfg.a, 0))), (AdviceCell(Cell(i - 1, cfg.c, 0)), AdviceCell(Cell(i, cfg.b, 0)))}
  }

  /** The copy constraints of regions 0 .. k. */
  function FibCopies(cfg: FibConfig, k: nat): set<(CellRef, CellRef)>
  {
    if k == 0 then RowCopies(cfg, 0) else FibCopies(cfg, k - 1) + RowCopies(cfg, k)
  }

  /** The copy binding the last c to instance row 2. */
  function OutCopy(cfg: FibConfig, k: nat): (CellRef, CellRef)
  {
    (AdviceCell(Cell(k, cfg.c, 0)), InstanceCell(2))
  }

  lemma {:induction false} FibRegionsSnoc(P: nat, cfg: FibConfig, x: int, y: int, k: nat, b: int, c: int, z: int)
    requires P > 1
    requires b == Fib(P, x, y, k + 1) && c == Fib(P, x, y, k + 2) && z == (b + c) % P
    ensures FibRegions(P, cfg, x, y, k + 1) == FibRegions(P, cfg, x, y, k) + [RowRegion("next row", cfg, b, c, z)]
  {
  }

  /** One pass of the loop in `synthesize`: `assign_row` on the previous b and c adds region k + 1, whose c is term k + 3. */
  method AssignNextRow(lay: Layouter, P: nat, cfg: FibConfig, ghost x: int, ghost y: int, ghost k: nat, prevB: AssignedCell, prevC: AssignedCell)
    returns (cCell: AssignedCell)
    requires P > 1 && Distinct(cfg) && Configure(cfg).equality <= lay.equality
    requires lay.regions == FibRegions(P, cfg, x, y, k) && lay.copies == FibCopies(cfg, k)
    requires prevB == AssignedCell(PrevB(cfg, k + 1), Fib(P, x, y, k + 1))
    requires prevC == AssignedCell(Cell(k, cfg.c, 0), Fib(P, x, y, k + 2))
    modifies lay
    ensures cCell == AssignedCell(Cell(k + 1, cfg.c, 0), Fib(P, x, y, k + 3))
    ensures lay.regions == FibRegions(P, cfg, x, y, k + 1) && lay.copies == FibCopies(cfg, k + 1)
    ensures lay.table == old(lay.table)
  {
    assert |lay.regions| == k + 1;
    cCell := AssignRow(lay, P, cfg, prevB, prevC);
    FibRegionsSnoc(P, cfg, x, y, k, prevB.value, prevC.value, cCell.value);
    FibCopiesSnoc(cfg, k);
  }

  lemma FibCopiesSnoc(cfg: FibConfig, k: nat)
    ensures FibCopies(cfg, k + 1) == FibCopies(cfg, k)
      + {(AdviceCell(PrevB(cfg, k + 1)), AdviceCell(Cell(k + 1, cfg.a, 0))), (AdviceCell(Cell(k, cfg.c, 0)), AdviceCell(Cell(k + 1, cfg.b, 0)))}
  {
  }

  /**
   * The circuit's `synthesize`: `assign_first_row`, then `assign_row` for
   * each term index in 3 .. terms, then the last c exposed at instance row 2.
   * The circuit uses terms = 10.
   */
  method Synthesize(lay: Layouter, P: nat, cfg: FibConfig, terms: nat) returns (out: AssignedCell)
    requires P > 1 && Distinct(cfg) && Configure(cfg).equality <= lay.equality && terms >= 3
    requires lay.regions == [] && lay.copies == {}
    modifies lay
    ensures var x, y := InstanceValue(lay.instance, 0), InstanceValue(lay.instance, 1);
      && out == AssignedCell(Cell(terms - 3, cfg.c, 0), Fib(P, x, y, terms - 1))
      && lay.regions == FibRegions(P, cfg, x, y, terms - 3)
      && lay.copies == FibCopies(cfg, terms - 3) + {OutCopy(cfg, terms - 3)}
    ensures lay.table == old(lay.table)
  {
    ghost var x, y := InstanceValue(lay.instance, 0), InstanceValue(lay.instance, 1);
    var _, prevB, prevC := AssignFirstRow(lay, P, cfg);
    assert lay.regions == FibRegions(P, cfg, x, y, 0);
    for k := 0 to terms - 3
      invariant lay.regions == FibRegions(P, cfg, x, y, k)
      invariant lay.copies == FibCopies(cfg, k)
      invariant prevB == AssignedCell(PrevB(cfg, k + 1), Fib(P, x, y, k + 1))
      invariant prevC == AssignedCell(Cell(k, cfg.c, 0), Fib(P, x, y, k + 2))
      invariant lay.table == old(lay.table)
    {
      var cCell := AssignNextRow(lay, P, cfg, x, y, k, prevB, prevC);
      assert prevC.cell == PrevB(cfg, k + 2);
      prevB := prevC;
      prevC := cCell;
    }
    ExposePublic(lay, cfg, prevC, 2);
    out := prevC;
  }

  lemma {:induction false} FibRegionsCell(P: nat, cfg: FibConfig, x: int, y: int, k: nat, i: nat)
    requires P > 1 && Distinct(cfg) && i <= k
    ensures CellValue(FibRegions(P, cfg, x, y, k)[i], cfg.a, 0) == Fib(P, x, y, i)
    ensures CellValue(FibRegions(P, cfg, x, y, k)[i], cfg.b, 0) == Fib(P, x, y, i + 1)
    ensures CellValue(FibRegions(P, cfg, x, y, k)[i], cfg.c, 0) == Fib(P, x, y, i + 2)
  {
  }

  /** The three advice cells of region j, read through the assignment. */
  lemma {:induction false} FibCellValues(P: nat, cfg: FibConfig, a: Assignment, k: nat, j: nat)
    requires P > 1 && Distinct(cfg) && j <= k
    requires a.regions == FibRegions(P, cfg, InstanceValue(a.instance, 0), InstanceValue(a.instance, 1), k)
    ensures var x, y := InstanceValue(a.instance, 0), InstanceValue(a.instance, 1);
      && RefValue(a, AdviceCell(Cell(j, cfg.a, 0))) == Fib(P, x, y, j)
      && RefValue(a, AdviceCell(Cell(j, cfg.b, 0))) == Fib(P, x, y, j + 1)
      && RefValue(a, AdviceCell(Cell(j, cfg.c, 0))) == Fib(P, x, y, j + 2)
  {
    FibRegionsCell(P, cfg, InstanceValue(a.instance, 0), InstanceValue(a.instance, 1), k, j);
  }

  /** The copies laid down with region i hold once the regions 0 .. k, i <= k, are in place. */
  lemma {:induction false} RowCopiesHold(P: nat, cfg: FibConfig, a: Assignment, k: nat, i: nat)
    requires P > 1 && Distinct(cfg) && i <= k
    requires a.regions == FibRegions(P, cfg, InstanceValue(a.instance, 0), InstanceValue(a.instance, 1), k)
    ensures CopiesHold(P, a, RowCopies(cfg, i))
  {
    FibCellValues(P, cfg, a, k, i);
    if i == 0 {
      CopiesHoldPair(P, a, (AdviceCell(Cell(0, cfg.a, 0)), InstanceCell(0)), (AdviceCell(Cell(0, cfg.b, 0)), InstanceCell(1)));
    } else {
      FibCellValues(P, cfg, a, k, i - 1);
      if i >= 2 {
        FibCellValues(P, cfg, a, k, i - 2);
      }
      CopiesHoldPair(P, a, (AdviceCell(PrevB(cfg, i)), AdviceCell(Cell(i, cfg.a, 0))),
                           (AdviceCell(Cell(i - 1, cfg.c, 0)), AdviceCell(Cell(i, cfg.b, 0))));
    }
  }

  /** Every copy laid down with regions 0 .. j holds once the regions 0 .. k, j <= k, are in place. */
  lemma {:induction false} FibCopiesHold(P: nat, cfg: FibConfig, a: Assignment, k: nat, j: nat)
    requires P > 1 && Distinct(cfg) && j <= k
    requires a.regions == FibRegions(P, cfg, InstanceValue(a.instance, 0), InstanceValue(a.instance, 1), k)
    ensures CopiesHold(P, a, FibCopies(cfg, j))
  {
    RowCopiesHold(P, cfg, a, k, j);
    if j > 0 {
      FibCopiesHold(P, cfg, a, k, j - 1);
      CopiesHoldUnion(P, a, FibCopies(cfg, j - 1), RowCopies(cfg, j));
    }
  }

  /** Every region the circuit lays out satisfies the gate. */
  lemma {:induction false} FibRegionSatisfied(P: nat, cfg: FibConfig, x: int, y: int, k: nat, i: nat, table: Table)
    requires P > 1 && Distinct(cfg) && i <= k
    ensures RegionSatisfied(P, Configure(cfg), table, FibRegions(P, cfg, x, y, k)[i])
  {
    var u, v, w := Fib(P, x, y, i), Fib(P, x, y, i + 1), Fib(P, x, y, i + 2);
    assert (u + v - w) % P == 0 by {
      FibReduces(P, x, y, i + 2);
      ModSmall(w, P);
      CongruentDiff(u + v, w, P);
    }
    RowRegionSatisfied(P, cfg, if i == 0 then "first row" else "next row", u, v, w, table);
  }

  /**
   * The circuit after `synthesize` is satisfied exactly when instance row 2
   * holds, in the field, the term f(k + 2) computed from instance rows 0 and 1.
   */
  lemma {:induction false} CircuitSatisfied(P: nat, cfg: FibConfig, instance: seq<int>, k: nat, table: Table)
    requires P > 1 && Distinct(cfg)
    ensures var x, y := InstanceValue(instance, 0), InstanceValue(instance, 1);
      Satisfied(P, Configure(cfg), Assignment(instance, FibRegions(P, cfg, x, y, k), FibCopies(cfg, k) + {OutCopy(cfg, k)}, table))
      <==> InstanceValue(instance, 2) % P == Fib(P, x, y, k + 2)
  {
    var x, y := InstanceValue(instance, 0), InstanceValue(instance, 1);
    var regions := FibRegions(P, cfg, x, y, k);
    var a := Assignment(instance, regions, FibCopies(cfg, k) + {OutCopy(cfg, k)}, table);
    FibCopiesHold(P, cfg, a, k, k);
    FibRegionsCell(P, cfg, x, y, k, k);
    FibReduces(P, x, y, k + 2);
    ModSmall(Fib(P, x, y, k + 2), P);
    forall i | 0 <= i < |regions|
      ensures RegionSatisfied(P, Configure(cfg), table, regions[i])
    {
      FibRegionSatisfied(P, cfg, x, y, k, i, table);
    }
    if InstanceValue(instance, 2) % P != Fib(P, x, y, k + 2) {
      assert CopyFails(P, a, OutCopy(cfg, k).0, OutCopy(cfg, k).1);
    }
  }

  /**
   * With public inputs (1, 1, out) and terms = 10, the circuit holds exactly
   * when out is 55 in the field: 55 is accepted and 56 is not.
   */
  lemma {:induction false} CircuitFiftyFive(P: nat, cfg: FibConfig, out: int, table: Table)
    requires P > 56 && Distinct(cfg)
    ensures Satisfied(P, Configure(cfg), Assignment([1, 1, out], FibRegions(P, cfg, 1, 1, 7), FibCopies(cfg, 7) + {OutCopy(cfg, 7)}, table))
        <==> out % P == 55
  {
    CircuitSatisfied(P, cfg, [1, 1, out], 7, table);
    FibTenth(P);
  }
}
