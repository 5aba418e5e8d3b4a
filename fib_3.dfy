/**
 * The single-column Fibonacci chip: one region, row r holding v_r, with the
 * gate v_r + v_{r+1} - v_{r+2} = 0 reading three consecutive rows.
 */
module Fib3 {
  import opened Field
  import opened Circuit
  import opened Fibonacci

  /** The advice column and the selector of the gate. */
  datatype FibConfig = FibConfig(advice: nat, selector: nat)

  /** The body of the "fibonacci" gate: v at rotations 0 and 1 minus v at rotation 2. */
  function GateBody(cfg: FibConfig): Expr
  {
    Sub(Sum(Advice(cfg.advice, 0), Advice(cfg.advice, 1)), Advice(cfg.advice, 2))
  }

  /**
   * What `configure` registers: one gate of degree 2, switched by the
   * selector and reading the advice column on the current row and the two
   * below it, no lookup, and equality on the advice and instance columns.
   */
  function Configure(cfg: FibConfig): (cs: ConstraintSystem)
    ensures |cs.gates| == 1 && |cs.gates[0].polys| == 1 && cs.lookups == [] && Degree(cs.gates[0].polys[0]) == 2
    ensures GateSelectors(cs.gates[0].polys) == {cfg.selector}
    ensures GateQueries(cs.gates[0].polys) == {(cfg.advice, 0), (cfg.advice, 1), (cfg.advice, 2)}
  {
    SubReads(Sum(Advice(cfg.advice, 0), Advice(cfg.advice, 1)), Advice(cfg.advice, 2));
    SubDegree(Sum(Advice(cfg.advice, 0), Advice(cfg.advice, 1)), Advice(cfg.advice, 2));
    assert Degree(Product(Selector(cfg.selector), GateBody(cfg))) == 2;
    SinglePolyReads(Product(Selector(cfg.selector), GateBody(cfg)));
    ConstraintSystem(
      [Gate("fibonacci", [Product(Selector(cfg.selector), GateBody(cfg))])],
      [],
      {AdviceColumn(cfg.advice), InstanceColumn(0)})
  }

  /** The gate on a row: v_r + v_{r+1} - v_{r+2} in the field where the selector is on, 0 elsewhere. */
  lemma {:induction false} GateValue(P: nat, cfg: FibConfig, reg: RegionState, row: nat)
    requires P > 1
    ensures Eval(P, Configure(cfg).gates[0].polys[0], reg, row)
         == if (cfg.selector, row) in reg.enabled
            then (CellValue(reg, cfg.advice, row) + CellValue(reg, cfg.advice, row + 1) - CellValue(reg, cfg.advice, row + 2)) % P
            else 0
  {
    var v := cfg.advice;
    GatedByRow(P, cfg.selector, GateBody(cfg), reg, row);
    EvalReduces(P, GateBody(cfg), reg, row);
    var x, y, z := CellValue(reg, v, row), CellValue(reg, v, row + 1), CellValue(reg, v, row + 2);
    assert EvalInt(Sum(Advice(v, 0), Advice(v, 1)), reg, row) == x + y;
    assert EvalInt(Negated(Advice(v, 2)), reg, row) == -z;
  }

  /** Rows 0 .. m - 1 of the column: v_r = f(r). */
  function ColumnCells(P: nat, column: nat, x: int, y: int, m: nat): map<(nat, nat), int>
    requires P > 1
  {
    if m == 0 then map[] else ColumnCells(P, column, x, y, m - 1)[(column, m - 1) := Fib(P, x, y, m - 1)]
  }

  lemma {:induction false} ColumnCellsAt(P: nat, column: nat, x: int, y: int, m: nat, c: nat, row: nat)
    requires P > 1
    ensures (c, row) in ColumnCells(P, column, x, y, m) <==> c == column && row < m
    ensures (c, row) in ColumnCells(P, column, x, y, m) ==> ColumnCells(P, column, x, y, m)[(c, row)] == Fib(P, x, y, row)
  {
    if m > 0 {
      ColumnCellsAt(P, column, x, y, m - 1, c, row);
    }
  }

  /** The selector rows among 0 .. m - 1: rows 0 and 1, and every row r with r + 2 < nrows. */
  function ColumnSelectors(selector: nat, m: nat, nrows: nat): set<(nat, nat)>
  {
    set j: nat | j < m && (j < 2 || j + 2 < nrows) :: (selector, j)
  }

  lemma ColumnSelectorsSnoc(selector: nat, m: nat, nrows: nat)
    ensures ColumnSelectors(selector, m + 1, nrows)
         == if m < 2 || m + 2 < nrows then ColumnSelectors(selector, m, nrows) + {(selector, m)} else ColumnSelectors(selector, m, nrows)
  {
  }

  /** The rows `assign` writes: 0 .. nrows - 1, and at least rows 0 and 1. */
  function Rows(nrows: nat): nat
  {
    if nrows < 2 then 2 else nrows
  }

  /** The name `assign` gives its region. */
  const RegionName := "entire fibonacci table"

  /** The region `assign` lays out. */
  function ColumnRegion(P: nat, cfg: FibConfig, x: int, y: int, nrows: nat): RegionState
    requires P > 1
  {
    RegionState(RegionName, ColumnCells(P, cfg.advice, x, y, Rows(nrows)), ColumnSelectors(cfg.selector, Rows(nrows), nrows))
  }

  /**
   * One pass of the loop in `assign`: the selector on row `row` unless it is
   * one of the last two, and v_row = v_{row-2} + v_{row-1}.
   */
  method AssignNext(lay: Layouter, P: nat, cfg: FibConfig, nrows: nat, ghost x: int, ghost y: int,
                    r: nat, row: nat, aCell: AssignedCell, bCell: AssignedCell) returns (cCell: AssignedCell)
    requires P > 1 && 2 <= row < nrows && r == |lay.regions| - 1
    requires lay.regions[r] == RegionState(RegionName, ColumnCells(P, cfg.advice, x, y, row), ColumnSelectors(cfg.selector, row, nrows))
    requires aCell.value == Fib(P, x, y, row - 2) && bCell.value == Fib(P, x, y, row - 1)
    modifies lay
    ensures cCell == AssignedCell(Cell(r, cfg.advice, row), Fib(P, x, y, row))
    ensures lay.regions == old(lay.regions)[..r] + [RegionState(RegionName, ColumnCells(P, cfg.advice, x, y, row + 1), ColumnSelectors(cfg.selector, row + 1, nrows))]
    ensures lay.copies == old(lay.copies) && lay.table == old(lay.table)
  {
    ghost var before := lay.regions[..r];
    ghost var cells := ColumnCells(P, cfg.advice, x, y, row);
    ghost var sel := ColumnSelectors(cfg.selector, row + 1, nrows);
    assert lay.regions == before + [RegionState(RegionName, cells, ColumnSelectors(cfg.selector, row, nrows))];
    ColumnSelectorsSnoc(cfg.selector, row, nrows);
    if row < nrows - 2 {
      lay.Enable(r, cfg.selector, row);
      ReplaceLast(before, RegionState(RegionName, cells, ColumnSelectors(cfg.selector, row, nrows)), RegionState(RegionName, cells, sel));
    }
    assert lay.regions == before + [RegionState(RegionName, cells, sel)];
    ColumnCellsAt(P, cfg.advice, x, y, row, cfg.advice, row);
    cCell := lay.AssignAdvice(r, cfg.advice, row, (aCell.value + bCell.value) % P);
    ReplaceLast(before, RegionState(RegionName, cells, sel), RegionState(RegionName, ColumnCells(P, cfg.advice, x, y, row + 1), sel));
  }

  /**
   * `assign`: the selector on rows 0 and 1, v_0 and v_1 from instance rows 0
   * and 1, then for each row r in 2 .. nrows - 1 the selector (unless r is
   * one of the last two rows) and v_r = v_{r-2} + v_{r-1}; returns the cell
   * of the last row written.
   */
  method Assign(lay: Layouter, P: nat, cfg: FibConfig, nrows: nat) returns (out: AssignedCell)
    requires P > 1 && Configure(cfg).equality <= lay.equality
    modifies lay
    ensures var r, x, y := |old(lay.regions)|, InstanceValue(lay.instance, 0), InstanceValue(lay.instance, 1);
      && out == AssignedCell(Cell(r, cfg.advice, Rows(nrows) - 1), Fib(P, x, y, Rows(nrows) - 1))
      && lay.regions == old(lay.regions) + [ColumnRegion(P, cfg, x, y, nrows)]
      && lay.copies == old(lay.copies) + {(AdviceCell(Cell(r, cfg.advice, 0)), InstanceCell(0)), (AdviceCell(Cell(r, cfg.advice, 1)), InstanceCell(1))}
    ensures lay.table == old(lay.table)
  {
    var r := lay.AssignRegion(RegionName);
    lay.Enable(r, cfg.selector, 0);
    lay.Enable(r, cfg.selector, 1);
    var aCell := lay.AssignAdviceFromInstance(0, r, cfg.advice, 0);
    var bCell := lay.AssignAdviceFromInstance(1, r, cfg.advice, 1);
    ghost var x, y := aCell.value, bCell.value;
    ghost var copies := lay.copies;
    assert ColumnCells(P, cfg.advice, x, y, 1) == map[(cfg.advice, 0) := x];
    assert lay.regions[r].cells == ColumnCells(P, cfg.advice, x, y, 2);
    assert lay.regions[r].enabled == ColumnSelectors(cfg.selector, 2, nrows);
    var row := 2;
    while row < nrows
      invariant 2 <= row <= Rows(nrows)
      invariant lay.regions == old(lay.regions) + [RegionState(RegionName, ColumnCells(P, cfg.advice, x, y, row), ColumnSelectors(cfg.selector, row, nrows))]
      invariant aCell == AssignedCell(Cell(r, cfg.advice, row - 2), Fib(P, x, y, row - 2))
      invariant bCell == AssignedCell(Cell(r, cfg.advice, row - 1), Fib(P, x, y, row - 1))
      invariant lay.copies == copies && lay.table == old(lay.table)
    {
      var cCell := AssignNext(lay, P, cfg, nrows, x, y, r, row, aCell, bCell);
      assert old(lay.regions) == lay.regions[..r];
      aCell := bCell;
      bCell := cCell;
      row := row + 1;
    }
    assert row == Rows(nrows);
    out := bCell;
  }

  /** With four or more rows the gate vanishes on every row. */
  lemma {:induction false} GateRowHolds(P: nat, cfg: FibConfig, x: int, y: int, nrows: nat, row: nat)
    requires P > 1 && nrows >= 4
    ensures Eval(P, Configure(cfg).gates[0].polys[0], ColumnRegion(P, cfg, x, y, nrows), row) == 0
  {
    var reg := ColumnRegion(P, cfg, x, y, nrows);
    GateValue(P, cfg, reg, row);
    if (cfg.selector, row) in reg.enabled {
      ColumnCellsAt(P, cfg.advice, x, y, nrows, cfg.advice, row);
      ColumnCellsAt(P, cfg.advice, x, y, nrows, cfg.advice, row + 1);
      ColumnCellsAt(P, cfg.advice, x, y, nrows, cfg.advice, row + 2);
      var u, v, w := Fib(P, x, y, row), Fib(P, x, y, row + 1), Fib(P, x, y, row + 2);
      FibReduces(P, x, y, row + 2);
      ModSmall(w, P);
      CongruentDiff(u + v, w, P);
    }
  }

  /**
   * The region satisfies the gate exactly when it has four or more rows; with
   * fewer, the selector on row 1 reads past the last assigned row (which
   * reads 0), so it holds only for degenerate seeds.
   */
  lemma {:induction false} ColumnSatisfied(P: nat, cfg: FibConfig, x: int, y: int, nrows: nat, table: Table)
    requires P > 1
    ensures RegionSatisfied(P, Configure(cfg), table, ColumnRegion(P, cfg, x, y, nrows))
        <==> (nrows >= 4
             || (nrows == 3 && Fib(P, x, y, 3) == 0)
             || (nrows < 3 && y % P == 0 && (x + y) % P == 0))
  {
    var cs := Configure(cfg);
    var reg := ColumnRegion(P, cfg, x, y, nrows);
    if nrows >= 4 {
      forall g, k: nat, row: nat | 0 <= g < |cs.gates|
        ensures !GateFails(P, cs.gates[g], reg, k, row)
      {
        GateRowHolds(P, cfg, x, y, nrows, row);
      }
    } else {
      ShortColumnGate(P, cfg, x, y, nrows, 0);
      ShortColumnGate(P, cfg, x, y, nrows, 1);
      var ok := (nrows == 3 && Fib(P, x, y, 3) == 0) || (nrows < 3 && y % P == 0 && (x + y) % P == 0);
      if ok {
        forall g, k: nat, row: nat | 0 <= g < |cs.gates|
          ensures !GateFails(P, cs.gates[g], reg, k, row)
        {
          ShortColumnGate(P, cfg, x, y, nrows, row);
        }
      } else if nrows == 3 {
        assert GateFails(P, cs.gates[0], reg, 0, 1);
      } else if (x + y) % P != 0 {
        assert GateFails(P, cs.gates[0], reg, 0, 0);
      } else {
        assert GateFails(P, cs.gates[0], reg, 0, 1);
      }
    }
  }

  /** The gate on the region of fewer than four rows: rows 0 and 1 carry the selector. */
  lemma {:induction false} ShortColumnGate(P: nat, cfg: FibConfig, x: int, y: int, nrows: nat, row: nat)
    requires P > 1 && nrows < 4
    ensures Eval(P, Configure(cfg).gates[0].polys[0], ColumnRegion(P, cfg, x, y, nrows), row)
         == if row == 0 && nrows == 3 then 0
            else if row == 0 then (x + y) % P
            else if row == 1 && nrows == 3 then Fib(P, x, y, 3)
            else if row == 1 then y % P
            else 0
  {
    var reg := ColumnRegion(P, cfg, x, y, nrows);
    var m := Rows(nrows);
    GateValue(P, cfg, reg, row);
    ColumnCellsAt(P, cfg.advice, x, y, m, cfg.advice, row);
    ColumnCellsAt(P, cfg.advice, x, y, m, cfg.advice, row + 1);
    ColumnCellsAt(P, cfg.advice, x, y, m, cfg.advice, row + 2);
    if row == 0 && nrows == 3 {
      FibReduces(P, x, y, 2);
      ModSmall(Fib(P, x, y, 2), P);
      CongruentDiff(x + y, Fib(P, x, y, 2), P);
    } else if row == 1 && nrows == 3 {
      assert Fib(P, x, y, 3) == (y + Fib(P, x, y, 2)) % P;
    }
  }

  /**
   * No gate reads an unassigned cell exactly when the column has at least
   * four rows: with fewer, the selector on row 0 or 1 reads two rows down,
   * past the last row `assign` writes.
   */
  lemma {:induction false} ColumnCellsAssigned(P: nat, cfg: FibConfig, x: int, y: int, nrows: nat)
    requires P > 1
    ensures GateCellsAssigned(Configure(cfg), ColumnRegion(P, cfg, x, y, nrows)) <==> nrows >= 4
  {
    var reg := ColumnRegion(P, cfg, x, y, nrows);
    var body := GateBody(cfg);
    var m := Rows(nrows);
    SubReads(Sum(Advice(cfg.advice, 0), Advice(cfg.advice, 1)), Advice(cfg.advice, 2));
    SelectorGateCells(Configure(cfg), reg, cfg.selector, body);
    assert Queries(body) == {(cfg.advice, 0), (cfg.advice, 1), (cfg.advice, 2)};
    if nrows >= 4 {
      forall row: nat, column, rotation | (cfg.selector, row) in reg.enabled && (column, rotation) in Queries(body)
        ensures 0 <= row + rotation && (column, row + rotation) in reg.cells
      {
        ColumnCellsAt(P, cfg.advice, x, y, m, column, row + rotation);
      }
    } else {
      assert (cfg.selector, 1) in reg.enabled;
      ColumnCellsAt(P, cfg.advice, x, y, m, cfg.advice, 3);
      if nrows < 3 {
        assert (cfg.selector, 0) in reg.enabled;
        ColumnCellsAt(P, cfg.advice, x, y, m, cfg.advice, 2);
      }
    }
  }

  /**
   * What the mock prover accepts of the region: the gate holds and reads
   * only assigned cells exactly when the column has at least four rows,
   * whatever the seeds.
   */
  lemma {:induction false} ColumnVerified(P: nat, cfg: FibConfig, x: int, y: int, nrows: nat, table: Table)
    requires P > 1
    ensures RegionSatisfied(P, Configure(cfg), table, ColumnRegion(P, cfg, x, y, nrows))
         && GateCellsAssigned(Configure(cfg), ColumnRegion(P, cfg, x, y, nrows))
        <==> nrows >= 4
  {
    ColumnSatisfied(P, cfg, x, y, nrows, table);
    ColumnCellsAssigned(P, cfg, x, y, nrows);
  }

  /** The selector is on exactly the rows [0, nrows - 2), for nrows >= 4. */
  lemma {:induction false} ColumnSelectorRows(P: nat, cfg: FibConfig, x: int, y: int, nrows: nat, s: nat, row: nat)
    requires P > 1 && nrows >= 4
    ensures (s, row) in ColumnRegion(P, cfg, x, y, nrows).enabled <==> s == cfg.selector && row < nrows - 2
  {
  }

  /** The copy binding the returned cell of region r to instance row 2. */
  function OutCopy(cfg: FibConfig, r: nat, nrows: nat): (CellRef, CellRef)
  {
    (AdviceCell(Cell(r, cfg.advice, Rows(nrows) - 1)), InstanceCell(2))
  }

  /**
   * The circuit (`assign` with nrows rows, then the returned cell exposed at
   * instance row 2) is satisfied exactly when instance row 2 holds f(nrows - 1).
   */
  lemma {:induction false} CircuitSatisfied(P: nat, cfg: FibConfig, instance: seq<int>, nrows: nat, table: Table)
    requires P > 1 && nrows >= 4
    ensures var x, y := InstanceValue(instance, 0), InstanceValue(instance, 1);
      var copies := {(AdviceCell(Cell(0, cfg.advice, 0)), InstanceCell(0)), (AdviceCell(Cell(0, cfg.advice, 1)), InstanceCell(1)), OutCopy(cfg, 0, nrows)};
      Satisfied(P, Configure(cfg), Assignment(instance, [ColumnRegion(P, cfg, x, y, nrows)], copies, table))
      <==> InstanceValue(instance, 2) % P == Fib(P, x, y, nrows - 1)
  {
    var x, y := InstanceValue(instance, 0), InstanceValue(instance, 1);
    var reg := ColumnRegion(P, cfg, x, y, nrows);
    var copies := {(AdviceCell(Cell(0, cfg.advice, 0)), InstanceCell(0)), (AdviceCell(Cell(0, cfg.advice, 1)), InstanceCell(1)), OutCopy(cfg, 0, nrows)};
    var a := Assignment(instance, [reg], copies, table);
    ColumnSatisfied(P, cfg, x, y, nrows, table);
    ColumnCellsAt(P, cfg.advice, x, y, nrows, cfg.advice, 0);
    ColumnCellsAt(P, cfg.advice, x, y, nrows, cfg.advice, 1);
    ColumnCellsAt(P, cfg.advice, x, y, nrows, cfg.advice, nrows - 1);
    FibReduces(P, x, y, nrows - 1);
    ModSmall(Fib(P, x, y, nrows - 1), P);
    if InstanceValue(instance, 2) % P != Fib(P, x, y, nrows - 1) {
      assert CopyFails(P, a, OutCopy(cfg, 0, nrows).0, OutCopy(cfg, 0, nrows).1);
    }
  }

  /** With public inputs (1, 1, out) and nrows = 10 the circuit holds exactly when out is 55: 56 is rejected. */
  lemma {:induction false} CircuitFiftyFive(P: nat, cfg: FibConfig, out: int, table: Table)
    requires P > 56
    ensures var copies := {(AdviceCell(Cell(0, cfg.advice, 0)), InstanceCell(0)), (AdviceCell(Cell(0, cfg.advice, 1)), InstanceCell(1)), OutCopy(cfg, 0, 10)};
      Satisfied(P, Configure(cfg), Assignment([1, 1, out], [ColumnRegion(P, cfg, 1, 1, 10)], copies, table)) <==> out % P == 55
  {
    CircuitSatisfied(P, cfg, [1, 1, out], 10, table);
    FibTenth(P);
  }
}
