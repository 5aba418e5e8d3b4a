/**
 * The two-column Fibonacci chip: one region, row r holding a_r | b_r, with
 * the gate a_r + b_r - b_{r+1} = 0 so that each row's output sits in column
 * b of the next row.
 */
module Fib2 {
  import opened Field
  import opened Circuit
  import opened Fibonacci

  /** The advice columns a and b and the selector of the gate. */
  datatype FibConfig = FibConfig(a: nat, b: nat, selector: nat)

  /** The body of the "fibonacci" gate: a + b on this row minus b on the next. */
  function GateBody(cfg: FibConfig): Expr
  {
    Sub(Sum(Advice(cfg.a, 0), Advice(cfg.b, 0)), Advice(cfg.b, 1))
  }

  /**
   * What `configure` registers: one gate of degree 2, switched by the
   * selector and reading a and b on the current row and b on the next, no
   * lookup, and equality on both advice columns and the instance column.
   */
  function Configure(cfg: FibConfig): (cs: ConstraintSystem)
    ensures |cs.gates| == 1 && |cs.gates[0].polys| == 1 && cs.lookups == [] && Degree(cs.gates[0].polys[0]) == 2
    ensures GateSelectors(cs.gates[0].polys) == {cfg.selector}
    ensures GateQueries(cs.gates[0].polys) == {(cfg.a, 0), (cfg.b, 0), (cfg.b, 1)}
  {
    SubReads(Sum(Advice(cfg.a, 0), Advice(cfg.b, 0)), Advice(cfg.b, 1));
    SubDegree(Sum(Advice(cfg.a, 0), Advice(cfg.b, 0)), Advice(cfg.b, 1));
    assert Degree(Product(Selector(cfg.selector), GateBody(cfg))) == 2;
    SinglePolyReads(Product(Selector(cfg.selector), GateBody(cfg)));
    ConstraintSystem(
      [Gate("fibonacci", [Product(Selector(cfg.selector), GateBody(cfg))])],
      [],
      {AdviceColumn(cfg.a), AdviceColumn(cfg.b), InstanceColumn(0)})
  }

  /** The gate on a row: a_r + b_r - b_{r+1} in the field where the selector is on, 0 elsewhere. */
  lemma {:induction false} GateValue(P: nat, cfg: FibConfig, reg: RegionState, row: nat)
    requires P > 1
    ensures Eval(P, Configure(cfg).gates[0].polys[0], reg, row)
         == if (cfg.selector, row) in reg.enabled
            then (CellValue(reg, cfg.a, row) + CellValue(reg, cfg.b, row) - CellValue(reg, cfg.b, row + 1)) % P
            else 0
  {
    GatedByRow(P, cfg.selector, GateBody(cfg), reg, row);
    EvalReduces(P, GateBody(cfg), reg, row);
    var x, y, z := CellValue(reg, cfg.a, row), CellValue(reg, cfg.b, row), CellValue(reg, cfg.b, row + 1);
    assert EvalInt(Sum(Advice(cfg.a, 0), Advice(cfg.b, 0)), reg, row) == x + y;
    assert EvalInt(Negated(Advice(cfg.b, 1)), reg, row) == -z;
  }

  /** Rows 0 .. m - 1: a_r = f(r) and b_r = f(r + 1). */
  function TableCells(P: nat, cfg: FibConfig, x: int, y: int, m: nat): map<(nat, nat), int>
    requires P > 1
  {
    if m == 0 then map[]
    else TableCells(P, cfg, x, y, m - 1)[(cfg.a, m - 1) := Fib(P, x, y, m - 1)][(cfg.b, m - 1) := Fib(P, x, y, m)]
  }

  lemma {:induction false} TableCellsAt(P: nat, cfg: FibConfig, x: int, y: int, m: nat, column: nat, row: nat)
    requires P > 1 && cfg.a != cfg.b
    ensures (column, row) in TableCells(P, cfg, x, y, m) <==> row < m && (column == cfg.a || column == cfg.b)
    ensures (column, row) in TableCells(P, cfg, x, y, m)
        ==> TableCells(P, cfg, x, y, m)[(column, row)] == if column == cfg.a then Fib(P, x, y, row) else Fib(P, x, y, row + 1)
  {
    if m > 0 {
      TableCellsAt(P, cfg, x, y, m - 1, column, row);
    }
  }

  /** The selector rows among 0 .. m - 1: row 0, and every row r with r + 1 < nrows. */
  function TableSelectors(selector: nat, m: nat, nrows: nat): set<(nat, nat)>
  {
    set j: nat | j < m && (j == 0 || j + 1 < nrows) :: (selector, j)
  }

  /** The rows `assign` writes: 0 .. nrows - 1, and at least row 0. */
  function Rows(nrows: nat): nat
  {
    if nrows == 0 then 1 else nrows
  }

  /** The name `assign` gives its region. */
  const RegionName := "entire fibonacci table"

  /** The region `assign` lays out. */
  function TableRegion(P: nat, cfg: FibConfig, x: int, y: int, nrows: nat): RegionState
    requires P > 1
  {
    RegionState(RegionName, TableCells(P, cfg, x, y, Rows(nrows)), TableSelectors(cfg.selector, Rows(nrows), nrows))
  }

  lemma TableSelectorsSnoc(selector: nat, m: nat, nrows: nat)
    ensures TableSelectors(selector, m + 1, nrows)
         == if m == 0 || m + 1 < nrows then TableSelectors(selector, m, nrows) + {(selector, m)} else TableSelectors(selector, m, nrows)
  {
  }

  /**
   * One pass of the loop in `assign`: the selector on row `row` unless it is
   * the last, b_row = a_{row-1} + b_{row-1} and a_row = b_{row-1}.
   */
  method AssignNext(lay: Layouter, P: nat, cfg: FibConfig, nrows: nat, ghost x: int, ghost y: int,
                    r: nat, row: nat, aCell: AssignedCell, bCell: AssignedCell) returns (aNext: AssignedCell, bNext: AssignedCell)
    requires P > 1 && cfg.a != cfg.b && 1 <= row < nrows && r == |lay.regions| - 1
    requires lay.regions[r] == RegionState(RegionName, TableCells(P, cfg, x, y, row), TableSelectors(cfg.selector, row, nrows))
    requires aCell.value == Fib(P, x, y, row - 1) && bCell.value == Fib(P, x, y, row)
    modifies lay
    ensures aNext == AssignedCell(Cell(r, cfg.a, row), Fib(P, x, y, row))
    ensures bNext == AssignedCell(Cell(r, cfg.b, row), Fib(P, x, y, row + 1))
    ensures lay.regions == old(lay.regions)[..r] + [RegionState(RegionName, TableCells(P, cfg, x, y, row + 1), TableSelectors(cfg.selector, row + 1, nrows))]
    ensures lay.copies == old(lay.copies) && lay.table == old(lay.table)
  {
    ghost var before := lay.regions[..r];
    ghost var cells := TableCells(P, cfg, x, y, row);
    ghost var sel := TableSelectors(cfg.selector, row + 1, nrows);
    assert lay.regions == before + [RegionState(RegionName, cells, TableSelectors(cfg.selector, row, nrows))];
    TableSelectorsSnoc(cfg.selector, row, nrows);
    if row < nrows - 1 {
      lay.Enable(r, cfg.selector, row);
      ReplaceLast(before, RegionState(RegionName, cells, TableSelectors(cfg.selector, row, nrows)), RegionState(RegionName, cells, sel));
    }
    assert lay.regions == before + [RegionState(RegionName, cells, sel)];
    TableCellsAt(P, cfg, x, y, row, cfg.b, row);
    TableCellsAt(P, cfg, x, y, row, cfg.a, row);
    bNext := lay.AssignAdvice(r, cfg.b, row, (aCell.value + bCell.value) % P);
    ReplaceLast(before, RegionState(RegionName, cells, sel), RegionState(RegionName, cells[(cfg.b, row) := bNext.value], sel));
    aNext := lay.AssignAdvice(r, cfg.a, row, bCell.value);
    ReplaceLast(before, RegionState(RegionName, cells[(cfg.b, row) := bNext.value], sel),
                RegionState(RegionName, cells[(cfg.b, row) := bNext.value][(cfg.a, row) := aNext.value], sel));
    assert cells[(cfg.b, row) := Fib(P, x, y, row + 1)][(cfg.a, row) := Fib(P, x, y, row)]
        == TableCells(P, cfg, x, y, row + 1);
  }

  /**
   * `assign`: a_0 and b_0 from instance rows 0 and 1, then for each row r in
   * 1 .. nrows - 1 the selector (unless r is the last row), b_r = a_{r-1} +
   * b_{r-1} and a_r = b_{r-1}; returns the cell of b on the last row.
   */
  method Assign(lay: Layouter, P: nat, cfg: FibConfig, nrows: nat) returns (out: AssignedCell)
    requires P > 1 && cfg.a != cfg.b && Configure(cfg).equality <= lay.equality
    modifies lay
    ensures var r, x, y := |old(lay.regions)|, InstanceValue(lay.instance, 0), InstanceValue(lay.instance, 1);
      && out == AssignedCell(Cell(r, cfg.b, Rows(nrows) - 1), Fib(P, x, y, Rows(nrows)))
      && lay.regions == old(lay.regions) + [TableRegion(P, cfg, x, y, nrows)]
      && lay.copies == old(lay.copies) + {(AdviceCell(Cell(r, cfg.a, 0)), InstanceCell(0)), (AdviceCell(Cell(r, cfg.b, 0)), InstanceCell(1))}
    ensures lay.table == old(lay.table)
  {
    var r := lay.AssignRegion(RegionName);
    lay.Enable(r, cfg.selector, 0);
    var aCell := lay.AssignAdviceFromInstance(0, r, cfg.a, 0);
    var bCell := lay.AssignAdviceFromInstance(1, r, cfg.b, 0);
    ghost var x, y := aCell.value, bCell.value;
    ghost var copies := lay.copies;
    assert lay.regions[r].cells == TableCells(P, cfg, x, y, 1);
    assert lay.regions[r].enabled == TableSelectors(cfg.selector, 1, nrows);
    var row := 1;
    while row < nrows
      invariant 1 <= row <= Rows(nrows)
      invariant lay.regions == old(lay.regions) + [RegionState(RegionName, TableCells(P, cfg, x, y, row), TableSelectors(cfg.selector, row, nrows))]
      invariant aCell == AssignedCell(Cell(r, cfg.a, row - 1), Fib(P, x, y, row - 1))
      invariant bCell == AssignedCell(Cell(r, cfg.b, row - 1), Fib(P, x, y, row))
      invariant lay.copies == copies && lay.table == old(lay.table)
    {
      aCell, bCell := AssignNext(lay, P, cfg, nrows, x, y, r, row, aCell, bCell);
      assert old(lay.regions) == lay.regions[..r];
      row := row + 1;
    }
    assert row == Rows(nrows);
    out := bCell;
  }

  /**
   * The region satisfies the gate exactly when the table has at least two
   * rows, or else when a_0 + b_0 is 0 in the field: with one row the
   * selector on row 0 reads an unassigned b_1, which is 0.
   */
  lemma {:induction false} TableSatisfied(P: nat, cfg: FibConfig, x: int, y: int, nrows: nat, table: Table)
    requires P > 1 && cfg.a != cfg.b
    ensures RegionSatisfied(P, Configure(cfg), table, TableRegion(P, cfg, x, y, nrows)) <==> nrows >= 2 || (x + y) % P == 0
  {
    var cs := Configure(cfg);
    var reg := TableRegion(P, cfg, x, y, nrows);
    if nrows >= 2 {
      forall g, k: nat, row: nat | 0 <= g < |cs.gates|
        ensures !GateFails(P, cs.gates[g], reg, k, row)
      {
        GateRowHolds(P, cfg, x, y, nrows, row);
      }
    } else {
      GateValue(P, cfg, reg, 0);
      TableCellsAt(P, cfg, x, y, Rows(nrows), cfg.a, 0);
      TableCellsAt(P, cfg, x, y, Rows(nrows), cfg.b, 0);
      TableCellsAt(P, cfg, x, y, Rows(nrows), cfg.b, 1);
      assert (cfg.selector, 0) in reg.enabled;
      if (x + y) % P == 0 {
        forall g, k: nat, row: nat | 0 <= g < |cs.gates|
          ensures !GateFails(P, cs.gates[g], reg, k, row)
        {
          GateValue(P, cfg, reg, row);
        }
      } else {
        assert GateFails(P, cs.gates[0], reg, 0, 0);
      }
    }
  }

  /**
   * No gate reads an unassigned cell exactly when the table has at least two
   * rows: with one, the selector on row 0 reads b_1, which `assign` never
   * writes.
   */
  lemma {:induction false} TableCellsAssigned(P: nat, cfg: FibConfig, x: int, y: int, nrows: nat)
    requires P > 1 && cfg.a != cfg.b
    ensures GateCellsAssigned(Configure(cfg), TableRegion(P, cfg, x, y, nrows)) <==> nrows >= 2
  {
    var reg := TableRegion(P, cfg, x, y, nrows);
    var body := GateBody(cfg);
    SubReads(Sum(Advice(cfg.a, 0), Advice(cfg.b, 0)), Advice(cfg.b, 1));
    SelectorGateCells(Configure(cfg), reg, cfg.selector, body);
    assert Queries(body) == {(cfg.a, 0), (cfg.b, 0), (cfg.b, 1)};
    if nrows >= 2 {
      forall row: nat, column, rotation | (cfg.selector, row) in reg.enabled && (column, rotation) in Queries(body)
        ensures 0 <= row + rotation && (column, row + rotation) in reg.cells
      {
        TableCellsAt(P, cfg, x, y, Rows(nrows), column, row + rotation);
      }
    } else {
      assert (cfg.selector, 0) in reg.enabled;
      TableCellsAt(P, cfg, x, y, Rows(nrows), cfg.b, 1);
    }
  }

  /**
   * What the mock prover accepts of the region: the gate holds and reads
   * only assigned cells exactly when the table has at least two rows,
   * whatever the seeds.
   */
  lemma {:induction false} TableVerified(P: nat, cfg: FibConfig, x: int, y: int, nrows: nat, table: Table)
    requires P > 1 && cfg.a != cfg.b
    ensures RegionSatisfied(P, Configure(cfg), table, TableRegion(P, cfg, x, y, nrows))
         && GateCellsAssigned(Configure(cfg), TableRegion(P, cfg, x, y, nrows))
        <==> nrows >= 2
  {
    TableSatisfied(P, cfg, x, y, nrows, table);
    TableCellsAssigned(P, cfg, x, y, nrows);
  }

  /** With two or more rows the gate vanishes on every row. */
  lemma {:induction false} GateRowHolds(P: nat, cfg: FibConfig, x: int, y: int, nrows: nat, row: nat)
    requires P > 1 && cfg.a != cfg.b && nrows >= 2
    ensures Eval(P, Configure(cfg).gates[0].polys[0], TableRegion(P, cfg, x, y, nrows), row) == 0
  {
    var reg := TableRegion(P, cfg, x, y, nrows);
    GateValue(P, cfg, reg, row);
    if (cfg.selector, row) in reg.enabled {
      TableCellsAt(P, cfg, x, y, nrows, cfg.a, row);
      TableCellsAt(P, cfg, x, y, nrows, cfg.b, row);
      TableCellsAt(P, cfg, x, y, nrows, cfg.b, row + 1);
      var u, v, w := Fib(P, x, y, row), Fib(P, x, y, row + 1), Fib(P, x, y, row + 2);
      FibReduces(P, x, y, row + 2);
      ModSmall(w, P);
      CongruentDiff(u + v, w, P);
    }
  }

  /** The selector is on exactly the rows [0, nrows - 1), for nrows >= 2: the gate never reads below the last row. */
  lemma {:induction false} TableSelectorRows(P: nat, cfg: FibConfig, x: int, y: int, nrows: nat, s: nat, row: nat)
    requires P > 1 && nrows >= 2
    ensures (s, row) in TableRegion(P, cfg, x, y, nrows).enabled <==> s == cfg.selector && row < nrows - 1
  {
  }

  /** The copy binding the returned cell of region r to instance row 2. */
  function OutCopy(cfg: FibConfig, r: nat, nrows: nat): (CellRef, CellRef)
  {
    (AdviceCell(Cell(r, cfg.b, Rows(nrows) - 1)), InstanceCell(2))
  }

  /**
   * The circuit (`assign` with nrows rows, then the returned cell exposed at
   * instance row 2) is satisfied exactly when instance row 2 holds f(nrows).
   */
  lemma {:induction false} CircuitSatisfied(P: nat, cfg: FibConfig, instance: seq<int>, nrows: nat, table: Table)
    requires P > 1 && cfg.a != cfg.b && nrows >= 2
    ensures var x, y := InstanceValue(instance, 0), InstanceValue(instance, 1);
      var copies := {(AdviceCell(Cell(0, cfg.a, 0)), InstanceCell(0)), (AdviceCell(Cell(0, cfg.b, 0)), InstanceCell(1)), OutCopy(cfg, 0, nrows)};
      Satisfied(P, Configure(cfg), Assignment(instance, [TableRegion(P, cfg, x, y, nrows)], copies, table))
      <==> InstanceValue(instance, 2) % P == Fib(P, x, y, nrows)
  {
    var x, y := InstanceValue(instance, 0), InstanceValue(instance, 1);
    var reg := TableRegion(P, cfg, x, y, nrows);
    var copies := {(AdviceCell(Cell(0, cfg.a, 0)), InstanceCell(0)), (AdviceCell(Cell(0, cfg.b, 0)), InstanceCell(1)), OutCopy(cfg, 0, nrows)};
    var a := Assignment(instance, [reg], copies, table);
    TableSatisfied(P, cfg, x, y, nrows, table);
    TableCellsAt(P, cfg, x, y, nrows, cfg.a, 0);
    TableCellsAt(P, cfg, x, y, nrows, cfg.b, 0);
    TableCellsAt(P, cfg, x, y, nrows, cfg.b, nrows - 1);
    FibReduces(P, x, y, nrows);
    ModSmall(Fib(P, x, y, nrows), P);
    if InstanceValue(instance, 2) % P != Fib(P, x, y, nrows) {
      assert CopyFails(P, a, OutCopy(cfg, 0, nrows).0, OutCopy(cfg, 0, nrows).1);
    }
  }

  /** With public inputs (1, 1, out) and nrows = 9 the circuit holds exactly when out is 55: 56 is rejected. */
  lemma {:induction false} CircuitFiftyFive(P: nat, cfg: FibConfig, out: int, table: Table)
    requires P > 56 && cfg.a != cfg.b
    ensures var copies := {(AdviceCell(Cell(0, cfg.a, 0)), InstanceCell(0)), (AdviceCell(Cell(0, cfg.b, 0)), InstanceCell(1)), OutCopy(cfg, 0, 9)};
      Satisfied(P, Configure(cfg), Assignment([1, 1, out], [TableRegion(P, cfg, 1, 1, 9)], copies, table)) <==> out % P == 55
  {
    CircuitSatisfied(P, cfg, [1, 1, out], 9, table);
    FibTenth(P);
  }
}
