/**
 * The polynomial range check: a value v lies in [0, R) exactly when
 * v * (1 - v) * (2 - v) * ... * (R - 1 - v) vanishes, one gate of degree R
 * per checked cell.
 */
module RangeCheck1 {
  import opened Field
  import opened Circuit

  /** The advice column holding the value and the selector of the gate. */
  datatype RangeCheckConfig = RangeCheckConfig(value: nat, selector: nat)

  /**
   * The fold over 1..R starting from `q`: q * (1 - q) * ... * (R - 1 - q).
   * With R <= 1 the fold is empty and the expression is `q` itself.
   */
  function RangeCheckExpr(R: nat, q: Expr): (e: Expr)
    ensures Queries(e) == Queries(q) && SelectorsOf(e) == SelectorsOf(q)
  {
    if R <= 1 then q
    else
      SubReads(Constant(R - 1), q);
      Product(RangeCheckExpr(R - 1, q), Sub(Constant(R - 1), q))
  }

  /** One factor per value of the range, so the degree grows linearly with R. */
  lemma {:induction false} RangeCheckExprDegree(R: nat, q: Expr)
    requires R >= 1
    ensures Degree(RangeCheckExpr(R, q)) == R * Degree(q)
  {
    if R > 1 {
      RangeCheckExprDegree(R - 1, q);
      assert Degree(Sub(Constant(R - 1), q)) == Degree(q);
    }
  }

  /**
   * One more factor (R - 1 - x): the product e * d vanishes exactly when the
   * earlier factors vanish (x < R - 1) or the new one does (x == R - 1).
   */
  lemma RangeStep(P: nat, R: nat, x: int, e: int, d: int)
    requires IsPrime(P) && R > 1 && 0 <= x < P && 0 <= e < P
    requires d == (R - 1 - x) % P
    requires e == 0 <==> x < R - 1
    ensures (e * d) % P == 0 <==> x < R
  {
    if x < R - 1 {
      assert e * d == 0;
    } else if x == R - 1 {
      assert d == 0 by { ModSmall(0, P); }
      assert e * d == 0;
    } else {
      assert 0 <= R - 1 - x + P < P;
      ModUnique(R - 1 - x, P, -1, R - 1 - x + P);
      ModSmall(e, P);
      ModSmall(d, P);
      NoZeroDivisors(P, e, d);
    }
  }

  /**
   * In a prime field the product vanishes exactly when the queried value is
   * one of 0, 1, ..., R - 1 (just 0 when R is 0 or 1).
   */
  lemma {:induction false} RangeCheckExprZero(P: nat, R: nat, q: Expr, reg: RegionState, row: nat)
    requires IsPrime(P)
    ensures Eval(P, RangeCheckExpr(R, q), reg, row) == 0 <==> Eval(P, q, reg, row) < (if R == 0 then 1 else R)
  {
    if R > 1 {
      RangeCheckExprZero(P, R - 1, q, reg, row);
      var x := Eval(P, q, reg, row);
      var e := Eval(P, RangeCheckExpr(R - 1, q), reg, row);
      var d := Eval(P, Sub(Constant(R - 1), q), reg, row);
      assert Eval(P, RangeCheckExpr(R, q), reg, row) == (e * d) % P;
      assert d == (R - 1 - x) % P by {
        EvalSub(P, Constant(R - 1), q, reg, row);
        ModAddLeft(R - 1, -x, P);
      }
      RangeStep(P, R, x, e, d);
    }
  }

  /**
   * The gate as registered, on any region: it vanishes on a row exactly when
   * the selector is off there or the queried cell is below R.
   */
  lemma RangeGateZero(P: nat, R: nat, selector: nat, column: nat, reg: RegionState, row: nat)
    requires IsPrime(P) && R >= 1
    ensures Eval(P, Product(Selector(selector), RangeCheckExpr(R, Advice(column, 0))), reg, row) == 0
        <==> (selector, row) !in reg.enabled || CellValue(reg, column, row) % P < R
  {
    var body := RangeCheckExpr(R, Advice(column, 0));
    GatedByRow(P, selector, body, reg, row);
    RangeCheckExprZero(P, R, Advice(column, 0), reg, row);
  }

  /**
   * What `configure` registers: the gate "Range Check" of degree R + 1,
   * switched by the selector and reading the value on the current row; no
   * lookup.
   */
  function Configure(R: nat, cfg: RangeCheckConfig): (cs: ConstraintSystem)
    ensures |cs.gates| == 1 && |cs.gates[0].polys| == 1 && cs.lookups == []
    ensures R >= 1 ==> Degree(cs.gates[0].polys[0]) == R + 1
    ensures GateSelectors(cs.gates[0].polys) == {cfg.selector}
    ensures GateQueries(cs.gates[0].polys) == {(cfg.value, 0)}
  {
    SinglePolyReads(Product(Selector(cfg.selector), RangeCheckExpr(R, Advice(cfg.value, 0))));
    assert R >= 1 ==> Degree(RangeCheckExpr(R, Advice(cfg.value, 0))) == R by {
      if R >= 1 {
        RangeCheckExprDegree(R, Advice(cfg.value, 0));
      }
    }
    ConstraintSystem([Gate("Range Check", [Product(Selector(cfg.selector), RangeCheckExpr(R, Advice(cfg.value, 0)))])], [], {})
  }

  /** The region `assign` lays out: the value at row 0, with the selector on. */
  function AssignedRegion(cfg: RangeCheckConfig, v: int): RegionState
  {
    RegionState("Assign value", map[(cfg.value, 0) := v], {(cfg.selector, 0)})
  }

  /** `assign`: one region holding the value at row 0 with the gate enabled there. */
  method Assign(lay: Layouter, cfg: RangeCheckConfig, v: int)
    modifies lay
    ensures lay.regions == old(lay.regions) + [AssignedRegion(cfg, v)]
    ensures lay.copies == old(lay.copies) && lay.table == old(lay.table)
  {
    var r := lay.AssignRegion("Assign value");
    lay.Enable(r, cfg.selector, 0);
    var _ := lay.AssignAdvice(r, cfg.value, 0, v);
    assert lay.regions[r] == AssignedRegion(cfg, v);
    assert lay.regions == old(lay.regions) + [AssignedRegion(cfg, v)];
  }

  /**
   * The gate fails on the chip's region at exactly one place, row 0, and
   * only when the value (as a field element) is not below R.
   */
  lemma AssignedRegionFailures(P: nat, R: nat, cfg: RangeCheckConfig, v: int, k: nat, row: nat)
    requires IsPrime(P) && R >= 1
    ensures GateFails(P, Configure(R, cfg).gates[0], AssignedRegion(cfg, v), k, row) <==> (k == 0 && row == 0 && v % P >= R)
  {
    RangeGateZero(P, R, cfg.selector, cfg.value, AssignedRegion(cfg, v), row);
  }

  /** The chip accepts a value exactly when it is in [0, R). */
  lemma AssignedRegionSatisfied(P: nat, R: nat, cfg: RangeCheckConfig, v: int, table: Table)
    requires IsPrime(P) && R >= 1
    ensures RegionSatisfied(P, Configure(R, cfg), table, AssignedRegion(cfg, v)) <==> v % P < R
  {
    var cs := Configure(R, cfg);
    var reg := AssignedRegion(cfg, v);
    if v % P < R {
      forall g, k: nat, row: nat | 0 <= g < |cs.gates|
        ensures !GateFails(P, cs.gates[g], reg, k, row)
      {
        AssignedRegionFailures(P, R, cfg, v, k, row);
      }
    } else {
      AssignedRegionFailures(P, R, cfg, v, 0, 0);
      assert GateFails(P, cs.gates[0], reg, 0, 0);
    }
  }

  /** The gate reads only the value cell on row 0, which the region assigns. */
  lemma AssignedRegionCellsAssigned(R: nat, cfg: RangeCheckConfig, v: int)
    ensures GateCellsAssigned(Configure(R, cfg), AssignedRegion(cfg, v))
  {
    SelectorGateCells(Configure(R, cfg), AssignedRegion(cfg, v), cfg.selector, RangeCheckExpr(R, Advice(cfg.value, 0)));
  }

  /** With R = 8 the value 22 is rejected by one failure of the gate, at row 0. */
  lemma RejectsTwentyTwo(P: nat, cfg: RangeCheckConfig, k: nat, row: nat)
    requires IsPrime(P) && P > 22
    ensures GateFails(P, Configure(8, cfg).gates[0], AssignedRegion(cfg, 22), k, row) <==> (k == 0 && row == 0)
  {
    ModSmall(22, P);
    AssignedRegionFailures(P, 8, cfg, 22, k, row);
  }
}
