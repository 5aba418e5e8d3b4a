/**
 * The slice of the halo2 circuit API the chips are written against:
 * polynomial expressions over cells at row offsets, gates and lookup
 * arguments, regions whose cells are written once, copy constraints, and a
 * lookup table. The proving system and the layouter's first-fit placement of
 * regions are not modelled: every region keeps its own row numbering starting
 * at 0, and a cell nobody assigned reads as 0.
 */
module Circuit {
  import opened Field

  /** A polynomial over the cells of a row and its neighbours (halo2's `Expression`). */
  datatype Expr =
    | Constant(c: int)
    | Selector(selector: nat)
    | Advice(column: nat, rotation: int)
    | Negated(a: Expr)
    | Sum(a: Expr, b: Expr)
    | Product(a: Expr, b: Expr)
    | Scaled(a: Expr, factor: int)

  /** `a - b`, which halo2 builds as `a + (-b)`. */
  function Sub(a: Expr, b: Expr): Expr
  {
    Sum(a, Negated(b))
  }

  /** The degree of an expression; a selector and a cell query each count one. */
  function Degree(e: Expr): nat
  {
    match e
    case Constant(_) => 0
    case Selector(_) => 1
    case Advice(_, _) => 1
    case Negated(a) => Degree(a)
    case Sum(a, b) => if Degree(a) < Degree(b) then Degree(b) else Degree(a)
    case Product(a, b) => Degree(a) + Degree(b)
    case Scaled(a, _) => Degree(a)
  }

  /** A named gate: each polynomial must vanish on every row. */
  datatype Gate = Gate(name: string, polys: seq<Expr>)

  /** A lookup argument: the tuple of `inputs` must be a row of `tableColumns`. */
  datatype Lookup = Lookup(inputs: seq<Expr>, tableColumns: seq<nat>)

  datatype Column = AdviceColumn(index: nat) | InstanceColumn(index: nat)

  /** What a chip's `configure` declares. */
  datatype ConstraintSystem = ConstraintSystem(gates: seq<Gate>, lookups: seq<Lookup>, equality: set<Column>)

  /**
   * The cells assigned in one region, keyed by (advice column, row), and the
   * (selector, row) pairs enabled in it. Rows are relative to the region.
   */
  datatype RegionState = RegionState(name: string, cells: map<(nat, nat), int>, enabled: set<(nat, nat)>)

  /** A lookup table: (table column, offset) to value. */
  type Table = map<(nat, nat), int>

  function CellValue(reg: RegionState, column: nat, row: int): int
  {
    if row >= 0 && (column, row) in reg.cells then reg.cells[(column, row)] else 0
  }

  /** The value of `e` at `row` of `reg`, in the field of order P. */
  function Eval(P: nat, e: Expr, reg: RegionState, row: nat): (r: int)
    requires P > 1
    ensures 0 <= r < P
  {
    match e
    case Constant(c) => c % P
    case Selector(s) => if (s, row) in reg.enabled then 1 else 0
    case Advice(column, rotation) => CellValue(reg, column, row + rotation) % P
    case Negated(a) => (-Eval(P, a, reg, row)) % P
    case Sum(a, b) => (Eval(P, a, reg, row) + Eval(P, b, reg, row)) % P
    case Product(a, b) => (Eval(P, a, reg, row) * Eval(P, b, reg, row)) % P
    case Scaled(a, f) => (Eval(P, a, reg, row) * f) % P
  }

  /** The same polynomial evaluated over the integers, without reduction. */
  function EvalInt(e: Expr, reg: RegionState, row: nat): int
  {
    match e
    case Constant(c) => c
    case Selector(s) => if (s, row) in reg.enabled then 1 else 0
    case Advice(column, rotation) => CellValue(reg, column, row + rotation)
    case Negated(a) => -EvalInt(a, reg, row)
    case Sum(a, b) => EvalInt(a, reg, row) + EvalInt(b, reg, row)
    case Product(a, b) => EvalInt(a, reg, row) * EvalInt(b, reg, row)
    case Scaled(a, f) => EvalInt(a, reg, row) * f
  }

  /** Reducing once at the end gives the field value. */
  lemma {:induction false} EvalReduces(P: nat, e: Expr, reg: RegionState, row: nat)
    requires P > 1
    ensures Eval(P, e, reg, row) == EvalInt(e, reg, row) % P
  {
    match e
    case Constant(_) =>
    case Selector(_) =>
      ModSmall(0, P);
      ModSmall(1, P);
    case Advice(_, _) =>
    case Negated(a) =>
      EvalReduces(P, a, reg, row);
      ModNeg(EvalInt(a, reg, row), P);
    case Sum(a, b) =>
      EvalReduces(P, a, reg, row);
      EvalReduces(P, b, reg, row);
      ModAdd(EvalInt(a, reg, row), EvalInt(b, reg, row), P);
    case Product(a, b) =>
      EvalReduces(P, a, reg, row);
      EvalReduces(P, b, reg, row);
      ModMul(EvalInt(a, reg, row), EvalInt(b, reg, row), P);
    case Scaled(a, f) =>
      EvalReduces(P, a, reg, row);
      ModMulLeft(EvalInt(a, reg, row), f, P);
  }

  /** Subtraction in the field. */
  lemma EvalSub(P: nat, a: Expr, b: Expr, reg: RegionState, row: nat)
    requires P > 1
    ensures Eval(P, Sub(a, b), reg, row) == (Eval(P, a, reg, row) - Eval(P, b, reg, row)) % P
  {
    var x, y := Eval(P, a, reg, row), Eval(P, b, reg, row);
    calc {
      Eval(P, Sub(a, b), reg, row);
      (x + (-y) % P) % P;
      { ModSmall(x, P); }
      ((x % P) + (-y) % P) % P;
      { ModAdd(x, -y, P); }
      (x - y) % P;
    }
  }

  /** A selector query is 1 on an enabled row and 0 elsewhere, so `q * e` vanishes off it. */
  lemma GatedByRow(P: nat, s: nat, e: Expr, reg: RegionState, row: nat)
    requires P > 1
    ensures (s, row) !in reg.enabled ==> Eval(P, Product(Selector(s), e), reg, row) == 0
    ensures (s, row) in reg.enabled ==> Eval(P, Product(Selector(s), e), reg, row) == Eval(P, e, reg, row)
  {
    ModSmall(0, P);
    ModSmall(Eval(P, e, reg, row), P);
  }

  /** `q * e + (1 - q) * default`: a lookup input that falls back to a default off its selector. */
  function GatedOrDefault(q: nat, e: Expr, default: int): Expr
  {
    Sum(Product(Selector(q), e), Product(Sub(Constant(1), Selector(q)), Constant(default)))
  }

  /** With the selector on the input is `e`; with it off, the default. */
  lemma GatedOrDefaultValue(P: nat, q: nat, e: Expr, default: int, reg: RegionState, row: nat)
    requires P > 1
    ensures Eval(P, GatedOrDefault(q, e, default), reg, row)
         == if (q, row) in reg.enabled then Eval(P, e, reg, row) else default % P
  {
    var g := GatedOrDefault(q, e, default);
    EvalReduces(P, g, reg, row);
    EvalReduces(P, e, reg, row);
    var x := EvalInt(e, reg, row);
    var s := EvalInt(Selector(q), reg, row);
    assert EvalInt(Product(Selector(q), e), reg, row) == s * x;
    assert EvalInt(Sub(Constant(1), Selector(q)), reg, row) == 1 - s;
    assert EvalInt(Product(Sub(Constant(1), Selector(q)), Constant(default)), reg, row) == (1 - s) * default;
    assert EvalInt(g, reg, row) == s * x + (1 - s) * default;
  }

  predicate GateFails(P: nat, g: Gate, reg: RegionState, k: nat, row: nat)
    requires P > 1
  {
    k < |g.polys| && Eval(P, g.polys[k], reg, row) != 0
  }

  function EvalTuple(P: nat, inputs: seq<Expr>, reg: RegionState, row: nat): (t: seq<int>)
    requires P > 1
    ensures |t| == |inputs|
  {
    seq(|inputs|, j requires 0 <= j < |inputs| => Eval(P, inputs[j], reg, row))
  }

  predicate RowMatches(table: Table, columns: seq<nat>, tuple: seq<int>, offset: nat)
  {
    |tuple| == |columns| &&
    forall j :: 0 <= j < |columns| ==> (columns[j], offset) in table && table[(columns[j], offset)] == tuple[j]
  }

  /** Set membership, not row-aligned equality: some offset of the table holds the tuple. */
  ghost predicate InTable(table: Table, columns: seq<nat>, tuple: seq<int>)
  {
    exists offset: nat :: RowMatches(table, columns, tuple, offset)
  }

  ghost predicate LookupFails(P: nat, l: Lookup, table: Table, reg: RegionState, row: nat)
    requires P > 1
  {
    !InTable(table, l.tableColumns, EvalTuple(P, l.inputs, reg, row))
  }

  /** Every gate vanishes and every lookup input is in the table, on every row of the region. */
  ghost predicate RegionSatisfied(P: nat, cs: ConstraintSystem, table: Table, reg: RegionState)
    requires P > 1
  {
    (forall g, k: nat, row: nat :: 0 <= g < |cs.gates| ==> !GateFails(P, cs.gates[g], reg, k, row)) &&
    (forall l, row: nat :: 0 <= l < |cs.lookups| ==> !LookupFails(P, cs.lookups[l], table, reg, row))
  }

  /** The advice cells an expression reads, as (column, rotation). */
  function Queries(e: Expr): set<(nat, int)>
  {
    match e
    case Constant(_) => {}
    case Selector(_) => {}
    case Advice(column, rotation) => {(column, rotation)}
    case Negated(a) => Queries(a)
    case Sum(a, b) => Queries(a) + Queries(b)
    case Product(a, b) => Queries(a) + Queries(b)
    case Scaled(a, _) => Queries(a)
  }

  /** The selectors an expression reads. */
  function SelectorsOf(e: Expr): set<nat>
  {
    match e
    case Constant(_) => {}
    case Selector(s) => {s}
    case Advice(_, _) => {}
    case Negated(a) => SelectorsOf(a)
    case Sum(a, b) => SelectorsOf(a) + SelectorsOf(b)
    case Product(a, b) => SelectorsOf(a) + SelectorsOf(b)
    case Scaled(a, _) => SelectorsOf(a)
  }

  /** The advice cells a gate reads, over all its polynomials. */
  function GateQueries(polys: seq<Expr>): set<(nat, int)>
  {
    if |polys| == 0 then {} else GateQueries(polys[..|polys| - 1]) + Queries(polys[|polys| - 1])
  }

  /** The selectors a gate reads, over all its polynomials. */
  function GateSelectors(polys: seq<Expr>): set<nat>
  {
    if |polys| == 0 then {} else GateSelectors(polys[..|polys| - 1]) + SelectorsOf(polys[|polys| - 1])
  }

  /** On every row where selector s is on, each query in qs lands on a cell the region assigned. */
  ghost predicate QueriesAssigned(reg: RegionState, s: nat, qs: set<(nat, int)>)
  {
    forall row: nat, column, rotation :: (s, row) in reg.enabled && (column, rotation) in qs
      ==> 0 <= row + rotation && (column, row + rotation) in reg.cells
  }

  /**
   * The mock prover's check that no gate reads an unassigned cell: for every
   * gate and every selector it reads, on each row of the region where that
   * selector is on, every cell the gate reads was assigned in the region.
   */
  ghost predicate GateCellsAssigned(cs: ConstraintSystem, reg: RegionState)
  {
    forall g, s :: 0 <= g < |cs.gates| && s in GateSelectors(cs.gates[g].polys)
      ==> QueriesAssigned(reg, s, GateQueries(cs.gates[g].polys))
  }

  /** `a - b` reads what `a` and `b` read. */
  lemma SubReads(a: Expr, b: Expr)
    ensures Queries(Sub(a, b)) == Queries(a) + Queries(b)
    ensures SelectorsOf(Sub(a, b)) == SelectorsOf(a) + SelectorsOf(b)
  {
  }

  /** `a - b` has the larger of the two degrees. */
  lemma SubDegree(a: Expr, b: Expr)
    ensures Degree(Sub(a, b)) == if Degree(a) < Degree(b) then Degree(b) else Degree(a)
  {
  }

  /** A gate of one polynomial reads what the polynomial reads. */
  lemma SinglePolyReads(e: Expr)
    ensures GateQueries([e]) == Queries(e) && GateSelectors([e]) == SelectorsOf(e)
  {
    assert [e][..0] == [];
  }

  /** A gated lookup input reads its selector and what `e` reads. */
  lemma GatedOrDefaultReads(q: nat, e: Expr, default: int)
    ensures Queries(GatedOrDefault(q, e, default)) == Queries(e)
    ensures SelectorsOf(GatedOrDefault(q, e, default)) == {q} + SelectorsOf(e)
  {
    var off := Product(Sub(Constant(1), Selector(q)), Constant(default));
    SubReads(Constant(1), Selector(q));
    assert Queries(off) == {} && SelectorsOf(off) == {q};
    assert Queries(Product(Selector(q), e)) == Queries(e);
    assert SelectorsOf(Product(Selector(q), e)) == {q} + SelectorsOf(e);
  }

  /** For a single gate `q * body` whose body reads no selector, the check is about the rows where q is on. */
  lemma SelectorGateCells(cs: ConstraintSystem, reg: RegionState, q: nat, body: Expr)
    requires |cs.gates| == 1 && cs.gates[0].polys == [Product(Selector(q), body)] && SelectorsOf(body) == {}
    ensures GateCellsAssigned(cs, reg) <==> QueriesAssigned(reg, q, Queries(body))
  {
    SinglePolyReads(Product(Selector(q), body));
  }

  /** An advice cell: region index, column, row within the region. */
  datatype Cell = Cell(region: nat, column: nat, row: nat)

  /** One side of a copy constraint. */
  datatype CellRef = AdviceCell(cell: Cell) | InstanceCell(row: nat) | ConstantCell(value: int)

  /** The result of writing a cell: where, and what was written. */
  datatype AssignedCell = AssignedCell(cell: Cell, value: int)

  /** Everything one synthesis pass produced, with the public inputs it ran against. */
  datatype Assignment = Assignment(instance: seq<int>, regions: seq<RegionState>, copies: set<(CellRef, CellRef)>, table: Table)

  function InstanceValue(instance: seq<int>, row: nat): int
  {
    if row < |instance| then instance[row] else 0
  }

  function RefValue(a: Assignment, t: CellRef): int
  {
    match t
    case AdviceCell(c) => if c.region < |a.regions| then CellValue(a.regions[c.region], c.column, c.row) else 0
    case InstanceCell(row) => InstanceValue(a.instance, row)
    case ConstantCell(v) => v
  }

  predicate CopyFails(P: nat, a: Assignment, x: CellRef, y: CellRef)
    requires P > 1
  {
    (x, y) in a.copies && RefValue(a, x) % P != RefValue(a, y) % P
  }

  /** Every copy constraint in `copies` holds in `a`. */
  predicate CopiesHold(P: nat, a: Assignment, copies: set<(CellRef, CellRef)>)
    requires P > 1
  {
    forall c | c in copies :: RefValue(a, c.0) % P == RefValue(a, c.1) % P
  }

  /** Rewriting the region opened last leaves the earlier ones alone. */
  lemma ReplaceLast(rs: seq<RegionState>, a: RegionState, b: RegionState)
    ensures (rs + [a])[|rs| := b] == rs + [b]
  {
    assert (rs + [a])[|rs| := b][|rs|] == b;
  }

  lemma CopiesHoldPair(P: nat, a: Assignment, p: (CellRef, CellRef), q: (CellRef, CellRef))
    requires P > 1
    ensures CopiesHold(P, a, {p, q})
        <==> RefValue(a, p.0) % P == RefValue(a, p.1) % P && RefValue(a, q.0) % P == RefValue(a, q.1) % P
  {
    assert p in {p, q} && q in {p, q};
  }

  lemma CopiesHoldUnion(P: nat, a: Assignment, x: set<(CellRef, CellRef)>, y: set<(CellRef, CellRef)>)
    requires P > 1
    ensures CopiesHold(P, a, x + y) <==> CopiesHold(P, a, x) && CopiesHold(P, a, y)
  {
  }

  /** The whole assignment satisfies the constraint system. */
  ghost predicate Satisfied(P: nat, cs: ConstraintSystem, a: Assignment)
    requires P > 1
  {
    (forall i :: 0 <= i < |a.regions| ==> RegionSatisfied(P, cs, a.table, a.regions[i])) &&
    (forall x, y :: !CopyFails(P, a, x, y))
  }

  /**
   * The layouter and its regions during one synthesis pass. Cells are written
   * once, and copy constraints are only placed on equality-enabled columns:
   * both are preconditions here, so a chip method that verifies never writes
   * a cell twice and never copies into a column that was not enabled.
   */
  class Layouter {
    const instance: seq<int>
    const equality: set<Column>
    var regions: seq<RegionState>
    var copies: set<(CellRef, CellRef)>
    var table: Table

    function State(): Assignment
      reads this
    {
      Assignment(instance, regions, copies, table)
    }

    constructor (instance: seq<int>, equality: set<Column>)
      ensures this.instance == instance && this.equality == equality
      ensures regions == [] && copies == {} && table == map[]
    {
      this.instance := instance;
      this.equality := equality;
      regions := [];
      copies := {};
      table := map[];
    }

    /** `assign_region`: opens a fresh region, whose rows start at 0. */
    method AssignRegion(name: string) returns (r: nat)
      modifies this
      ensures r == |old(regions)| && regions == old(regions) + [RegionState(name, map[], {})]
      ensures copies == old(copies) && table == old(table)
    {
      r := |regions|;
      regions := regions + [RegionState(name, map[], {})];
    }

    /** `Selector::enable`. */
    method Enable(r: nat, selector: nat, row: nat)
      requires r < |regions|
      modifies this
      ensures regions == old(regions)[r := old(regions[r]).(enabled := old(regions[r]).enabled + {(selector, row)})]
      ensures copies == old(copies) && table == old(table)
    {
      regions := regions[r := regions[r].(enabled := regions[r].enabled + {(selector, row)})];
    }

    /** `assign_advice`. */
    method AssignAdvice(r: nat, column: nat, row: nat, value: int) returns (c: AssignedCell)
      requires r < |regions| && (column, row) !in regions[r].cells
      modifies this
      ensures c == AssignedCell(Cell(r, column, row), value)
      ensures regions == old(regions)[r := old(regions[r]).(cells := old(regions[r]).cells[(column, row) := value])]
      ensures copies == old(copies) && table == old(table)
    {
      regions := regions[r := regions[r].(cells := regions[r].cells[(column, row) := value])];
      c := AssignedCell(Cell(r, column, row), value);
    }

    /** `assign_advice_from_instance`: copies a public input in and binds the two cells. */
    method AssignAdviceFromInstance(instanceRow: nat, r: nat, column: nat, row: nat) returns (c: AssignedCell)
      requires InstanceColumn(0) in equality && AdviceColumn(column) in equality
      requires r < |regions| && (column, row) !in regions[r].cells
      modifies this
      ensures c == AssignedCell(Cell(r, column, row), InstanceValue(instance, instanceRow))
      ensures regions == old(regions)[r := old(regions[r]).(cells := old(regions[r]).cells[(column, row) := c.value])]
      ensures copies == old(copies) + {(AdviceCell(c.cell), InstanceCell(instanceRow))}
      ensures table == old(table)
    {
      c := AssignAdvice(r, column, row, InstanceValue(instance, instanceRow));
      copies := copies + {(AdviceCell(c.cell), InstanceCell(instanceRow))};
    }

    /** `AssignedCell::copy_advice`: a new cell holding the source's value, bound to it. */
    method CopyAdvice(source: AssignedCell, r: nat, column: nat, row: nat) returns (c: AssignedCell)
      requires AdviceColumn(source.cell.column) in equality && AdviceColumn(column) in equality
      requires r < |regions| && (column, row) !in regions[r].cells
      modifies this
      ensures c == AssignedCell(Cell(r, column, row), source.value)
      ensures regions == old(regions)[r := old(regions[r]).(cells := old(regions[r]).cells[(column, row) := source.value])]
      ensures copies == old(copies) + {(AdviceCell(source.cell), AdviceCell(c.cell))}
      ensures table == old(table)
    {
      c := AssignAdvice(r, column, row, source.value);
      copies := copies + {(AdviceCell(source.cell), AdviceCell(c.cell))};
    }

    /** `assign_advice_from_constant`: writes a constant and binds it to the fixed constant column. */
    method AssignAdviceFromConstant(r: nat, column: nat, row: nat, value: int) returns (c: AssignedCell)
      requires AdviceColumn(column) in equality
      requires r < |regions| && (column, row) !in regions[r].cells
      modifies this
      ensures c == AssignedCell(Cell(r, column, row), value)
      ensures regions == old(regions)[r := old(regions[r]).(cells := old(regions[r]).cells[(column, row) := value])]
      ensures copies == old(copies) + {(AdviceCell(c.cell), ConstantCell(value))}
      ensures table == old(table)
    {
      c := AssignAdvice(r, column, row, value);
      copies := copies + {(AdviceCell(c.cell), ConstantCell(value))};
    }

    /** `constrain_constant`. */
    method ConstrainConstant(cell: Cell, value: int)
      requires AdviceColumn(cell.column) in equality
      modifies this
      ensures copies == old(copies) + {(AdviceCell(cell), ConstantCell(value))}
      ensures regions == old(regions) && table == old(table)
    {
      copies := copies + {(AdviceCell(cell), ConstantCell(value))};
    }

    /** `constrain_instance`. */
    method ConstrainInstance(cell: Cell, instanceRow: nat)
      requires AdviceColumn(cell.column) in equality && InstanceColumn(0) in equality
      modifies this
      ensures copies == old(copies) + {(AdviceCell(cell), InstanceCell(instanceRow))}
      ensures regions == old(regions) && table == old(table)
    {
      copies := copies + {(AdviceCell(cell), InstanceCell(instanceRow))};
    }

    /** `Table::assign_cell`. */
    method AssignTableCell(column: nat, offset: nat, value: int)
      requires (column, offset) !in table
      modifies this
      ensures table == old(table)[(column, offset) := value]
      ensures regions == old(regions) && copies == old(copies)
    {
      table := table[(column, offset) := value];
    }
  }
}
