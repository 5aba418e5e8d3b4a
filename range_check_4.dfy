/**
 * The running-sum decomposition chip: a value is copied into a region, the
 * running sum z_1 .. z_C of its num_bits low bits is written below it, every
 * full K-bit chunk is looked up in the K-bit table, z_C is constrained to 0,
 * and a final partial chunk of p = num_bits mod K bits is shifted up by
 * K - p bits and looked up too.
 *
 * Layout of the region (rows relative to the region):
 *
 *   row 0      : z_0 = value (a copy of the value cell)
 *   rows 1..C  : z_1 .. z_C
 *   row C + 1  : shifted = c_{C-1} * 2^{K-p}   (only when p > 0)
 *   row C + 2  : 2^{-p}, from a constant        (only when p > 0)
 */
module RangeCheck4 {
  import opened Field
  import opened Circuit
  import opened Decomposition
  import RangeCheck2Table

  /** The running-sum column, the two selectors and the K-bit table column. */
  datatype DecomposeConfig = DecomposeConfig(runningSum: nat, qDecompose: nat, qPartialCheck: nat, tableValue: nat)

  /** c = z_cur - z_next * 2^K, with z_cur at rotation `cur` and z_next one row below it. */
  function ChunkExpr(K: nat, cfg: DecomposeConfig, cur: int): Expr
  {
    Sub(Advice(cfg.runningSum, cur), Scaled(Advice(cfg.runningSum, cur + 1), Pow2(K)))
  }

  /** The body of the "final partial chunk" gate: c_{C-1} * 2^K * 2^{-p} - shifted, on the z_C row. */
  function PartialChunkExpr(K: nat, cfg: DecomposeConfig): Expr
  {
    Sub(Product(Scaled(ChunkExpr(K, cfg, -1), Pow2(K)), Advice(cfg.runningSum, 2)), Advice(cfg.runningSum, 1))
  }

  /**
   * What `configure` registers: the partial-chunk gate, the chunk lookup
   * (default 0 off `q_decompose`), the shifted-chunk lookup (default 0 off
   * `q_partial_check`), and equality on the running-sum column. The gate
   * reads z_{C-1} .. z_C and the two cells below; the chunk lookup reads two
   * adjacent rows, the shifted one the row below its selector.
   */
  function Configure(K: nat, cfg: DecomposeConfig): (cs: ConstraintSystem)
    ensures |cs.gates| == 1 && |cs.lookups| == 2 && |cs.lookups[0].inputs| == 1 && |cs.lookups[1].inputs| == 1
    ensures GateSelectors(cs.gates[0].polys) == {cfg.qPartialCheck}
    ensures GateQueries(cs.gates[0].polys)
         == {(cfg.runningSum, -1), (cfg.runningSum, 0), (cfg.runningSum, 1), (cfg.runningSum, 2)}
    ensures SelectorsOf(cs.lookups[0].inputs[0]) == {cfg.qDecompose}
         && Queries(cs.lookups[0].inputs[0]) == {(cfg.runningSum, 0), (cfg.runningSum, 1)}
    ensures SelectorsOf(cs.lookups[1].inputs[0]) == {cfg.qPartialCheck}
         && Queries(cs.lookups[1].inputs[0]) == {(cfg.runningSum, 1)}
  {
    var rs := cfg.runningSum;
    SubReads(Advice(rs, 0), Scaled(Advice(rs, 1), Pow2(K)));
    SubReads(Advice(rs, -1), Scaled(Advice(rs, 0), Pow2(K)));
    SubReads(Product(Scaled(ChunkExpr(K, cfg, -1), Pow2(K)), Advice(rs, 2)), Advice(rs, 1));
    SinglePolyReads(Product(Selector(cfg.qPartialCheck), PartialChunkExpr(K, cfg)));
    GatedOrDefaultReads(cfg.qDecompose, ChunkExpr(K, cfg, 0), 0);
    GatedOrDefaultReads(cfg.qPartialCheck, Advice(rs, 1), 0);
    ConstraintSystem(
      [Gate("final partial chunk", [Product(Selector(cfg.qPartialCheck), PartialChunkExpr(K, cfg))])],
      [Lookup([GatedOrDefault(cfg.qDecompose, ChunkExpr(K, cfg, 0), 0)], [cfg.tableValue]),
       Lookup([GatedOrDefault(cfg.qPartialCheck, Advice(cfg.runningSum, 1), 0)], [cfg.tableValue])],
      {AdviceColumn(cfg.runningSum)})
  }

  /** The K-bit lookup table: the values [0, 2^K). */
  function KBitTable(P: nat, K: nat, cfg: DecomposeConfig): Table
    requires P > 1
  {
    RangeCheck2Table.RangeTable(P, cfg.tableValue, Pow2(K))
  }

  // ---------------------------------------------------------------------
  // The region `assign` lays out.
  // ---------------------------------------------------------------------

  /** The value at row 0 and zs[j] at row j + 1, written in that order. */
  function RunningSumCells(column: nat, v: int, zs: seq<int>): map<(nat, nat), int>
  {
    if |zs| == 0 then map[(column, 0) := v]
    else RunningSumCells(column, v, zs[..|zs| - 1])[(column, |zs|) := zs[|zs| - 1]]
  }

  lemma {:induction false} RunningSumCellsDomain(column: nat, v: int, zs: seq<int>, c: nat, row: nat)
    ensures (c, row) in RunningSumCells(column, v, zs) <==> c == column && row <= |zs|
  {
    if |zs| > 0 {
      RunningSumCellsDomain(column, v, zs[..|zs| - 1], c, row);
    }
  }

  lemma {:induction false} RunningSumCellsAt(column: nat, v: int, zs: seq<int>, row: nat)
    requires row <= |zs|
    ensures (column, row) in RunningSumCells(column, v, zs)
    ensures RunningSumCells(column, v, zs)[(column, row)] == if row == 0 then v else zs[row - 1]
  {
    if row < |zs| {
      RunningSumCellsAt(column, v, zs[..|zs| - 1], row);
    }
  }

  /** The selector rows 0 .. count - 1. */
  function SelectorRows(selector: nat, count: int): set<(nat, nat)>
  {
    set j: nat | j < count :: (selector, j)
  }

  /**
   * The selectors `assign` enables: `q_decompose` on the first `chunkRows`
   * rows and, when p > 0, `q_partial_check` on the z_C row. The source's loop
   * gives chunkRows = num_bits / K; every row above z_C is C = expected_vec_len.
   */
  function Selectors(cfg: DecomposeConfig, n: nat, K: nat, chunkRows: nat): (sel: set<(nat, nat)>)
    requires K >= 1
    ensures forall s, row :: (s, row) in sel ==>
              (s == cfg.qDecompose && row < chunkRows) || (s == cfg.qPartialCheck && n % K > 0 && row == ExpectedVecLen(n, K))
    ensures forall row: nat :: row < chunkRows ==> (cfg.qDecompose, row) in sel
    ensures n % K > 0 ==> (cfg.qPartialCheck, ExpectedVecLen(n, K)) in sel
  {
    SelectorRows(cfg.qDecompose, chunkRows)
    + (if n % K > 0 then {(cfg.qPartialCheck, ExpectedVecLen(n, K))} else {})
  }

  /**
   * The chunk rows as written: `0..num_bits / K`, one per full chunk, which
   * is one row short of expected_vec_len when a partial chunk exists.
   */
  function AsWrittenChunkRows(n: nat, K: nat): (rows: nat)
    requires K >= 1
    ensures rows * K <= n < (rows + 1) * K
    ensures rows == if n % K > 0 then ExpectedVecLen(n, K) - 1 else ExpectedVecLen(n, K)
  {
    DivMod(n, K);
    MulSucc(n / K, K);
    n / K
  }

  /** The chunk rows as the layout comment describes them: every row but z_C's. */
  function ChunkRows(n: nat, K: nat): nat
    requires K >= 1
  {
    ExpectedVecLen(n, K)
  }

  /** `final_chunk`: the top p = num_bits mod K of the first num_bits bits, read by `lebs2ip`. */
  function FinalChunk(v: nat, n: nat, K: nat): (c: nat)
    requires 1 <= K < 64
    ensures c < Pow2(n % K)
  {
    ModAtMost(n, K);
    Lebs2ip(Bits(v, n)[n - n % K ..])
  }

  /** What `short_range_check` writes below z_C: final_chunk * 2^{K-p} in the field. */
  function ShiftedChunk(P: nat, K: nat, v: nat, n: nat): int
    requires P > 1 && 1 <= K < 64
  {
    (FinalChunk(v, n, K) % P * Pow2(K - n % K)) % P
  }

  /** The region after `assign`, for a value v (a field element) and num_bits n. */
  function DecomposeRegion(P: nat, K: nat, cfg: DecomposeConfig, v: nat, n: nat): RegionState
    requires P > 1 && P % 2 == 1 && 1 <= K < 64
  {
    var zs := RunningSum(P, K, v, n);
    var C := |zs|;
    var p := n % K;
    var cells := RunningSumCells(cfg.runningSum, v, zs);
    var enabled := Selectors(cfg, n, K, AsWrittenChunkRows(n, K));
    if p > 0 then
      RegionState("Decompose value",
        cells[(cfg.runningSum, C + 1) := ShiftedChunk(P, K, v, n)][(cfg.runningSum, C + 2) := InvPow2(P, p)],
        enabled)
    else
      RegionState("Decompose value", cells, enabled)
  }

  /**
   * The copy constraints `assign` adds: the value cell to row 0, z_C to the
   * constant 0, and (when p > 0) row C + 2 to the constant 2^{-p}.
   */
  function DecomposeCopies(P: nat, K: nat, cfg: DecomposeConfig, valueCell: Cell, r: nat, n: nat): set<(CellRef, CellRef)>
    requires P > 1 && P % 2 == 1 && K >= 1
  {
    var C := ExpectedVecLen(n, K);
    var p := n % K;
    {(AdviceCell(valueCell), AdviceCell(Cell(r, cfg.runningSum, 0))), (AdviceCell(Cell(r, cfg.runningSum, C)), ConstantCell(0))}
    + (if p > 0 then {(AdviceCell(Cell(r, cfg.runningSum, C + 2)), ConstantCell(InvPow2(P, p)))} else {})
  }

  // ---------------------------------------------------------------------
  // `assign` and `short_range_check`.
  // ---------------------------------------------------------------------

  /**
   * `short_range_check`: enables the partial-chunk gate on row `offset` (the
   * z_C row), writes element * 2^{K-p} below it and 2^{-p} from a constant
   * two rows below it.
   */
  method ShortRangeCheck(lay: Layouter, P: nat, K: nat, cfg: DecomposeConfig, r: nat, offset: nat, element: int, p: nat)
    requires P > 1 && P % 2 == 1 && 1 <= p < K < 64
    requires AdviceColumn(cfg.runningSum) in lay.equality
    requires r < |lay.regions|
    requires (cfg.runningSum, offset + 1) !in lay.regions[r].cells && (cfg.runningSum, offset + 2) !in lay.regions[r].cells
    modifies lay
    ensures lay.regions == old(lay.regions)[r := RegionState(old(lay.regions[r]).name,
      old(lay.regions[r]).cells[(cfg.runningSum, offset + 1) := (element * Pow2(K - p)) % P][(cfg.runningSum, offset + 2) := InvPow2(P, p)],
      old(lay.regions[r]).enabled + {(cfg.qPartialCheck, offset)})]
    ensures lay.copies == old(lay.copies) + {(AdviceCell(Cell(r, cfg.runningSum, offset + 2)), ConstantCell(InvPow2(P, p)))}
    ensures lay.table == old(lay.table)
  {
    lay.Enable(r, cfg.qPartialCheck, offset);
    var shifted := (element * Pow2(K - p)) % P;
    var _ := lay.AssignAdvice(r, cfg.runningSum, offset + 1, shifted);
    var invTwoPowS := InvPow2(P, p);
    var _ := lay.AssignAdviceFromConstant(r, cfg.runningSum, offset + 2, invTwoPowS);
  }

  /** The loop of `assign` that writes z_1 .. z_C below the value, returning the z_C cell. */
  method AssignRunningSum(lay: Layouter, r: nat, rs: nat, v: int, zs: seq<int>) returns (z: AssignedCell)
    requires r < |lay.regions| && lay.regions[r].cells == RunningSumCells(rs, v, [])
    modifies lay
    ensures z.cell == Cell(r, rs, |zs|)
    ensures lay.regions == old(lay.regions)[r := RegionState(old(lay.regions[r]).name, RunningSumCells(rs, v, zs), old(lay.regions[r]).enabled)]
    ensures lay.copies == old(lay.copies) && lay.table == old(lay.table)
  {
    var name, enabled := lay.regions[r].name, lay.regions[r].enabled;
    z := AssignedCell(Cell(r, rs, 0), v);
    var i := 0;
    assert zs[..0] == [];
    while i < |zs|
      invariant 0 <= i <= |zs| && |lay.regions| == |old(lay.regions)|
      invariant lay.regions == old(lay.regions)[r := RegionState(name, RunningSumCells(rs, v, zs[..i]), enabled)]
      invariant z.cell == Cell(r, rs, i)
      invariant lay.copies == old(lay.copies) && lay.table == old(lay.table)
    {
      RunningSumCellsDomain(rs, v, zs[..i], rs, i + 1);
      z := lay.AssignAdvice(r, rs, i + 1, zs[i]);
      assert zs[..i + 1][..i] == zs[..i];
      i := i + 1;
    }
    assert zs[..|zs|] == zs;
  }

  /** The loop of `assign` that enables `q_decompose` on rows 0 .. count - 1. */
  method EnableRows(lay: Layouter, r: nat, selector: nat, count: nat)
    requires r < |lay.regions|
    modifies lay
    ensures lay.regions == old(lay.regions)[r := old(lay.regions[r]).(enabled := old(lay.regions[r]).enabled + SelectorRows(selector, count))]
    ensures lay.copies == old(lay.copies) && lay.table == old(lay.table)
  {
    ghost var base := lay.regions[r];
    var row := 0;
    assert base.enabled + SelectorRows(selector, 0) == base.enabled;
    assert lay.regions == old(lay.regions)[r := base.(enabled := base.enabled + SelectorRows(selector, 0))];
    while row < count
      invariant row <= count && |lay.regions| == |old(lay.regions)|
      invariant lay.regions == old(lay.regions)[r := base.(enabled := base.enabled + SelectorRows(selector, row))]
      invariant lay.copies == old(lay.copies) && lay.table == old(lay.table)
    {
      lay.Enable(r, selector, row);
      assert SelectorRows(selector, row + 1) == SelectorRows(selector, row) + {(selector, row)};
      assert base.enabled + SelectorRows(selector, row) + {(selector, row)} == base.enabled + SelectorRows(selector, row + 1);
      row := row + 1;
    }
  }

  /**
   * The last step of `assign`: when K does not divide num_bits, the final
   * chunk (the top p bits of the value) goes to `short_range_check` on the
   * z_C row; the region is then `DecomposeRegion`.
   */
  method AssignPartialChunk(lay: Layouter, P: nat, K: nat, cfg: DecomposeConfig, r: nat, v: nat, n: nat, zs: seq<int>)
    requires P > 1 && P % 2 == 1 && 1 <= K < 64
    requires AdviceColumn(cfg.runningSum) in lay.equality
    requires zs == RunningSum(P, K, v, n) && |zs| == ExpectedVecLen(n, K) && r == |lay.regions| - 1
    requires lay.regions[r] == RegionState("Decompose value", RunningSumCells(cfg.runningSum, v, zs), SelectorRows(cfg.qDecompose, n / K))
    modifies lay
    ensures lay.regions == old(lay.regions)[..r] + [DecomposeRegion(P, K, cfg, v, n)]
    ensures lay.copies == old(lay.copies) + (if n % K > 0 then {(AdviceCell(Cell(r, cfg.runningSum, |zs| + 2)), ConstantCell(InvPow2(P, n % K)))} else {})
    ensures lay.table == old(lay.table)
  {
    var partialLen := n % K;
    if partialLen > 0 {
      AssignFinalChunk(lay, P, K, cfg, r, v, n, zs);
    } else {
      assert Selectors(cfg, n, K, AsWrittenChunkRows(n, K)) == SelectorRows(cfg.qDecompose, n / K);
      assert lay.regions == lay.regions[..r] + [lay.regions[r]];
    }
  }

  /** The partial-chunk branch: `short_range_check` of the final chunk on the z_C row. */
  method AssignFinalChunk(lay: Layouter, P: nat, K: nat, cfg: DecomposeConfig, r: nat, v: nat, n: nat, zs: seq<int>)
    requires P > 1 && P % 2 == 1 && 1 <= K < 64 && n % K > 0
    requires AdviceColumn(cfg.runningSum) in lay.equality
    requires zs == RunningSum(P, K, v, n) && |zs| == ExpectedVecLen(n, K) && r == |lay.regions| - 1
    requires lay.regions[r] == RegionState("Decompose value", RunningSumCells(cfg.runningSum, v, zs), SelectorRows(cfg.qDecompose, n / K))
    modifies lay
    ensures lay.regions == old(lay.regions)[..r] + [DecomposeRegion(P, K, cfg, v, n)]
    ensures lay.copies == old(lay.copies) + {(AdviceCell(Cell(r, cfg.runningSum, |zs| + 2)), ConstantCell(InvPow2(P, n % K)))}
    ensures lay.table == old(lay.table)
  {
    var partialLen := n % K;
    var finalChunk := FinalChunk(v, n, K);
    ghost var before := lay.regions[..r];
    ghost var base := lay.regions[r];
    assert lay.regions == before + [base];
    var rs, C := cfg.runningSum, |zs|;
    RunningSumCellsDomain(rs, v, zs, rs, C + 1);
    RunningSumCellsDomain(rs, v, zs, rs, C + 2);
    ShortRangeCheck(lay, P, K, cfg, r, C, finalChunk % P, partialLen);
    ghost var after := RegionState(base.name,
      base.cells[(rs, C + 1) := (finalChunk % P * Pow2(K - partialLen)) % P][(rs, C + 2) := InvPow2(P, partialLen)],
      base.enabled + {(cfg.qPartialCheck, C)});
    assert lay.regions == (before + [base])[r := after];
    PartialRegion(P, K, cfg, v, n, zs);
    assert after == DecomposeRegion(P, K, cfg, v, n);
    ReplaceLast(before, base, after);
  }

  /** With a partial chunk, `DecomposeRegion` is the running sum plus what `short_range_check` writes. */
  lemma PartialRegion(P: nat, K: nat, cfg: DecomposeConfig, v: nat, n: nat, zs: seq<int>)
    requires P > 1 && P % 2 == 1 && 1 <= K < 64 && n % K > 0
    requires zs == RunningSum(P, K, v, n) && |zs| == ExpectedVecLen(n, K)
    ensures DecomposeRegion(P, K, cfg, v, n) == RegionState("Decompose value",
      RunningSumCells(cfg.runningSum, v, zs)[(cfg.runningSum, |zs| + 1) := (FinalChunk(v, n, K) % P * Pow2(K - n % K)) % P]
        [(cfg.runningSum, |zs| + 2) := InvPow2(P, n % K)],
      SelectorRows(cfg.qDecompose, n / K) + {(cfg.qPartialCheck, |zs|)})
  {
    assert Selectors(cfg, n, K, n / K) == SelectorRows(cfg.qDecompose, n / K) + {(cfg.qPartialCheck, |zs|)};
    assert ShiftedChunk(P, K, v, n) == (FinalChunk(v, n, K) % P * Pow2(K - n % K)) % P;
  }

  /**
   * `assign`: one region holding the copied value, the running sum below it,
   * `q_decompose` on rows 0 .. num_bits / K - 1, z_C tied to 0, and the
   * partial-chunk rows when K does not divide num_bits. When it does not, the
   * row of the final partial chunk has no K-bit lookup (see ForgedAccepted).
   */
  method Assign(lay: Layouter, P: nat, K: nat, cfg: DecomposeConfig, value: AssignedCell, n: nat)
    requires P > 1 && P % 2 == 1 && 1 <= K < 64 && Pow2(K) < P
    requires 0 <= value.value < P
    requires AdviceColumn(cfg.runningSum) in lay.equality && AdviceColumn(value.cell.column) in lay.equality
    modifies lay
    ensures lay.regions == old(lay.regions) + [DecomposeRegion(P, K, cfg, value.value, n)]
    ensures lay.copies == old(lay.copies) + DecomposeCopies(P, K, cfg, value.cell, |old(lay.regions)|, n)
    ensures lay.table == old(lay.table)
  {
    var v: nat := value.value;
    var rs := cfg.runningSum;
    var partialLen := n % K;
    var r := lay.AssignRegion("Decompose value");
    var _ := lay.CopyAdvice(value, r, rs, 0);
    assert lay.regions[r].cells == RunningSumCells(rs, v, []);
    var expectedVecLen := if partialLen > 0 then 1 + n / K else n / K;
    var zs := ComputeRunningSum(P, K, v, n);
    assert |zs| == expectedVecLen;
    var z := AssignRunningSum(lay, r, rs, v, zs);
    EnableRows(lay, r, cfg.qDecompose, n / K);
    assert {} + SelectorRows(cfg.qDecompose, n / K) == SelectorRows(cfg.qDecompose, n / K);
    lay.ConstrainConstant(z.cell, 0);
    AssignPartialChunk(lay, P, K, cfg, r, v, n, zs);
    assert lay.regions[..r] == old(lay.regions);
  }

  // ---------------------------------------------------------------------
  // What the constraints compute on any region.
  // ---------------------------------------------------------------------

  /** The chunk lookup's input: z_row - z_{row+1} * 2^K on a `q_decompose` row, 0 elsewhere. */
  lemma {:induction false} ChunkLookupInput(P: nat, K: nat, cfg: DecomposeConfig, reg: RegionState, row: nat)
    requires P > 1
    ensures EvalTuple(P, Configure(K, cfg).lookups[0].inputs, reg, row)
         == [if (cfg.qDecompose, row) in reg.enabled
             then (CellValue(reg, cfg.runningSum, row) - CellValue(reg, cfg.runningSum, row + 1) * Pow2(K)) % P
             else 0]
  {
    var e := ChunkExpr(K, cfg, 0);
    GatedOrDefaultValue(P, cfg.qDecompose, e, 0, reg, row);
    EvalReduces(P, e, reg, row);
    var cur, next := CellValue(reg, cfg.runningSum, row), CellValue(reg, cfg.runningSum, row + 1);
    assert EvalInt(Scaled(Advice(cfg.runningSum, 1), Pow2(K)), reg, row) == next * Pow2(K);
    assert EvalInt(e, reg, row) == cur + -(next * Pow2(K));
    ModSmall(0, P);
  }

  /** The shifted-chunk lookup's input: the cell below on a `q_partial_check` row, 0 elsewhere. */
  lemma {:induction false} ShiftedLookupInput(P: nat, K: nat, cfg: DecomposeConfig, reg: RegionState, row: nat)
    requires P > 1
    ensures EvalTuple(P, Configure(K, cfg).lookups[1].inputs, reg, row)
         == [if (cfg.qPartialCheck, row) in reg.enabled then CellValue(reg, cfg.runningSum, row + 1) % P else 0]
  {
    GatedOrDefaultValue(P, cfg.qPartialCheck, Advice(cfg.runningSum, 1), 0, reg, row);
    ModSmall(0, P);
  }

  /**
   * The partial-chunk gate on a `q_partial_check` row: the chunk above it
   * times 2^K times the cell two below, minus the cell one below.
   */
  lemma {:induction false} PartialGateValue(P: nat, K: nat, cfg: DecomposeConfig, reg: RegionState, row: nat)
    requires P > 1
    ensures Eval(P, Configure(K, cfg).gates[0].polys[0], reg, row)
         == if (cfg.qPartialCheck, row) in reg.enabled
            then ((CellValue(reg, cfg.runningSum, row - 1) - CellValue(reg, cfg.runningSum, row) * Pow2(K)) * Pow2(K)
                  * CellValue(reg, cfg.runningSum, row + 2) - CellValue(reg, cfg.runningSum, row + 1)) % P
            else 0
  {
    var e := PartialChunkExpr(K, cfg);
    GatedByRow(P, cfg.qPartialCheck, e, reg, row);
    EvalReduces(P, e, reg, row);
    var rs := cfg.runningSum;
    var prev, cur := CellValue(reg, rs, row - 1), CellValue(reg, rs, row);
    var shifted, inv := CellValue(reg, rs, row + 1), CellValue(reg, rs, row + 2);
    var chunk := ChunkExpr(K, cfg, -1);
    assert EvalInt(Scaled(Advice(rs, 0), Pow2(K)), reg, row) == cur * Pow2(K);
    assert EvalInt(chunk, reg, row) == prev + -(cur * Pow2(K));
    var a := EvalInt(Scaled(chunk, Pow2(K)), reg, row);
    assert a == (prev - cur * Pow2(K)) * Pow2(K);
    assert EvalInt(Advice(rs, 2), reg, row) == inv;
    var x := EvalInt(Product(Scaled(chunk, Pow2(K)), Advice(rs, 2)), reg, row);
    assert x == a * inv;
    assert EvalInt(Advice(rs, 1), reg, row) == shifted;
    assert EvalInt(e, reg, row) == x + -shifted;
  }

  /**
   * The partial-chunk gate reads the running-sum column from one row above
   * its selector to two rows below it, and no other selector: no gate reads
   * an unassigned cell exactly when those four cells are assigned around
   * every `q_partial_check` row.
   */
  lemma {:induction false} PartialGateCells(K: nat, cfg: DecomposeConfig, reg: RegionState)
    ensures GateCellsAssigned(Configure(K, cfg), reg)
        <==> forall row: nat :: (cfg.qPartialCheck, row) in reg.enabled ==>
               && row >= 1 && (cfg.runningSum, row - 1) in reg.cells && (cfg.runningSum, row) in reg.cells
               && (cfg.runningSum, row + 1) in reg.cells && (cfg.runningSum, row + 2) in reg.cells
  {
    var cs := Configure(K, cfg);
    var rs := cfg.runningSum;
    assert GateCellsAssigned(cs, reg) <==> QueriesAssigned(reg, cfg.qPartialCheck, {(rs, -1), (rs, 0), (rs, 1), (rs, 2)});
    WindowAssigned(reg, cfg.qPartialCheck, rs);
  }

  /** A gate reading a column from one row above to two rows below its selector's row. */
  lemma {:induction false} WindowAssigned(reg: RegionState, q: nat, column: nat)
    ensures QueriesAssigned(reg, q, {(column, -1), (column, 0), (column, 1), (column, 2)})
        <==> forall row: nat :: (q, row) in reg.enabled ==>
               && row >= 1 && (column, row - 1) in reg.cells && (column, row) in reg.cells
               && (column, row + 1) in reg.cells && (column, row + 2) in reg.cells
  {
    var window := {(column, -1), (column, 0), (column, 1), (column, 2)};
    if QueriesAssigned(reg, q, window) {
      forall row: nat | (q, row) in reg.enabled
        ensures row >= 1 && (column, row - 1) in reg.cells && (column, row) in reg.cells
             && (column, row + 1) in reg.cells && (column, row + 2) in reg.cells
      {
        assert (column, -1) in window && (column, 0) in window && (column, 1) in window && (column, 2) in window;
      }
    }
  }

  /** A value passes the K-bit lookup exactly when it is below 2^K. */
  lemma {:induction false} KBitTableMembership(P: nat, K: nat, cfg: DecomposeConfig, x: int)
    requires P > 1 && Pow2(K) < P && 0 <= x < P
    ensures InTable(KBitTable(P, K, cfg), [cfg.tableValue], [x]) <==> x < Pow2(K)
  {
    RangeCheck2Table.RangeTableMembership(P, cfg.tableValue, Pow2(K), x);
  }

  /** The chunk lookup passes on a row exactly when, if `q_decompose` is on there, the chunk is a K-bit number. */
  lemma {:induction false} ChunkLookupPasses(P: nat, K: nat, cfg: DecomposeConfig, reg: RegionState, row: nat)
    requires P > 1 && Pow2(K) < P
    ensures !LookupFails(P, Configure(K, cfg).lookups[0], KBitTable(P, K, cfg), reg, row)
        <==> ((cfg.qDecompose, row) in reg.enabled ==>
              (CellValue(reg, cfg.runningSum, row) - CellValue(reg, cfg.runningSum, row + 1) * Pow2(K)) % P < Pow2(K))
  {
    ChunkLookupInput(P, K, cfg, reg, row);
    var x := if (cfg.qDecompose, row) in reg.enabled
      then (CellValue(reg, cfg.runningSum, row) - CellValue(reg, cfg.runningSum, row + 1) * Pow2(K)) % P
      else 0;
    KBitTableMembership(P, K, cfg, x);
  }

  /** The shifted-chunk lookup passes on a row exactly when, if `q_partial_check` is on there, the cell below is a K-bit number. */
  lemma {:induction false} ShiftedLookupPasses(P: nat, K: nat, cfg: DecomposeConfig, reg: RegionState, row: nat, on: bool)
    requires P > 1 && Pow2(K) < P && on == ((cfg.qPartialCheck, row) in reg.enabled)
    ensures !LookupFails(P, Configure(K, cfg).lookups[1], KBitTable(P, K, cfg), reg, row)
        <==> (on ==> CellValue(reg, cfg.runningSum, row + 1) % P < Pow2(K))
  {
    ShiftedLookupInput(P, K, cfg, reg, row);
    var x := if on then CellValue(reg, cfg.runningSum, row + 1) % P else 0;
    KBitTableMembership(P, K, cfg, x);
  }

  // ---------------------------------------------------------------------
  // The honest region: what `assign` writes always satisfies the gate and
  // both lookups, and z_C is 0 exactly when the value fits in num_bits bits.
  // ---------------------------------------------------------------------

  /** The running-sum column of the region: z_0 .. z_C, then the shifted chunk and 2^{-p}. */
  lemma {:induction false} DecomposeRegionCell(P: nat, K: nat, cfg: DecomposeConfig, v: nat, n: nat, row: int)
    requires P > 1 && P % 2 == 1 && 1 <= K < 64
    ensures var cs := ChunksOf(v, n, K);
      CellValue(DecomposeRegion(P, K, cfg, v, n), cfg.runningSum, row)
      == if 0 <= row <= |cs| then Z(P, K, v, cs, row)
         else if n % K > 0 && row == |cs| + 1 then ShiftedChunk(P, K, v, n)
         else if n % K > 0 && row == |cs| + 2 then InvPow2(P, n % K)
         else 0
  {
    var zs := RunningSum(P, K, v, n);
    if row >= 0 {
      RunningSumCellsDomain(cfg.runningSum, v, zs, cfg.runningSum, row);
      if row <= |zs| {
        RunningSumCellsAt(cfg.runningSum, v, zs, row);
      }
    }
  }

  /**
   * `q_decompose` is on the rows of the full chunks, 0 .. num_bits / K - 1,
   * and not on the row of a final partial chunk; `q_partial_check` only on
   * the z_C row, when p > 0.
   */
  lemma {:induction false} DecomposeRegionEnabled(P: nat, K: nat, cfg: DecomposeConfig, v: nat, n: nat, row: nat)
    requires P > 1 && P % 2 == 1 && 1 <= K < 64 && cfg.qDecompose != cfg.qPartialCheck
    ensures (cfg.qDecompose, row) in DecomposeRegion(P, K, cfg, v, n).enabled <==> row < n / K
    ensures (cfg.qPartialCheck, row) in DecomposeRegion(P, K, cfg, v, n).enabled
        <==> n % K > 0 && row == ExpectedVecLen(n, K)
  {
  }

  /** The final partial chunk is the last chunk of the decomposition. */
  lemma {:induction false} FinalChunkIsLast(v: nat, n: nat, K: nat)
    requires 1 <= K < 64 && n % K > 0
    ensures |ChunksOf(v, n, K)| == n / K + 1
    ensures ChunksOf(v, n, K)[n / K] == FinalChunk(v, n, K) < Pow2(n % K)
  {
    LastChunk(Bits(v, n), K);
  }

  /** On the honest running sum, z_i - z_{i+1} * 2^K is the chunk c_i, a K-bit number. */
  lemma {:induction false} HonestChunk(P: nat, K: nat, v: nat, n: nat, i: nat)
    requires P > 1 && P % 2 == 1 && 1 <= K < 64 && Pow2(K) < P && i < |ChunksOf(v, n, K)|
    ensures var cs := ChunksOf(v, n, K);
      (Z(P, K, v, cs, i) - Z(P, K, v, cs, i + 1) * Pow2(K)) % P == cs[i] < Pow2(K)
  {
    ChunkValueBound(Bits(v, n), K, i);
    ChunkIdentity(P, K, v, ChunksOf(v, n, K), i);
  }

  /**
   * The chunk lookup passes on a row where `q_decompose` is on only when the
   * two running-sum cells there differ by a K-bit chunk.
   */
  lemma {:induction false} ChunkRowPasses(P: nat, K: nat, cfg: DecomposeConfig, reg: RegionState, row: nat, a: int, b: int, c: int)
    requires P > 1 && Pow2(K) < P
    requires (cfg.qDecompose, row) in reg.enabled ==>
      CellValue(reg, cfg.runningSum, row) == a && CellValue(reg, cfg.runningSum, row + 1) == b && (a - b * Pow2(K)) % P == c < Pow2(K)
    ensures !LookupFails(P, Configure(K, cfg).lookups[0], KBitTable(P, K, cfg), reg, row)
  {
    ChunkLookupPasses(P, K, cfg, reg, row);
  }

  lemma {:induction false} HonestChunkLookup(P: nat, K: nat, cfg: DecomposeConfig, v: nat, n: nat, row: nat)
    requires P > 1 && P % 2 == 1 && 1 <= K < 64 && Pow2(K) < P && cfg.qDecompose != cfg.qPartialCheck
    ensures !LookupFails(P, Configure(K, cfg).lookups[0], KBitTable(P, K, cfg), DecomposeRegion(P, K, cfg, v, n), row)
  {
    var reg := DecomposeRegion(P, K, cfg, v, n);
    var cs := ChunksOf(v, n, K);
    ChunksCount(Bits(v, n), K);
    DecomposeRegionEnabled(P, K, cfg, v, n, row);
    if row < |cs| {
      DecomposeRegionCell(P, K, cfg, v, n, row);
      DecomposeRegionCell(P, K, cfg, v, n, row + 1);
      HonestChunk(P, K, v, n, row);
      ChunkRowPasses(P, K, cfg, reg, row, Z(P, K, v, cs, row), Z(P, K, v, cs, row + 1), cs[row]);
    } else {
      ChunkRowPasses(P, K, cfg, reg, row, 0, 0, 0);
    }
  }

  lemma {:induction false} HonestShiftedLookup(P: nat, K: nat, cfg: DecomposeConfig, v: nat, n: nat, row: nat)
    requires P > 1 && P % 2 == 1 && 1 <= K < 64 && Pow2(K) < P && cfg.qDecompose != cfg.qPartialCheck
    ensures !LookupFails(P, Configure(K, cfg).lookups[1], KBitTable(P, K, cfg), DecomposeRegion(P, K, cfg, v, n), row)
  {
    var reg := DecomposeRegion(P, K, cfg, v, n);
    var cs := ChunksOf(v, n, K);
    var p := n % K;
    ChunksCount(Bits(v, n), K);
    DecomposeRegionEnabled(P, K, cfg, v, n, row);
    var on := p > 0 && row == |cs|;
    if on {
      DecomposeRegionCell(P, K, cfg, v, n, row + 1);
      FinalChunkIsLast(v, n, K);
      ShiftedBound(P, K, p, FinalChunk(v, n, K));
      ModSmall(ShiftedChunk(P, K, v, n), P);
    }
    ShiftedLookupPasses(P, K, cfg, reg, row, on);
  }

  lemma {:induction false} MulAssoc(a: int, b: int, c: int)
    ensures a * b * c == a * (b * c)
  {
  }

  /** The arithmetic of the partial-chunk gate on the honest z_C row. */
  lemma {:induction false} GateArith(P: nat, K: nat, p: nat, a: int, c: nat, s: int)
    requires P > 1 && P % 2 == 1 && p <= K && a % P == c && s == (c % P * Pow2(K - p)) % P
    ensures (a * Pow2(K) * InvPow2(P, p) - s) % P == 0
  {
    var t, i := Pow2(K), InvPow2(P, p);
    MulAssoc(a, t, i);
    MulAssoc(c, t, i);
    ModMulLeft(a, t * i, P);
    ShiftIdentity(P, K, p, c);
    ModMulLeft(c, Pow2(K - p), P);
    ModSmall(s, P);
    CongruentDiff(a * t * i, s, P);
  }

  /** The shifted honest chunk is a K-bit number. */
  lemma {:induction false} ShiftedBound(P: nat, K: nat, p: nat, c: nat)
    requires P > 1 && p <= K && Pow2(K) < P && c < Pow2(p)
    ensures 0 <= (c % P * Pow2(K - p)) % P < Pow2(K)
  {
    Pow2Monotone(p, K);
    ModSmall(c, P);
    ShiftNarrowing(K, p, c);
    var t := c * Pow2(K - p);
    assert t < P;
    ModSmall(t, P);
  }

  /**
   * The partial-chunk gate vanishes on a `q_partial_check` row whose chunk
   * above is c and whose two cells below hold c * 2^{K-p} and 2^{-p}.
   */
  lemma {:induction false} PartialRowVanishes(P: nat, K: nat, p: nat, cfg: DecomposeConfig, reg: RegionState, row: nat, prev: int, cur: int, c: nat)
    requires P > 1 && P % 2 == 1 && p <= K
    requires (cfg.qPartialCheck, row) in reg.enabled ==>
      && CellValue(reg, cfg.runningSum, row - 1) == prev && CellValue(reg, cfg.runningSum, row) == cur
      && (prev - cur * Pow2(K)) % P == c
      && CellValue(reg, cfg.runningSum, row + 1) == (c % P * Pow2(K - p)) % P
      && CellValue(reg, cfg.runningSum, row + 2) == InvPow2(P, p)
    ensures Eval(P, Configure(K, cfg).gates[0].polys[0], reg, row) == 0
  {
    PartialGateValue(P, K, cfg, reg, row);
    if (cfg.qPartialCheck, row) in reg.enabled {
      GateArith(P, K, p, prev - cur * Pow2(K), c, (c % P * Pow2(K - p)) % P);
    }
  }

  lemma {:induction false} HonestPartialGate(P: nat, K: nat, cfg: DecomposeConfig, v: nat, n: nat, row: nat)
    requires P > 1 && P % 2 == 1 && 1 <= K < 64 && Pow2(K) < P && cfg.qDecompose != cfg.qPartialCheck
    ensures Eval(P, Configure(K, cfg).gates[0].polys[0], DecomposeRegion(P, K, cfg, v, n), row) == 0
  {
    var reg := DecomposeRegion(P, K, cfg, v, n);
    var cs := ChunksOf(v, n, K);
    var p := n % K;
    ChunksCount(Bits(v, n), K);
    DecomposeRegionEnabled(P, K, cfg, v, n, row);
    if p > 0 && row == |cs| {
      FinalChunkIsLast(v, n, K);
      HonestFinalRow(P, K, cfg, v, n);
    } else {
      PartialRowVanishes(P, K, p, cfg, reg, row, 0, 0, 0);
    }
  }

  /** The z_{C-1} and z_C cells of the honest region with a partial chunk: their difference is the final chunk. */
  lemma {:induction false} FinalRowSums(P: nat, K: nat, cfg: DecomposeConfig, v: nat, n: nat)
    requires P > 1 && P % 2 == 1 && 1 <= K < 64 && Pow2(K) < P && n % K > 0
    ensures var reg, cs, C := DecomposeRegion(P, K, cfg, v, n), ChunksOf(v, n, K), n / K + 1;
      && |cs| == C
      && CellValue(reg, cfg.runningSum, C - 1) == Z(P, K, v, cs, C - 1)
      && CellValue(reg, cfg.runningSum, C) == Z(P, K, v, cs, C)
      && (Z(P, K, v, cs, C - 1) - Z(P, K, v, cs, C) * Pow2(K)) % P == FinalChunk(v, n, K)
  {
    var last: nat := n / K;
    FinalChunkIsLast(v, n, K);
    HonestChunk(P, K, v, n, last);
    DecomposeRegionCell(P, K, cfg, v, n, last);
    DecomposeRegionCell(P, K, cfg, v, n, last + 1);
  }

  /** The two cells `short_range_check` writes below z_C in the honest region. */
  lemma {:induction false} FinalRowTail(P: nat, K: nat, cfg: DecomposeConfig, v: nat, n: nat)
    requires P > 1 && P % 2 == 1 && 1 <= K < 64 && n % K > 0
    ensures var reg, C := DecomposeRegion(P, K, cfg, v, n), n / K + 1;
      && CellValue(reg, cfg.runningSum, C + 1) == (FinalChunk(v, n, K) % P * Pow2(K - n % K)) % P
      && CellValue(reg, cfg.runningSum, C + 2) == InvPow2(P, n % K)
  {
    var C := n / K + 1;
    FinalChunkIsLast(v, n, K);
    DecomposeRegionCell(P, K, cfg, v, n, C + 1);
    DecomposeRegionCell(P, K, cfg, v, n, C + 2);
  }

  /** The z_C row of the honest region, where the partial-chunk gate is on. */
  lemma {:induction false} HonestFinalRow(P: nat, K: nat, cfg: DecomposeConfig, v: nat, n: nat)
    requires P > 1 && P % 2 == 1 && 1 <= K < 64 && Pow2(K) < P && n % K > 0
    ensures Eval(P, Configure(K, cfg).gates[0].polys[0], DecomposeRegion(P, K, cfg, v, n), n / K + 1) == 0
  {
    var cs, C := ChunksOf(v, n, K), n / K + 1;
    FinalRowSums(P, K, cfg, v, n);
    FinalRowTail(P, K, cfg, v, n);
    PartialRowVanishes(P, K, n % K, cfg, DecomposeRegion(P, K, cfg, v, n), C,
      Z(P, K, v, cs, C - 1), Z(P, K, v, cs, C), FinalChunk(v, n, K));
  }

  /** For every value in the field, the region `assign` lays out satisfies the gate and both lookups. */
  lemma {:induction false} DecomposeRegionSatisfied(P: nat, K: nat, cfg: DecomposeConfig, v: nat, n: nat)
    requires P > 1 && P % 2 == 1 && 1 <= K < 64 && Pow2(K) < P && cfg.qDecompose != cfg.qPartialCheck
    ensures RegionSatisfied(P, Configure(K, cfg), KBitTable(P, K, cfg), DecomposeRegion(P, K, cfg, v, n))
  {
    var cs := Configure(K, cfg);
    var table := KBitTable(P, K, cfg);
    var reg := DecomposeRegion(P, K, cfg, v, n);
    forall row: nat
      ensures !LookupFails(P, cs.lookups[0], table, reg, row) && !LookupFails(P, cs.lookups[1], table, reg, row)
    {
      HonestChunkLookup(P, K, cfg, v, n, row);
      HonestShiftedLookup(P, K, cfg, v, n, row);
    }
    forall row: nat
      ensures Eval(P, cs.gates[0].polys[0], reg, row) == 0
    {
      HonestPartialGate(P, K, cfg, v, n, row);
    }
  }

  /**
   * The partial-chunk gate of the region `assign` lays out reads only
   * assigned cells: z_{C-1} and z_C, and the two cells `short_range_check`
   * writes below them.
   */
  lemma {:induction false} DecomposeRegionCellsAssigned(P: nat, K: nat, cfg: DecomposeConfig, v: nat, n: nat)
    requires P > 1 && P % 2 == 1 && 1 <= K < 64 && cfg.qDecompose != cfg.qPartialCheck
    ensures GateCellsAssigned(Configure(K, cfg), DecomposeRegion(P, K, cfg, v, n))
  {
    var reg := DecomposeRegion(P, K, cfg, v, n);
    var rs := cfg.runningSum;
    var zs := RunningSum(P, K, v, n);
    ChunksCount(Bits(v, n), K);
    forall row: nat | (cfg.qPartialCheck, row) in reg.enabled
      ensures row >= 1 && (rs, row - 1) in reg.cells && (rs, row) in reg.cells
           && (rs, row + 1) in reg.cells && (rs, row + 2) in reg.cells
    {
      DecomposeRegionEnabled(P, K, cfg, v, n, row);
      RunningSumCellsDomain(rs, v, zs, rs, row - 1);
      RunningSumCellsDomain(rs, v, zs, rs, row);
    }
    PartialGateCells(K, cfg, reg);
  }

  /** On the honest region the copies of `assign` reduce to z_C = 0: the others hold whatever the value. */
  lemma {:induction false} DecomposeCopiesFinal(P: nat, K: nat, cfg: DecomposeConfig, v: nat, n: nat, a: Assignment, valueCell: Cell, r: nat)
    requires P > 1 && P % 2 == 1 && 1 <= K < 64 && v < P
    requires r < |a.regions| && a.regions[r] == DecomposeRegion(P, K, cfg, v, n)
    requires RefValue(a, AdviceCell(valueCell)) % P == v
    ensures CopiesHold(P, a, DecomposeCopies(P, K, cfg, valueCell, r, n)) <==> Z(P, K, v, ChunksOf(v, n, K), |ChunksOf(v, n, K)|) == 0
  {
    var cs := ChunksOf(v, n, K);
    var C := |cs|;
    ChunksCount(Bits(v, n), K);
    DecomposeRegionCell(P, K, cfg, v, n, 0);
    DecomposeRegionCell(P, K, cfg, v, n, C);
    DecomposeRegionCell(P, K, cfg, v, n, C + 2);
    ModSmall(v, P);
    ModSmall(0, P);
    ModSmall(Z(P, K, v, cs, C), P);
    var last := (AdviceCell(Cell(r, cfg.runningSum, C)), ConstantCell(0));
    assert last in DecomposeCopies(P, K, cfg, valueCell, r, n);
  }

  lemma DecomposeCopiesHold(P: nat, K: nat, cfg: DecomposeConfig, v: nat, n: nat, a: Assignment, valueCell: Cell, r: nat)
    requires P > 1 && P % 2 == 1 && 1 <= K < 64 && v < P
    requires r < |a.regions| && a.regions[r] == DecomposeRegion(P, K, cfg, v, n)
    requires RefValue(a, AdviceCell(valueCell)) % P == v
    ensures CopiesHold(P, a, DecomposeCopies(P, K, cfg, valueCell, r, n)) <==> v < Pow2(n)
  {
    DecomposeCopiesFinal(P, K, cfg, v, n, a, valueCell, r);
    FinalZeroIff(P, K, v, n);
  }

  // ---------------------------------------------------------------------
  // Soundness: any witness the constraints accept is a num_bits-bit value.
  // ---------------------------------------------------------------------

  /** The chunk the lookup on `row` recomputes from the running-sum column. */
  function ChunkAt(P: nat, K: nat, cfg: DecomposeConfig, reg: RegionState, row: nat): nat
    requires P > 1
  {
    (CellValue(reg, cfg.runningSum, row) - CellValue(reg, cfg.runningSum, row + 1) * Pow2(K)) % P
  }

  lemma {:induction false} ChunkBelow(P: nat, K: nat, cfg: DecomposeConfig, reg: RegionState, row: nat)
    requires P > 1 && Pow2(K) < P && (cfg.qDecompose, row) in reg.enabled
    requires RegionSatisfied(P, Configure(K, cfg), KBitTable(P, K, cfg), reg)
    ensures ChunkAt(P, K, cfg, reg, row) < Pow2(K)
  {
    assert !LookupFails(P, Configure(K, cfg).lookups[0], KBitTable(P, K, cfg), reg, row);
    ChunkLookupPasses(P, K, cfg, reg, row);
  }

  lemma {:induction false} ProductBelow(c: int, w: int, t: int, P: int)
    requires 0 <= c < t && 0 <= w <= t && t * t <= P
    ensures c * w < P
  {
    MulLe(c, t - 1, w);
    MulLe(w, t, t);
    assert (t - 1) * w == t * w - w;
  }

  /** The arithmetic of the partial-chunk check once the final chunk is known to be a K-bit number. */
  lemma {:induction false} PartialArith(P: nat, K: nat, p: nat, a: int, c: nat, inv: int, s: int)
    requires P > 1 && P % 2 == 1 && 1 <= p <= K && Pow2(K) * Pow2(K) <= P
    requires a % P == c && c < Pow2(K) && inv % P == InvPow2(P, p)
    requires (a * Pow2(K) * inv - s) % P == 0 && s % P < Pow2(K)
    ensures c < Pow2(p)
  {
    var t, i, w := Pow2(K), InvPow2(P, p), Pow2(K - p);
    assert (c * t * i) % P == s % P by {
      CongruentDiff(a * t * inv, s, P);
      MulAssoc(a, t, inv);
      ModMulLeft(a, t * inv, P);
      MulAssoc(c, t, inv);
      ModMulRight(c * t, inv, P);
    }
    assert (c * w) % P == s % P by {
      ShiftIdentity(P, K, p, c);
    }
    assert c * w < P by {
      Pow2Monotone(K - p, K);
      ProductBelow(c, w, t, P);
    }
    ModSmall(c * w, P);
    ShiftNarrowing(K, p, c);
  }

  /** With `q_decompose` on the row above z_C, the final chunk passes only if it has p bits. */
  lemma {:induction false} PartialBelow(P: nat, K: nat, cfg: DecomposeConfig, reg: RegionState, C: nat, p: nat)
    requires P > 1 && P % 2 == 1 && 1 <= p < K && Pow2(K) * Pow2(K) <= P && C >= 1
    requires (cfg.qDecompose, C - 1) in reg.enabled && (cfg.qPartialCheck, C) in reg.enabled
    requires RegionSatisfied(P, Configure(K, cfg), KBitTable(P, K, cfg), reg)
    requires CellValue(reg, cfg.runningSum, C + 2) % P == InvPow2(P, p)
    ensures ChunkAt(P, K, cfg, reg, C - 1) < Pow2(p)
  {
    var rs := cfg.runningSum;
    assert Pow2(K) < P by {
      MulLe(1, Pow2(K), Pow2(K));
      MulLe(2, Pow2(K), Pow2(K));
    }
    ChunkBelow(P, K, cfg, reg, C - 1);
    assert !GateFails(P, Configure(K, cfg).gates[0], reg, 0, C);
    PartialGateValue(P, K, cfg, reg, C);
    assert !LookupFails(P, Configure(K, cfg).lookups[1], KBitTable(P, K, cfg), reg, C);
    ShiftedLookupPasses(P, K, cfg, reg, C, true);
    var a := CellValue(reg, rs, C - 1) - CellValue(reg, rs, C) * Pow2(K);
    PartialArith(P, K, p, a, ChunkAt(P, K, cfg, reg, C - 1), CellValue(reg, rs, C + 2), CellValue(reg, rs, C + 1));
  }

  lemma {:induction false} ModBelow(r: int, P: nat)
    requires r >= 0 && P > 0
    ensures r % P <= r
  {
    if r < P {
      ModSmall(r, P);
    }
  }

  /** z_0 - z_C * 2^{CK} with z_C = 0 in the field is just z_0. */
  lemma {:induction false} DropFinal(P: nat, z0: int, zC: int, t: int, v: int)
    requires P > 1 && 0 <= v < P && z0 % P == v && zC % P == 0
    ensures (z0 - zC * t) % P == v
  {
    ModMulLeft(zC, t, P);
    ModSmall(0, P);
    ModSub(z0, zC * t, P);
    ModSmall(v, P);
  }

  /** The chunks the running-sum column encodes on rows 0 .. C - 1. */
  function ChunkSeq(P: nat, K: nat, cfg: DecomposeConfig, reg: RegionState, C: nat): (cv: seq<nat>)
    requires P > 1
    ensures |cv| == C && forall i :: 0 <= i < C ==> cv[i] == ChunkAt(P, K, cfg, reg, i)
  {
    seq(C, i requires 0 <= i < C => ChunkAt(P, K, cfg, reg, i))
  }

  /** With z_0 = v and z_C = 0 in the field, v is the recombined chunks reduced mod P, so at most their sum. */
  lemma {:induction false} ChunksTelescope(P: nat, K: nat, cfg: DecomposeConfig, reg: RegionState, C: nat, v: int)
    requires P > 1 && 0 <= v < P && CellValue(reg, cfg.runningSum, 0) % P == v
    requires CellValue(reg, cfg.runningSum, C) % P == 0
    ensures v <= Recombine(ChunkSeq(P, K, cfg, reg, C), K)
  {
    var z := seq(C + 1, i requires 0 <= i <= C => CellValue(reg, cfg.runningSum, i));
    var cv := ChunkSeq(P, K, cfg, reg, C);
    Telescope(P, K, z, cv);
    DropFinal(P, z[0], z[C], Pow2(C * K), v);
    ModBelow(Recombine(cv, K), P);
  }

  /** Every chunk on a `q_decompose` row is a K-bit number. */
  lemma {:induction false} ChunksBelow(P: nat, K: nat, cfg: DecomposeConfig, reg: RegionState, C: nat)
    requires P > 1 && Pow2(K) < P
    requires forall i :: 0 <= i < C ==> (cfg.qDecompose, i) in reg.enabled
    requires RegionSatisfied(P, Configure(K, cfg), KBitTable(P, K, cfg), reg)
    ensures forall i :: 0 <= i < C ==> ChunkSeq(P, K, cfg, reg, C)[i] < Pow2(K)
  {
    forall i | 0 <= i < C
      ensures ChunkAt(P, K, cfg, reg, i) < Pow2(K)
    {
      ChunkBelow(P, K, cfg, reg, i);
    }
  }

  /**
   * Chunks c_0 .. c_{C-1} of K bits each, the last of p bits when p > 0,
   * recombine to a number below 2^num_bits.
   */
  lemma {:induction false} RecombineFits(cv: seq<nat>, K: nat, n: nat, v: int)
    requires K >= 1 && |cv| == ExpectedVecLen(n, K) && v <= Recombine(cv, K)
    requires forall i :: 0 <= i < |cv| ==> cv[i] < Pow2(K)
    requires n % K > 0 ==> cv[|cv| - 1] < Pow2(n % K)
    ensures v < Pow2(n)
  {
    var C, p, r := |cv|, n % K, Recombine(cv, K);
    DivMod(n, K);
    if C == 0 {
      assert r == 0;
    } else if p == 0 {
      RecombineBound(cv, K, K);
      assert (C - 1) * K + K == n by {
        MulSucc(C - 1, K);
      }
    } else {
      RecombineBound(cv, K, p);
      assert (C - 1) * K + p == n;
    }
  }

  /**
   * Soundness with `q_decompose` on every row above z_C: whatever the prover
   * writes in the running-sum column, if the gate and both lookups hold, z_0
   * is v, z_C is 0 and row C + 2 holds 2^{-p}, then v fits in num_bits bits.
   * Needs 2^K * 2^K <= P, so that a K-bit chunk shifted by K - p bits does not
   * wrap around the field.
   */
  lemma {:induction false} Soundness(P: nat, K: nat, cfg: DecomposeConfig, n: nat, reg: RegionState, v: int)
    requires P > 1 && P % 2 == 1 && 1 <= K < 64 && Pow2(K) * Pow2(K) <= P
    requires reg.enabled == Selectors(cfg, n, K, ChunkRows(n, K))
    requires RegionSatisfied(P, Configure(K, cfg), KBitTable(P, K, cfg), reg)
    requires 0 <= v < P && CellValue(reg, cfg.runningSum, 0) % P == v
    requires CellValue(reg, cfg.runningSum, ExpectedVecLen(n, K)) % P == 0
    requires n % K > 0 ==> CellValue(reg, cfg.runningSum, ExpectedVecLen(n, K) + 2) % P == InvPow2(P, n % K)
    ensures v < Pow2(n)
  {
    var C := ExpectedVecLen(n, K);
    var p := n % K;
    assert Pow2(K) < P by {
      MulLe(2, Pow2(K), Pow2(K));
    }
    var cv := ChunkSeq(P, K, cfg, reg, C);
    ChunksTelescope(P, K, cfg, reg, C, v);
    ChunksBelow(P, K, cfg, reg, C);
    if p > 0 && C > 0 {
      PartialBelow(P, K, cfg, reg, C, p);
      assert cv[C - 1] < Pow2(p);
    }
    RecombineFits(cv, K, n, v);
  }

  /**
   * The same, stated over a whole assignment: if the decomposition region
   * satisfies its gate and lookups and the copy constraints of `assign` hold,
   * the value in the copied cell fits in num_bits bits.
   */
  lemma {:induction false} AssignSound(P: nat, K: nat, cfg: DecomposeConfig, n: nat, a: Assignment, valueCell: Cell, r: nat)
    requires P > 1 && P % 2 == 1 && 1 <= K < 64 && Pow2(K) * Pow2(K) <= P
    requires r < |a.regions| && a.regions[r].enabled == Selectors(cfg, n, K, ChunkRows(n, K))
    requires RegionSatisfied(P, Configure(K, cfg), KBitTable(P, K, cfg), a.regions[r])
    requires CopiesHold(P, a, DecomposeCopies(P, K, cfg, valueCell, r, n))
    ensures RefValue(a, AdviceCell(valueCell)) % P < Pow2(n)
  {
    var copies := DecomposeCopies(P, K, cfg, valueCell, r, n);
    var C := ExpectedVecLen(n, K);
    var rs := cfg.runningSum;
    var v := RefValue(a, AdviceCell(valueCell)) % P;
    assert (AdviceCell(valueCell), AdviceCell(Cell(r, rs, 0))) in copies;
    assert (AdviceCell(Cell(r, rs, C)), ConstantCell(0)) in copies;
    ModSmall(0, P);
    ModSmall(v, P);
    if n % K > 0 {
      assert (AdviceCell(Cell(r, rs, C + 2)), ConstantCell(InvPow2(P, n % K))) in copies;
      ModSmall(InvPow2(P, n % K), P);
    }
    Soundness(P, K, cfg, n, a.regions[r], v);
  }

  /**
   * When K divides num_bits there is no partial chunk and the rows `assign`
   * enables, 0 .. num_bits / K - 1, are every row above z_C: the layout as
   * written is then sound.
   */
  lemma {:induction false} AssignSoundWhenDivisible(P: nat, K: nat, cfg: DecomposeConfig, n: nat, a: Assignment, valueCell: Cell, r: nat)
    requires P > 1 && P % 2 == 1 && 1 <= K < 64 && Pow2(K) * Pow2(K) <= P && n % K == 0
    requires r < |a.regions| && a.regions[r].enabled == Selectors(cfg, n, K, AsWrittenChunkRows(n, K))
    requires RegionSatisfied(P, Configure(K, cfg), KBitTable(P, K, cfg), a.regions[r])
    requires CopiesHold(P, a, DecomposeCopies(P, K, cfg, valueCell, r, n))
    ensures RefValue(a, AdviceCell(valueCell)) % P < Pow2(n)
  {
    assert AsWrittenChunkRows(n, K) == ChunkRows(n, K);
    AssignSound(P, K, cfg, n, a, valueCell, r);
  }

  // ---------------------------------------------------------------------
  // The layout as written: q_decompose on rows 0 .. num_bits / K - 1 only.
  // ---------------------------------------------------------------------

  /**
   * A witness for 1 <= num_bits < K under the selectors the source enables:
   * z_0 = 2^{-(K - num_bits)}, z_1 = 0, shifted chunk 1 and the constant
   * 2^{-num_bits}.
   */
  function ForgedRegion(P: nat, K: nat, cfg: DecomposeConfig, n: nat): RegionState
    requires P > 1 && P % 2 == 1 && K >= 1 && n < K
  {
    var rs := cfg.runningSum;
    RegionState("Decompose value",
      map[(rs, 0) := InvPow2(P, K - n), (rs, 1) := 0, (rs, 2) := 1, (rs, 3) := InvPow2(P, n)],
      Selectors(cfg, n, K, AsWrittenChunkRows(n, K)))
  }

  lemma {:induction false} ForgedCell(P: nat, K: nat, cfg: DecomposeConfig, n: nat, row: nat)
    requires P > 1 && P % 2 == 1 && K >= 1 && n < K
    ensures CellValue(ForgedRegion(P, K, cfg, n), cfg.runningSum, row)
         == if row == 0 then InvPow2(P, K - n) else if row == 2 then 1 else if row == 3 then InvPow2(P, n) else 0
  {
  }

  lemma {:induction false} ModIdentityBelow(x: int, P: int)
    requires P > 0
    ensures 0 <= x < P ==> x % P == x
  {
    if 0 <= x < P {
      ModSmall(x, P);
    }
  }

  /** A field element 2^{-d} with d >= 1 is never below 2^{K - d}. */
  lemma {:induction false} InverseIsWide(P: nat, K: nat, d: nat)
    requires P > 1 && P % 2 == 1 && 1 <= d <= K && Pow2(K) < P
    ensures InvPow2(P, d) >= Pow2(K - d)
  {
    var v, w := InvPow2(P, d), Pow2(d);
    assert (v * w) % P == 1 by {
      InvPow2Inverse(P, d);
      assert w * v == v * w;
    }
    assert v != 0;
    assert w >= 2 by {
      Pow2Strict(0, d);
    }
    MulLe(1, v, w);
    ModIdentityBelow(v * w, P);
    assert v * w >= Pow2(K);
    assert K - (K - d) == d;
    ShiftNarrowing(K, K - d, v);
  }

  lemma {:induction false} ForgedEnabled(P: nat, K: nat, cfg: DecomposeConfig, n: nat)
    requires P > 1 && P % 2 == 1 && 1 <= n < K
    ensures ExpectedVecLen(n, K) == 1 && n % K == n
    ensures ForgedRegion(P, K, cfg, n).enabled == {(cfg.qPartialCheck, 1)}
  {
    ModSmall(n, K);
    assert SelectorRows(cfg.qDecompose, 0) == {};
  }

  lemma {:induction false} ForgedLookups(P: nat, K: nat, cfg: DecomposeConfig, n: nat, row: nat)
    requires P > 1 && P % 2 == 1 && 1 <= n < K && Pow2(K) < P && cfg.qDecompose != cfg.qPartialCheck
    ensures !LookupFails(P, Configure(K, cfg).lookups[0], KBitTable(P, K, cfg), ForgedRegion(P, K, cfg, n), row)
    ensures !LookupFails(P, Configure(K, cfg).lookups[1], KBitTable(P, K, cfg), ForgedRegion(P, K, cfg, n), row)
  {
    var reg := ForgedRegion(P, K, cfg, n);
    ForgedEnabled(P, K, cfg, n);
    ChunkLookupPasses(P, K, cfg, reg, row);
    var on := row == 1;
    if on {
      ForgedCell(P, K, cfg, n, 2);
      ModSmall(1, P);
      Pow2Strict(0, K);
    }
    ShiftedLookupPasses(P, K, cfg, reg, row, on);
  }

  lemma {:induction false} ForgedGate(P: nat, K: nat, cfg: DecomposeConfig, n: nat, row: nat)
    requires P > 1 && P % 2 == 1 && 1 <= n < K
    ensures Eval(P, Configure(K, cfg).gates[0].polys[0], ForgedRegion(P, K, cfg, n), row) == 0
  {
    var reg := ForgedRegion(P, K, cfg, n);
    var v := InvPow2(P, K - n);
    ForgedEnabled(P, K, cfg, n);
    PartialGateValue(P, K, cfg, reg, row);
    if row == 1 {
      ForgedCell(P, K, cfg, n, 0);
      ForgedCell(P, K, cfg, n, 1);
      ForgedCell(P, K, cfg, n, 2);
      ForgedCell(P, K, cfg, n, 3);
      assert (v - 0 * Pow2(K)) * Pow2(K) == v * Pow2(K);
      assert (v * Pow2(K) * InvPow2(P, n)) % P == 1 by {
        ShiftIdentity(P, K, n, v);
        InvPow2Inverse(P, K - n);
        assert v * Pow2(K - n) == Pow2(K - n) * v;
      }
      ModSmall(1, P);
      CongruentDiff(v * Pow2(K) * InvPow2(P, n), 1, P);
    }
  }

  lemma {:induction false} ForgedCellsAssigned(P: nat, K: nat, cfg: DecomposeConfig, n: nat)
    requires P > 1 && P % 2 == 1 && 1 <= n < K
    ensures GateCellsAssigned(Configure(K, cfg), ForgedRegion(P, K, cfg, n))
  {
    var reg := ForgedRegion(P, K, cfg, n);
    var rs := cfg.runningSum;
    ForgedEnabled(P, K, cfg, n);
    assert (rs, 0) in reg.cells && (rs, 1) in reg.cells && (rs, 2) in reg.cells && (rs, 3) in reg.cells;
    PartialGateCells(K, cfg, reg);
  }

  /**
   * The soundness gap of the layout as written: for 1 <= num_bits < K the
   * forged region satisfies the gate and both lookups with the selectors the
   * source enables, its gate reads only assigned cells, its z_C is 0 and its
   * 2^{-p} cell is right, yet the value
   * in z_0 has more than num_bits bits. Compare with `Soundness`, which rules
   * this out once `q_decompose` also covers the row of the final chunk.
   */
  lemma {:induction false} ForgedAccepted(P: nat, K: nat, cfg: DecomposeConfig, n: nat)
    requires P > 1 && P % 2 == 1 && 1 <= n < K < 64 && Pow2(K) < P && cfg.qDecompose != cfg.qPartialCheck
    ensures var reg := ForgedRegion(P, K, cfg, n);
      && reg.enabled == Selectors(cfg, n, K, AsWrittenChunkRows(n, K))
      && RegionSatisfied(P, Configure(K, cfg), KBitTable(P, K, cfg), reg)
      && GateCellsAssigned(Configure(K, cfg), reg)
      && CellValue(reg, cfg.runningSum, ExpectedVecLen(n, K)) == 0
      && CellValue(reg, cfg.runningSum, ExpectedVecLen(n, K) + 2) == InvPow2(P, n % K)
      && Pow2(n) <= CellValue(reg, cfg.runningSum, 0) < P
  {
    ForgedEnabled(P, K, cfg, n);
    ForgedCell(P, K, cfg, n, 0);
    ForgedCell(P, K, cfg, n, 1);
    ForgedCell(P, K, cfg, n, 3);
    ForgedSatisfied(P, K, cfg, n);
    ForgedCellsAssigned(P, K, cfg, n);
    InverseIsWide(P, K, K - n);
  }

  lemma {:induction false} ForgedSatisfied(P: nat, K: nat, cfg: DecomposeConfig, n: nat)
    requires P > 1 && P % 2 == 1 && 1 <= n < K < 64 && Pow2(K) < P && cfg.qDecompose != cfg.qPartialCheck
    ensures RegionSatisfied(P, Configure(K, cfg), KBitTable(P, K, cfg), ForgedRegion(P, K, cfg, n))
  {
    var cs := Configure(K, cfg);
    var table := KBitTable(P, K, cfg);
    var reg := ForgedRegion(P, K, cfg, n);
    forall row: nat
      ensures !LookupFails(P, cs.lookups[0], table, reg, row) && !LookupFails(P, cs.lookups[1], table, reg, row)
    {
      ForgedLookups(P, K, cfg, n, row);
    }
    forall row: nat
      ensures Eval(P, cs.gates[0].polys[0], reg, row) == 0
    {
      ForgedGate(P, K, cfg, n, row);
    }
  }
}
