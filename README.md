# halo2 playground chips, modelled in Dafny

This project models the chips of the halo2 playground: small PLONKish
circuits written against the halo2 API. They fall into two groups.

- Range checks.
  - `range_check_1`: a degree-R polynomial gate.
  - `range_check_2`: the same gate beside a lookup into a table of
    `0..LOOKUP_TABLE_RANGE`.
  - `range_check_3`: a lookup of the pair (bit width, value) into a
    two-column table.
  - `range_check_4`: a K-bit running-sum decomposition with a short range
    check on the final partial chunk.
- Fibonacci circuits.
  - `fib_1`: three advice columns, one region per row.
  - `fib_2`: two advice columns, one region.
  - `fib_3`: one advice column, one region.

## How the framework is modelled

The part of halo2 the chips rely on is modelled in `circuit.dfy`.

- `Expr` is halo2's `Expression`: constants, selector queries, advice
  queries at a rotation, negation, sum, product and scaling. `Eval`
  evaluates an expression in the field of order `P`.
- A region (`RegionState`) maps (column, row) to an integer and holds the
  set of enabled (selector, row) pairs. Cells nobody assigned read as 0.
- `Layouter` is a class whose fields are the regions, the copy
  constraints, the fixed lookup table, the instance column and the set of
  equality-enabled columns. Its methods (`assign_region`,
  `Selector::enable`, `assign_advice`, `assign_advice_from_instance`,
  `copy_advice`, `assign_advice_from_constant`, `constrain_constant`,
  `constrain_instance`, `assign_cell`) state the whole new state.
- Two rules halo2 enforces at run time are preconditions of the layouter
  methods: a cell is written at most once, and copy constraints only touch
  equality-enabled columns. A chip method that verifies therefore never
  breaks either rule.
- `RegionSatisfied` means every gate vanishes and every lookup tuple is a
  row of the table, on every row of a region, with unassigned cells read
  as 0 as the prover reads them. `CopiesHold` means every copy constraint
  holds. `Satisfied` combines them over a whole `Assignment`. These are
  the constraints a proof attests to.
- halo2's mock prover also rejects a region in which a gate, on a row
  where a selector it reads is on, reads a cell the region never assigned
  (its `CellNotAssigned` failure). `GateCellsAssigned` states that check.
  It is proved separately for the region of every chip with a gate, so a
  region is accepted by the mock prover when both `RegionSatisfied` and
  `GateCellsAssigned` hold.

The field is the integers modulo a parameter `P`. `IsPrime(P)` is
required where the source relies on the field having no zero divisors
(the range-check product). `P` odd is required where it relies on
inverting 2 (the running sum). `InvPow2(P, k)` is 2^{-k}, built as
((P + 1) / 2)^k mod P.

The chip methods follow the source's form. A `configure` is a function
returning the gates, lookups and equality columns it registers. An
`assign` or `load` is a method on the `Layouter` whose loops carry their
invariants. Each such method is specified by a function giving the region
or table it produces, and lemmas prove what the circuit accepts.

## Model

| member | source | states |
|---|---|---|
| Circuit.EvalReduces | src/chips/range_check_4.rs:84-102 | evaluating a constraint in the field equals evaluating it over the integers and reducing once |
| Circuit.EvalSub | src/chips/range_check_1.rs:43-45 | `a - b` (halo2's `a + (-b)`) evaluates to the field difference |
| Circuit.GatedByRow | src/chips/range_check_1.rs:47 | `Constraints::with_selector`: the gated constraint is 0 where the selector is off and the constraint's value where it is on |
| Circuit.GatedOrDefaultValue | src/chips/range_check_4.rs:93-101 | the input `q * e + (1 - q) * default` is `e` on an enabled row and the default elsewhere |
| Circuit.CopiesHoldUnion | src/chips/fib_1.rs:123-131 | a union of copy constraints holds exactly when both parts hold |
| Circuit.Layouter.AssignRegion | src/chips/fib_1.rs:64-66 | `assign_region` appends a fresh, empty region and returns its index |
| Circuit.Layouter.Enable | src/chips/fib_1.rs:67 | `Selector::enable` adds one (selector, row) pair to one region; nothing else changes |
| Circuit.Layouter.AssignAdvice | src/chips/fib_1.rs:85-90 | `assign_advice` writes one fresh cell and returns it with its value; nothing else changes |
| Circuit.Layouter.AssignAdviceFromInstance | src/chips/fib_1.rs:69-75 | the cell gets the public input of that instance row, and a copy constraint binds the two |
| Circuit.Layouter.CopyAdvice | src/chips/fib_1.rs:108-109 | `copy_advice` writes the source's value in a fresh cell and binds the two cells |
| Circuit.Layouter.AssignAdviceFromConstant | src/chips/range_check_4.rs:265-270 | the cell gets the constant, and a copy constraint binds it to the constant |
| Circuit.Layouter.ConstrainConstant | src/chips/range_check_4.rs:212 | adds one constraint binding a cell to a constant; nothing else changes |
| Circuit.Layouter.ConstrainInstance | src/chips/fib_1.rs:130 | adds one constraint binding a cell to an instance row; nothing else changes |
| Circuit.Layouter.AssignTableCell | src/chips/range_check_2_table.rs:32-37 | writes one fresh table cell; regions and copies are unchanged |
| Field.InvPow2Inverse | src/chips/range_check_4.rs:264 | `F::from(1 << k).invert()`: InvPow2(P, k) times 2^k is 1 in the field |
| Field.InvPow2Unique | src/chips/range_check_4.rs:264 | any field element y with 2^k * y = 1 is InvPow2(P, k): the inverse is unique |
| Field.NoZeroDivisors | src/chips/range_check_1.rs:43-45 | in a prime field a product of two nonzero factors is nonzero (Euclid's lemma, via Bezout) |
| Field.ShiftIdentity | src/chips/range_check_4.rs:120-129 | multiplying by 2^K and then by 2^{-p} is multiplying by 2^(K - p), in the field |
| Field.ShiftNarrowing | src/chips/range_check_4.rs:254-255 | c * 2^(K - p) is below 2^K exactly when c is below 2^p: the shifted lookup bounds the final chunk to p bits |
| Fibonacci.FibReduces | src/chips/fib_1.rs:89 | the witnessed terms, summed in the field, agree mod P with the integer Fibonacci sequence from the same seeds and are canonical from index 2 on |
| Fibonacci.FibTenth | src/circuits/fib_1.rs:65-67 | from seeds 1 and 1 the tenth term is 55 |
| RangeCheck1.RangeCheckExpr | src/chips/range_check_1.rs:41-46 | the fold over 1 .. R reads the same cells and selectors as the queried value |
| RangeCheck1.RangeCheckExprDegree | src/chips/range_check_1.rs:43-45 | the fold has R factors, so its degree is R times the degree of the query |
| RangeCheck1.RangeCheckExprZero | src/chips/range_check_1.rs:41-46 | in a prime field, v * (1 - v) * ... * (R - 1 - v) vanishes exactly when v is one of 0 .. R - 1 |
| RangeCheck1.RangeGateZero | src/chips/range_check_1.rs:37-48 | the registered gate vanishes on a row exactly when the selector is off there or the cell is below R |
| RangeCheck1.Configure | src/chips/range_check_1.rs:29-53 | one gate of degree R + 1, switched by the selector and reading the value on the current row, and no lookup |
| RangeCheck1.Assign | src/chips/range_check_1.rs:55-71 | `assign` appends one region with the value at row 0 and the selector on; copies and table unchanged |
| RangeCheck1.AssignedRegionFailures | src/chips/range_check_1.rs:37-71 | on the assigned region the gate fails at exactly one place, row 0, and only when the value is not below R |
| RangeCheck1.AssignedRegionSatisfied | src/chips/range_check_1.rs:37-71 | the chip accepts a value exactly when it is in [0, R) as a field element |
| RangeCheck1.AssignedRegionCellsAssigned | src/chips/range_check_1.rs:37-71 | the gate reads only the value cell on row 0, which `assign` writes: no unassigned cell is read |
| RangeCheck1.RejectsTwentyTwo | src/circuits/range_check_1.rs:67-80 | with R = 8 the value 22 fails the gate exactly once, at row 0 |
| RangeCheck2.Configure | src/chips/range_check_2.rs:41-81 | one gate under `q_range_check` and one lookup under `q_lookup`, each reading the value on the current row |
| RangeCheck2.LookupInput | src/chips/range_check_2.rs:68-73 | the lookup input is the cell's value on a `q_lookup` row and 0 elsewhere |
| RangeCheck2.AssignSimple | src/chips/range_check_2.rs:83-102 | appends a region with the value at row 0 under `q_range_check` and returns that cell |
| RangeCheck2.AssignLookupTable | src/chips/range_check_2.rs:104-121 | appends a region with the value at row 0 under `q_lookup` and returns that cell |
| RangeCheck2.LookupFailsWhere | src/chips/range_check_2.rs:68-73 | the lookup fails on a row exactly when `q_lookup` is on there and the value is not below LOOKUP_TABLE_RANGE |
| RangeCheck2.SimpleRegionSatisfied | src/chips/range_check_2.rs:53-102 | `assign_simple` is accepted exactly when the value is below RANGE |
| RangeCheck2.LookupRegionSatisfied | src/chips/range_check_2.rs:68-121 | `assign_lookup_table` is accepted exactly when the value is below LOOKUP_TABLE_RANGE |
| RangeCheck2.RegionsCellsAssigned | src/chips/range_check_2.rs:53-121 | neither region has the gate read an unassigned cell: the gate reads the value `assign_simple` writes, and is off in `assign_lookup_table`'s region |
| RangeCheck2.SimpleRejectsEight | src/circuits/range_check_2.rs:80-94 | with RANGE = 8 the value 8 fails the gate exactly once, at row 0 |
| RangeCheck2.LookupRejects256 | src/circuits/range_check_2.rs:80-94 | with LOOKUP_TABLE_RANGE = 256 the value 256 fails the lookup exactly once, at row 0 |
| RangeCheck2Table.Load | src/chips/range_check_2_table.rs:27-43 | `load` adds, to a table whose column was empty, offsets 0 .. range - 1 holding their own index, and nothing else |
| RangeCheck2Table.RangeTableDomain | src/chips/range_check_2_table.rs:31-38 | the table's cells are exactly offsets 0 .. range - 1 of its column |
| RangeCheck2Table.RangeTableSize | src/chips/range_check_2_table.rs:31-38 | the table has exactly `range` rows |
| RangeCheck2Table.RangeTableMembership | src/chips/range_check_2_table.rs:31-38 | a field element is in the table exactly when it is below `range` |
| RangeCheck3.Configure | src/chips/range_check_3.rs:44-83 | no gate and one lookup of two inputs, num_bits and value on the current row, both under `q_lookup` |
| RangeCheck3.LookupInput | src/chips/range_check_3.rs:59-75 | the looked-up pair is (num_bits, value) on a `q_lookup` row and the default (1, 0) elsewhere |
| RangeCheck3.AssignLookupTable | src/chips/range_check_3.rs:85-117 | appends a region with num_bits and the value side by side at row 0 under `q_lookup`, and returns both cells |
| RangeCheck3.LookupFailsWhere | src/chips/range_check_3.rs:59-75 | the lookup fails exactly on an enabled row whose pair is not (bit width of value, value) with value below 2^NUM_BITS |
| RangeCheck3.LookupRegionSatisfied | src/chips/range_check_3.rs:59-117 | `assign_lookup_table` is accepted exactly when the value is below 2^NUM_BITS and num_bits is its bit width (1 for 0) |
| RangeCheck3.AcceptsEachWidth | src/circuits/range_check_3.rs:64-73 | every value with nb bits, for nb from 1 to NUM_BITS, is accepted together with nb |
| RangeCheck3.RejectsEightAsEightBits | src/circuits/range_check_3.rs:77-84 | the pair (8, 8) fails the lookup exactly once, at row 0, since 8 has 4 bits |
| RangeCheck3Table.BitLengthBounds | src/chips/range_check_3_table.rs:69-70 | a nonzero value v with bit length nb satisfies 2^(nb - 1) <= v < 2^nb |
| RangeCheck3Table.BitLengthOfRange | src/chips/range_check_3_table.rs:69-70 | every value in [2^(nb - 1), 2^nb) has bit length nb, so the table's width column is a function of the value |
| RangeCheck3Table.Tag | src/chips/range_check_3_table.rs:40-85 | the width listed next to a value is at least 1, and for a nonzero value it is its bit width: 2^(width - 1) <= v < 2^width |
| RangeCheck3Table.TagBelow | src/chips/range_check_3_table.rs:40-85 | the width listed for a value below 2^n is between 1 and n (1 for the value 0) |
| RangeCheck3Table.BitWidthTableDomain | src/chips/range_check_3_table.rs:40-85 | the table holds exactly offsets 0 .. count - 1 of its two columns |
| RangeCheck3Table.BitWidthTableAt | src/chips/range_check_3_table.rs:40-85 | offset o holds the pair (width of o, o) |
| RangeCheck3Table.AssignRow | src/chips/range_check_3_table.rs:71-83 | one inner-loop step writes the next offset's width and value |
| RangeCheck3Table.Load | src/chips/range_check_3_table.rs:36-89 | `load` writes the row (1, 0) and then each width's values in order: 2^NUM_BITS rows, offset o holding (width of o, o) |
| RangeCheck3Table.BitWidthTableMembership | src/chips/range_check_3_table.rs:36-89 | a pair is a row of the table exactly when the value is below 2^NUM_BITS and the width is its bit width |
| Decomposition.Bits | src/chips/range_check_4.rs:293-299 | `to_le_bits().take(num_bits)` yields num_bits little-endian bits of v, for num_bits up to the field's representation width (see Left out) |
| Decomposition.BitsRoundTrip | src/chips/range_check_4.rs:293-299 | reading the first n little-endian bits back gives v mod 2^n |
| Decomposition.BitsValueAppend | src/chips/range_check_4.rs:300 | the bits of a concatenation: the second string sits 2^(length of the first) above the first |
| Decomposition.Lebs2ip | src/chips/range_check_4.rs:277-282 | `lebs2ip` of at most 64 bits is below 2^(number of bits) |
| Decomposition.Lebs2ipValue | src/chips/range_check_4.rs:277-282 | the fold of `lebs2ip` computes the little-endian value of the bits |
| Decomposition.Chunks | src/chips/range_check_4.rs:300 | `chunks(K)` yields nonempty chunks of at most K bits |
| Decomposition.ChunksCount | src/chips/range_check_4.rs:183-187 | there are `expected_vec_len` chunks: num_bits / K, plus one for a partial chunk |
| Decomposition.ChunksAt | src/chips/range_check_4.rs:300 | chunk i holds bits i*K up to (i+1)*K, or to the end |
| Decomposition.ChunksRecombine | src/chips/range_check_4.rs:7-53 | the chunk values recombine (c_0 + 2^K c_1 + ...) to the value of the bits |
| Decomposition.DecompositionRoundTrip | src/chips/range_check_4.rs:7-53 | the chunks of the first num_bits bits of v recombine to v mod 2^num_bits |
| Decomposition.ChunkValueBound | src/chips/range_check_4.rs:300-301 | each chunk value is below 2^(its length), at most 2^K |
| Decomposition.LastChunk | src/chips/range_check_4.rs:225 | when K does not divide num_bits the last chunk is the slice num_bits - partial_len .. num_bits |
| Decomposition.FullChunk | src/chips/range_check_4.rs:300 | every chunk before index num_bits / K has exactly K bits |
| Decomposition.Z | src/chips/range_check_4.rs:302-303 | every z_i after z_0 is a canonical field element |
| Decomposition.RunningSum | src/chips/range_check_4.rs:285-308 | `compute_running_sum` returns one z per chunk |
| Decomposition.RunningSumInvariant | src/chips/range_check_4.rs:302-303 | z_i * 2^(iK) = v - (c_0 + ... + 2^((i-1)K) c_{i-1}) in the field |
| Decomposition.FinalZeroIff | src/chips/range_check_4.rs:211-212 | for v in the field, the last running sum z_C is 0 exactly when v < 2^num_bits |
| Decomposition.ChunkIdentity | src/chips/range_check_4.rs:83-91 | z_i - z_{i+1} * 2^K is the chunk c_i, which is what the chunk lookup recomputes |
| Decomposition.Telescope | src/chips/range_check_4.rs:7-53 | if every z_i - z_{i+1} * 2^K is c_i, then z_0 - z_C * 2^(CK) is the recombined chunks, in the field |
| Decomposition.RecombineBound | src/chips/range_check_4.rs:7-53 | chunks of K bits, the last of q bits, recombine below 2^((C - 1)K + q) |
| Decomposition.ComputeRunningSum | src/chips/range_check_4.rs:285-308 | the loop returns exactly `RunningSum`, of length `expected_vec_len` |
| RangeCheck4.Configure | src/chips/range_check_4.rs:75-157 | one gate under `q_partial_check` reading the running sum one row up to two rows down; the chunk lookup under `q_decompose` reads two adjacent rows, the shifted lookup under `q_partial_check` the row below |
| RangeCheck4.AsWrittenChunkRows | src/chips/range_check_4.rs:207 | the loop bound num_bits / K counts the full chunks: one fewer than expected_vec_len when a partial chunk exists |
| RangeCheck4.FinalChunk | src/chips/range_check_4.rs:214-226 | `final_chunk`, the `lebs2ip` of the top p of the first num_bits bits, is below 2^p |
| RangeCheck4.ChunkLookupInput | src/chips/range_check_4.rs:84-102 | the chunk lookup's input is z_row - z_{row+1} * 2^K on a `q_decompose` row and 0 elsewhere |
| RangeCheck4.ShiftedLookupInput | src/chips/range_check_4.rs:134-147 | the shifted lookup's input is the cell below on a `q_partial_check` row and 0 elsewhere |
| RangeCheck4.PartialGateValue | src/chips/range_check_4.rs:104-132 | on a `q_partial_check` row the gate is (z_prev - z_cur * 2^K) * 2^K * (cell two below) - (cell below), and 0 elsewhere |
| RangeCheck4.PartialGateCells | src/chips/range_check_4.rs:104-132 | on any region, no gate reads an unassigned cell exactly when every `q_partial_check` row has assigned cells one row above and up to two rows below |
| RangeCheck4.KBitTableMembership | src/chips/range_check_4.rs:98-101 | a field element passes the K-bit lookup exactly when it is below 2^K |
| RangeCheck4.ChunkLookupPasses | src/chips/range_check_4.rs:84-102 | the chunk lookup passes on a row exactly when, with `q_decompose` on, the chunk is below 2^K |
| RangeCheck4.ShiftedLookupPasses | src/chips/range_check_4.rs:134-147 | the shifted lookup passes on a row exactly when, with `q_partial_check` on, the cell below is below 2^K |
| RangeCheck4.RunningSumCellsDomain | src/chips/range_check_4.rs:171-203 | the running-sum column holds rows 0 .. C and nothing else |
| RangeCheck4.RunningSumCellsAt | src/chips/range_check_4.rs:171-203 | row 0 holds the value and row j + 1 holds z_{j+1} |
| RangeCheck4.ShortRangeCheck | src/chips/range_check_4.rs:244-273 | enables `q_partial_check` on z_C's row, writes element * 2^(K - p) below it and 2^{-p}, bound to that constant, two below |
| RangeCheck4.AssignRunningSum | src/chips/range_check_4.rs:194-203 | writes z_1 .. z_C on rows 1 .. C and returns the z_C cell (the copied value cell when there are no chunks) |
| RangeCheck4.EnableRows | src/chips/range_check_4.rs:205-209 | enables `q_decompose` on rows 0 .. count - 1 and changes nothing else |
| RangeCheck4.AssignPartialChunk | src/chips/range_check_4.rs:214-229 | with or without a partial chunk, leaves the region equal to `DecomposeRegion` and adds the 2^{-p} copy only when there is one |
| RangeCheck4.AssignFinalChunk | src/chips/range_check_4.rs:214-229 | the partial-chunk branch: `short_range_check` of the final chunk on the z_C row |
| RangeCheck4.PartialRegion | src/chips/range_check_4.rs:214-229 | with a partial chunk, `DecomposeRegion` is the running sum plus the cells and selector `short_range_check` adds |
| RangeCheck4.Assign | src/chips/range_check_4.rs:158-234 | `assign` appends `DecomposeRegion` (the running sum, `q_decompose` on rows 0 .. num_bits / K - 1 as the loop is written, the partial-chunk rows) and adds exactly `DecomposeCopies`: value to z_0, z_C to 0, and 2^{-p} when p > 0 |
| RangeCheck4.DecomposeRegionCell | src/chips/range_check_4.rs:171-229 | the running-sum column of the region holds z_0 .. z_C, then the shifted chunk and 2^{-p}, and reads 0 elsewhere |
| RangeCheck4.DecomposeRegionEnabled | src/chips/range_check_4.rs:205-209 | in the region `assign` lays out, `q_decompose` is on exactly the rows 0 .. num_bits / K - 1, so not on the row of a partial final chunk; `q_partial_check` only on z_C's row, and only when p > 0 |
| RangeCheck4.FinalChunkIsLast | src/chips/range_check_4.rs:214-227 | `final_chunk` is the last chunk of the decomposition and is below 2^p |
| RangeCheck4.HonestChunk | src/chips/range_check_4.rs:84-102 | on the honest running sum, z_i - z_{i+1} * 2^K is the K-bit chunk c_i |
| RangeCheck4.HonestChunkLookup | src/chips/range_check_4.rs:84-102 | the chunk lookup holds on every row of the honest region |
| RangeCheck4.HonestShiftedLookup | src/chips/range_check_4.rs:134-147 | the shifted lookup holds on every row of the honest region |
| RangeCheck4.GateArith | src/chips/range_check_4.rs:126-129 | c * 2^K * 2^{-p} - c * 2^(K - p) is 0 in the field |
| RangeCheck4.ShiftedBound | src/chips/range_check_4.rs:254-255 | a p-bit chunk shifted by K - p bits is still a K-bit number |
| RangeCheck4.HonestPartialGate | src/chips/range_check_4.rs:104-132 | the partial-chunk gate vanishes on every row of the honest region |
| RangeCheck4.FinalRowSums | src/chips/range_check_4.rs:112-119 | on the honest region, z_{C-1} - z_C * 2^K is the final chunk |
| RangeCheck4.FinalRowTail | src/chips/range_check_4.rs:252-270 | on the honest region the two cells below z_C hold final_chunk * 2^(K - p) and 2^{-p} |
| RangeCheck4.HonestFinalRow | src/chips/range_check_4.rs:104-132 | the partial-chunk gate vanishes on the honest z_C row |
| RangeCheck4.DecomposeRegionSatisfied | src/chips/range_check_4.rs:75-234 | completeness of the region: for every field element, the gate and both lookups hold on the region `assign` lays out, with its selectors as written |
| RangeCheck4.DecomposeRegionCellsAssigned | src/chips/range_check_4.rs:104-132 | the partial-chunk gate of the region `assign` lays out reads only assigned cells |
| RangeCheck4.DecomposeCopiesFinal | src/chips/range_check_4.rs:171-212 | on the honest region, the copies of `assign` hold exactly when z_C is 0 |
| RangeCheck4.DecomposeCopiesHold | src/chips/range_check_4.rs:211-212 | the copies of `assign` hold exactly when the value is below 2^num_bits: constraining z_C to 0 is the range check |
| RangeCheck4.ChunkBelow | src/chips/range_check_4.rs:84-102 | in any satisfying region, the chunk on a `q_decompose` row is below 2^K |
| RangeCheck4.PartialArith | src/chips/range_check_4.rs:104-147 | if a K-bit c satisfies c * 2^K * 2^{-p} = s with s a K-bit number, then c is below 2^p |
| RangeCheck4.PartialBelow | src/chips/range_check_4.rs:104-147 | in a satisfying region with `q_decompose` on the row above z_C, the final chunk is below 2^p |
| RangeCheck4.ChunksTelescope | src/chips/range_check_4.rs:7-53 | whatever the prover wrote, z_0 = v and z_C = 0 make v at most the recombined chunks |
| RangeCheck4.ChunksBelow | src/chips/range_check_4.rs:84-102 | in a satisfying region, every chunk on a `q_decompose` row is below 2^K |
| RangeCheck4.RecombineFits | src/chips/range_check_4.rs:7-53 | expected_vec_len chunks of K bits, the last of p bits, bound any v at most their sum below 2^num_bits |
| RangeCheck4.Soundness | src/chips/range_check_4.rs:75-234 | soundness for an arbitrary prover under the corrected layout, with `q_decompose` on every row above z_C (rows 0 .. expected_vec_len - 1, as the comment on line 205 says): the gate, both lookups, z_0 = v, z_C = 0 and 2^{-p} force v < 2^num_bits |
| RangeCheck4.AssignSound | src/chips/range_check_4.rs:158-234 | the corrected layout over a whole assignment: if the region has `q_decompose` on every row above z_C, satisfies its constraints and the copies of `assign` hold, the copied value is below 2^num_bits |
| RangeCheck4.AssignSoundWhenDivisible | src/chips/range_check_4.rs:205-212 | when K divides num_bits, the rows `assign` enables as written are every row above z_C, so a region with those selectors that satisfies its constraints and copies forces the value below 2^num_bits |
| RangeCheck4.InverseIsWide | src/chips/range_check_4.rs:264 | the field element 2^{-d}, d >= 1, is never below 2^(K - d) |
| RangeCheck4.ForgedEnabled | src/chips/range_check_4.rs:207-209 | for 1 <= num_bits < K the selectors enabled as written are only `q_partial_check` on row 1 |
| RangeCheck4.ForgedLookups | src/chips/range_check_4.rs:84-147 | both lookups hold on the forged region |
| RangeCheck4.ForgedGate | src/chips/range_check_4.rs:104-132 | the partial-chunk gate vanishes on the forged region |
| RangeCheck4.ForgedAccepted | src/chips/range_check_4.rs:207-209 | with the selectors as written, the forged region satisfies every constraint, its gate reads only assigned cells, z_C = 0 and the 2^{-p} cell is right, yet z_0 >= 2^num_bits |
| Fib1.Configure | src/chips/fib_1.rs:26-58 | one gate of degree 2, switched by the selector and reading a, b and c on the current row, and no lookup |
| Fib1.GateValue | src/chips/fib_1.rs:42-51 | the gate is a + b - c on an enabled row and 0 elsewhere |
| Fib1.RowRegionSatisfied | src/chips/fib_1.rs:42-51 | a one-row region satisfies the gate exactly when c = a + b in the field |
| Fib1.RowRegionCellsAssigned | src/chips/fib_1.rs:42-51 | the gate reads only a, b and c on row 0, which every row region assigns |
| Fib1.AssignFirstRow | src/chips/fib_1.rs:60-95 | a and b come from instance rows 0 and 1, c is their field sum, the selector is on row 0; the two instance copies are added |
| Fib1.AssignRow | src/chips/fib_1.rs:97-121 | copies prev_b and prev_c into a and b, writes c = b + c, enables the selector, and adds the two copy constraints |
| Fib1.ExposePublic | src/chips/fib_1.rs:123-131 | adds exactly one constraint binding the cell to the instance row |
| Fib1.FibRegionsSnoc | src/chips/fib_1.rs:97-121 | one more row extends the regions with terms k + 1, k + 2 and k + 3 |
| Fib1.FibCopiesSnoc | src/chips/fib_1.rs:108-109 | one more row adds exactly its two copies, from the previous b and c |
| Fib1.AssignNextRow | src/circuits/fib_1.rs:41-45 | one pass of the loop in `synthesize` adds region k + 1, whose c is term k + 3 |
| Fib1.Synthesize | src/circuits/fib_1.rs:31-50 | the regions hold terms 0 .. terms - 1, the returned c is the last term, and the copies are the row copies plus the output copy |
| Fib1.FibRegionsCell | src/chips/fib_1.rs:60-121 | region i holds the terms i, i + 1 and i + 2 in a, b and c |
| Fib1.FibCellValues | src/chips/fib_1.rs:60-121 | the advice cells of region j, read through the assignment, are the terms j, j + 1 and j + 2 |
| Fib1.RowCopiesHold | src/chips/fib_1.rs:108-109 | the copies of region i hold: its a and b equal the previous region's b and c |
| Fib1.FibCopiesHold | src/chips/fib_1.rs:60-121 | every copy laid down so far holds |
| Fib1.FibRegionSatisfied | src/chips/fib_1.rs:42-51 | every region laid out satisfies the gate |
| Fib1.CircuitSatisfied | src/circuits/fib_1.rs:31-50 | the circuit is satisfied exactly when instance row 2 holds, in the field, the last term computed from instance rows 0 and 1 |
| Fib1.CircuitFiftyFive | src/circuits/fib_1.rs:61-78 | with public inputs (1, 1, out), the circuit holds exactly when out is 55 in the field; 56 is rejected |
| Fib2.Configure | src/chips/fib_2.rs:24-54 | one gate of degree 2, switched by the selector and reading a and b on the current row and b on the next, and no lookup |
| Fib2.GateValue | src/chips/fib_2.rs:38-47 | the gate is a_r + b_r - b_{r+1} on an enabled row and 0 elsewhere |
| Fib2.TableCellsAt | src/chips/fib_2.rs:82-102 | rows 0 .. m - 1 hold a_r = f(r) and b_r = f(r + 1), and nothing else is written |
| Fib2.TableSelectorsSnoc | src/chips/fib_2.rs:83-85 | one more row adds the selector exactly when it is not the last row |
| Fib2.AssignNext | src/chips/fib_2.rs:82-102 | one pass of the loop writes b_row = f(row + 1) and a_row = f(row) |
| Fib2.Assign | src/chips/fib_2.rs:56-107 | appends the table region, returns b on the last row, holding f(nrows), and binds a_0 and b_0 to instance rows 0 and 1 |
| Fib2.TableSatisfied | src/chips/fib_2.rs:38-107 | the region satisfies the gate exactly when nrows >= 2, or else when a_0 + b_0 is 0: with one row the gate reads an unassigned b_1 as 0 |
| Fib2.TableCellsAssigned | src/chips/fib_2.rs:38-107 | the gate reads only assigned cells exactly when nrows >= 2 |
| Fib2.TableVerified | src/chips/fib_2.rs:38-107 | the mock prover accepts the region (the gate holds and reads only assigned cells) exactly when nrows >= 2, whatever the seeds |
| Fib2.GateRowHolds | src/chips/fib_2.rs:38-107 | with two or more rows the gate vanishes on every row |
| Fib2.TableSelectorRows | src/chips/fib_2.rs:64-85 | the selector is on exactly the rows 0 .. nrows - 2 |
| Fib2.CircuitSatisfied | src/circuits/fib_2.rs:25-35 | the circuit is satisfied exactly when instance row 2 holds f(nrows) |
| Fib2.CircuitFiftyFive | src/circuits/fib_2.rs:31-35 | with public inputs (1, 1, out) and nrows = 9, the circuit holds exactly when out is 55 |
| Fib3.Configure | src/chips/fib_3.rs:24-53 | one gate of degree 2, switched by the selector and reading the column on the current row and the two below, and no lookup |
| Fib3.GateValue | src/chips/fib_3.rs:36-46 | the gate is v_r + v_{r+1} - v_{r+2} on an enabled row and 0 elsewhere |
| Fib3.ColumnCellsAt | src/chips/fib_3.rs:82-96 | rows 0 .. m - 1 of the column hold v_r = f(r), and nothing else is written |
| Fib3.ColumnSelectorsSnoc | src/chips/fib_3.rs:83-85 | one more row adds the selector exactly when it is not one of the last two rows |
| Fib3.AssignNext | src/chips/fib_3.rs:82-96 | one pass of the loop writes v_row = f(row) |
| Fib3.Assign | src/chips/fib_3.rs:55-101 | appends the column region, returns the last row's cell, holding f(nrows - 1), and binds v_0 and v_1 to instance rows 0 and 1 |
| Fib3.GateRowHolds | src/chips/fib_3.rs:36-101 | with four or more rows the gate vanishes on every row |
| Fib3.ColumnSatisfied | src/chips/fib_3.rs:36-101 | the region satisfies the gate exactly when nrows >= 4, or when the seeds make the terms read past the end vanish |
| Fib3.ShortColumnGate | src/chips/fib_3.rs:63-64 | with fewer than four rows, the gate on rows 0 and 1, which are always enabled, reads unassigned cells as 0 |
| Fib3.ColumnCellsAssigned | src/chips/fib_3.rs:36-101 | the gate reads only assigned cells exactly when nrows >= 4 |
| Fib3.ColumnVerified | src/chips/fib_3.rs:36-101 | the mock prover accepts the region (the gate holds and reads only assigned cells) exactly when nrows >= 4, whatever the seeds |
| Fib3.ColumnSelectorRows | src/chips/fib_3.rs:63-85 | with four or more rows the selector is on exactly the rows 0 .. nrows - 3 |
| Fib3.CircuitSatisfied | src/circuits/fib_3.rs:24-34 | the circuit is satisfied exactly when instance row 2 holds f(nrows - 1) |
| Fib3.CircuitFiftyFive | src/circuits/fib_3.rs:31-34 | with public inputs (1, 1, out) and nrows = 10, the circuit holds exactly when out is 55 |

## Left out

- The proof system, the polynomial commitments, the concrete curves
  (Pasta, BN254) and halo2's `Value` "unknown" path. A witness is always
  known here.
- Plotting, the `dev-graph` tests and the circuit wiring of
  `src/circuits/`. Only `synthesize` of `fib_1` is modelled as a method
  (`Fib1.Synthesize`); the other circuits appear only as the facts their
  tests check.
- `src/chips/range_check_4_table.rs` is not part of this model. The K-bit
  table it loads is taken to hold the values 0 .. 2^K - 1 (`KBitTable`).
- Regions are numbered in the order they are opened. A row inside a
  region is relative to that region. The floor planner's placement of
  regions in absolute rows is not modelled, so a rotation never reaches
  into a neighbouring region.
- Writing a cell twice and copying from a column without equality enabled
  are run-time errors in halo2. Here they are preconditions of the
  `Layouter` methods, so the error path is not modelled.
- The mock prover's other checks (instance and fixed cells, cells outside
  the usable rows, permutation bookkeeping) are not modelled. In
  `GateCellsAssigned` a rotation that reaches above row 0 of a region
  counts as unassigned instead of wrapping around the circuit.
- Fib2.TableSatisfied, Fib3.ColumnSatisfied and Fib3.ShortColumnGate are
  about the constraints alone, which read an unassigned cell as 0. For
  too few rows they call the region satisfied for special seeds, where the
  mock prover reports the unassigned cell; `Fib2.TableVerified` and
  `Fib3.ColumnVerified` state what the mock prover accepts.
- The `Result`/`?` error plumbing of halo2 calls: every call here succeeds.
- `u8`, `u64` and `usize` bounds. The field element `F::from(x as u64)` is
  modelled as x mod P.
- Decomposition.Bits, Decomposition.ComputeRunningSum and RangeCheck4.Assign
  do not model the source's panic when num_bits exceeds the bit width of the
  field's representation (256 bits). There `to_le_bits().take(num_bits)`
  yields fewer than num_bits bits, so `transpose_vec` (range_check_4.rs:189-192)
  and the `final_chunk` slice (range_check_4.rs:225) panic. The model reads
  the missing bits as 0 and lays out the region anyway.
- RangeCheck3Table.Load: requires NUM_BITS <= 30. The source's `1 << num_bits`
  is an `i32` shift, which overflows above that.
- RangeCheck4.Soundness: requires 2^K * 2^K <= P, so that shifting a K-bit
  chunk by K - p bits cannot wrap around the field. The source's field is
  far larger than that.
- RangeCheck4.AssignSound: requires the same bound as Soundness.
- RangeCheck4.Assign: requires the value to be a canonical field element
  below P and 2^K < P. It computes `final_chunk` through the `FinalChunk`
  function, which is the bit slice and `lebs2ip` the source writes inline.
- Fib1.Synthesize: takes the loop bound (10 in the source) as a parameter
  `terms`.
- The loop bodies of `assign`, `load` and `synthesize` are split into
  helper methods: `Fib1.AssignNextRow`, `Fib2.AssignNext`, `Fib3.AssignNext`,
  `RangeCheck3Table.AssignRow`, `RangeCheck4.AssignRunningSum`,
  `RangeCheck4.EnableRows`, `RangeCheck4.AssignPartialChunk` and
  `RangeCheck4.AssignFinalChunk`. Each states exactly the step the source
  loop performs.

## Findings

| source | as written | input that shows it | evidently intended | confidence | as-written member | corrected member |
|---|---|---|---|---|---|---|
| src/chips/range_check_4.rs:207-209 | `q_decompose` is enabled only on rows 0 .. num_bits / K - 1, so when K does not divide num_bits the final partial chunk's row gets no K-bit lookup; the partial-chunk gate alone then lets a field element 2^{-(K - num_bits)} stand as the final chunk | P = 257, K = 4, num_bits = 3: z_0 = 129 (2^{-1} mod 257), z_1 = 0, shifted chunk 1 and 2^{-3} = 225 satisfy every constraint, yet 129 >= 2^3 | enable `q_decompose` on rows 0 .. expected_vec_len - 1, every row above z_C, as the comment on line 205 says | not executed | RangeCheck4.ForgedAccepted | RangeCheck4.Soundness |
