/**
 * The arithmetic behind the running-sum range check of range_check_4:
 * a value's low `num_bits` bits, little-endian, cut into K-bit chunks
 * c_0, c_1, ..., c_{C-1} (the last one shorter when K does not divide
 * num_bits), and the running sum z_0 = value, z_{i+1} = (z_i - c_i) * 2^{-K}
 * in the field of order P.
 */
module Decomposition {
  import opened Field

  // ---------------------------------------------------------------------
  // Bits and their value.
  // ---------------------------------------------------------------------

  /**
   * The first n little-endian bits of v (`to_le_bits().take(n)`). Bits past
   * the width of the field's representation read as 0 here, where the source
   * yields fewer than n bits and then panics.
   */
  function Bits(v: nat, n: nat): (bs: seq<bool>)
    ensures |bs| == n
  {
    if n == 0 then [] else [v % 2 == 1] + Bits(v / 2, n - 1)
  }

  /** The value of a little-endian bit string, read from its low end. */
  function BitsValue(bs: seq<bool>): nat
  {
    if |bs| == 0 then 0 else (if bs[0] then 1 else 0) + 2 * BitsValue(bs[1..])
  }

  lemma HalveMod(v: nat, m: nat)
    requires m >= 1
    ensures v % (2 * m) == v % 2 + 2 * ((v / 2) % m)
  {
    var h, b := v / 2, v % 2;
    var q, r := h / m, h % m;
    assert v == 2 * m * q + (b + 2 * r) by {
      assert v == 2 * h + b;
      assert h == m * q + r;
    }
    ModUnique(v, 2 * m, q, b + 2 * r);
  }

  /** Reading the first n bits back gives v mod 2^n. */
  lemma {:induction false} BitsRoundTrip(v: nat, n: nat)
    ensures BitsValue(Bits(v, n)) == v % Pow2(n)
  {
    if n == 0 {
      ModUnique(v, 1, v, 0);
    } else {
      BitsRoundTrip(v / 2, n - 1);
      assert Bits(v, n)[1..] == Bits(v / 2, n - 1);
      HalveMod(v, Pow2(n - 1));
    }
  }

  lemma {:induction false} BitsValueBound(bs: seq<bool>)
    ensures BitsValue(bs) < Pow2(|bs|)
  {
    if |bs| > 0 {
      BitsValueBound(bs[1..]);
    }
  }

  lemma DoubleShift(t: int, m: int, w: int)
    ensures 2 * (t + m * w) == 2 * t + (2 * m) * w
  {
  }

  /** Concatenation: the second string's bits sit above the first's. */
  lemma {:induction false} BitsValueAppend(a: seq<bool>, b: seq<bool>)
    ensures BitsValue(a + b) == BitsValue(a) + Pow2(|a|) * BitsValue(b)
  {
    if |a| > 0 {
      var low := if a[0] then 1 else 0;
      var t, m, w := BitsValue(a[1..]), Pow2(|a| - 1), BitsValue(b);
      assert (a + b)[1..] == a[1..] + b;
      BitsValueAppend(a[1..], b);
      assert BitsValue(a + b) == low + 2 * (t + m * w);
      assert Pow2(|a|) == 2 * m;
      DoubleShift(t, m, w);
    } else {
      assert a + b == b;
    }
  }

  /**
   * `lebs2ip`: the fold that adds 2^i for every set bit i, the last bit
   * added last. The source asserts at most 64 bits; within that bound the
   * sum stays below 2^64, so the u64 accumulator cannot overflow.
   */
  function Lebs2ip(bits: seq<bool>): (r: nat)
    requires |bits| <= 64
    ensures r < Pow2(|bits|)
  {
    if |bits| == 0 then 0
    else Lebs2ip(bits[..|bits| - 1]) + (if bits[|bits| - 1] then Pow2(|bits| - 1) else 0)
  }

  /** The fold computes the value of the bit string. */
  lemma {:induction false} Lebs2ipValue(bits: seq<bool>)
    requires |bits| <= 64
    ensures Lebs2ip(bits) == BitsValue(bits)
  {
    if |bits| > 0 {
      var front, last := bits[..|bits| - 1], bits[|bits| - 1];
      Lebs2ipValue(front);
      assert bits == front + [last];
      BitsValueAppend(front, [last]);
      assert BitsValue([last]) == (if last then 1 else 0) by {
        assert [last][1..] == [];
      }
    }
  }

  // ---------------------------------------------------------------------
  // Chunks, as `slice::chunks(K)` cuts them.
  // ---------------------------------------------------------------------

  /** Consecutive K-bit chunks, the last one shorter when K does not divide |bs|. */
  function Chunks(bs: seq<bool>, K: nat): (cs: seq<seq<bool>>)
    requires K >= 1
    ensures forall i :: 0 <= i < |cs| ==> 1 <= |cs[i]| <= K
    decreases |bs|
  {
    if |bs| == 0 then []
    else if |bs| <= K then [bs]
    else [bs[..K]] + Chunks(bs[K..], K)
  }

  /** `expected_vec_len`: one entry per full chunk, plus one for a partial chunk. */
  function ExpectedVecLen(n: nat, K: nat): nat
    requires K >= 1
  {
    if n % K > 0 then 1 + n / K else n / K
  }

  /** There are ceil(|bs| / K) chunks. */
  lemma {:induction false} ChunksCount(bs: seq<bool>, K: nat)
    requires K >= 1
    ensures |Chunks(bs, K)| == ExpectedVecLen(|bs|, K)
    decreases |bs|
  {
    var n := |bs|;
    if n == 0 {
      ModSmall(0, K);
    } else if n < K {
      ModSmall(n, K);
    } else if n == K {
      ModUnique(n, K, 1, 0);
    } else {
      ChunksCount(bs[K..], K);
      var q, r := (n - K) / K, (n - K) % K;
      ModUnique(n, K, q + 1, r);
    }
  }

  /** Chunk i covers bits i*K up to (i+1)*K, or to the end. */
  lemma {:induction false} ChunksAt(bs: seq<bool>, K: nat, i: nat)
    requires K >= 1 && i < |Chunks(bs, K)|
    ensures i * K < |bs|
    ensures Chunks(bs, K)[i] == bs[i * K .. if (i + 1) * K < |bs| then (i + 1) * K else |bs|]
    decreases |bs|
  {
    if i > 0 {
      var rest := bs[K..];
      assert Chunks(bs, K)[i] == Chunks(rest, K)[i - 1];
      ChunksAt(rest, K, i - 1);
      var lo := (i - 1) * K;
      var hi := if i * K < |rest| then i * K else |rest|;
      assert i * K == K + lo && (i + 1) * K == K + i * K by {
        MulSucc(i - 1, K);
        MulSucc(i, K);
      }
      assert rest[lo..hi] == bs[K + lo .. K + hi];
    } else {
      assert 1 * K == K;
    }
  }

  /** The chunks' values (`lebs2ip` of each chunk). */
  function ChunkValues(bs: seq<bool>, K: nat): (cs: seq<nat>)
    requires 1 <= K <= 64
    ensures |cs| == |Chunks(bs, K)|
  {
    var chunks := Chunks(bs, K);
    seq(|chunks|, i requires 0 <= i < |chunks| => Lebs2ip(chunks[i]))
  }

  /** c_0 + 2^K * c_1 + 2^{2K} * c_2 + ..., the sum the header comment decomposes into. */
  function Recombine(cs: seq<nat>, K: nat): nat
  {
    if |cs| == 0 then 0 else cs[0] + Pow2(K) * Recombine(cs[1..], K)
  }

  lemma Distribute(t: int, a: int, x: int, m: int)
    ensures t * (a + x * m) == t * a + x * (t * m)
  {
  }

  lemma {:induction false} RecombineSnoc(cs: seq<nat>, K: nat, i: nat)
    requires i < |cs|
    ensures Recombine(cs[..i + 1], K) == Recombine(cs[..i], K) + cs[i] * Pow2(i * K)
  {
    if i == 0 {
      assert cs[..1][1..] == [];
      assert cs[..0] == [];
    } else {
      var t: int, m: int, c: int := Pow2(K), Pow2((i - 1) * K), cs[i];
      RecombineSnoc(cs[1..], K, i - 1);
      assert cs[..i + 1][1..] == cs[1..][..i];
      assert cs[..i][1..] == cs[1..][..i - 1];
      assert cs[1..][i - 1] == c;
      var a: int := Recombine(cs[1..][..i - 1], K);
      assert Recombine(cs[..i + 1], K) == cs[0] + t * (a + c * m);
      assert Recombine(cs[..i], K) == cs[0] + t * a;
      Pow2Add(K, (i - 1) * K);
      assert K + (i - 1) * K == i * K;
      Distribute(t, a, c, m);
    }
  }

  /** Recombining the chunk values gives back the value of the bits. */
  lemma {:induction false} ChunksRecombine(bs: seq<bool>, K: nat)
    requires 1 <= K <= 64
    ensures Recombine(ChunkValues(bs, K), K) == BitsValue(bs)
    decreases |bs|
  {
    var cv := ChunkValues(bs, K);
    if |bs| == 0 {
    } else if |bs| <= K {
      Lebs2ipValue(bs);
      assert cv[1..] == [];
    } else {
      ChunksRecombine(bs[K..], K);
      assert cv[1..] == ChunkValues(bs[K..], K);
      Lebs2ipValue(bs[..K]);
      assert bs == bs[..K] + bs[K..];
      BitsValueAppend(bs[..K], bs[K..]);
    }
  }

  /** The round trip of the decomposition: the chunks recombine to value mod 2^num_bits. */
  lemma DecompositionRoundTrip(v: nat, n: nat, K: nat)
    requires 1 <= K <= 64
    ensures Recombine(ChunkValues(Bits(v, n), K), K) == v % Pow2(n)
  {
    ChunksRecombine(Bits(v, n), K);
    BitsRoundTrip(v, n);
  }

  /** Every chunk value fits in K bits, and one of p < K bits in p bits. */
  lemma ChunkValueBound(bs: seq<bool>, K: nat, i: nat)
    requires 1 <= K <= 64 && i < |Chunks(bs, K)|
    ensures ChunkValues(bs, K)[i] < Pow2(|Chunks(bs, K)[i]|) <= Pow2(K)
  {
    Pow2Monotone(|Chunks(bs, K)[i]|, K);
  }

  lemma DivMod(n: nat, K: nat)
    requires K >= 1
    ensures (n / K) * K == n - n % K
  {
  }

  lemma ModAtMost(n: nat, K: nat)
    requires K >= 1
    ensures n % K <= n
  {
    DivMod(n, K);
  }

  lemma MulSucc(q: nat, K: nat)
    ensures (q + 1) * K == q * K + K
  {
  }

  lemma MulMono(a: nat, b: nat, K: nat)
    requires a <= b
    ensures a * K <= b * K
  {
    assert b * K - a * K == (b - a) * K;
  }

  /**
   * When p = |bs| mod K is nonzero the last chunk is exactly the top p bits,
   * the slice `final_chunk` takes.
   */
  lemma LastChunk(bs: seq<bool>, K: nat)
    requires K >= 1 && |bs| % K > 0
    ensures |Chunks(bs, K)| == |bs| / K + 1
    ensures Chunks(bs, K)[|bs| / K] == bs[|bs| - |bs| % K ..]
  {
    ChunksCount(bs, K);
    var n, q := |bs|, |bs| / K;
    DivMod(n, K);
    MulSucc(q, K);
    ChunksAt(bs, K, q);
  }

  /** All chunks before index |bs| / K are full. */
  lemma FullChunk(bs: seq<bool>, K: nat, i: nat)
    requires K >= 1 && i < |bs| / K
    ensures i < |Chunks(bs, K)| && |Chunks(bs, K)[i]| == K
  {
    ChunksCount(bs, K);
    var n, q := |bs|, |bs| / K;
    DivMod(n, K);
    MulMono(i + 1, q, K);
    MulSucc(i, K);
    ChunksAt(bs, K, i);
  }

  // ---------------------------------------------------------------------
  // The running sum.
  // ---------------------------------------------------------------------

  /** z_i: z_0 is the value, z_{i+1} = (z_i - c_i) * 2^{-K} in the field. */
  function Z(P: nat, K: nat, v: int, cs: seq<nat>, i: nat): (z: int)
    requires P > 1 && P % 2 == 1 && i <= |cs|
    ensures i > 0 ==> 0 <= z < P
  {
    if i == 0 then v else ((Z(P, K, v, cs, i - 1) - cs[i - 1]) * InvPow2(P, K)) % P
  }

  /** The chunk values of the first `num_bits` bits of v. */
  function ChunksOf(v: nat, n: nat, K: nat): seq<nat>
    requires 1 <= K <= 64
  {
    ChunkValues(Bits(v, n), K)
  }

  /** [z_1, ..., z_C]: what `compute_running_sum` returns. */
  function RunningSum(P: nat, K: nat, v: nat, n: nat): (zs: seq<int>)
    requires P > 1 && P % 2 == 1 && 1 <= K <= 64
    ensures |zs| == |ChunksOf(v, n, K)|
  {
    var cs := ChunksOf(v, n, K);
    seq(|cs|, i requires 0 <= i < |cs| => Z(P, K, v, cs, i + 1))
  }

  lemma Regroup3(a: int, b: int, c: int, d: int)
    ensures a * b * (c * d) == (a * d) * (b * c)
  {
  }

  /** Multiplying z_{i+1} back by 2^K (and by m) undoes the division. */
  lemma UndoShift(P: nat, K: nat, z: int, c: int, m: int)
    requires P > 1 && P % 2 == 1
    ensures ((((z - c) * InvPow2(P, K)) % P) * (Pow2(K) * m)) % P == ((z - c) * m) % P
  {
    var inv := InvPow2(P, K);
    var a := (z - c) * m;
    InvPow2Inverse(P, K);
    calc {
      ((((z - c) * inv) % P) * (Pow2(K) * m)) % P;
      { ModMulLeft((z - c) * inv, Pow2(K) * m, P); }
      ((z - c) * inv * (Pow2(K) * m)) % P;
      { Regroup3(z - c, inv, Pow2(K), m); }
      (a * (inv * Pow2(K))) % P;
      { ModMulRight(a, inv * Pow2(K), P); }
      (a * ((inv * Pow2(K)) % P)) % P;
      { assert inv * Pow2(K) == Pow2(K) * inv; }
      (a * 1) % P;
    }
  }

  lemma SubCongruent(a: int, b: int, y: int, P: nat)
    requires P > 0 && a % P == b % P
    ensures (a - y) % P == (b - y) % P
  {
    ModSub(a, y, P);
    ModSub(b, y, P);
  }

  /** One step of the invariant, as plain modular arithmetic. */
  lemma InvariantStep(P: nat, K: nat, z: int, c: int, m: int, v: int, r: int)
    requires P > 1 && P % 2 == 1 && (z * m) % P == (v - r) % P
    ensures ((((z - c) * InvPow2(P, K)) % P) * (Pow2(K) * m)) % P == (v - (r + c * m)) % P
  {
    UndoShift(P, K, z, c, m);
    assert (z - c) * m == z * m - c * m;
    SubCongruent(z * m, v - r, c * m, P);
  }

  /**
   * The invariant of the running sum: z_i * 2^{iK} is the value minus the
   * chunks already taken off, modulo P.
   */
  lemma {:induction false} RunningSumInvariant(P: nat, K: nat, v: int, cs: seq<nat>, i: nat)
    requires P > 1 && P % 2 == 1 && i <= |cs|
    ensures (Z(P, K, v, cs, i) * Pow2(i * K)) % P == (v - Recombine(cs[..i], K)) % P
  {
    if i == 0 {
      assert cs[..0] == [];
    } else {
      var j := i - 1;
      var z, c, m := Z(P, K, v, cs, j), cs[j], Pow2(j * K);
      RunningSumInvariant(P, K, v, cs, j);
      RecombineSnoc(cs, K, j);
      Pow2Add(K, j * K);
      MulSucc(j, K);
      assert Pow2(i * K) == Pow2(K) * m;
      InvariantStep(P, K, z, c, m, v, Recombine(cs[..j], K));
    }
  }

  lemma CancelFactor(P: nat, x: int, t: int, inv: int)
    requires P > 1 && (t * inv) % P == 1 && (x * t) % P == 0
    ensures x % P == 0
  {
    ModMulRight(x, t * inv, P);
    assert x * (t * inv) == (x * t) * inv;
    ModMulLeft(x * t, inv, P);
    ModSmall(0, P);
  }

  /** 2^m is invertible, so it cancels from a product that vanishes. */
  lemma CancelPow2(P: nat, x: int, m: nat)
    requires P > 1 && P % 2 == 1 && (x * Pow2(m)) % P == 0
    ensures x % P == 0
  {
    InvPow2Inverse(P, m);
    CancelFactor(P, x, Pow2(m), InvPow2(P, m));
  }

  /** The arithmetic core of FinalZeroIff, for z = z_C, t = 2^{CK} and bound N = 2^n. */
  lemma FinalZeroArith(P: nat, z: int, m: nat, v: int, N: int)
    requires P > 1 && P % 2 == 1 && 0 <= z < P && 0 <= v < P && N >= 1
    requires (z * Pow2(m)) % P == (v - v % N) % P
    ensures z == 0 <==> v < N
  {
    if v < N {
      ModSmall(v, N);
      ModSmall(0, P);
      CancelPow2(P, z, m);
      ModSmall(z, P);
    } else {
      var d := v - v % N;
      assert d == N * (v / N);
      MulPositive(N, v / N);
      ModSmall(d, P);
      ModSmall(0, P);
    }
  }

  /**
   * The final running-sum value z_C is 0 exactly when the value fits in
   * num_bits bits. Only the invertibility of 2 is needed, not primality.
   */
  lemma FinalZeroIff(P: nat, K: nat, v: nat, n: nat)
    requires P > 1 && P % 2 == 1 && 1 <= K <= 64 && v < P
    ensures Z(P, K, v, ChunksOf(v, n, K), |ChunksOf(v, n, K)|) == 0 <==> v < Pow2(n)
  {
    var cs := ChunksOf(v, n, K);
    var C := |cs|;
    RunningSumInvariant(P, K, v, cs, C);
    assert cs[..C] == cs;
    DecompositionRoundTrip(v, n, K);
    FinalZeroArith(P, Z(P, K, v, cs, C), C * K, v, Pow2(n));
  }

  /** z_i - z_{i+1} * 2^K is the chunk c_i: what the chunk lookup recomputes. */
  lemma ChunkIdentity(P: nat, K: nat, v: int, cs: seq<nat>, i: nat)
    requires P > 1 && P % 2 == 1 && i < |cs| && cs[i] < P
    ensures (Z(P, K, v, cs, i) - Z(P, K, v, cs, i + 1) * Pow2(K)) % P == cs[i]
  {
    var a, b, c := Z(P, K, v, cs, i), Z(P, K, v, cs, i + 1), cs[i];
    UndoShift(P, K, a, c, 1);
    assert (b * Pow2(K)) % P == (a - c) % P;
    calc {
      (a - b * Pow2(K)) % P;
      { ModSub(a, b * Pow2(K), P); }
      ((a % P) - (b * Pow2(K)) % P) % P;
      { ModSub(a, a - c, P); }
      (a - (a - c)) % P;
      { ModSmall(c, P); }
      c;
    }
  }

  // ---------------------------------------------------------------------
  // Any running sum, not only the honest one: what the chunk constraints
  // imply about the values a prover may witness.
  // ---------------------------------------------------------------------

  lemma TelescopeStep(P: nat, a: int, r: int, t: int, b: int, c: int)
    requires P > 0 && a % P == r % P && b % P == c
    ensures (a + t * b) % P == (r + c * t) % P
  {
    calc {
      (a + t * b) % P;
      { ModAdd(a, t * b, P); }
      (a % P + (t * b) % P) % P;
      { ModMulRight(t, b, P); assert t * c == c * t; }
      (r % P + (c * t) % P) % P;
      { ModAdd(r, c * t, P); }
      (r + c * t) % P;
    }
  }

  lemma TelescopeRegroup(z0: int, zm: int, zn: int, t: int, k: int)
    ensures z0 - zn * (t * k) == (z0 - zm * t) + t * (zm - zn * k)
  {
  }

  /**
   * If every c_i is z_i - z_{i+1} * 2^K in the field, then the c_i recombine
   * to z_0 - z_C * 2^{CK}: the running sum telescopes.
   */
  lemma {:induction false} Telescope(P: nat, K: nat, z: seq<int>, cs: seq<nat>)
    requires P > 0 && |z| == |cs| + 1
    requires forall i :: 0 <= i < |cs| ==> (z[i] - z[i + 1] * Pow2(K)) % P == cs[i]
    ensures (z[0] - z[|cs|] * Pow2(|cs| * K)) % P == Recombine(cs, K) % P
  {
    if |cs| == 0 {
      assert z[0] - z[0] * Pow2(0) == 0;
    } else {
      var m := |cs| - 1;
      Telescope(P, K, z[..m + 1], cs[..m]);
      assert cs[..m + 1] == cs;
      RecombineSnoc(cs, K, m);
      var t := Pow2(m * K);
      Pow2Add(m * K, K);
      MulSucc(m, K);
      assert Pow2((m + 1) * K) == t * Pow2(K);
      TelescopeRegroup(z[0], z[m], z[m + 1], t, Pow2(K));
      TelescopeStep(P, z[0] - z[m] * t, Recombine(cs[..m], K), t, z[m] - z[m + 1] * Pow2(K), cs[m]);
    }
  }

  lemma BoundStep(c: nat, r: nat, t: nat, e: nat)
    requires c < t && r < e
    ensures c + t * r < t * e
  {
    var d: nat := e - 1 - r;
    assert t * (e - 1) == t * r + t * d;
    assert t * e == t * (e - 1) + t;
  }

  /**
   * Chunks below 2^K with a last chunk below 2^q recombine to less than
   * 2^{(C-1)K + q}.
   */
  lemma {:induction false} RecombineBound(cs: seq<nat>, K: nat, q: nat)
    requires |cs| >= 1 && cs[|cs| - 1] < Pow2(q)
    requires forall i :: 0 <= i < |cs| - 1 ==> cs[i] < Pow2(K)
    ensures Recombine(cs, K) < Pow2((|cs| - 1) * K + q)
  {
    if |cs| == 1 {
      assert cs[1..] == [];
    } else {
      var rest := cs[1..];
      RecombineBound(rest, K, q);
      var e := (|rest| - 1) * K + q;
      BoundStep(cs[0], Recombine(rest, K), Pow2(K), Pow2(e));
      Pow2Add(K, e);
      MulSucc(|rest| - 1, K);
    }
  }

  lemma RunningSumPrefix(P: nat, K: nat, v: nat, n: nat, i: nat)
    requires P > 1 && P % 2 == 1 && 1 <= K <= 64 && i < |ChunksOf(v, n, K)|
    ensures RunningSum(P, K, v, n)[..i + 1] == RunningSum(P, K, v, n)[..i] + [Z(P, K, v, ChunksOf(v, n, K), i + 1)]
  {
    var zs := RunningSum(P, K, v, n);
    assert zs[..i + 1] == zs[..i] + [zs[i]];
  }

  /**
   * `compute_running_sum`: walks the chunks of the first num_bits bits of v,
   * updating z and pushing each new z.
   */
  method ComputeRunningSum(P: nat, K: nat, v: nat, n: nat) returns (zs: seq<int>)
    requires P > 1 && P % 2 == 1 && 1 <= K < 64 && Pow2(K) < P
    ensures zs == RunningSum(P, K, v, n)
    ensures |zs| == ExpectedVecLen(n, K)
  {
    var bits := Bits(v, n);
    var chunks := Chunks(bits, K);
    ghost var cs := ChunksOf(v, n, K);
    var inv := InvPow2(P, K);
    var z: int := v;
    zs := [];
    var i := 0;
    while i < |chunks|
      invariant 0 <= i <= |chunks|
      invariant z == Z(P, K, v, cs, i)
      invariant zs == RunningSum(P, K, v, n)[..i]
    {
      var c := Lebs2ip(chunks[i]);
      ChunkValueBound(bits, K, i);
      ModSmall(c, P);
      assert c == cs[i];
      z := ((z - c % P) * inv) % P;
      assert z == Z(P, K, v, cs, i + 1);
      RunningSumPrefix(P, K, v, n, i);
      zs := zs + [z];
      i := i + 1;
    }
    ChunksCount(bits, K);
  }
}
