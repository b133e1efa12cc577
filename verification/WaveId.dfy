/** The flattened wavefront id: what the device computes in 32-bit arithmetic, what the host sizes
    the per-wave buffer by, and why the two agree. */
module WaveId {
  import opened Bytes
  import opened Arith

  const DWORD: nat := 0x1_0000_0000_0000_0000

  datatype Dim3 = Dim3(x: nat, y: nat, z: nat)
  {
    predicate Positive() { 0 < x < WORD && 0 < y < WORD && 0 < z < WORD }
    predicate Below(d: Dim3) { x < d.x && y < d.y && z < d.z }
    function Volume(): nat { x * y * z }
  }

  /** The row-major index of `i` in a box of shape `d`. */
  function Flat(i: Dim3, d: Dim3): nat { (i.z * d.y + i.y) * d.x + i.x }

  function Unflat(k: nat, d: Dim3): Dim3
    requires d.Positive()
  {
    var rows: nat := k / d.x;
    Dim3(k % d.x, rows % d.y, rows / d.y)
  }

  // ---- indices in a box -------------------------------------------------------------------

  lemma FlatBound(i: Dim3, d: Dim3)
    requires i.Below(d)
    ensures Flat(i, d) < d.Volume()
  {
    RowBound(i.z, i.y, d.z, d.y);
    RowBound(i.z * d.y + i.y, i.x, d.z * d.y, d.x);
    VolumeSwap(d);
  }

  lemma UnflatFlat(i: Dim3, d: Dim3)
    requires d.Positive() && i.Below(d)
    ensures Unflat(Flat(i, d), d) == i
  {
    DivUnique(i.z * d.y + i.y, i.x, d.x);
    DivUnique(i.z, i.y, d.y);
  }

  lemma VolumeSwap(d: Dim3)
    ensures d.z * d.y * d.x == d.Volume()
  {
    assert d.z * d.y == d.y * d.z;
    assert d.y * d.z * d.x == d.x * (d.y * d.z);
    assert d.x * (d.y * d.z) == d.x * d.y * d.z;
  }

  lemma Digits(k: nat, x: nat, y: nat)
    requires x > 0 && y > 0
    ensures (k / x / y * y + k / x % y) * x + k % x == k
  {
    Euclid(k, x);
    Euclid(k / x, y);
  }

  lemma TopDigit(k: nat, x: nat, y: nat, z: nat)
    requires x > 0 && y > 0 && k < z * y * x
    ensures k / x / y < z
  {
    DivBelow(k, z * y, x);
    DivBelow(k / x, z, y);
  }

  lemma FlatUnflat(k: nat, d: Dim3)
    requires d.Positive() && k < d.Volume()
    ensures Unflat(k, d).Below(d) && Flat(Unflat(k, d), d) == k
  {
    VolumeSwap(d);
    Digits(k, d.x, d.y);
    TopDigit(k, d.x, d.y, d.z);
  }

  // ---- the wave id ------------------------------------------------------------------------

  function WavesPerBlock(block: Dim3): nat { (block.Volume() + 63) / 64 }

  /** The number of waves of a launch: whole blocks of ceil(blockDim / 64) waves. */
  function Waves(grid: Dim3, block: Dim3): nat { grid.Volume() * WavesPerBlock(block) }

  /** The id of the wave that runs thread `t` of block `b`. */
  function WaveOf(grid: Dim3, block: Dim3, b: Dim3, t: Dim3): nat {
    Flat(b, grid) * WavesPerBlock(block) + Flat(t, block) / 64
  }

  function U(x: nat): nat { x % WORD }

  /** `global_wavefront_id`: every operation on `unsigned`. */
  function DeviceWaveId(grid: Dim3, block: Dim3, b: Dim3, t: Dim3): nat {
    U(U(FlatWord(b, grid) * WpbWord(block)) + FlatWord(t, block) / 64)
  }

  function WpbWord(block: Dim3): nat { U(U(U(block.x * block.y) * block.z) + 63) / 64 }

  function FlatWord(i: Dim3, d: Dim3): nat { U(U(U(U(i.z * d.y) + i.y) * d.x) + i.x) }

  function D(x: nat): nat { x % DWORD }

  /** `hook_launch`: `nwaves` and the buffer size, every operation on 64-bit words. */
  function HostWaves(grid: Dim3, block: Dim3): nat {
    D(VolumeDword(grid) * WpbDword(block))
  }

  function WpbDword(block: Dim3): nat { D(VolumeDword(block) + 63) / 64 }

  function VolumeDword(d: Dim3): nat { D(D(d.x * d.y) * d.z) }

  function HostBytes(grid: Dim3, block: Dim3, stride: nat): nat { D(HostWaves(grid, block) * stride) }

  lemma WavesPerBlockBounds(block: Dim3, t: Dim3)
    requires t.Below(block)
    ensures Flat(t, block) / 64 < WavesPerBlock(block)
  {
    FlatBound(t, block);
  }

  lemma WaveBound(grid: Dim3, block: Dim3, b: Dim3, t: Dim3)
    requires b.Below(grid) && t.Below(block)
    ensures WaveOf(grid, block, b, t) < Waves(grid, block)
  {
    FlatBound(b, grid);
    WavesPerBlockBounds(block, t);
    RowBound(Flat(b, grid), Flat(t, block) / 64, grid.Volume(), WavesPerBlock(block));
  }

  /** Two threads have the same wave id exactly when they are in the same 64-thread chunk of the same
      block. */
  lemma WaveInjective(grid: Dim3, block: Dim3, b: Dim3, t: Dim3, b': Dim3, t': Dim3)
    requires grid.Positive() && block.Positive()
    requires b.Below(grid) && t.Below(block) && b'.Below(grid) && t'.Below(block)
    ensures WaveOf(grid, block, b, t) == WaveOf(grid, block, b', t') <==>
            b == b' && Flat(t, block) / 64 == Flat(t', block) / 64
  {
    WavesPerBlockBounds(block, t);
    WavesPerBlockBounds(block, t');
    DivUnique(Flat(b, grid), Flat(t, block) / 64, WavesPerBlock(block));
    DivUnique(Flat(b', grid), Flat(t', block) / 64, WavesPerBlock(block));
    UnflatFlat(b, grid);
    UnflatFlat(b', grid);
  }

  lemma VolumePositive(d: Dim3)
    requires d.Positive()
    ensures d.Volume() >= 1
  {
    MulMono(1, d.x, d.y);
    MulMono(1, d.x * d.y, d.z);
  }

  /** Every id below the number of waves is some wave's: the first thread of its chunk shows it. */
  lemma WaveSurjective(grid: Dim3, block: Dim3, k: nat) returns (b: Dim3, t: Dim3)
    requires grid.Positive() && block.Positive() && k < Waves(grid, block)
    ensures b.Below(grid) && t.Below(block) && WaveOf(grid, block, b, t) == k
  {
    VolumePositive(block);
    var wpb := WavesPerBlock(block);
    DivBelow(k, grid.Volume(), wpb);
    FlatUnflat(k / wpb, grid);
    var lin := 64 * (k % wpb);
    FlatUnflat(lin, block);
    b, t := Unflat(k / wpb, grid), Unflat(lin, block);
    assert Flat(t, block) / 64 == k % wpb;
    assert k == (k / wpb) * wpb + k % wpb;
  }

  // ---- the machine arithmetic -------------------------------------------------------------

  /** A row-major index computed with wrapping words is exact when the box has at most `m` cells. */
  lemma FlatFits(i: Dim3, d: Dim3, m: nat)
    requires d.Positive() && i.Below(d) && d.Volume() <= m
    ensures i.z * d.y < m && i.z * d.y + i.y < m && (i.z * d.y + i.y) * d.x < m && Flat(i, d) < m
  {
    FlatBound(i, d);
    MulMono(1, d.x, i.z * d.y + i.y);
  }

  lemma VolumeFits(d: Dim3, m: nat)
    requires d.Positive() && d.Volume() < m
    ensures d.x * d.y < m
  {
    MulMono(1, d.z, d.x * d.y);
  }

  lemma FlatWords(i: Dim3, d: Dim3)
    requires d.Positive() && i.Below(d) && d.Volume() <= WORD
    ensures FlatWord(i, d) == Flat(i, d)
  {
    FlatFits(i, d, WORD);
    Word(i.z * d.y);
    Word(i.z * d.y + i.y);
    Word((i.z * d.y + i.y) * d.x);
    Word((i.z * d.y + i.y) * d.x + i.x);
  }

  lemma Word(x: nat)
    requires x < WORD
    ensures U(x) == x
  {
  }

  lemma ThreadWords(block: Dim3)
    requires block.Positive() && block.Volume() < WORD
    ensures U(U(block.x * block.y) * block.z) == block.Volume()
  {
    VolumeFits(block, WORD);
    Word(block.x * block.y);
    Word(block.x * block.y * block.z);
  }

  /** Without the wrapping, a two-digit number in range is itself. */
  lemma SumWords(p: nat, q: nat)
    requires p + q < WORD
    ensures U(U(p) + q) == p + q
  {
  }

  /** The rounding condition is exact: device and host agree on the waves per block just when the
      block's thread count plus 63 fits in 32 bits. Hardware blocks have at most 1024 threads. */
  lemma WavesPerBlockAgree(block: Dim3)
    requires block.Positive()
    ensures WpbWord(block) == WavesPerBlock(block) <==> block.Volume() + 63 < WORD
  {
    var v := block.Volume();
    if v + 63 < WORD {
      ThreadWords(block);
    } else {
      var u := U(U(block.x * block.y) * block.z) + 63;
      assert (v + 63) / 64 >= WORD / 64 > U(u) / 64;
    }
  }

  lemma IdWords(blk: nat, wpb: nat, chunk: nat)
    requires blk * wpb + chunk < WORD
    ensures U(U(blk * wpb) + chunk) == blk * wpb + chunk
  {
    SumWords(blk * wpb, chunk);
  }

  /** The device's id is the exact one whenever the block's thread count survives the rounding up to
      waves and the launch has at most 2^32 waves. */
  lemma DeviceExact(grid: Dim3, block: Dim3, b: Dim3, t: Dim3)
    requires grid.Positive() && block.Positive() && b.Below(grid) && t.Below(block)
    requires block.Volume() + 63 < WORD && Waves(grid, block) <= WORD
    ensures DeviceWaveId(grid, block, b, t) == WaveOf(grid, block, b, t)
  {
    VolumePositive(block);
    MulMono(1, WavesPerBlock(block), grid.Volume());
    WavesPerBlockAgree(block);
    FlatWords(b, grid);
    FlatWords(t, block);
    WaveBound(grid, block, b, t);
    IdWords(Flat(b, grid), WavesPerBlock(block), Flat(t, block) / 64);
  }

  lemma ModProduct(a: nat, b: nat)
    ensures U(U(a) * b) == U(a * b)
  {
    Euclid(a, WORD);
    var q, r := a / WORD, a % WORD;
    assert a * b == q * b * WORD + r * b by { assert (q * WORD + r) * b == q * b * WORD + r * b; }
    ModShift(q * b, r * b);
  }

  lemma ModShift(k: nat, r: nat)
    ensures U(k * WORD + r) == U(r)
  {
    Euclid(r, WORD);
    DivUnique(k + r / WORD, r % WORD, WORD);
    assert k * WORD + r == (k + r / WORD) * WORD + r % WORD;
  }

  /** The device's row-major index is the exact one modulo 2^32. */
  lemma FlatWordIs(i: Dim3, d: Dim3)
    ensures FlatWord(i, d) == U(Flat(i, d))
  {
    RowWords(i.z * d.y, i.y, d.x, i.x);
  }

  lemma ModSum(a: nat, b: nat)
    ensures U(U(a) + b) == U(a + b)
  {
  }

  lemma RowWords(p: nat, y: nat, m: nat, x: nat)
    ensures U(U(U(U(p) + y) * m) + x) == U((p + y) * m + x)
  {
    ModSum(p, y);
    ModProduct(p + y, m);
    ModSum((p + y) * m, x);
  }

  const ORIGIN: Dim3 := Dim3(0, 0, 0)

  lemma FirstIndex(d: Dim3)
    requires d.Positive()
    ensures ORIGIN.Below(d) && Flat(ORIGIN, d) == 0
  {
  }

  /** A thread of block 0 whose index is 2^32 gets id 0. */
  lemma TooManyThreads(grid: Dim3, block: Dim3) returns (b: Dim3, t: Dim3)
    requires grid.Positive() && block.Positive() && block.Volume() > WORD
    ensures b.Below(grid) && t.Below(block) && DeviceWaveId(grid, block, b, t) != WaveOf(grid, block, b, t)
  {
    b, t := ORIGIN, Unflat(WORD, block);
    FirstIndex(grid);
    FlatUnflat(WORD, block);
    FlatWordIs(b, grid);
    FlatWordIs(t, block);
    assert DeviceWaveId(grid, block, b, t) == 0;
  }

  lemma RoundedAway(block: Dim3)
    requires block.Positive() && WORD <= block.Volume() + 63 && block.Volume() <= WORD
    ensures WpbWord(block) == 0 && WavesPerBlock(block) > 0
  {
    ModProduct(block.x * block.y, block.z);
    var v := block.Volume();
    assert U(U(block.x * block.y) * block.z) == U(v);
    if v == WORD { assert U(v) == 0; } else { assert U(v) == v; }
  }

  lemma NoProduct(x: nat, c: nat)
    requires c < WORD
    ensures U(U(0 * x) + c) == c && U(U(x * 0) + c) == c
  {
    assert 0 * x == 0 && x * 0 == 0;
  }

  /** When rounding up to whole waves wraps to no waves at all, block 1 gets the ids of block 0. */
  lemma SecondBlockClashes(grid: Dim3, block: Dim3, b: Dim3)
    requires grid.Positive() && block.Positive() && b.Below(grid) && Flat(b, grid) == 1
    requires WORD <= block.Volume() + 63 && block.Volume() <= WORD
    ensures DeviceWaveId(grid, block, b, ORIGIN) == 0 && WaveOf(grid, block, b, ORIGIN) == WavesPerBlock(block) > 0
  {
    FirstIndex(block);
    FlatWordIs(ORIGIN, block);
    RoundedAway(block);
    NoProduct(FlatWord(b, grid), 0);
  }

  /** A launch with more than 2^32 waves has one with id 2^32, which no 32-bit id is. */
  lemma TooManyWaves(grid: Dim3, block: Dim3) returns (b: Dim3, t: Dim3)
    requires grid.Positive() && block.Positive() && Waves(grid, block) > WORD
    ensures b.Below(grid) && t.Below(block) && DeviceWaveId(grid, block, b, t) != WaveOf(grid, block, b, t)
  {
    b, t := WaveSurjective(grid, block, WORD);
  }

  ghost predicate IdsExact(grid: Dim3, block: Dim3) {
    forall b: Dim3, t: Dim3 :: b.Below(grid) && t.Below(block) ==>
      DeviceWaveId(grid, block, b, t) == WaveOf(grid, block, b, t)
  }

  lemma ZeroBlock(blk: nat, x: nat, y: nat, flat: nat)
    requires blk < 1 && flat < WORD
    ensures U(U(U(blk) * x) + U(flat) / 64) == blk * y + flat / 64
  {
    NoProduct(x, flat / 64);
    assert blk * y == 0;
  }

  /** One block: the rounded count is multiplied by 0 and does not matter. */
  lemma OneBlockExact(grid: Dim3, block: Dim3, b: Dim3, t: Dim3)
    requires grid.Positive() && block.Positive() && b.Below(grid) && t.Below(block)
    requires grid.Volume() == 1 && block.Volume() <= WORD
    ensures DeviceWaveId(grid, block, b, t) == WaveOf(grid, block, b, t)
  {
    FlatBound(b, grid);
    FlatBound(t, block);
    FlatWordIs(b, grid);
    FlatWordIs(t, block);
    ZeroBlock(Flat(b, grid), WpbWord(block), WavesPerBlock(block), Flat(t, block));
  }

  /** Every thread of a launch computes its exact wave id if and only if the launch has at most 2^32 waves
      and a block at most 2^32 threads and, unless there is one block, fewer than 2^32 - 63. */
  lemma DeviceExactIff(grid: Dim3, block: Dim3)
    requires grid.Positive() && block.Positive()
    ensures IdsExact(grid, block) <==>
            && Waves(grid, block) <= WORD && block.Volume() <= WORD
            && (grid.Volume() == 1 || block.Volume() + 63 < WORD)
  {
    VolumePositive(grid);
    if block.Volume() > WORD {
      var b, t := TooManyThreads(grid, block);
    } else if grid.Volume() > 1 && block.Volume() + 63 >= WORD {
      FlatUnflat(1, grid);
      FirstIndex(block);
      SecondBlockClashes(grid, block, Unflat(1, grid));
    } else if Waves(grid, block) > WORD {
      var b, t := TooManyWaves(grid, block);
    } else {
      forall b: Dim3, t: Dim3 | b.Below(grid) && t.Below(block)
        ensures DeviceWaveId(grid, block, b, t) == WaveOf(grid, block, b, t)
      {
        if grid.Volume() == 1 { OneBlockExact(grid, block, b, t); } else { DeviceExact(grid, block, b, t); }
      }
    }
  }

  /** A row of n along x, and the k-th place in it. */
  function Row(n: nat): Dim3 { Dim3(n, 1, 1) }
  function Place(k: nat): Dim3 { Dim3(k, 0, 0) }

  lemma InRow(k: nat, n: nat)
    ensures Row(n).Volume() == n && Flat(Place(k), Row(n)) == k
  {
  }

  /** Two blocks of n threads where n is just below 2^32 are only 2^27 waves, but the second block's first
      wave has id 0, like the first block's. */
  lemma SecondBlockLost(two: nat, n: nat)
    requires two == 2 && WORD - 63 <= n < WORD
    ensures var grid, block, b := Row(two), Row(n), Place(two - 1);
            && Waves(grid, block) == 0x800_0000
            && DeviceWaveId(grid, block, b, ORIGIN) == 0 && WaveOf(grid, block, b, ORIGIN) == 0x400_0000
  {
    var grid, block, b := Row(two), Row(n), Place(two - 1);
    InRow(two - 1, two);
    InRow(0, n);
    SecondBlockClashes(grid, block, b);
    RowWaves(block, n);
    TwoRows(grid.Volume(), WavesPerBlock(block), n);
  }

  lemma RowWaves(block: Dim3, n: nat)
    requires block.Volume() == n
    ensures WavesPerBlock(block) == (n + 63) / 64
  {
  }

  lemma TwoRows(g: nat, w: nat, n: nat)
    requires g == 2 && w == (n + 63) / 64 && WORD - 63 <= n < WORD
    ensures w == 0x400_0000 && g * w == 0x800_0000
  {
  }

  lemma HostThreads(d: Dim3)
    requires d.Positive() && d.Volume() < DWORD
    ensures VolumeDword(d) == d.Volume()
  {
    VolumeFits(d, DWORD);
  }

  lemma ProductDwords(g: nat, w: nat, stride: nat)
    requires w > 0 && stride > 0 && g * w * stride < DWORD
    ensures g < DWORD && D(g * w) == g * w && D(D(g * w) * stride) == g * w * stride
  {
    MulMono(1, stride, g * w);
    MulMono(1, w, g);
  }

  lemma HostExact(grid: Dim3, block: Dim3, stride: nat)
    requires grid.Positive() && block.Positive() && stride > 0
    requires block.Volume() + 63 < DWORD && Waves(grid, block) * stride < DWORD
    ensures HostWaves(grid, block) == Waves(grid, block) &&
            HostBytes(grid, block, stride) == Waves(grid, block) * stride
  {
    VolumePositive(block);
    ProductDwords(grid.Volume(), WavesPerBlock(block), stride);
    HostWords(grid, block);
  }

  lemma HostWords(grid: Dim3, block: Dim3)
    requires grid.Positive() && block.Positive() && grid.Volume() < DWORD && block.Volume() + 63 < DWORD
    ensures HostWaves(grid, block) == D(grid.Volume() * WavesPerBlock(block))
  {
    HostWavesPerBlock(block);
    HostThreads(grid);
  }

  lemma HostWavesPerBlock(block: Dim3)
    requires block.Positive() && block.Volume() + 63 < DWORD
    ensures WpbDword(block) == WavesPerBlock(block)
  {
    HostThreads(block);
  }

  lemma SliceUnique(a: nat, v: nat, stride: nat)
    requires v * stride <= a < v * stride + stride
    ensures v == a / stride
  {
    DivUnique(v, a - v * stride, stride);
  }

  /** The per-wave slices tile the buffer the host allocates: every byte of it lies in the slice of
      exactly one wave of the launch. */
  lemma SlicesTile(grid: Dim3, block: Dim3, stride: nat, a: nat) returns (w: nat)
    requires grid.Positive() && block.Positive() && stride > 0
    requires block.Volume() + 63 < DWORD && Waves(grid, block) * stride < DWORD
    requires a < HostBytes(grid, block, stride)
    ensures w < Waves(grid, block) && w * stride <= a < w * stride + stride
    ensures forall v: nat :: v * stride <= a < v * stride + stride ==> v == w
  {
    HostExact(grid, block, stride);
    w := a / stride;
    DivBelow(a, Waves(grid, block), stride);
    Euclid(a, stride);
    forall v: nat | v * stride <= a < v * stride + stride ensures v == w {
      SliceUnique(a, v, stride);
    }
  }
}
