/** `VolumeTexture` (src/core/volume_texture.h, src/core/volume_texture.cpp):
    the sequence of margined density and emission grids uploaded to the GPU,
    and the integer bookkeeping around the compute passes run over them. */
module Texture {
  import opened Arith
  import opened CInt
  import opened Common
  import opened Volume

  /** The texture's shape: an inner grid with a margin on every side. */
  datatype Layout = Layout(inner: Int3, margin: Int3)

  /** `marginedTexSize()`: the inner extent plus a margin at each end. */
  function MarginedTexSize(L: Layout): (r: Int3)
  {
    Int3(L.inner.x + 2 * L.margin.x, L.inner.y + 2 * L.margin.y, L.inner.z + 2 * L.margin.z)
  }

  /** `totalSizeInner()`. */
  function TotalSizeInner(L: Layout): int
  {
    L.inner.x * L.inner.y * L.inner.z
  }

  /** `totalSizeMargined()`. */
  function TotalSizeMargined(L: Layout): int
  {
    var e := MarginedTexSize(L);
    e.x * e.y * e.z
  }

  /** `maxExtent()`. */
  function MaxExtent(L: Layout): int
  {
    MaxComponent(L.inner)
  }

  /** `maxExtentMargined()`. */
  function MaxExtentMargined(L: Layout): int
  {
    MaxComponent(MarginedTexSize(L))
  }

  /** Positive inner extents, non-negative margins, and a margined grid whose
      three-channel emission buffer still has an int-sized sample count. */
  predicate ValidLayout(L: Layout)
  {
    L.inner.x >= 1 && L.inner.y >= 1 && L.inner.z >= 1 &&
    L.margin.x >= 0 && L.margin.y >= 0 && L.margin.z >= 0 &&
    TotalSizeMargined(L) * 3 <= IntMax
  }

  /** The margined grid is at least as large as the inner one, as a whole and
      along its longest axis. */
  lemma MarginedCoversInner(L: Layout)
    requires ValidLayout(L)
    ensures TotalSizeInner(L) <= TotalSizeMargined(L)
    ensures MaxExtent(L) <= MaxExtentMargined(L)
    ensures 1 <= TotalSizeInner(L)
  {
    var i, e := L.inner, MarginedTexSize(L);
    MulLe(1, i.x, i.y);
    MulLe(1, i.x * i.y, i.z);
    MulLe(i.x, e.x, i.y);
    MulLe(i.y, e.y, e.x);
    assert i.x * i.y <= e.x * e.y;
    MulLe(i.x * i.y, e.x * e.y, i.z);
    MulLe(0, e.x * e.y, i.z);
    MulLe(i.z, e.z, e.x * e.y);
  }

  /** `maxLod()`: the number of times the longest margined axis can be halved
      before reaching 1, so 2^r <= maxExtentMargined() < 2^(r + 1). */
  function MaxLod(L: Layout): (r: nat)
    requires ValidLayout(L)
    ensures Pow2(r) <= MaxExtentMargined(L) < Pow2(r + 1)
  {
    FloorLog2(MaxExtentMargined(L))
  }

  /** floor(log2(n)) of a positive integer. */
  function FloorLog2(n: int): (r: nat)
    requires n >= 1
    ensures Pow2(r) <= n < Pow2(r + 1)
    decreases n
  {
    if n == 1 then 0 else 1 + FloorLog2(n / 2)
  }

  /** No other exponent brackets n, so `FloorLog2` is the logarithm. */
  lemma FloorLog2Unique(n: int, k: nat)
    requires n >= 1 && Pow2(k) <= n < Pow2(k + 1)
    ensures FloorLog2(n) == k
  {
    var r := FloorLog2(n);
    if r < k {
      Pow2Monotone(r + 1, k + 1);
      if r + 1 < k {
        Pow2Monotone(r + 1, k);
      }
    } else if k < r {
      Pow2Monotone(k + 1, r + 1);
      if k + 1 < r {
        Pow2Monotone(k + 1, r);
      }
    }
  }

  // ---------------------------------------------------------------------------
  // The margined frames built by readVolumeData
  // ---------------------------------------------------------------------------

  /** Voxel (x, y, z) lies in the inner grid, away from every margin. */
  predicate Interior(L: Layout, x: int, y: int, z: int)
  {
    L.margin.x <= x < L.inner.x + L.margin.x &&
    L.margin.y <= y < L.inner.y + L.margin.y &&
    L.margin.z <= z < L.inner.z + L.margin.z
  }

  /** Position of voxel (x, y, z) in the z, y, x scan of a grid of extents e. */
  function Scan(e: Int3, x: int, y: int, z: int): int
  {
    Flat(Flat(z, y, e.y), x, e.x)
  }

  /** The voxel at scan position t. */
  function VoxelAt(e: Int3, t: int): Int3
    requires e.x > 0 && e.y > 0
  {
    Int3(t % e.x, (t / e.x) % e.y, t / e.x / e.y)
  }

  /** Decoding a scan position gives back its voxel. */
  lemma ScanDecode(e: Int3, x: int, y: int, z: int)
    requires 0 <= x < e.x && 0 <= y < e.y && 0 <= z
    ensures VoxelAt(e, Scan(e, x, y, z)) == Int3(x, y, z)
  {
    DivUnique(Scan(e, x, y, z), e.x, Flat(z, y, e.y), x);
    DivUnique(Flat(z, y, e.y), e.y, z, y);
  }

  /** Position of interior voxel (x, y, z) among the interior voxels in scan
      order: the number of samples consumed from the loaded stream before it. */
  function Rank(L: Layout, x: int, y: int, z: int): int
  {
    Flat(Flat(z - L.margin.z, y - L.margin.y, L.inner.y), x - L.margin.x, L.inner.x)
  }

  lemma RankBounds(L: Layout, x: int, y: int, z: int)
    requires ValidLayout(L) && Interior(L, x, y, z)
    ensures 0 <= Rank(L, x, y, z) < TotalSizeInner(L)
  {
    var i, m := L.inner, L.margin;
    FlatBounds(z - m.z, y - m.y, i.y, i.z);
    FlatBounds(Flat(z - m.z, y - m.y, i.y), x - m.x, i.x, i.z * i.y);
    MulReverse(i.x, i.y, i.z);
  }

  /** `Flat` orders positions row by row, then by column. */
  lemma FlatLess(a: int, b: int, a': int, b': int, n: int)
    requires 0 <= b < n && 0 <= b' < n
    ensures Flat(a, b, n) < Flat(a', b', n) <==> a < a' || (a == a' && b < b')
    ensures Flat(a, b, n) == Flat(a', b', n) <==> a == a' && b == b'
  {
    if a < a' {
      FlatOrder(a, b, a', b', n);
    } else if a' < a {
      FlatOrder(a', b', a, b, n);
    }
  }

  /** Interior voxels come in the stream in scan order: one interior voxel
      precedes another in the scan of the margined grid exactly when its
      rank is smaller. */
  lemma RankOrder(L: Layout, x: int, y: int, z: int, x': int, y': int, z': int)
    requires ValidLayout(L) && Interior(L, x, y, z) && Interior(L, x', y', z')
    ensures var e := MarginedTexSize(L);
      Scan(e, x, y, z) < Scan(e, x', y', z') <==> Rank(L, x, y, z) < Rank(L, x', y', z')
  {
    var i, m, e := L.inner, L.margin, MarginedTexSize(L);
    FlatLess(z, y, z', y', e.y);
    FlatLess(Flat(z, y, e.y), x, Flat(z', y', e.y), x', e.x);
    FlatLess(z - m.z, y - m.y, z' - m.z, y' - m.y, i.y);
    FlatLess(Flat(z - m.z, y - m.y, i.y), x - m.x, Flat(z' - m.z, y' - m.y, i.y), x' - m.x, i.x);
  }

  /** Every position of the loaded stream below the inner size is the rank of
      an interior voxel, so the interior consumes exactly that many samples. */
  lemma RankOnto(L: Layout, k: int)
    requires ValidLayout(L) && 0 <= k < TotalSizeInner(L)
    ensures var i, m := L.inner, L.margin;
      var x, y, z := k % i.x + m.x, (k / i.x) % i.y + m.y, k / i.x / i.y + m.z;
      Interior(L, x, y, z) && Rank(L, x, y, z) == k
  {
    var i, m := L.inner, L.margin;
    var q := k / i.x;
    assert k < (i.z * i.y) * i.x;
    RowBelow(k, i.x, i.z * i.y);
    RowBelow(q, i.y, i.z);
    FlatDecode(k, i.x);
    FlatDecode(q, i.y);
    var x, y, z := k % i.x + m.x, q % i.y + m.y, q / i.y + m.z;
    assert Interior(L, x, y, z);
    assert Rank(L, x, y, z) == Flat(Flat(q / i.y, q % i.y, i.y), k % i.x, i.x);
  }

  /** The loaded density stream, and the emission stream when there is one,
      hold a sample for every interior voxel. */
  predicate Streams(L: Layout, loaded: seq<real>, emitted: seq<real>, hasEmission: bool)
  {
    TotalSizeInner(L) <= |loaded| && (hasEmission ==> TotalSizeInner(L) <= |emitted|)
  }

  /** `sample * densityScale_`. */
  function Scaled(sample: real, scale: real): real
  {
    sample * scale
  }

  /** Density of voxel v: its loaded sample times the scale inside, 0 in the
      margin. */
  function DensityValue(L: Layout, loaded: seq<real>, scale: real, v: Int3): real
    requires ValidLayout(L) && TotalSizeInner(L) <= |loaded|
  {
    if Interior(L, v.x, v.y, v.z) then
      RankBounds(L, v.x, v.y, v.z);
      Scaled(loaded[Rank(L, v.x, v.y, v.z)], scale)
    else 0.0
  }

  /** Emission of voxel v, the same in all three channels: its loaded
      emission sample inside when there is an emission stream, 0 otherwise. */
  function EmissionValue(L: Layout, emitted: seq<real>, hasEmission: bool, v: Int3): real
    requires ValidLayout(L) && (hasEmission ==> TotalSizeInner(L) <= |emitted|)
  {
    if hasEmission && Interior(L, v.x, v.y, v.z) then
      RankBounds(L, v.x, v.y, v.z);
      emitted[Rank(L, v.x, v.y, v.z)]
    else 0.0
  }

  /** The one-channel margined density grid of a frame. */
  function DensityFrame(L: Layout, loaded: seq<real>, scale: real): (s: seq<real>)
    requires ValidLayout(L) && TotalSizeInner(L) <= |loaded|
    ensures |s| == TotalSizeMargined(L)
  {
    var e := MarginedTexSize(L);
    seq(TotalSizeMargined(L), t requires 0 <= t < TotalSizeMargined(L) =>
      DensityValue(L, loaded, scale, VoxelAt(e, t)))
  }

  /** The three-channel margined emission grid of a frame. */
  function EmissionFrame(L: Layout, emitted: seq<real>, hasEmission: bool): (s: seq<real>)
    requires ValidLayout(L) && (hasEmission ==> TotalSizeInner(L) <= |emitted|)
    ensures |s| == TotalSizeMargined(L) * 3
  {
    var e := MarginedTexSize(L);
    seq(TotalSizeMargined(L) * 3, t requires 0 <= t < TotalSizeMargined(L) * 3 =>
      EmissionValue(L, emitted, hasEmission, VoxelAt(e, t / 3)))
  }

  /** What a frame holds at voxel (x, y, z), addressed as `operator()` does
      with one density channel and three emission channels: a margin voxel
      holds density 0 and emission (0, 0, 0); an interior voxel holds its
      loaded density times the scale, and its loaded emission in all three
      channels, or zeros without an emission stream. */
  lemma FrameVoxel(L: Layout, loaded: seq<real>, emitted: seq<real>, hasEmission: bool,
                   scale: real, x: int, y: int, z: int, c: int)
    requires ValidLayout(L) && Streams(L, loaded, emitted, hasEmission)
    requires InGrid(x, y, z, c, MarginedTexSize(L).x, MarginedTexSize(L).y,
                    MarginedTexSize(L).z, 3)
    ensures var e := MarginedTexSize(L);
      var d, m := Index(x, y, z, 0, e.x, e.y, 1), Index(x, y, z, c, e.x, e.y, 3);
      0 <= d < TotalSizeMargined(L) && 0 <= m < TotalSizeMargined(L) * 3 &&
      (!Interior(L, x, y, z) ==>
        DensityFrame(L, loaded, scale)[d] == 0.0 &&
        EmissionFrame(L, emitted, hasEmission)[m] == 0.0) &&
      (Interior(L, x, y, z) ==>
        0 <= Rank(L, x, y, z) < TotalSizeInner(L) &&
        DensityFrame(L, loaded, scale)[d] == loaded[Rank(L, x, y, z)] * scale &&
        EmissionFrame(L, emitted, hasEmission)[m] ==
          (if hasEmission then emitted[Rank(L, x, y, z)] else 0.0))
  {
    var e := MarginedTexSize(L);
    var t := Scan(e, x, y, z);
    IndexBounds(x, y, z, c, e.x, e.y, e.z, 3);
    IndexBounds(x, y, z, 0, e.x, e.y, e.z, 1);
    assert e.x * e.y * e.z * 3 == TotalSizeMargined(L) * 3;
    ScanDecode(e, x, y, z);
    DivUnique(t * 3 + c, 3, t, c);
    if Interior(L, x, y, z) {
      RankBounds(L, x, y, z);
    }
  }

  // ---------------------------------------------------------------------------
  // How many interior voxels the scan has passed
  // ---------------------------------------------------------------------------

  function Clamp(v: int, n: int): int
  {
    if v < 0 then 0 else if v > n then n else v
  }

  /** Interior voxels before plane z. */
  function PlaneBase(L: Layout, z: int): int
  {
    Flat(Flat(Clamp(z - L.margin.z, L.inner.z), 0, L.inner.y), 0, L.inner.x)
  }

  /** Interior voxels before row y of plane z. */
  function RowBase(L: Layout, y: int, z: int): int
  {
    if L.margin.z <= z < L.inner.z + L.margin.z
    then Flat(Flat(z - L.margin.z, Clamp(y - L.margin.y, L.inner.y), L.inner.y), 0, L.inner.x)
    else PlaneBase(L, z)
  }

  /** Interior voxels before voxel x of row y of plane z. */
  function Consumed(L: Layout, x: int, y: int, z: int): int
  {
    if L.margin.z <= z < L.inner.z + L.margin.z && L.margin.y <= y < L.inner.y + L.margin.y
    then Flat(Flat(z - L.margin.z, y - L.margin.y, L.inner.y), Clamp(x - L.margin.x, L.inner.x), L.inner.x)
    else RowBase(L, y, z)
  }

  /** An interior voxel is reached after exactly Rank interior voxels and
      passing it adds one; passing a margin voxel adds nothing. */
  lemma ConsumedStep(L: Layout, x: int, y: int, z: int)
    requires ValidLayout(L) && 0 <= x
    ensures Interior(L, x, y, z) ==>
      Consumed(L, x, y, z) == Rank(L, x, y, z) && Consumed(L, x + 1, y, z) == Rank(L, x, y, z) + 1
    ensures !Interior(L, x, y, z) ==> Consumed(L, x + 1, y, z) == Consumed(L, x, y, z)
  {
  }

  /** A row starts where the previous one ended. */
  lemma RowEnds(L: Layout, y: int, z: int)
    requires ValidLayout(L) && 0 <= y < MarginedTexSize(L).y
    ensures Consumed(L, 0, y, z) == RowBase(L, y, z)
    ensures Consumed(L, MarginedTexSize(L).x, y, z) == RowBase(L, y + 1, z)
  {
    var i, m := L.inner, L.margin;
    if m.z <= z < i.z + m.z && m.y <= y < i.y + m.y {
      MulSubOne(Flat(z - m.z, y - m.y, i.y) + 1, i.x);
    }
  }

  /** A plane starts where the previous one ended. */
  lemma PlaneEnds(L: Layout, z: int)
    requires ValidLayout(L) && 0 <= z
    ensures RowBase(L, 0, z) == PlaneBase(L, z)
    ensures RowBase(L, MarginedTexSize(L).y, z) == PlaneBase(L, z + 1)
  {
    var i, m := L.inner, L.margin;
    if m.z <= z < i.z + m.z {
      MulSubOne(z - m.z + 1, i.y);
    }
  }

  /** Scan positions of row starts: each row follows the previous one, and
      the rows of the grid end inside it. */
  lemma ScanRows(e: Int3, y: int, z: int)
    requires e.x >= 0 && 0 <= y < e.y && 0 <= z < e.z
    ensures Scan(e, 0, y, z) + e.x == Scan(e, 0, y + 1, z)
    ensures Scan(e, 0, e.y, z) == Scan(e, 0, 0, z + 1)
    ensures 0 <= Scan(e, 0, y, z) && Scan(e, 0, y, z) + e.x <= e.x * e.y * e.z
  {
    MulSubOne(Flat(z, y, e.y) + 1, e.x);
    MulSubOne(z + 1, e.y);
    FlatBounds(z, y, e.y, e.z);
    MulLe(Flat(z, y, e.y) + 1, e.z * e.y, e.x);
    MulLe(0, Flat(z, y, e.y), e.x);
    assert e.z * e.y * e.x == e.x * e.y * e.z;
  }

  /** The first t voxels of the scan hold their final density and emission. */
  ghost predicate Written(L: Layout, dens: array<real>, em: array<real>, loaded: seq<real>,
                          emitted: seq<real>, hasEmission: bool, scale: real, t: int)
    requires ValidLayout(L) && Streams(L, loaded, emitted, hasEmission)
    requires 0 <= t <= dens.Length && 3 * t <= em.Length
    reads dens, em
  {
    var e := MarginedTexSize(L);
    (forall i | 0 <= i < t :: dens[i] == DensityValue(L, loaded, scale, VoxelAt(e, i))) &&
    (forall i | 0 <= i < 3 * t :: em[i] == EmissionValue(L, emitted, hasEmission, VoxelAt(e, i / 3)))
  }

  /** Writing voxel t of the scan, its density and its three emission
      channels, extends the written prefix by one voxel. */
  lemma WrittenExtend(L: Layout, dens: array<real>, em: array<real>, loaded: seq<real>,
                      emitted: seq<real>, hasEmission: bool, scale: real, t: int)
    requires ValidLayout(L) && Streams(L, loaded, emitted, hasEmission)
    requires 0 <= t < dens.Length && 3 * t + 3 <= em.Length
    requires Written(L, dens, em, loaded, emitted, hasEmission, scale, t)
    requires dens[t] == DensityValue(L, loaded, scale, VoxelAt(MarginedTexSize(L), t))
    requires var v := EmissionValue(L, emitted, hasEmission, VoxelAt(MarginedTexSize(L), t));
      em[3 * t] == v && em[3 * t + 1] == v && em[3 * t + 2] == v
    ensures Written(L, dens, em, loaded, emitted, hasEmission, scale, t + 1)
  {
    DivUnique(3 * t, 3, t, 0);
    DivUnique(3 * t + 1, 3, t, 1);
    DivUnique(3 * t + 2, 3, t, 2);
  }

  /** The body of the x loop of `readVolumeData` for voxel (x, y, z): a
      margin voxel gets density 0 and emission (0, 0, 0); an interior voxel
      takes the next density sample times the scale and the next emission
      sample, when there is an emission stream, in all three channels. */
  method FillVoxel(L: Layout, dens: array<real>, em: array<real>, loaded: seq<real>,
                   emitted: seq<real>, hasEmission: bool, scale: real, x: int, y: int, z: int,
                   ghost t: int, ptr0: int, eptr0: int)
      returns (ptr: int, eptr: int)
    requires ValidLayout(L) && Streams(L, loaded, emitted, hasEmission) && dens != em
    requires dens.Length == TotalSizeMargined(L) && em.Length == TotalSizeMargined(L) * 3
    requires 0 <= x < MarginedTexSize(L).x && 0 <= y < MarginedTexSize(L).y && 0 <= z
    requires t == Scan(MarginedTexSize(L), x, y, z) && 0 <= t < dens.Length
    requires ptr0 == Consumed(L, x, y, z) && (hasEmission ==> eptr0 == ptr0)
    requires Written(L, dens, em, loaded, emitted, hasEmission, scale, t)
    modifies dens, em
    ensures ptr == Consumed(L, x + 1, y, z) && (hasEmission ==> eptr == ptr)
    ensures Written(L, dens, em, loaded, emitted, hasEmission, scale, t + 1)
  {
    var e := MarginedTexSize(L);
    var inner, margin := L.inner, L.margin;
    ghost var v := Int3(x, y, z);
    ScanDecode(e, x, y, z);
    assert VoxelAt(e, t) == v;
    ConsumedStep(L, x, y, z);
    assert Index(x, y, z, 0, e.x, e.y, 1) == t;
    assert Index(x, y, z, 0, e.x, e.y, 3) == 3 * t;
    ghost var dv, ev := DensityValue(L, loaded, scale, v), EmissionValue(L, emitted, hasEmission, v);
    ptr, eptr := ptr0, eptr0;
    if (x < margin.x || x >= inner.x + margin.x) ||
       (y < margin.y || y >= inner.y + margin.y) ||
       (z < margin.z || z >= inner.z + margin.z) {
      dens[Index(x, y, z, 0, e.x, e.y, 1)] := 0.0;
      em[Index(x, y, z, 0, e.x, e.y, 3)] := 0.0;
      em[Index(x, y, z, 1, e.x, e.y, 3)] := 0.0;
      em[Index(x, y, z, 2, e.x, e.y, 3)] := 0.0;
      assert !Interior(L, x, y, z);
    } else {
      RankBounds(L, x, y, z);
      assert Interior(L, x, y, z) && ptr == Rank(L, x, y, z);
      dens[Index(x, y, z, 0, e.x, e.y, 1)] := Scaled(loaded[ptr], scale);
      ptr := ptr + 1;
      if hasEmission {
        em[Index(x, y, z, 0, e.x, e.y, 3)] := emitted[eptr];
        em[Index(x, y, z, 1, e.x, e.y, 3)] := emitted[eptr];
        em[Index(x, y, z, 2, e.x, e.y, 3)] := emitted[eptr];
        eptr := eptr + 1;
      } else {
        em[Index(x, y, z, 0, e.x, e.y, 3)] := 0.0;
        em[Index(x, y, z, 1, e.x, e.y, 3)] := 0.0;
        em[Index(x, y, z, 2, e.x, e.y, 3)] := 0.0;
      }
    }
    assert dens[t] == dv;
    assert em[3 * t] == ev && em[3 * t + 1] == ev && em[3 * t + 2] == ev;
    WrittenExtend(L, dens, em, loaded, emitted, hasEmission, scale, t);
  }

  /** The x loop of `readVolumeData` for row (y, z). */
  method FillRow(L: Layout, dens: array<real>, em: array<real>, loaded: seq<real>,
                 emitted: seq<real>, hasEmission: bool, scale: real, y: int, z: int,
                 ghost t0: int, ptr0: int, eptr0: int)
      returns (ptr: int, eptr: int)
    requires ValidLayout(L) && Streams(L, loaded, emitted, hasEmission) && dens != em
    requires dens.Length == TotalSizeMargined(L) && em.Length == TotalSizeMargined(L) * 3
    requires 0 <= y < MarginedTexSize(L).y && 0 <= z < MarginedTexSize(L).z
    requires t0 == Scan(MarginedTexSize(L), 0, y, z) && 0 <= t0
    requires t0 + MarginedTexSize(L).x <= dens.Length
    requires ptr0 == RowBase(L, y, z) && (hasEmission ==> eptr0 == ptr0)
    requires Written(L, dens, em, loaded, emitted, hasEmission, scale, t0)
    modifies dens, em
    ensures ptr == RowBase(L, y + 1, z) && (hasEmission ==> eptr == ptr)
    ensures Written(L, dens, em, loaded, emitted, hasEmission, scale, t0 + MarginedTexSize(L).x)
  {
    var e := MarginedTexSize(L);
    RowEnds(L, y, z);
    ptr, eptr := ptr0, eptr0;
    var x := 0;
    while x < e.x
      invariant 0 <= x <= e.x
      invariant ptr == Consumed(L, x, y, z) && (hasEmission ==> eptr == ptr)
      invariant Written(L, dens, em, loaded, emitted, hasEmission, scale, t0 + x)
    {
      ptr, eptr := FillVoxel(L, dens, em, loaded, emitted, hasEmission, scale, x, y, z, t0 + x, ptr, eptr);
      x := x + 1;
    }
  }

  /** The y loop of `readVolumeData` for plane z. */
  method FillPlane(L: Layout, dens: array<real>, em: array<real>, loaded: seq<real>,
                   emitted: seq<real>, hasEmission: bool, scale: real, z: int,
                   ghost t0: int, ptr0: int, eptr0: int)
      returns (ptr: int, eptr: int)
    requires ValidLayout(L) && Streams(L, loaded, emitted, hasEmission) && dens != em
    requires dens.Length == TotalSizeMargined(L) && em.Length == TotalSizeMargined(L) * 3
    requires 0 <= z < MarginedTexSize(L).z && t0 == Scan(MarginedTexSize(L), 0, 0, z)
    requires 0 <= t0 <= dens.Length
    requires ptr0 == PlaneBase(L, z) && (hasEmission ==> eptr0 == ptr0)
    requires Written(L, dens, em, loaded, emitted, hasEmission, scale, t0)
    modifies dens, em
    ensures ptr == PlaneBase(L, z + 1) && (hasEmission ==> eptr == ptr)
    ensures 0 <= Scan(MarginedTexSize(L), 0, 0, z + 1) <= dens.Length
    ensures Written(L, dens, em, loaded, emitted, hasEmission, scale,
                    Scan(MarginedTexSize(L), 0, 0, z + 1))
  {
    var e := MarginedTexSize(L);
    PlaneEnds(L, z);
    ptr, eptr := ptr0, eptr0;
    ghost var t := t0;
    var y := 0;
    while y < e.y
      invariant 0 <= y <= e.y && t == Scan(e, 0, y, z) && 0 <= t <= dens.Length
      invariant ptr == RowBase(L, y, z) && (hasEmission ==> eptr == ptr)
      invariant Written(L, dens, em, loaded, emitted, hasEmission, scale, t)
    {
      ScanRows(e, y, z);
      ptr, eptr := FillRow(L, dens, em, loaded, emitted, hasEmission, scale, y, z, t, ptr, eptr);
      t := t + e.x;
      y := y + 1;
    }
    ScanRows(e, 0, z);
  }

  /** The frame loop body of `readVolumeData`: fresh grids of the margined
      size, one density channel and three emission channels, filled voxel by
      voxel in z, y, x order while the loaded streams are consumed in step
      with the interior voxels. */
  method BuildFrame(L: Layout, loaded: seq<real>, emitted: seq<real>, hasEmission: bool,
                    scale: real)
      returns (density: seq<real>, emission: seq<real>)
    requires ValidLayout(L) && Streams(L, loaded, emitted, hasEmission)
    ensures density == DensityFrame(L, loaded, scale)
    ensures emission == EmissionFrame(L, emitted, hasEmission)
  {
    var e := MarginedTexSize(L);
    MarginedCoversInner(L);
    var dens := new real[TotalSizeMargined(L)](_ => 0.0);
    var em := new real[TotalSizeMargined(L) * 3](_ => 0.0);
    var ptr, eptr := 0, 0;
    ghost var t := 0;
    var z := 0;
    while z < e.z
      invariant 0 <= z <= e.z && t == Scan(e, 0, 0, z) && 0 <= t <= dens.Length
      invariant ptr == PlaneBase(L, z) && (hasEmission ==> eptr == ptr)
      invariant Written(L, dens, em, loaded, emitted, hasEmission, scale, t)
    {
      ptr, eptr := FillPlane(L, dens, em, loaded, emitted, hasEmission, scale, z, t, ptr, eptr);
      t := Scan(e, 0, 0, z + 1);
      z := z + 1;
    }
    ScanCovers(L);
    WrittenFrame(L, dens, em, loaded, emitted, hasEmission, scale);
    density := dens[..];
    emission := em[..];
  }

  /** The z, y, x scan ends exactly at the end of the margined grid. */
  lemma ScanCovers(L: Layout)
    requires ValidLayout(L)
    ensures Scan(MarginedTexSize(L), 0, 0, MarginedTexSize(L).z) == TotalSizeMargined(L)
  {
    var e := MarginedTexSize(L);
    assert Scan(e, 0, 0, e.z) == e.z * e.y * e.x;
    MulReverse(e.x, e.y, e.z);
  }

  /** Arrays written over the whole scan hold the frame's grids. */
  lemma WrittenFrame(L: Layout, dens: array<real>, em: array<real>, loaded: seq<real>,
                     emitted: seq<real>, hasEmission: bool, scale: real)
    requires ValidLayout(L) && Streams(L, loaded, emitted, hasEmission)
    requires dens.Length == TotalSizeMargined(L) && em.Length == TotalSizeMargined(L) * 3
    requires Written(L, dens, em, loaded, emitted, hasEmission, scale, dens.Length)
    ensures dens[..] == DensityFrame(L, loaded, scale)
    ensures em[..] == EmissionFrame(L, emitted, hasEmission)
  {
  }

  // ---------------------------------------------------------------------------
  // Compute dispatches of updateVolume and gaussianFilter3D
  // ---------------------------------------------------------------------------

  /** Edge of the cubic work group of every compute shader (`localSize`). */
  const LocalSize: int := 4

  /** `(extent + localSize - 1) / localSize`: the fewest work groups that
      cover extent voxels. */
  function GroupCount(extent: int): (g: int)
    requires extent >= 0
    ensures g >= 0 && g * LocalSize >= extent && (g - 1) * LocalSize < extent
  {
    (extent + LocalSize - 1) / LocalSize
  }

  function Groups(s: Int3): Int3
    requires s.x >= 0 && s.y >= 0 && s.z >= 0
  {
    Int3(GroupCount(s.x), GroupCount(s.y), GroupCount(s.z))
  }

  /** Extents of mip level l: the base extents halved l times (`levelSize /= 2`,
      `texSizeLod[l] = texSizeLod[l - 1] / 2`). */
  function LevelSize(s: Int3, l: nat): (r: Int3)
    requires s.x >= 0 && s.y >= 0 && s.z >= 0
    ensures r.x >= 0 && r.y >= 0 && r.z >= 0
  {
    if l == 0 then s else Half(LevelSize(s, l - 1))
  }

  /** Halving l times is dividing by 2^l. */
  lemma {:induction false} LevelSizeDivides(s: Int3, l: nat)
    requires s.x >= 0 && s.y >= 0 && s.z >= 0
    ensures LevelSize(s, l) == Int3(s.x / Pow2(l), s.y / Pow2(l), s.z / Pow2(l))
  {
    if l > 0 {
      LevelSizeDivides(s, l - 1);
      DivDiv(s.x, Pow2(l - 1), 2);
      DivDiv(s.y, Pow2(l - 1), 2);
      DivDiv(s.z, Pow2(l - 1), 2);
    }
  }

  /** At level maxLod the longest margined axis is down to one voxel. */
  lemma CoarsestLevel(L: Layout)
    requires ValidLayout(L)
    ensures MaxExtentMargined(L) / Pow2(MaxLod(L)) == 1
  {
    var n, p := MaxExtentMargined(L), Pow2(MaxLod(L));
    DivUnique(n, p, 1, n - p);
  }

  datatype Program = InjectRadiance | Mipmap

  /** One `glDispatchCompute`: the program, the mip level it writes, that
      level's extents and the number of work groups per axis. */
  datatype Dispatch = Dispatch(program: Program, level: int, size: Int3, groups: Int3)

  /** The mip loop of `updateVolume`: levels 1 to mipLevels - 1 in increasing
      order, each over the previous level's extents halved. */
  method MipDispatches(size: Int3, mipLevels: int) returns (ds: seq<Dispatch>)
    requires size.x >= 0 && size.y >= 0 && size.z >= 0
    ensures |ds| == if mipLevels > 1 then mipLevels - 1 else 0
    ensures forall i | 0 <= i < |ds| ::
      ds[i] == Dispatch(Mipmap, i + 1, LevelSize(size, i + 1), Groups(LevelSize(size, i + 1)))
  {
    ds := [];
    var levelSize := size;
    var level := 1;
    while level < mipLevels
      invariant 1 <= level && (mipLevels > 1 ==> level <= mipLevels)
      invariant mipLevels <= 1 ==> level == 1
      invariant |ds| == level - 1 && levelSize == LevelSize(size, level - 1)
      invariant forall i | 0 <= i < |ds| ::
        ds[i] == Dispatch(Mipmap, i + 1, LevelSize(size, i + 1), Groups(LevelSize(size, i + 1)))
    {
      levelSize := Half(levelSize);
      ds := ds + [Dispatch(Mipmap, level, levelSize, Groups(levelSize))];
      level := level + 1;
    }
  }

  /** One pass of the Gaussian filter: the level it binds, that level's
      extents (`u_lodTexSize`), `u_maxLOD`, `u_kernelSize` and the work
      groups. */
  datatype FilterPass = FilterPass(level: int, lodSize: Int3, maxLevel: int, kernelSize: int,
                                   groups: Int3)

  /** The pass over level l. */
  function Pass(size: Int3, l: nat, maxLevel: int, kernelSize: int): FilterPass
    requires size.x >= 0 && size.y >= 0 && size.z >= 0
  {
    FilterPass(l, LevelSize(size, l), maxLevel, kernelSize, Groups(LevelSize(size, l)))
  }

  /** The first loop of `gaussianFilter3D`: `texSizeLod[0]` is the base
      extents and every further entry half the one before. */
  method LevelSizes(size: Int3, top: nat) returns (texSizeLod: array<Int3>)
    requires size.x >= 0 && size.y >= 0 && size.z >= 0
    ensures fresh(texSizeLod) && texSizeLod.Length == top + 1
    ensures forall l | 0 <= l <= top :: texSizeLod[l] == LevelSize(size, l)
  {
    texSizeLod := new Int3[top + 1];
    texSizeLod[0] := size;
    var level := 1;
    while level < top + 1
      invariant 1 <= level <= top + 1
      invariant forall l | 0 <= l < level :: texSizeLod[l] == LevelSize(size, l)
    {
      texSizeLod[level] := Half(texSizeLod[level - 1]);
      level := level + 1;
    }
  }

  /** The loops of `gaussianFilter3D` for a given top level: one pass per
      level from top down to 0, each over that level's extents. */
  method FilterSchedule(size: Int3, top: nat, maxLevel: int, kernelSize: int)
      returns (passes: seq<FilterPass>)
    requires size.x >= 0 && size.y >= 0 && size.z >= 0
    ensures |passes| == top + 1
    ensures forall i | 0 <= i <= top :: passes[i] == Pass(size, top - i, maxLevel, kernelSize)
  {
    var texSizeLod := LevelSizes(size, top);
    passes := [];
    var level := top as int;
    while level >= 0
      invariant -1 <= level <= top && |passes| == top - level
      invariant forall i | 0 <= i < |passes| :: passes[i] == Pass(size, top - i, maxLevel, kernelSize)
    {
      var s := texSizeLod[level];
      passes := passes + [FilterPass(level, s, maxLevel, kernelSize, Groups(s))];
      level := level - 1;
    }
  }

  /** `frame = (frame + 1) % numFrames_`: the next frame, wrapping to 0
      after the last. */
  function NextFrame(frame: int, numFrames: int): (r: int)
    requires 0 <= frame < numFrames
    ensures 0 <= r < numFrames
    ensures r == if frame == numFrames - 1 then 0 else frame + 1
  {
    (frame + 1) % numFrames
  }

  /** The frame after k updates. */
  function Advance(frame: int, numFrames: int, k: nat): (r: int)
    requires 0 <= frame < numFrames
    ensures 0 <= r < numFrames
  {
    if k == 0 then frame else NextFrame(Advance(frame, numFrames, k - 1), numFrames)
  }

  lemma ModSucc(x: int, n: int)
    requires n > 0
    ensures (x + 1) % n == if x % n == n - 1 then 0 else x % n + 1
  {
    var q, p := x / n, x % n;
    if p == n - 1 {
      assert x + 1 == (q + 1) * n + 0;
      DivUnique(x + 1, n, q + 1, 0);
    } else {
      DivUnique(x + 1, n, q, p + 1);
    }
  }

  /** k updates move the frame k places round the cycle of numFrames. */
  lemma {:induction false} AdvanceIsModular(frame: int, numFrames: int, k: nat)
    requires 0 <= frame < numFrames
    ensures Advance(frame, numFrames, k) == (frame + k) % numFrames
  {
    if k > 0 {
      AdvanceIsModular(frame, numFrames, k - 1);
      ModSucc(frame + k - 1, numFrames);
    }
  }

  // ---------------------------------------------------------------------------
  // Gaussian kernel
  // ---------------------------------------------------------------------------

  /** `(int)(sigmaGauss * 2.0f)` for a non-negative sigma: 2 sigma truncated. */
  function KernelRadius(sigma: real): (r: int)
    requires sigma >= 0.0
    ensures r >= 0 && r as real <= 2.0 * sigma < r as real + 1.0
  {
    (sigma * 2.0).Floor
  }

  function Sum(s: seq<real>): real
  {
    if |s| == 0 then 0.0 else Sum(s[..|s| - 1]) + s[|s| - 1]
  }

  /** Raw weights of offsets -size to size, in slot order. */
  function Weights(weight: int -> real, size: int): (w: seq<real>)
    requires size >= 0
    ensures |w| == 2 * size + 1
  {
    seq(2 * size + 1, i => weight(i - size))
  }

  /** A sum of positive terms is positive. */
  lemma {:induction false} SumPositive(s: seq<real>)
    requires |s| > 0 && forall i | 0 <= i < |s| :: s[i] > 0.0
    ensures Sum(s) > 0.0
  {
    if |s| > 1 {
      SumPositive(s[..|s| - 1]);
    }
  }

  /** Dividing every term by d divides the sum by d. */
  lemma {:induction false} SumDivided(s: seq<real>, t: seq<real>, d: real)
    requires d != 0.0 && |t| == |s| && forall i | 0 <= i < |s| :: t[i] == s[i] / d
    ensures Sum(t) == Sum(s) / d
  {
    if |s| > 0 {
      SumDivided(s[..|s| - 1], t[..|t| - 1], d);
    }
  }

  /** The first kernel loop of `initialize`: slot k + size takes the weight
      of offset k, and the weights are added up as they are stored. */
  method StoreWeights(size: int, weight: int -> real) returns (w: array<real>, sumWgt: real)
    requires size >= 0
    ensures fresh(w) && w[..] == Weights(weight, size) && sumWgt == Sum(w[..])
  {
    w := new real[size * 2 + 1];
    ghost var raw := Weights(weight, size);
    sumWgt := 0.0;
    var k := -size;
    while k <= size
      invariant -size <= k <= size + 1
      invariant forall i | 0 <= i < k + size :: w[i] == raw[i]
      invariant sumWgt == Sum(raw[..k + size])
    {
      assert raw[..k + size + 1][..k + size] == raw[..k + size];
      w[k + size] := weight(k);
      sumWgt := sumWgt + weight(k);
      k := k + 1;
    }
    assert raw[..2 * size + 1] == raw;
  }

  /** The second kernel loop of `initialize`: every slot divided by d. */
  method DivideAll(w: array<real>, d: real)
    requires d != 0.0
    modifies w
    ensures forall i | 0 <= i < w.Length :: w[i] == old(w[i]) / d
  {
    var i := 0;
    while i < w.Length
      invariant 0 <= i <= w.Length
      invariant forall j | 0 <= j < i :: w[j] == old(w[j]) / d
      invariant forall j | i <= j < w.Length :: w[j] == old(w[j])
    {
      w[i] := w[i] / d;
      i := i + 1;
    }
  }

  /** The kernel of `initialize`: slot k + size holds the weight of offset k
      divided by the total of the weights of offsets -size to size, so the
      kernel sums to 1. The weights `exp(-beta k^2)` come in as the positive
      function `weight`. */
  method GaussianKernel(size: int, weight: int -> real) returns (kernel: seq<real>)
    requires size >= 0 && forall k | -size <= k <= size :: weight(k) > 0.0
    ensures Sum(Weights(weight, size)) > 0.0
    ensures |kernel| == 2 * size + 1
    ensures forall k | -size <= k <= size ::
      kernel[k + size] == weight(k) / Sum(Weights(weight, size))
    ensures kernel == NormalizedKernel(weight, size) && Sum(kernel) == 1.0
  {
    var w, sumWgt := StoreWeights(size, weight);
    WeightsPositive(weight, size);
    DivideAll(w, sumWgt);
    kernel := w[..];
    KernelSlots(weight, size, kernel, sumWgt);
  }

  /** A sequence holding each weight divided by the total is the normalised
      kernel, slot by slot and as a whole. */
  lemma KernelSlots(weight: int -> real, size: int, kernel: seq<real>, d: real)
    requires size >= 0 && forall k | -size <= k <= size :: weight(k) > 0.0
    requires d == Sum(Weights(weight, size)) && d > 0.0
    requires |kernel| == 2 * size + 1
    requires forall i | 0 <= i < |kernel| :: kernel[i] == Weights(weight, size)[i] / d
    ensures forall k | -size <= k <= size :: kernel[k + size] == weight(k) / d
    ensures kernel == NormalizedKernel(weight, size) && Sum(kernel) == 1.0
  {
    var raw := Weights(weight, size);
    Normalized(raw, kernel, d);
    forall k | -size <= k <= size
      ensures kernel[k + size] == weight(k) / d
    {
      assert raw[k + size] == weight(k);
    }
  }

  /** The weights of offsets -size to size, each divided by their total. */
  function NormalizedKernel(weight: int -> real, size: int): (kernel: seq<real>)
    requires size >= 0 && forall k | -size <= k <= size :: weight(k) > 0.0
    ensures |kernel| == 2 * size + 1
  {
    WeightsPositive(weight, size);
    var raw := Weights(weight, size);
    seq(|raw|, i requires 0 <= i < |raw| => raw[i] / Sum(raw))
  }

  /** Positive weights have a positive total. */
  lemma WeightsPositive(weight: int -> real, size: int)
    requires size >= 0 && forall k | -size <= k <= size :: weight(k) > 0.0
    ensures Sum(Weights(weight, size)) > 0.0
  {
    var raw := Weights(weight, size);
    forall i | 0 <= i < |raw|
      ensures raw[i] > 0.0
    {
      assert raw[i] == weight(i - size);
    }
    SumPositive(raw);
  }

  /** Terms divided by their own total add up to 1. */
  lemma Normalized(raw: seq<real>, kernel: seq<real>, d: real)
    requires d == Sum(raw) && d > 0.0
    requires |kernel| == |raw| && forall i | 0 <= i < |raw| :: kernel[i] == raw[i] / d
    ensures Sum(kernel) == 1.0
  {
    SumDivided(raw, kernel, d);
    assert Sum(raw) / d == 1.0;
  }

  // ---------------------------------------------------------------------------
  // Bounding cubes
  // ---------------------------------------------------------------------------

  /** `Cube`: eight corners and their centroid. */
  datatype Cube = Cube(corners: seq<Vec3>, center: Vec3)

  function Total(vs: seq<Vec3>): Vec3
  {
    if |vs| == 0 then Zero3 else Total(vs[..|vs| - 1]).Plus(vs[|vs| - 1])
  }

  /** The arithmetic mean of eight points. */
  function Centroid(vs: seq<Vec3>): Vec3
    requires |vs| == 8
  {
    Total(vs).Div(8.0)
  }

  /** `Cube(corners)`: the corners, and their sum divided by their number. */
  method MakeCube(corners: seq<Vec3>) returns (cube: Cube)
    requires |corners| == 8
    ensures cube.corners == corners && cube.center == Centroid(corners)
  {
    var center := Zero3;
    var i := 0;
    while i < |corners|
      invariant 0 <= i <= |corners| && center == Total(corners[..i])
    {
      assert corners[..i + 1][..i] == corners[..i];
      center := center.Plus(corners[i]);
      i := i + 1;
    }
    assert corners[..|corners|] == corners;
    center := center.Div(|corners| as real);
    cube := Cube(corners, center);
  }

  function Translated(vs: seq<Vec3>, t: Vec3): (r: seq<Vec3>)
    ensures |r| == |vs|
  {
    seq(|vs|, i requires 0 <= i < |vs| => vs[i].Plus(t))
  }

  /** n copies of t added up. */
  function Times(n: nat, t: Vec3): Vec3
  {
    if n == 0 then Zero3 else Times(n - 1, t).Plus(t)
  }

  /** One more copy of t added to m copies. */
  lemma AddOneTimes(m: real, k: real, prev: Vec3, t: Vec3)
    requires prev == Vec3(m * t.x, m * t.y, m * t.z) && k == m + 1.0
    ensures prev.Plus(t) == Vec3(k * t.x, k * t.y, k * t.z)
  {
  }

  lemma {:induction false} TimesScales(n: nat, t: Vec3)
    ensures Times(n, t) == Vec3(n as real * t.x, n as real * t.y, n as real * t.z)
  {
    if n > 0 {
      TimesScales(n - 1, t);
      AddOneTimes((n - 1) as real, n as real, Times(n - 1, t), t);
    }
  }

  lemma {:induction false} TotalTranslated(vs: seq<Vec3>, t: Vec3)
    ensures Total(Translated(vs, t)) == Total(vs).Plus(Times(|vs|, t))
  {
    if |vs| > 0 {
      var n := |vs|;
      assert Translated(vs, t)[..n - 1] == Translated(vs[..n - 1], t);
      TotalTranslated(vs[..n - 1], t);
    }
  }

  /** Moving every corner by t moves the centroid by t. */
  lemma CentroidTranslated(vs: seq<Vec3>, t: Vec3)
    requires |vs| == 8
    ensures Centroid(Translated(vs, t)) == Centroid(vs).Plus(t)
  {
    TotalTranslated(vs, t);
    TimesScales(8, t);
  }

  /** Points whose x-coordinates lie in [lo, hi] have an x-total between
      n lo and n hi, n being their count: the bound that puts the centroid's
      x between the corners' least and greatest x. */
  lemma {:induction false} TotalBounds(vs: seq<Vec3>, lo: real, hi: real)
    requires forall i | 0 <= i < |vs| :: lo <= vs[i].x <= hi
    ensures |vs| as real * lo <= Total(vs).x <= |vs| as real * hi
  {
    if |vs| > 0 {
      TotalBounds(vs[..|vs| - 1], lo, hi);
    }
  }

  // ---------------------------------------------------------------------------
  // Frame files
  // ---------------------------------------------------------------------------

  /** `s.find(p) != std::string::npos`: p occurs somewhere in s (the empty
      string occurs in every string). */
  predicate Contains(s: string, p: string)
  {
    exists i | 0 <= i <= |s| - |p| :: OccursAt(s, p, i)
  }

  predicate OccursAt(s: string, p: string, i: int)
    requires 0 <= i <= |s| - |p|
  {
    s[i..i + |p|] == p
  }

  /** An empty prefix selects every entry. */
  lemma EmptyPrefixMatchesAll(s: string)
    ensures Contains(s, "")
  {
    assert OccursAt(s, "", 0);
  }

  /** The directory entries whose path contains p, in directory order. */
  function Matching(entries: seq<string>, p: string): (r: seq<string>)
    ensures |r| <= |entries|
  {
    if |entries| == 0 then []
    else
      var last := entries[|entries| - 1];
      Matching(entries[..|entries| - 1], p) + (if Contains(last, p) then [last] else [])
  }

  /** A path is listed exactly when it is an entry containing p. */
  lemma {:induction false} MatchingMembers(entries: seq<string>, p: string, s: string)
    ensures s in Matching(entries, p) <==> s in entries && Contains(s, p)
  {
    if |entries| > 0 {
      var init := entries[..|entries| - 1];
      MatchingMembers(init, p, s);
      assert entries == init + [entries[|entries| - 1]];
    }
  }

  /** The directory loop of `readVolumeData`: every entry goes to the density
      list when it contains the density prefix, and to the emission list when
      there is an emission prefix and it contains that. */
  method ListFiles(entries: seq<string>, densityPrefix: string, emissionPrefix: string,
                   hasEmission: bool)
      returns (densityFiles: seq<string>, emissionFiles: seq<string>)
    ensures densityFiles == Matching(entries, densityPrefix)
    ensures emissionFiles == if hasEmission then Matching(entries, emissionPrefix) else []
  {
    densityFiles, emissionFiles := [], [];
    var n := 0;
    while n < |entries|
      invariant 0 <= n <= |entries|
      invariant densityFiles == Matching(entries[..n], densityPrefix)
      invariant emissionFiles == if hasEmission then Matching(entries[..n], emissionPrefix) else []
    {
      var f := entries[n];
      assert entries[..n + 1][..n] == entries[..n];
      if Contains(f, densityPrefix) {
        densityFiles := densityFiles + [f];
      }
      if hasEmission && Contains(f, emissionPrefix) {
        emissionFiles := emissionFiles + [f];
      }
      n := n + 1;
    }
    assert entries[..|entries|] == entries;
  }

  /** Opening a path: its contents, or None when there is no such file. */
  function Lookup(files: map<string, VolFile>, name: string): Option<VolFile>
  {
    if name in files then Some(files[name]) else None
  }

  /** A file the loader accepts and whose grid has a sample for every
      interior voxel of the texture. */
  ghost predicate Feeds(L: Layout, file: Option<VolFile>)
    requires ValidLayout(L)
  {
    Loadable(file) && TotalSizeInner(L) <= |LoadedSamples(file.value)|
  }

  /** Frame i can be read: its density file feeds the texture, and so does
      its emission file when there is one. */
  ghost predicate FrameReadable(L: Layout, files: map<string, VolFile>, densityName: string,
                                emissionName: string, hasEmission: bool)
    requires ValidLayout(L)
  {
    Feeds(L, Lookup(files, densityName)) && (hasEmission ==> Feeds(L, Lookup(files, emissionName)))
  }

  /** The samples read for one stream: the loaded grid, or nothing. */
  ghost function StreamOf(L: Layout, file: Option<VolFile>, present: bool): seq<real>
    requires ValidLayout(L) && (present ==> Feeds(L, file))
  {
    if present then LoadedSamples(file.value) else []
  }

  /** One pass of the frame loop of `readVolumeData`: load the density file,
      and the emission file when there is one, then lay both out over the
      margined grid. A file that does not load aborts as `load` does. A grid
      with fewer samples than the interior, which the program would read
      past, aborts with TooSmall. */
  method ReadFrame(L: Layout, files: map<string, VolFile>, densityName: string,
                   emissionName: string, hasEmission: bool, scale: real)
      returns (r: Outcome<(seq<real>, seq<real>)>)
    requires ValidLayout(L)
    ensures r.Ok? <==> FrameReadable(L, files, densityName, emissionName, hasEmission)
    ensures r.Abort? ==> r.fault.IsLoadFault() || r.fault == TooSmall
    ensures r.Ok? ==>
      r.value.0 == DensityFrame(L, LoadedSamples(Lookup(files, densityName).value), scale) &&
      r.value.1 == EmissionFrame(L, StreamOf(L, Lookup(files, emissionName), hasEmission),
                                 hasEmission)
  {
    var densityData := new VolumeData();
    var emissionData := new VolumeData();
    var loaded := densityData.Load(Lookup(files, densityName));
    if loaded.Abort? {
      return Abort(loaded.fault);
    }
    if hasEmission {
      loaded := emissionData.Load(Lookup(files, emissionName));
      if loaded.Abort? {
        return Abort(loaded.fault);
      }
    }
    if !Streams(L, densityData.data[..], emissionData.data[..], hasEmission) {
      return Abort(TooSmall);
    }
    var density, emission := BuildFrame(L, densityData.data[..], emissionData.data[..],
                                        hasEmission, scale);
    return Ok((density, emission));
  }

  /** `std::vector::resize(n)`: the first n entries kept, empty grids added. */
  function Resized(frames: seq<seq<real>>, n: nat): (r: seq<seq<real>>)
    ensures |r| == n
    ensures forall i | 0 <= i < n && i < |frames| :: r[i] == frames[i]
    ensures forall i | |frames| <= i < n :: r[i] == []
  {
    if n <= |frames| then frames[..n] else frames + seq(n - |frames|, _ => [])
  }

  /** The emission grid list of `readVolumeData` as written after its
      resizes: resized to the frame count only when there is an emission
      prefix, and left as it was otherwise. */
  function EmissionListAsWritten(frames: seq<seq<real>>, n: nat, hasEmission: bool): seq<seq<real>>
  {
    if hasEmission then Resized(frames, n) else frames
  }

  /** The frame loop reaches the end of an emission list of length e before
      its last frame: e is below the frame count, every frame before e is
      read, and frame e's files load, after which `emissionDataArray[e]` is
      indexed. */
  ghost predicate SlotFault(L: Layout, files: map<string, VolFile>, densityFiles: seq<string>,
                            emissionFiles: seq<string>, hasEmission: bool, e: nat)
    requires ValidLayout(L) && (hasEmission ==> |emissionFiles| == |densityFiles|)
  {
    e < |densityFiles| &&
    (forall i | 0 <= i < e ::
       FrameReadable(L, files, densityFiles[i], if hasEmission then emissionFiles[i] else "",
                     hasEmission)) &&
    Loadable(Lookup(files, densityFiles[e])) &&
    (hasEmission ==> Loadable(Lookup(files, emissionFiles[e])))
  }

  /** The frame loop of `readVolumeData`, over the emission grid list
      `emitted` as the resizes left it. Frame i loads its files and then
      writes slot i of both lists; a slot past the end of `emitted` is
      reported as MissingSlot once that frame's files have loaded. On
      success the density list holds one grid per frame, and the emission
      list keeps its length, with the frames' grids in front and its other
      entries untouched. */
  method ReadFrames(L: Layout, files: map<string, VolFile>, densityFiles: seq<string>,
                    emissionFiles: seq<string>, hasEmission: bool, scale: real,
                    emitted: seq<seq<real>>)
      returns (r: Outcome<(seq<seq<real>>, seq<seq<real>>)>)
    requires ValidLayout(L) && (hasEmission ==> |emissionFiles| == |densityFiles|)
    ensures r == Abort(MissingSlot) <==>
      SlotFault(L, files, densityFiles, emissionFiles, hasEmission, |emitted|)
    ensures r.Ok? <==> (|densityFiles| <= |emitted| &&
      forall i | 0 <= i < |densityFiles| ::
        FrameReadable(L, files, densityFiles[i], if hasEmission then emissionFiles[i] else "",
                      hasEmission))
    ensures r.Ok? ==> |r.value.0| == |densityFiles| && |r.value.1| == |emitted|
    ensures r.Ok? ==> forall i | 0 <= i < |densityFiles| ::
      var en := if hasEmission then emissionFiles[i] else "";
      FrameReadable(L, files, densityFiles[i], en, hasEmission) &&
      r.value.0[i] == DensityFrame(L, LoadedSamples(Lookup(files, densityFiles[i]).value), scale) &&
      r.value.1[i] == EmissionFrame(L, StreamOf(L, Lookup(files, en), hasEmission), hasEmission)
    ensures r.Ok? ==> forall i | |densityFiles| <= i < |emitted| :: r.value.1[i] == emitted[i]
  {
    var density: seq<seq<real>> := [];
    var emission := emitted;
    var i := 0;
    while i < |densityFiles|
      invariant 0 <= i <= |densityFiles| && i <= |emitted|
      invariant |density| == i && |emission| == |emitted|
      invariant forall j | 0 <= j < i ::
        var en := if hasEmission then emissionFiles[j] else "";
        FrameReadable(L, files, densityFiles[j], en, hasEmission) &&
        density[j] == DensityFrame(L, LoadedSamples(Lookup(files, densityFiles[j]).value), scale) &&
        emission[j] == EmissionFrame(L, StreamOf(L, Lookup(files, en), hasEmission), hasEmission)
      invariant forall j | i <= j < |emitted| :: emission[j] == emitted[j]
    {
      var en := if hasEmission then emissionFiles[i] else "";
      if i == |emitted| {
        var densityData := new VolumeData();
        var loaded := densityData.Load(Lookup(files, densityFiles[i]));
        if loaded.Abort? {
          return Abort(loaded.fault);
        }
        if hasEmission {
          var emissionData := new VolumeData();
          loaded := emissionData.Load(Lookup(files, en));
          if loaded.Abort? {
            return Abort(loaded.fault);
          }
        }
        return Abort(MissingSlot);
      }
      var frameData := ReadFrame(L, files, densityFiles[i], en, hasEmission, scale);
      if frameData.Abort? {
        return Abort(frameData.fault);
      }
      density := density + [frameData.value.0];
      emission := emission[i := frameData.value.1];
      i := i + 1;
    }
    return Ok((density, emission));
  }

  /** Without an emission prefix, a texture holding fewer emission grids
      than there are density files, all of them readable, runs the frame
      loop as written past the end of its emission list. A fresh texture
      holds none, so a single readable density file is enough. */
  lemma EmissionSlotMissing(L: Layout, files: map<string, VolFile>, densityFiles: seq<string>,
                            emissionFiles: seq<string>, earlier: seq<seq<real>>)
    requires ValidLayout(L) && |earlier| < |densityFiles|
    requires forall i | 0 <= i < |densityFiles| :: FrameReadable(L, files, densityFiles[i], "", false)
    ensures SlotFault(L, files, densityFiles, emissionFiles, false,
                      |EmissionListAsWritten(earlier, |densityFiles|, false)|)
  {
    var e := |earlier|;
    assert FrameReadable(L, files, densityFiles[e], "", false);
  }

  datatype VolumeType = NonEmissive | Emissive

  /** `VolumeTexture`: the interior and margin extents, the two bounding
      cubes, the shading parameters, the mip levels and Gaussian kernel set up
      by `initialize`, and the frames read from disk with the frame shown
      next. The GL textures and programs are not part of the model; their
      sizes are. */
  class VolumeTexture {
    const innerTexSize: Int3
    const marginSize: Int3
    const innerCube: Cube
    const marginedCube: Cube
    const sigmaGauss: real := 2.0
    var albedo: Vec3
    var emission: Vec3
    var densityScale: real
    var volumeType: VolumeType
    var mipLevels: int
    var kernel: seq<real>
    var numFrames: int
    var frame: int
    var densityFrames: seq<seq<real>>
    var emissionFrames: seq<seq<real>>

    function Shape(): Layout
    {
      Layout(innerTexSize, marginSize)
    }

    /** The frames are read and the frame shown next is one of them. */
    ghost predicate Ready()
      reads this
    {
      0 <= frame < numFrames && |densityFrames| == numFrames && |emissionFrames| == numFrames
    }

    /** The constructor: extents and cubes as given (each cube's centre the
        mean of its corners), albedo 0.3, emission 1, density scale 1, an
        emissive volume, sigma 2, one frame, shown first, and nothing read. */
    constructor (innerTexSize: Int3, marginSize: Int3, innerCorners: seq<Vec3>,
                 marginCorners: seq<Vec3>)
      requires |innerCorners| == 8 && |marginCorners| == 8
      ensures this.innerTexSize == innerTexSize && this.marginSize == marginSize
      ensures innerCube == Cube(innerCorners, Centroid(innerCorners))
      ensures marginedCube == Cube(marginCorners, Centroid(marginCorners))
      ensures albedo == Vec3(0.3, 0.3, 0.3) && emission == Vec3(1.0, 1.0, 1.0)
      ensures densityScale == 1.0 && volumeType == Emissive
      ensures numFrames == 1 && frame == 0 && densityFrames == [] && emissionFrames == []
      ensures mipLevels == 0 && kernel == []
    {
      this.innerTexSize := innerTexSize;
      this.marginSize := marginSize;
      var inner := MakeCube(innerCorners);
      var margined := MakeCube(marginCorners);
      innerCube, marginedCube := inner, margined;
      albedo := Vec3(0.3, 0.3, 0.3);
      emission := Vec3(1.0, 1.0, 1.0);
      densityScale := 1.0;
      volumeType := Emissive;
      mipLevels, kernel := 0, [];
      numFrames, frame := 1, 0;
      densityFrames, emissionFrames := [], [];
    }

    method SetAlbedo(a: Vec3)
      modifies this`albedo
      ensures albedo == a
    {
      albedo := a;
    }

    method SetEmission(e: Vec3)
      modifies this`emission
      ensures emission == e
    {
      emission := e;
    }

    method SetDensityScale(scale: real)
      modifies this`densityScale
      ensures densityScale == scale
    {
      densityScale := scale;
    }

    method SetVolumeType(t: VolumeType)
      modifies this`volumeType
      ensures volumeType == t
    {
      volumeType := t;
    }

    /** `initialize`: the radiance, filtered and filter-buffer textures get
        maxLod levels, and the Gaussian kernel of radius 2 sigma is built
        from the weights `exp(-k^2 / (2 sigma^2))`, given as `weight`. */
    method Initialize(weight: int -> real)
      requires ValidLayout(Shape())
      requires forall k | -KernelRadius(sigmaGauss) <= k <= KernelRadius(sigmaGauss) :: weight(k) > 0.0
      modifies this`mipLevels, this`kernel
      ensures mipLevels == MaxLod(Shape())
      ensures kernel == NormalizedKernel(weight, KernelRadius(sigmaGauss))
      ensures |kernel| == 9 && Sum(kernel) == 1.0
    {
      mipLevels := MaxLod(Shape());
      kernel := GaussianKernel(KernelRadius(sigmaGauss), weight);
    }

    /** `readVolumeData`, with the folder given as its entries in directory
        order and the files by path. The density frames are the entries
        containing the density prefix; an empty emission prefix means no
        emission. Unequal frame counts abort, and so does a frame that cannot
        be read; otherwise every frame is laid out over the margined grid and
        the first frame is shown next. Unlike the program, the emission grid
        list is resized to the frame count even without emission, so the
        frame loop never indexes past its end. An abort leaves the texture
        as it was. */
    method ReadVolumeData(entries: seq<string>, files: map<string, VolFile>,
                          densityPrefix: string, emissionPrefix: string)
        returns (r: Outcome<()>)
      requires ValidLayout(Shape())
      modifies this`numFrames, this`frame, this`densityFrames, this`emissionFrames
      ensures var hasEmission, ds, es :=
          emissionPrefix != "", Matching(entries, densityPrefix), Matching(entries, emissionPrefix);
        (hasEmission && |ds| != |es| ==> r == Abort(CountMismatch)) &&
        (r.Ok? <==>
           (hasEmission ==> |ds| == |es|) &&
           forall i | 0 <= i < |ds| ::
             FrameReadable(Shape(), files, ds[i], if hasEmission then es[i] else "", hasEmission))
      ensures r != Abort(MissingSlot)
      ensures r.Abort? ==> unchanged(this)
      ensures r.Ok? ==> var hasEmission, ds, es :=
          emissionPrefix != "", Matching(entries, densityPrefix), Matching(entries, emissionPrefix);
        numFrames == |ds| && frame == 0 &&
        |densityFrames| == numFrames && |emissionFrames| == numFrames &&
        forall i | 0 <= i < numFrames ::
          FrameReadable(Shape(), files, ds[i], if hasEmission then es[i] else "", hasEmission) &&
          densityFrames[i] ==
            DensityFrame(Shape(), LoadedSamples(Lookup(files, ds[i]).value), densityScale) &&
          emissionFrames[i] ==
            EmissionFrame(Shape(), StreamOf(Shape(), Lookup(files, if hasEmission then es[i] else ""),
                                            hasEmission), hasEmission)
    {
      var hasEmission := emissionPrefix != "";
      var densityFiles, emissionFiles := ListFiles(entries, densityPrefix, emissionPrefix, hasEmission);
      var n := |densityFiles|;
      if hasEmission && n != |emissionFiles| {
        return Abort(CountMismatch);
      }
      var frames := ReadFrames(Shape(), files, densityFiles, emissionFiles, hasEmission,
                               densityScale, Resized(emissionFrames, n));
      if frames.Abort? {
        return Abort(frames.fault);
      }
      numFrames, frame := n, 0;
      densityFrames, emissionFrames := frames.value.0, frames.value.1;
      return Ok(());
    }

    /** `readVolumeData` as written: the emission grid list is resized only
        when there is an emission prefix. Without one, a texture holding fewer
        emission grids than frames has the frame loop index the list past its
        end (MissingSlot); one holding more keeps the extra grids. */
    method ReadVolumeDataAsWritten(entries: seq<string>, files: map<string, VolFile>,
                                   densityPrefix: string, emissionPrefix: string)
        returns (r: Outcome<()>)
      requires ValidLayout(Shape())
      modifies this`numFrames, this`frame, this`densityFrames, this`emissionFrames
      ensures var hasEmission, ds, es :=
          emissionPrefix != "", Matching(entries, densityPrefix), Matching(entries, emissionPrefix);
        (hasEmission && |ds| != |es| ==> r == Abort(CountMismatch)) &&
        (r == Abort(MissingSlot) <==>
           !(hasEmission && |ds| != |es|) &&
           SlotFault(Shape(), files, ds, es, hasEmission,
                     |EmissionListAsWritten(old(emissionFrames), |ds|, hasEmission)|))
      ensures r.Abort? ==> unchanged(this)
      ensures r.Ok? ==> var hasEmission, ds, es :=
          emissionPrefix != "", Matching(entries, densityPrefix), Matching(entries, emissionPrefix);
        numFrames == |ds| && frame == 0 && |densityFrames| == numFrames &&
        (hasEmission ==> |emissionFrames| == numFrames) &&
        (!hasEmission ==> numFrames <= |old(emissionFrames)| == |emissionFrames| &&
                          emissionFrames[numFrames..] == old(emissionFrames)[numFrames..]) &&
        forall i | 0 <= i < numFrames ::
          FrameReadable(Shape(), files, ds[i], if hasEmission then es[i] else "", hasEmission) &&
          densityFrames[i] ==
            DensityFrame(Shape(), LoadedSamples(Lookup(files, ds[i]).value), densityScale) &&
          emissionFrames[i] ==
            EmissionFrame(Shape(), StreamOf(Shape(), Lookup(files, if hasEmission then es[i] else ""),
                                            hasEmission), hasEmission)
    {
      var hasEmission := emissionPrefix != "";
      var densityFiles, emissionFiles := ListFiles(entries, densityPrefix, emissionPrefix, hasEmission);
      var n := |densityFiles|;
      if hasEmission && n != |emissionFiles| {
        return Abort(CountMismatch);
      }
      var frames := ReadFrames(Shape(), files, densityFiles, emissionFiles, hasEmission,
                               densityScale, EmissionListAsWritten(emissionFrames, n, hasEmission));
      if frames.Abort? {
        return Abort(frames.fault);
      }
      numFrames, frame := n, 0;
      densityFrames, emissionFrames := frames.value.0, frames.value.1;
      return Ok(());
    }

    /** `updateVolume`: the current frame's density and emission grids are
        uploaded, radiance is injected over the whole margined grid, each mip
        level from 1 below maxLod is built from the one before over half its
        extents, every dispatch with enough 4^3 work groups to cover its
        level, and the next frame (wrapping to the first) becomes current. */
    method UpdateVolume() returns (density: seq<real>, emissionGrid: seq<real>,
                                   inject: Dispatch, mips: seq<Dispatch>)
      requires Ready() && ValidLayout(Shape())
      modifies this`frame
      ensures density == densityFrames[old(frame)] && emissionGrid == emissionFrames[old(frame)]
      ensures var e := MarginedTexSize(Shape());
        inject == Dispatch(InjectRadiance, 0, e, Groups(e))
      ensures |mips| == if MaxLod(Shape()) > 1 then MaxLod(Shape()) - 1 else 0
      ensures forall i | 0 <= i < |mips| :: var s := LevelSize(MarginedTexSize(Shape()), i + 1);
        mips[i] == Dispatch(Mipmap, i + 1, s, Groups(s))
      ensures frame == NextFrame(old(frame), numFrames) && Ready()
    {
      var e := MarginedTexSize(Shape());
      density, emissionGrid := densityFrames[frame], emissionFrames[frame];
      inject := Dispatch(InjectRadiance, 0, e, Groups(e));
      mips := MipDispatches(e, MaxLod(Shape()));
      frame := NextFrame(frame, numFrames);
    }

    /** `gaussianFilter3D` over the levels the textures have: one pass per
        level from maxLod - 1 down to 0, each over that level's extents and
        with the kernel's length as its size. */
    method GaussianFilter3D() returns (passes: seq<FilterPass>)
      requires ValidLayout(Shape())
      ensures |passes| == MaxLod(Shape())
      ensures forall i | 0 <= i < |passes| :: passes[i].level == MaxLod(Shape()) - 1 - i
      ensures forall i | 0 <= i < |passes| ::
        passes[i] == Pass(MarginedTexSize(Shape()), MaxLod(Shape()) - 1 - i, MaxLod(Shape()), |kernel|)
    {
      var mipLevels := MaxLod(Shape());
      if mipLevels == 0 {
        return [];
      }
      passes := FilterSchedule(MarginedTexSize(Shape()), mipLevels - 1, mipLevels, |kernel|);
    }

    /** `gaussianFilter3D` as written: the passes start at level maxLod,
        one past the last level the textures are allocated with. */
    method GaussianFilter3DAsWritten() returns (passes: seq<FilterPass>)
      requires ValidLayout(Shape())
      ensures |passes| == MaxLod(Shape()) + 1
      ensures passes[0].level == MaxLod(Shape())
      ensures forall i | 0 <= i < |passes| ::
        passes[i] == Pass(MarginedTexSize(Shape()), MaxLod(Shape()) - i, MaxLod(Shape()), |kernel|)
    {
      var mipLevels := MaxLod(Shape());
      passes := FilterSchedule(MarginedTexSize(Shape()), mipLevels, mipLevels, |kernel|);
    }
  }
}
