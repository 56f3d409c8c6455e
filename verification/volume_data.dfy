/** `VolumeData` (src/core/volume_data.h, src/core/volume_data.cpp): a dense
    grid of float samples with a bounding box, filled from `.vol` files whose
    extents are rounded up to powers of two. */
module Volume {
  import opened Arith
  import opened CInt
  import opened Common
  import opened PowerOfTwo

  /** `std::numeric_limits<float>::max()` and `::min()` (the smallest positive
      normal float, 2^-126), as exact reals. */
  const FltMax: real := 340282346638528859811704183484516925440.0
  const FltMin: real := 1.0 / 85070591730234615865843651857942052864.0

  /** Offset of channel c of voxel (x, y, z) in a grid sx voxels wide and sy
      deep with ch channels per voxel: `((z * sy + y) * sx + x) * ch + c`. */
  function Index(x: int, y: int, z: int, c: int, sx: int, sy: int, ch: int): int
  {
    Flat(Flat(Flat(z, y, sy), x, sx), c, ch)
  }

  /** Where row (y, z) begins: the offset of its voxel x = 0, channel 0. */
  function RowStart(y: int, z: int, sx: int, sy: int, ch: int): int
  {
    Flat(z, y, sy) * sx * ch
  }

  predicate InGrid(x: int, y: int, z: int, c: int, sx: int, sy: int, sz: int, ch: int)
  {
    0 <= x < sx && 0 <= y < sy && 0 <= z < sz && 0 <= c < ch
  }

  /** A voxel's offset is its row's start plus its position within the row. */
  lemma IndexInRow(x: int, y: int, z: int, c: int, sx: int, sy: int, ch: int)
    ensures Index(x, y, z, c, sx, sy, ch) == RowStart(y, z, sx, sy, ch) + Flat(x, c, ch)
  {
    var r := Flat(z, y, sy);
    assert (r * sx + x) * ch == r * sx * ch + x * ch;
  }

  /** Every voxel of the grid lies inside the sx * sy * sz * ch samples. */
  lemma IndexBounds(x: int, y: int, z: int, c: int, sx: int, sy: int, sz: int, ch: int)
    requires InGrid(x, y, z, c, sx, sy, sz, ch)
    ensures 0 <= Index(x, y, z, c, sx, sy, ch) < sx * sy * sz * ch
  {
    FlatBounds(z, y, sy, sz);
    FlatBounds(Flat(z, y, sy), x, sx, sz * sy);
    FlatBounds(Flat(Flat(z, y, sy), x, sx), c, ch, sz * sy * sx);
    assert sz * sy * sx * ch == sx * sy * sz * ch;
  }

  /** Distinct voxels or channels never share a sample. */
  lemma IndexInjective(x: int, y: int, z: int, c: int, x': int, y': int, z': int, c': int,
                       sx: int, sy: int, sz: int, ch: int)
    requires InGrid(x, y, z, c, sx, sy, sz, ch) && InGrid(x', y', z', c', sx, sy, sz, ch)
    requires Index(x, y, z, c, sx, sy, ch) == Index(x', y', z', c', sx, sy, ch)
    ensures x == x' && y == y' && z == z' && c == c'
  {
    FlatInjective(Flat(Flat(z, y, sy), x, sx), c, Flat(Flat(z', y', sy), x', sx), c', ch);
    FlatInjective(Flat(z, y, sy), x, Flat(z', y', sy), x', sx);
    FlatInjective(z, y, z', y', sy);
  }

  /** Every sample belongs to some voxel and channel. */
  lemma IndexSurjective(i: int, sx: int, sy: int, sz: int, ch: int)
    requires sx > 0 && sy > 0 && ch > 0 && 0 <= i < sx * sy * sz * ch
    ensures var c, x, y, z := i % ch, (i / ch) % sx, (i / ch / sx) % sy, i / ch / sx / sy;
      InGrid(x, y, z, c, sx, sy, sz, ch) && Index(x, y, z, c, sx, sy, ch) == i
  {
    var v := i / ch;
    var w := v / sx;
    assert i < (sz * sy * sx) * ch;
    RowBelow(i, ch, sz * sy * sx);
    assert v < (sz * sy) * sx;
    RowBelow(v, sx, sz * sy);
    RowBelow(w, sy, sz);
    FlatDecode(i, ch);
    FlatDecode(v, sx);
    FlatDecode(w, sy);
  }

  /** A `.vol` file, by its decoded fields in file order: the three identifier
      bytes, the version byte, the sample type, the extents and channel count,
      the bounding box, and then the samples, x fastest, then y, then z. */
  datatype VolFile = VolFile(
    magic: seq<char>,
    version: int,
    kind: int,
    sizeX: int, sizeY: int, sizeZ: int,
    channels: int,
    bboxMin: Vec3, bboxMax: Vec3,
    samples: seq<real>)

  /** `s` with `r` written over it from offset `at` on. */
  function Paste<T>(s: seq<T>, at: int, r: seq<T>): (p: seq<T>)
    requires 0 <= at && at + |r| <= |s|
    ensures |p| == |s|
    ensures forall i | 0 <= i < |s| :: p[i] == if at <= i < at + |r| then r[i - at] else s[i]
  {
    seq(|s|, i requires 0 <= i < |s| => if at <= i < at + |r| then r[i - at] else s[i])
  }

  /** A sequence that agrees with `r` on [at, at + |r|) and with `s`
      elsewhere is `Paste(s, at, r)`. */
  lemma PasteOver<T>(p: seq<T>, s: seq<T>, at: int, r: seq<T>)
    requires 0 <= at && at + |r| <= |s| == |p|
    requires forall i | 0 <= i < |p| :: p[i] == if at <= i < at + |r| then r[i - at] else s[i]
    ensures p == Paste(s, at, r)
  {
  }

  /** Rows y < sy of planes z < sz, each ending before the next begins. */
  lemma RowEndsBefore(w: int, w': int, sx: int, ch: int)
    requires 0 <= w < w' && sx >= 0 && ch >= 0
    ensures w * sx * ch + sx * ch <= w' * sx * ch
  {
    MulLe(w + 1, w', sx * ch);
    assert (w + 1) * (sx * ch) == w * sx * ch + sx * ch;
  }

  /** Row (y, z) of a grid sy deep and sz high ends inside the grid. */
  lemma RowInside(y: int, z: int, sx: int, sy: int, sz: int, ch: int)
    requires 0 <= y < sy && 0 <= z < sz && sx >= 0 && ch >= 0
    ensures 0 <= RowStart(y, z, sx, sy, ch)
    ensures RowStart(y, z, sx, sy, ch) + sx * ch <= sx * sy * sz * ch
  {
    FlatBounds(z, y, sy, sz);
    RowEndsBefore(Flat(z, y, sy), sz * sy, sx, ch);
    assert sz * sy * sx * ch == sx * sy * sz * ch;
    MulLe(0, Flat(z, y, sy), sx * ch);
  }

  /** The identifier, version and sample type the loader accepts. */
  predicate HeaderOk(f: VolFile)
  {
    f.magic == "VOL" && f.version == 3 && f.kind == 1
  }

  /** Extents where rounding up to a power of two stays in an int, and a
      rounded-up grid whose sample count fits in an int too. */
  predicate Supported(f: VolFile)
  {
    1 <= f.sizeX <= 0x4000_0000 && 1 <= f.sizeY <= 0x4000_0000 &&
    1 <= f.sizeZ <= 0x4000_0000 && f.channels >= 0 &&
    NextPower(f.sizeX) * NextPower(f.sizeY) * NextPower(f.sizeZ) * f.channels <= IntMax
  }

  /** The file holds a sample for every voxel and channel its header announces. */
  predicate Complete(f: VolFile)
  {
    f.sizeX * f.sizeY * f.sizeZ * f.channels <= |f.samples|
  }

  /** The file holds the header's extents, all in the range the loader rounds
      up exactly, padded extents of at least the file's, and a sample for
      every voxel and channel of the file's grid. */
  predicate Fits(f: VolFile, sx: int, sy: int, sz: int)
  {
    1 <= f.sizeX <= sx && 1 <= f.sizeY <= sy && 1 <= f.sizeZ <= sz && f.channels >= 0 &&
    f.sizeX * f.sizeY * f.sizeZ * f.channels <= |f.samples|
  }

  /** The samples of row (y, z) as they follow each other in the file. */
  function FileRow(f: VolFile, y: int, z: int): (r: seq<real>)
    requires Fits(f, f.sizeX, f.sizeY, f.sizeZ) && 0 <= y < f.sizeY && 0 <= z < f.sizeZ
    ensures |r| == f.sizeX * f.channels
  {
    var start := RowStart(y, z, f.sizeX, f.sizeY, f.channels);
    RowInside(y, z, f.sizeX, f.sizeY, f.sizeZ, f.channels);
    f.samples[start .. start + f.sizeX * f.channels]
  }

  /** The padded grid after the first k rows of the file have been copied
      into a zeroed sx * sy * sz buffer, rows taken in file order. */
  ghost function Pasted(f: VolFile, sx: int, sy: int, sz: int, k: int): (p: seq<real>)
    requires Fits(f, sx, sy, sz) && 0 <= k <= f.sizeY * f.sizeZ
    ensures |p| == sx * sy * sz * f.channels
    decreases k
  {
    if k == 0 then seq(sx * sy * sz * f.channels, _ => 0.0)
    else
      var y, z := (k - 1) % f.sizeY, (k - 1) / f.sizeY;
      RowBelow(k - 1, f.sizeY, f.sizeZ);
      RowInside(y, z, sx, sy, sz, f.channels);
      MulLe(f.sizeX, sx, f.channels);
      Paste(Pasted(f, sx, sy, sz, k - 1), RowStart(y, z, sx, sy, f.channels), FileRow(f, y, z))
  }

  /** Copying row (y, z), which is row Flat(z, y, oy) of the file, is the
      step from that many rows copied to one more. */
  lemma PastedNext(f: VolFile, sx: int, sy: int, sz: int, y: int, z: int, j: int)
    requires Fits(f, sx, sy, sz) && 0 <= y < f.sizeY && 0 <= z < f.sizeZ
    requires j == Flat(z, y, f.sizeY)
    ensures 0 <= j < f.sizeY * f.sizeZ
    ensures 0 <= RowStart(y, z, sx, sy, f.channels)
    ensures RowStart(y, z, sx, sy, f.channels) + f.sizeX * f.channels <= sx * sy * sz * f.channels
    ensures Pasted(f, sx, sy, sz, j + 1) ==
      Paste(Pasted(f, sx, sy, sz, j), RowStart(y, z, sx, sy, f.channels), FileRow(f, y, z))
  {
    FlatBounds(z, y, f.sizeY, f.sizeZ);
    MulComm(f.sizeZ, f.sizeY);
    RowNumber(j, y, z, f.sizeY);
    RowInside(y, z, sx, sy, sz, f.channels);
    MulLe(f.sizeX, sx, f.channels);
  }

  /** Plane z of a grid oy rows deep starts at row Flat(z, 0, oy), the plane
      after it oy rows later, and no plane up to oz starts past row oy * oz. */
  lemma PlaneStep(z: int, oy: int, oz: int)
    requires 0 <= z <= oz && oy >= 0
    ensures Flat(z, 0, oy) + oy == Flat(z + 1, 0, oy)
    ensures Flat(z, 0, oy) <= oy * oz
    ensures z < oz ==> Flat(z + 1, 0, oy) <= oy * oz
    ensures z == oz ==> Flat(z, 0, oy) == oy * oz
  {
    MulSubOne(z + 1, oy);
    MulLe(z, oz, oy);
    if z < oz {
      MulLe(z + 1, oz, oy);
    }
    MulComm(oz, oy);
  }

  /** A voxel of the padded grid falls in the first w samples of row
      (yr, zr) exactly when it is in that row and within the first w / ch
      columns. */
  lemma InRowSegment(x: int, y: int, z: int, c: int, yr: int, zr: int,
                     sx: int, sy: int, sz: int, ch: int, ox: int)
    requires InGrid(x, y, z, c, sx, sy, sz, ch) && 0 <= yr < sy && 0 <= zr && 0 <= ox <= sx
    ensures var i, start := Index(x, y, z, c, sx, sy, ch), RowStart(yr, zr, sx, sy, ch);
      (start <= i < start + ox * ch <==> y == yr && z == zr && x < ox) &&
      (y == yr && z == zr ==> i - start == Flat(x, c, ch))
  {
    IndexInRow(x, y, z, c, sx, sy, ch);
    FlatBounds(x, c, ch, sx);
    MulLe(ox, sx, ch);
    var w, wr := Flat(z, y, sy), Flat(zr, yr, sy);
    if w == wr {
      FlatInjective(z, y, zr, yr, sy);
      if x < ox {
        FlatBounds(x, c, ch, ox);
      } else {
        MulLe(ox, x, ch);
      }
    } else if w < wr {
      RowEndsBefore(w, wr, sx, ch);
    } else {
      RowEndsBefore(wr, w, sx, ch);
    }
  }

  /** Sample c of voxel (x, y, z) sits at column x * ch + c of its file row. */
  lemma FileRowSample(f: VolFile, x: int, y: int, z: int, c: int)
    requires Fits(f, f.sizeX, f.sizeY, f.sizeZ)
    requires InGrid(x, y, z, c, f.sizeX, f.sizeY, f.sizeZ, f.channels)
    ensures 0 <= Index(x, y, z, c, f.sizeX, f.sizeY, f.channels) < |f.samples|
    ensures 0 <= Flat(x, c, f.channels) < f.sizeX * f.channels
    ensures FileRow(f, y, z)[Flat(x, c, f.channels)] ==
      f.samples[Index(x, y, z, c, f.sizeX, f.sizeY, f.channels)]
  {
    var ox, oy, ch := f.sizeX, f.sizeY, f.channels;
    IndexBounds(x, y, z, c, ox, oy, f.sizeZ, ch);
    IndexInRow(x, y, z, c, ox, oy, ch);
    FlatBounds(x, c, ch, ox);
    var start, j := RowStart(y, z, ox, oy, ch), Flat(x, c, ch);
    RowInside(y, z, ox, oy, f.sizeZ, ch);
    var row := FileRow(f, y, z);
    assert row == f.samples[start .. start + ox * ch];
    assert row[j] == f.samples[start + j];
  }

  /** Row k of the file is row (k % sy, k / sy), and no other row has number k. */
  lemma RowNumber(k: int, y: int, z: int, sy: int)
    requires sy > 0 && 0 <= k && 0 <= y < sy
    ensures Flat(z, y, sy) == k <==> y == k % sy && z == k / sy
  {
    FlatDecode(k, sy);
    if Flat(z, y, sy) == k {
      FlatInjective(z, y, k / sy, k % sy, sy);
    }
  }

  /** Sample c of voxel (x, y, z) of the file's own grid. */
  function Sample(f: VolFile, x: int, y: int, z: int, c: int): real
    requires Fits(f, f.sizeX, f.sizeY, f.sizeZ)
    requires InGrid(x, y, z, c, f.sizeX, f.sizeY, f.sizeZ, f.channels)
  {
    FileRowSample(f, x, y, z, c);
    f.samples[Index(x, y, z, c, f.sizeX, f.sizeY, f.channels)]
  }

  /** What sample c of voxel (x, y, z) of the padded grid holds once the first
      k rows of the file are copied: the file's sample when the voxel lies in
      one of those rows, within the file's width, and 0 otherwise. */
  function Partial(f: VolFile, k: int, x: int, y: int, z: int, c: int): real
    requires Fits(f, f.sizeX, f.sizeY, f.sizeZ) && 0 <= x && 0 <= y && 0 <= z && 0 <= c < f.channels
  {
    if x < f.sizeX && y < f.sizeY && z < f.sizeZ && Flat(z, y, f.sizeY) < k
    then Sample(f, x, y, z, c) else 0.0
  }

  /** A file the loader accepts: present, with a good header, extents it
      can round up, and every sample its header announces. */
  predicate Loadable(file: Option<VolFile>)
  {
    file.Some? && HeaderOk(file.value) && Supported(file.value) && Complete(file.value)
  }

  /** The padded grid the loader builds from an accepted file, in its own
      sample order. */
  ghost function LoadedSamples(f: VolFile): (s: seq<real>)
    requires HeaderOk(f) && Supported(f) && Complete(f)
  {
    NextPowerIsLeast(f.sizeX);
    NextPowerIsLeast(f.sizeY);
    NextPowerIsLeast(f.sizeZ);
    Pasted(f, NextPower(f.sizeX), NextPower(f.sizeY), NextPower(f.sizeZ), f.sizeY * f.sizeZ)
  }

  /** What the loader leaves in sample c of voxel (x, y, z) of the padded grid:
      the file's sample inside the file's extents, 0 in the padding. */
  function Loaded(f: VolFile, x: int, y: int, z: int, c: int): real
    requires Fits(f, f.sizeX, f.sizeY, f.sizeZ) && 0 <= x && 0 <= y && 0 <= z && 0 <= c < f.channels
  {
    if x < f.sizeX && y < f.sizeY && z < f.sizeZ then Sample(f, x, y, z, c) else 0.0
  }

  /** Copying row k - 1 changes exactly the voxels of that row within the
      file's width, which take their file samples. */
  lemma PastedVoxelStep(f: VolFile, sx: int, sy: int, sz: int, k: int,
                        x: int, y: int, z: int, c: int)
    requires Fits(f, sx, sy, sz) && 1 <= k <= f.sizeY * f.sizeZ
    requires InGrid(x, y, z, c, sx, sy, sz, f.channels)
    requires 0 <= Index(x, y, z, c, sx, sy, f.channels) < sx * sy * sz * f.channels
    requires Pasted(f, sx, sy, sz, k - 1)[Index(x, y, z, c, sx, sy, f.channels)] ==
      Partial(f, k - 1, x, y, z, c)
    ensures Pasted(f, sx, sy, sz, k)[Index(x, y, z, c, sx, sy, f.channels)] ==
      Partial(f, k, x, y, z, c)
  {
    var ox, oy, oz, ch := f.sizeX, f.sizeY, f.sizeZ, f.channels;
    var yr, zr := (k - 1) % oy, (k - 1) / oy;
    RowBelow(k - 1, oy, oz);
    InRowSegment(x, y, z, c, yr, zr, sx, sy, sz, ch, ox);
    if y < oy {
      RowNumber(k - 1, y, z, oy);
    }
    if x < ox && y < oy && z < oz {
      FileRowSample(f, x, y, z, c);
    }
  }

  /** After k rows, every voxel of the padded grid holds `Partial`. */
  lemma {:induction false} PastedVoxel(f: VolFile, sx: int, sy: int, sz: int, k: int,
                                       x: int, y: int, z: int, c: int)
    requires Fits(f, sx, sy, sz) && 0 <= k <= f.sizeY * f.sizeZ
    requires InGrid(x, y, z, c, sx, sy, sz, f.channels)
    ensures 0 <= Index(x, y, z, c, sx, sy, f.channels) < sx * sy * sz * f.channels
    ensures Pasted(f, sx, sy, sz, k)[Index(x, y, z, c, sx, sy, f.channels)] ==
      Partial(f, k, x, y, z, c)
    decreases k
  {
    IndexBounds(x, y, z, c, sx, sy, sz, f.channels);
    if k == 0 {
      MulLe(0, z, f.sizeY);
    } else {
      PastedVoxel(f, sx, sy, sz, k - 1, x, y, z, c);
      PastedVoxelStep(f, sx, sy, sz, k, x, y, z, c);
    }
  }

  /** Once every row of the file is copied, the padded grid holds `Loaded`. */
  lemma LoadedVoxel(f: VolFile, sx: int, sy: int, sz: int, x: int, y: int, z: int, c: int)
    requires Fits(f, sx, sy, sz) && InGrid(x, y, z, c, sx, sy, sz, f.channels)
    ensures 0 <= Index(x, y, z, c, sx, sy, f.channels) < sx * sy * sz * f.channels
    ensures Pasted(f, sx, sy, sz, f.sizeY * f.sizeZ)[Index(x, y, z, c, sx, sy, f.channels)] ==
      Loaded(f, x, y, z, c)
  {
    PastedVoxel(f, sx, sy, sz, f.sizeY * f.sizeZ, x, y, z, c);
    if x < f.sizeX && y < f.sizeY && z < f.sizeZ {
      FlatBounds(z, y, f.sizeY, f.sizeZ);
      MulComm(f.sizeZ, f.sizeY);
    }
  }

  /** The voxel spacing along one axis stays the same when the box grows from
      the file's extent `org` to the rounded-up extent `size`. */
  function GrowMax(lo: real, hi: real, org: int, size: int): (r: real)
    requires org > 0 && size > 0
    ensures (r - lo) / (size as real) == (hi - lo) / (org as real)
  {
    var d := (hi - lo) / (org as real);
    assert hi - lo == (org as real) * d;
    hi + ((size - org) as real) * d
  }

  /** A zeroed grid is the padded grid before any row is copied. */
  lemma PastedNone(f: VolFile, sx: int, sy: int, sz: int, s: seq<real>)
    requires Fits(f, sx, sy, sz) && |s| == sx * sy * sz * f.channels
    requires forall i | 0 <= i < |s| :: s[i] == 0.0
    ensures s == Pasted(f, sx, sy, sz, 0)
  {
  }

  /** `ifs.read(buffer, orgSizeX * channels floats)` while the file is at row
      (y, z): that row lands at the front of the buffer. */
  method ReadRow(f: VolFile, y: int, z: int, buffer: array<real>)
    requires Fits(f, f.sizeX, f.sizeY, f.sizeZ) && 0 <= y < f.sizeY && 0 <= z < f.sizeZ
    requires f.sizeX * f.channels <= buffer.Length
    modifies buffer
    ensures buffer[..f.sizeX * f.channels] == FileRow(f, y, z)
  {
    var row := FileRow(f, y, z);
    forall i | 0 <= i < |row| {
      buffer[i] := row[i];
    }
  }

  /** `struct VolumeData`: extents, channel count, bounding box and the
      owned sample buffer (`std::unique_ptr<float[]>`). */
  class VolumeData {
    var sizeX: int
    var sizeY: int
    var sizeZ: int
    var channels: int
    var bboxMin: Vec3
    var bboxMax: Vec3
    var data: array<real>

    /** `totalSize()`: the number of samples, sizeX * sizeY * sizeZ * channels. */
    function TotalSize(): int
      reads this
    {
      sizeX * sizeY * sizeZ * channels
    }

    /** The buffer holds exactly one sample per voxel and channel. */
    ghost predicate Valid()
      reads this
    {
      sizeX >= 0 && sizeY >= 0 && sizeZ >= 0 && channels >= 0 &&
      data.Length == TotalSize()
    }

    /** `VolumeData()`: an empty grid (the buffer is the null pointer, modelled
        as an empty array) with the box set to (FLT_MAX, FLT_MIN). */
    constructor ()
      ensures Valid() && fresh(data)
      ensures sizeX == 0 && sizeY == 0 && sizeZ == 0 && channels == 0 && data.Length == 0
      ensures bboxMin == Vec3(FltMax, FltMax, FltMax) && bboxMax == Vec3(FltMin, FltMin, FltMin)
    {
      sizeX, sizeY, sizeZ, channels := 0, 0, 0, 0;
      bboxMin := Vec3(FltMax, FltMax, FltMax);
      bboxMax := Vec3(FltMin, FltMin, FltMin);
      data := new real[0];
    }

    /** `VolumeData(sizeX, sizeY, sizeZ, channels)`: a zero-filled grid. */
    constructor Sized(sx: int, sy: int, sz: int, ch: int)
      requires sx >= 0 && sy >= 0 && sz >= 0 && ch >= 0 && sx * sy * sz * ch <= IntMax
      ensures Valid() && fresh(data)
      ensures sizeX == sx && sizeY == sy && sizeZ == sz && channels == ch
      ensures bboxMin == Vec3(FltMax, FltMax, FltMax) && bboxMax == Vec3(FltMin, FltMin, FltMin)
      ensures forall i :: 0 <= i < data.Length ==> data[i] == 0.0
    {
      sizeX, sizeY, sizeZ, channels := sx, sy, sz, ch;
      bboxMin := Vec3(FltMax, FltMax, FltMax);
      bboxMax := Vec3(FltMin, FltMin, FltMin);
      data := new real[sx * sy * sz * ch](_ => 0.0);
    }

    /** `VolumeData(const VolumeData&)`: a deep copy of vol. */
    constructor Copy(vol: VolumeData)
      requires vol.Valid()
      ensures Valid() && fresh(data)
      ensures sizeX == vol.sizeX && sizeY == vol.sizeY && sizeZ == vol.sizeZ
      ensures channels == vol.channels && bboxMin == vol.bboxMin && bboxMax == vol.bboxMax
      ensures data[..] == vol.data[..]
    {
      sizeX, sizeY, sizeZ, channels := vol.sizeX, vol.sizeY, vol.sizeZ, vol.channels;
      bboxMin, bboxMax := vol.bboxMin, vol.bboxMax;
      var copy := new real[vol.data.Length](_ => 0.0);
      forall i | 0 <= i < copy.Length {
        copy[i] := vol.data[i];
      }
      data := copy;
    }

    /** `operator()(x, y, z, c)` read as a value. */
    function At(x: int, y: int, z: int, c: int): real
      requires Valid() && InGrid(x, y, z, c, sizeX, sizeY, sizeZ, channels)
      reads this, data
    {
      IndexBounds(x, y, z, c, sizeX, sizeY, sizeZ, channels);
      data[Index(x, y, z, c, sizeX, sizeY, channels)]
    }

    /** `operator()(x, y, z, c) = v`: one sample changes, every other sample
        keeps its value. The program does no bounds check; an access outside
        the grid is undefined there and excluded here. */
    method Set(x: int, y: int, z: int, c: int, v: real)
      requires Valid() && InGrid(x, y, z, c, sizeX, sizeY, sizeZ, channels)
      modifies data
      ensures Valid() && At(x, y, z, c) == v
      ensures forall x', y', z', c' | InGrid(x', y', z', c', sizeX, sizeY, sizeZ, channels) &&
          (x', y', z', c') != (x, y, z, c) :: At(x', y', z', c') == old(At(x', y', z', c'))
    {
      IndexBounds(x, y, z, c, sizeX, sizeY, sizeZ, channels);
      data[Index(x, y, z, c, sizeX, sizeY, channels)] := v;
      forall x', y', z', c' | InGrid(x', y', z', c', sizeX, sizeY, sizeZ, channels) &&
          (x', y', z', c') != (x, y, z, c)
        ensures At(x', y', z', c') == old(At(x', y', z', c'))
      {
        IndexBounds(x', y', z', c', sizeX, sizeY, sizeZ, channels);
        if Index(x', y', z', c', sizeX, sizeY, channels) == Index(x, y, z, c, sizeX, sizeY, channels) {
          IndexInjective(x', y', z', c', x, y, z, c, sizeX, sizeY, sizeZ, channels);
        }
      }
    }

    /** `resize(sizeX, sizeY, sizeZ, channels)`: a fresh zero-filled buffer of
        the new shape; the bounding box is kept. */
    method Resize(sx: int, sy: int, sz: int, ch: int)
      requires sx >= 0 && sy >= 0 && sz >= 0 && ch >= 0 && sx * sy * sz * ch <= IntMax
      modifies this
      ensures Valid() && fresh(data)
      ensures sizeX == sx && sizeY == sy && sizeZ == sz && channels == ch
      ensures bboxMin == old(bboxMin) && bboxMax == old(bboxMax)
      ensures forall i :: 0 <= i < data.Length ==> data[i] == 0.0
    {
      sizeX, sizeY, sizeZ, channels := sx, sy, sz, ch;
      data := new real[sx * sy * sz * ch](_ => 0.0);
    }

    /** `setRange(...)`: replaces the bounding box and nothing else. */
    method SetRange(lo: Vec3, hi: Vec3)
      modifies this`bboxMin, this`bboxMax
      ensures bboxMin == lo && bboxMax == hi
    {
      bboxMin, bboxMax := lo, hi;
    }

    /** The c loop of `load` for voxel (x, y, z): its channels take the ch
        buffer entries from `done` = x * channels on, which extends the
        stretch of the row already copied from `done` to `done + channels`. */
    method StoreVoxel(buffer: array<real>, x: int, y: int, z: int, ghost done: int,
                      ghost start: int, ghost len: int, ghost before: seq<real>)
      requires buffer != data && |before| == data.Length && channels >= 0
      requires 0 <= done == x * channels && 0 <= start && start == RowStart(y, z, sizeX, sizeY, channels)
      requires done + channels <= len <= buffer.Length && start + len <= data.Length
      requires forall i | 0 <= i < data.Length ::
        data[i] == if start <= i < start + done then buffer[i - start] else before[i]
      modifies data
      ensures forall i | 0 <= i < data.Length ::
        data[i] == if start <= i < start + done + channels then buffer[i - start] else before[i]
    {
      var c := 0;
      while c < channels
        invariant 0 <= c <= channels
        invariant forall i | 0 <= i < data.Length ::
          data[i] == if start <= i < start + done + c then buffer[i - start] else before[i]
      {
        IndexInRow(x, y, z, c, sizeX, sizeY, channels);
        assert Index(x, y, z, c, sizeX, sizeY, channels) == start + done + c;
        data[Index(x, y, z, c, sizeX, sizeY, channels)] := buffer[x * channels + c];
        c := c + 1;
      }
    }

    /** The x and c loops of `load` for one row: sample c of voxel (x, y, z)
        takes `buffer[x * channels + c]` for every x below the file's width
        ox, which writes the first ox * channels buffer entries over the row. */
    method StoreRow(buffer: array<real>, y: int, z: int, ox: int)
      requires Valid() && buffer != data
      requires 0 <= y < sizeY && 0 <= z < sizeZ && 0 <= ox <= sizeX
      requires ox * channels <= buffer.Length
      modifies data
      ensures RowStart(y, z, sizeX, sizeY, channels) + ox * channels <= data.Length
      ensures data[..] == Paste(old(data[..]), RowStart(y, z, sizeX, sizeY, channels),
                                buffer[..ox * channels])
    {
      ghost var before := data[..];
      var ch := channels;
      ghost var start := RowStart(y, z, sizeX, sizeY, ch);
      RowInside(y, z, sizeX, sizeY, sizeZ, ch);
      MulLe(ox, sizeX, ch);
      var x := 0;
      while x < ox
        invariant 0 <= x <= ox && x * ch <= ox * ch
        invariant forall i | 0 <= i < data.Length ::
          data[i] == if start <= i < start + x * ch then buffer[i - start] else before[i]
      {
        assert x * ch + ch <= ox * ch by {
          MulLe(x + 1, ox, ch);
          assert (x + 1) * ch == x * ch + ch;
        }
        MulLe(0, x, ch);
        StoreVoxel(buffer, x, y, z, x * ch, start, ox * ch, before);
        assert x * ch + ch == (x + 1) * ch;
        x := x + 1;
      }
      PasteOver(data[..], before, start, buffer[..ox * ch]);
    }

    /** The y loop of `load` for plane z: rows (0, z) to (oy - 1, z) of the
        file, which are rows k to k + oy - 1 in file order, each read into
        `buffer` and written over its row of the padded grid. */
    method ReadPlane(f: VolFile, buffer: array<real>, z: int, ghost k: int)
      requires Valid() && buffer != data && channels == f.channels
      requires Fits(f, sizeX, sizeY, sizeZ) && f.sizeX * f.channels <= buffer.Length
      requires 0 <= z < f.sizeZ && k == Flat(z, 0, f.sizeY) && k + f.sizeY <= f.sizeY * f.sizeZ
      requires data[..] == Pasted(f, sizeX, sizeY, sizeZ, k)
      modifies data, buffer
      ensures data[..] == Pasted(f, sizeX, sizeY, sizeZ, k + f.sizeY)
    {
      var oy := f.sizeY;
      ghost var j := k;
      var y := 0;
      while y < oy
        invariant 0 <= y <= oy && j == k + y
        invariant data[..] == Pasted(f, sizeX, sizeY, sizeZ, j)
      {
        ghost var before := data[..];
        ReadRow(f, y, z, buffer);
        assert data[..] == before;
        StoreRow(buffer, y, z, f.sizeX);
        PastedNext(f, sizeX, sizeY, sizeZ, y, z, j);
        j := j + 1;
        y := y + 1;
      }
      assert j == k + f.sizeY;
    }

    /** The z loop of `load`: every row of the file, in file order, written
        over its row of the zeroed padded grid. */
    method ReadRows(f: VolFile, buffer: array<real>)
      requires Valid() && buffer != data && channels == f.channels
      requires Fits(f, sizeX, sizeY, sizeZ) && f.sizeX * f.channels <= buffer.Length
      requires forall i | 0 <= i < data.Length :: data[i] == 0.0
      modifies data, buffer
      ensures data[..] == Pasted(f, sizeX, sizeY, sizeZ, f.sizeY * f.sizeZ)
    {
      var oy, oz := f.sizeY, f.sizeZ;
      PastedNone(f, sizeX, sizeY, sizeZ, data[..]);
      var z := 0;
      while z < oz
        invariant 0 <= z <= oz && Flat(z, 0, oy) <= oy * oz
        invariant data[..] == Pasted(f, sizeX, sizeY, sizeZ, Flat(z, 0, oy))
      {
        ghost var k := Flat(z, 0, oy);
        PlaneStep(z, oy, oz);
        ReadPlane(f, buffer, z, k);
        assert k + oy == Flat(z + 1, 0, oy);
        z := z + 1;
      }
      PlaneStep(oz, oy, oz);
    }

    /** What `load` does once every check has passed: the extents become the
        padded ones sx, sy, sz, the box's far corner moves out to keep the
        voxel spacing, a zeroed grid replaces the old buffer, and the file's
        rows are copied in through a buffer of maxExtent * channels floats. */
    method Fill(f: VolFile, sx: int, sy: int, sz: int)
      requires Fits(f, sx, sy, sz)
      modifies this
      ensures Valid() && fresh(data)
      ensures sizeX == sx && sizeY == sy && sizeZ == sz && channels == f.channels
      ensures bboxMin == f.bboxMin
      ensures bboxMax == Vec3(GrowMax(f.bboxMin.x, f.bboxMax.x, f.sizeX, sx),
                              GrowMax(f.bboxMin.y, f.bboxMax.y, f.sizeY, sy),
                              GrowMax(f.bboxMin.z, f.bboxMax.z, f.sizeZ, sz))
      ensures data[..] == Pasted(f, sx, sy, sz, f.sizeY * f.sizeZ)
      ensures forall x, y, z, c | InGrid(x, y, z, c, sx, sy, sz, f.channels) ::
        At(x, y, z, c) == Loaded(f, x, y, z, c)
    {
      var ch := f.channels;
      channels := ch;
      bboxMin := f.bboxMin;
      sizeX, sizeY, sizeZ := sx, sy, sz;
      bboxMax := Vec3(GrowMax(f.bboxMin.x, f.bboxMax.x, f.sizeX, sx),
                      GrowMax(f.bboxMin.y, f.bboxMax.y, f.sizeY, sy),
                      GrowMax(f.bboxMin.z, f.bboxMax.z, f.sizeZ, sz));
      var maxExtent := MaxComponent(Int3(sx, sy, sz));
      MulLe(f.sizeX, maxExtent, ch);
      MulLe(0, maxExtent, ch);
      ProductNonnegative(sx, sy, sz, ch);
      var buffer := new real[maxExtent * ch];
      data := new real[sx * sy * sz * ch](_ => 0.0);
      ReadRows(f, buffer);
      forall x, y, z, c | InGrid(x, y, z, c, sx, sy, sz, ch)
        ensures At(x, y, z, c) == Loaded(f, x, y, z, c)
      {
        LoadedVoxel(f, sx, sy, sz, x, y, z, c);
      }
    }

    /** `load(filename)`, with the file given by its contents (None when it
        cannot be opened). Every check that makes the program exit happens
        before any field changes, so an aborted load leaves the object as it
        was. On success the extents are the file's rounded up to powers of
        two, the box's far corner moves out to keep the voxel spacing, and
        every voxel holds its file sample, or 0 in the padding. */
    method Load(file: Option<VolFile>) returns (r: Outcome<()>)
      modifies this
      ensures file.None? ==> r == Abort(OpenFailed)
      ensures file.Some? && file.value.magic != "VOL" ==> r == Abort(BadIdentifier)
      ensures file.Some? && file.value.magic == "VOL" && file.value.version != 3 ==>
        r == Abort(BadVersion)
      ensures (file.Some? && file.value.magic == "VOL" && file.value.version == 3 &&
               file.value.kind != 1) ==> r == Abort(BadType)
      ensures r.Ok? <==> Loadable(file)
      ensures r.Abort? ==> r.fault.IsLoadFault() && unchanged(this)
      ensures r.Ok? ==> file.Some? && HeaderOk(file.value) && Supported(file.value)
      ensures r.Ok? ==> (var f := file.value;
        Valid() && fresh(data) && Fits(f, sizeX, sizeY, sizeZ) &&
        sizeX == NextPower(f.sizeX) && sizeY == NextPower(f.sizeY) &&
        sizeZ == NextPower(f.sizeZ) && channels == f.channels &&
        bboxMin == f.bboxMin &&
        bboxMax == Vec3(GrowMax(f.bboxMin.x, f.bboxMax.x, f.sizeX, sizeX),
                        GrowMax(f.bboxMin.y, f.bboxMax.y, f.sizeY, sizeY),
                        GrowMax(f.bboxMin.z, f.bboxMax.z, f.sizeZ, sizeZ)))
      ensures r.Ok? ==> forall x, y, z, c | InGrid(x, y, z, c, sizeX, sizeY, sizeZ, channels) ::
        At(x, y, z, c) == Loaded(file.value, x, y, z, c)
      ensures r.Ok? ==> data[..] == LoadedSamples(file.value)
    {
      if file.None? {
        return Abort(OpenFailed);
      }
      var f := file.value;
      if f.magic != "VOL" {
        return Abort(BadIdentifier);
      }
      if f.version != 3 {
        return Abort(BadVersion);
      }
      if f.kind != 1 {
        return Abort(BadType);
      }
      var ox, oy, oz, ch := f.sizeX, f.sizeY, f.sizeZ, f.channels;
      if !(1 <= ox <= 0x4000_0000 && 1 <= oy <= 0x4000_0000 && 1 <= oz <= 0x4000_0000 && ch >= 0) {
        return Abort(Unsupported);
      }
      var sx := NextPowerOfTwo(ox);
      var sy := NextPowerOfTwo(oy);
      var sz := NextPowerOfTwo(oz);
      NextPowerIsLeast(ox);
      NextPowerIsLeast(oy);
      NextPowerIsLeast(oz);
      if sx * sy * sz * ch > IntMax {
        return Abort(Unsupported);
      }
      if |f.samples| < ox * oy * oz * ch {
        return Abort(Truncated);
      }
      Fill(f, sx, sy, sz);
      return Ok(());
    }

    /** `operator=` as written: the buffer is replaced by a fresh zeroed one
        before the samples are copied from `vol.data`. When vol is this very
        object, the copy reads the fresh buffer and every sample becomes 0. */
    method AssignAsWritten(vol: VolumeData)
      requires vol.Valid()
      modifies this
      ensures Valid() && fresh(data)
      ensures sizeX == old(vol.sizeX) && sizeY == old(vol.sizeY) && sizeZ == old(vol.sizeZ)
      ensures channels == old(vol.channels)
      ensures bboxMin == old(vol.bboxMin) && bboxMax == old(vol.bboxMax)
      ensures vol != this ==> data[..] == old(vol.data[..])
      ensures vol == this ==> forall i :: 0 <= i < data.Length ==> data[i] == 0.0
    {
      sizeX, sizeY, sizeZ, channels := vol.sizeX, vol.sizeY, vol.sizeZ, vol.channels;
      bboxMin, bboxMax := vol.bboxMin, vol.bboxMax;
      data := new real[sizeX * sizeY * sizeZ * channels](_ => 0.0);
      forall i | 0 <= i < data.Length {
        data[i] := vol.data[i];
      }
    }

    /** `operator=` with the self-assignment case kept apart, which is what a
        copy assignment promises: afterwards this equals what vol was. */
    method Assign(vol: VolumeData)
      requires vol.Valid()
      modifies this
      ensures Valid()
      ensures sizeX == old(vol.sizeX) && sizeY == old(vol.sizeY) && sizeZ == old(vol.sizeZ)
      ensures channels == old(vol.channels)
      ensures bboxMin == old(vol.bboxMin) && bboxMax == old(vol.bboxMax)
      ensures data[..] == old(vol.data[..])
      ensures vol != this ==> fresh(data)
    {
      if vol != this {
        sizeX, sizeY, sizeZ, channels := vol.sizeX, vol.sizeY, vol.sizeZ, vol.channels;
        bboxMin, bboxMax := vol.bboxMin, vol.bboxMax;
        data := new real[sizeX * sizeY * sizeZ * channels](_ => 0.0);
        forall i | 0 <= i < data.Length {
          data[i] := vol.data[i];
        }
      }
    }
  }

  /** A one-voxel grid holding 1.0 reads 0.0 after assigning it to itself. */
  method SelfAssignmentLosesData() returns (before: real, after: real)
    ensures before == 1.0 && after == 0.0
  {
    var v := new VolumeData.Sized(1, 1, 1, 1);
    v.data[0] := 1.0;
    before := v.data[0];
    v.AssignAsWritten(v);
    after := v.data[0];
  }
}
