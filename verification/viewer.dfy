/** The demo program's own bookkeeping: flipping a read-back framebuffer
    upside down before it is saved, the unit cube the volume is placed
    with, when the volume is brought to its next frame, and when the window
    title shows the frame rate. */
module Viewer {
  import opened Arith
  import opened Common
  import Texture

  /** `INNER_TEX_SIZE` and `TEX_MARGIN`: the volume is 128 voxels a side
      inside a margin of 4. */
  const InnerTexSize := 128
  const TexMargin := 4

  /** The texture layout the program builds its volume with. */
  const DemoLayout := Texture.Layout(Int3(InnerTexSize, InnerTexSize, InnerTexSize),
                                     Int3(TexMargin, TexMargin, TexMargin))

  /** 136 voxels a side with the margin, so maxLod is 7: the textures get
      levels 0 to 6, the coarsest 136 / 2^6 = 2 voxels a side. */
  lemma DemoLayoutLevels()
    ensures Texture.ValidLayout(DemoLayout)
    ensures Texture.MarginedTexSize(DemoLayout) == Int3(136, 136, 136)
    ensures Texture.MaxLod(DemoLayout) == 7
  {
    Texture.FloorLog2Unique(136, 7);
  }

  // ---------------------------------------------------------------------------
  // saveCurrentBuffer: the vertical flip

  type Byte = bv8

  /** Index of the first byte-quadruple of row y: y rows of width pixels,
      counted out row by row. */
  function RowStart(y: nat, width: nat): nat
  {
    if y == 0 then 0 else RowStart(y - 1, width) + width
  }

  lemma {:induction false} RowStartIsProduct(y: nat, width: nat)
    ensures RowStart(y, width) == y * width
  {
    if y > 0 {
      RowStartIsProduct(y - 1, width);
      MulSubOne(y, width);
    }
  }

  /** A later row starts after the whole of an earlier one. */
  lemma {:induction false} RowStartOrder(y: nat, y': nat, width: nat)
    requires y < y'
    ensures RowStart(y, width) + width <= RowStart(y', width)
  {
    if y + 1 < y' {
      RowStartOrder(y, y' - 1, width);
    }
  }

  lemma OffsetFits(y: nat, x: nat, c: nat, width: nat, height: nat)
    requires y < height && x < width && c < 4
    ensures 4 * (RowStart(y, width) + x) + c < width * height * 4
  {
    RowStartOrder(y, height, width);
    RowStartIsProduct(height, width);
    assert height * width == width * height;
  }

  /** Byte c of the pixel in column x of row y of a width-by-height RGBA
      buffer, four bytes per pixel: `(y * width + x) * 4 + c`. */
  function Offset(y: nat, x: nat, c: nat, width: nat, height: nat): (k: nat)
    requires y < height && x < width && c < 4
    ensures k < width * height * 4
  {
    OffsetFits(y, x, c, width, height);
    4 * (RowStart(y, width) + x) + c
  }

  /** Distinct (row, column, channel) triples name distinct bytes. */
  lemma OffsetInjective(y: nat, x: nat, c: nat, y': nat, x': nat, c': nat, width: nat, height: nat)
    requires y < height && x < width && c < 4 && y' < height && x' < width && c' < 4
    requires Offset(y, x, c, width, height) == Offset(y', x', c', width, height)
    ensures y == y' && x == x' && c == c'
  {
    if y < y' {
      RowStartOrder(y, y', width);
    } else if y' < y {
      RowStartOrder(y', y, width);
    }
  }

  /** Every byte of the buffer is named by one triple. */
  lemma OffsetDecode(k: nat, width: nat, height: nat) returns (y: nat, x: nat, c: nat)
    requires k < width * height * 4
    ensures y < height && x < width && c < 4
    ensures Offset(y, x, c, width, height) == k
  {
    var p := k / 4;
    c := k % 4;
    RowBelow(k, 4, width * height);
    y, x := p / width, p % width;
    RowBelow(p, width, height);
    RowStartIsProduct(y, width);
  }

  /** b is a of a width-by-height RGBA image turned upside down: byte
      (y, x, c) of b is byte (height - 1 - y, x, c) of a. */
  ghost predicate IsFlip(a: seq<Byte>, b: seq<Byte>, width: nat, height: nat)
  {
    |a| == |b| == width * height * 4 &&
    forall y: nat, x: nat, c: nat | y < height && x < width && c < 4 ::
      b[Offset(y, x, c, width, height)] == a[Offset(height - 1 - y, x, c, width, height)]
  }

  /** Flipping twice gives back the image. */
  lemma FlipInvolution(a: seq<Byte>, b: seq<Byte>, c: seq<Byte>, width: nat, height: nat)
    requires IsFlip(a, b, width, height) && IsFlip(b, c, width, height)
    ensures c == a
  {
    forall k | 0 <= k < |a|
      ensures c[k] == a[k]
    {
      var y, x, ch := OffsetDecode(k, width, height);
      assert c[Offset(y, x, ch, width, height)] == b[Offset(height - 1 - y, x, ch, width, height)];
    }
  }

  /** An image has one flip: the flip is a function of the image. */
  lemma FlipUnique(a: seq<Byte>, b: seq<Byte>, b': seq<Byte>, width: nat, height: nat)
    requires IsFlip(a, b, width, height) && IsFlip(a, b', width, height)
    ensures b == b'
  {
    forall k | 0 <= k < |b|
      ensures b[k] == b'[k]
    {
      var y, x, ch := OffsetDecode(k, width, height);
      assert b[Offset(y, x, ch, width, height)] == a[Offset(height - 1 - y, x, ch, width, height)];
      assert b'[Offset(y, x, ch, width, height)] == a[Offset(height - 1 - y, x, ch, width, height)];
    }
  }

  /** With an odd number of rows the middle row stays where it is. */
  lemma MiddleRowKept(a: seq<Byte>, b: seq<Byte>, width: nat, height: nat)
    requires height % 2 == 1 && IsFlip(a, b, width, height)
    ensures forall x: nat, c: nat | x < width && c < 4 ::
      b[Offset(height / 2, x, c, width, height)] == a[Offset(height / 2, x, c, width, height)]
  {
    assert height - 1 - height / 2 == height / 2;
  }

  /** Row y' of the buffer once rows y and iy have traded places. */
  function Traded(y': nat, y: nat, iy: nat): nat
  {
    if y' == y then iy else if y' == iy then y else y'
  }

  /** The byte in (y', x', c') once rows y and iy have traded pixel x
      channels below c: where it was read from. */
  function PixelSource(y': nat, x': nat, c': nat, y: nat, iy: nat, x: nat, c: nat): nat
  {
    if x' == x && c' < c then Traded(y', y, iy) else y'
  }

  /** `std::swap` of two bytes of the buffer. */
  method Swap(bytes: array<Byte>, i: nat, j: nat)
    requires i < bytes.Length && j < bytes.Length
    modifies bytes
    ensures bytes[i] == old(bytes[j]) && bytes[j] == old(bytes[i])
    ensures forall k | 0 <= k < bytes.Length && k != i && k != j :: bytes[k] == old(bytes[k])
    ensures multiset(bytes[..]) == multiset(old(bytes[..]))
  {
    bytes[i], bytes[j] := bytes[j], bytes[i];
  }

  /** The innermost loop: the four bytes of pixel x trade places between
      rows y and iy. */
  method SwapPixel(bytes: array<Byte>, width: nat, height: nat, y: nat, iy: nat, x: nat)
    requires y < iy < height && x < width && bytes.Length == width * height * 4
    modifies bytes
    ensures forall y': nat, x': nat, c': nat | y' < height && x' < width && c' < 4 ::
      bytes[Offset(y', x', c', width, height)] ==
      old(bytes[Offset(if x' == x then Traded(y', y, iy) else y', x', c', width, height)])
    ensures multiset(bytes[..]) == multiset(old(bytes[..]))
  {
    for c := 0 to 4
      invariant forall y': nat, x': nat, c': nat | y' < height && x' < width && c' < 4 ::
        bytes[Offset(y', x', c', width, height)] ==
        old(bytes[Offset(PixelSource(y', x', c', y, iy, x, c), x', c', width, height)])
      invariant multiset(bytes[..]) == multiset(old(bytes[..]))
    {
      var i, j := Offset(y, x, c, width, height), Offset(iy, x, c, width, height);
      forall y': nat, x': nat, c': nat | y' < height && x' < width && c' < 4
        ensures var k := Offset(y', x', c', width, height);
          (k == i <==> y' == y && x' == x && c' == c) && (k == j <==> y' == iy && x' == x && c' == c)
      {
        if Offset(y', x', c', width, height) == i {
          OffsetInjective(y', x', c', y, x, c, width, height);
        }
        if Offset(y', x', c', width, height) == j {
          OffsetInjective(y', x', c', iy, x, c, width, height);
        }
      }
      Swap(bytes, i, j);
    }
  }

  /** after is before with rows y and iy traded. */
  ghost predicate RowsTraded(before: seq<Byte>, after: seq<Byte>, width: nat, height: nat, y: nat, iy: nat)
  {
    y < height && iy < height && |before| == |after| == width * height * 4 &&
    forall y': nat, x': nat, c': nat | y' < height && x' < width && c' < 4 ::
      after[Offset(y', x', c', width, height)] == before[Offset(Traded(y', y, iy), x', c', width, height)]
  }

  /** The loop over the pixels of a row: rows y and iy trade places. */
  method SwapRows(bytes: array<Byte>, width: nat, height: nat, y: nat, iy: nat)
    requires y < iy < height && bytes.Length == width * height * 4
    modifies bytes
    ensures RowsTraded(old(bytes[..]), bytes[..], width, height, y, iy)
    ensures multiset(bytes[..]) == multiset(old(bytes[..]))
  {
    for x := 0 to width
      invariant forall y': nat, x': nat, c': nat | y' < height && x' < width && c' < 4 ::
        bytes[Offset(y', x', c', width, height)] ==
        old(bytes[Offset(if x' < x then Traded(y', y, iy) else y', x', c', width, height)])
      invariant multiset(bytes[..]) == multiset(old(bytes[..]))
    {
      SwapPixel(bytes, width, height, y, iy, x);
    }
  }

  /** Row y' of the buffer once the first `done` rows have traded places
      with their mirror rows. */
  function Mirrored(y': nat, done: nat, height: nat): nat
    requires y' < height
  {
    if y' < done || y' >= height - done then height - 1 - y' else y'
  }

  /** cur is orig with its first and last `done` rows flipped. */
  ghost predicate FlippedUpTo(orig: seq<Byte>, cur: seq<Byte>, width: nat, height: nat, done: nat)
  {
    |orig| == |cur| == width * height * 4 &&
    forall y': nat, x': nat, c': nat | y' < height && x' < width && c' < 4 ::
      cur[Offset(y', x', c', width, height)] == orig[Offset(Mirrored(y', done, height), x', c', width, height)]
  }

  /** Trading row `done` with its mirror row extends the flipped border by
      one row at each end. */
  lemma FlipStep(orig: seq<Byte>, before: seq<Byte>, after: seq<Byte>, width: nat, height: nat, done: nat)
    requires done < height / 2
    requires FlippedUpTo(orig, before, width, height, done)
    requires RowsTraded(before, after, width, height, done, height - done - 1)
    ensures FlippedUpTo(orig, after, width, height, done + 1)
  {
    forall y': nat, x': nat, c': nat | y' < height && x' < width && c' < 4
      ensures after[Offset(y', x', c', width, height)] ==
        orig[Offset(Mirrored(y', done + 1, height), x', c', width, height)]
    {
      var t := Traded(y', done, height - done - 1);
      assert Mirrored(t, done, height) == Mirrored(y', done + 1, height);
      assert after[Offset(y', x', c', width, height)] == before[Offset(t, x', c', width, height)];
    }
  }

  /** Once the top half has traded places the whole buffer is flipped. */
  lemma FlipDone(orig: seq<Byte>, cur: seq<Byte>, width: nat, height: nat)
    requires FlippedUpTo(orig, cur, width, height, height / 2)
    ensures IsFlip(orig, cur, width, height)
  {
    forall y': nat, x': nat, c': nat | y' < height && x' < width && c' < 4
      ensures cur[Offset(y', x', c', width, height)] == orig[Offset(height - 1 - y', x', c', width, height)]
    {
      assert Mirrored(y', height / 2, height) == height - 1 - y';
    }
  }

  /** The flip in `saveCurrentBuffer`: row y trades places with row
      height - 1 - y for every y in the top half, so the buffer ends up
      upside down, with the same length and the same bytes. */
  method FlipRows(bytes: array<Byte>, width: nat, height: nat)
    requires bytes.Length == width * height * 4
    modifies bytes
    ensures IsFlip(old(bytes[..]), bytes[..], width, height)
    ensures multiset(bytes[..]) == multiset(old(bytes[..]))
  {
    for y := 0 to height / 2
      invariant FlippedUpTo(old(bytes[..]), bytes[..], width, height, y)
      invariant multiset(bytes[..]) == multiset(old(bytes[..]))
    {
      ghost var before := bytes[..];
      SwapRows(bytes, width, height, y, height - y - 1);
      FlipStep(old(bytes[..]), before, bytes[..], width, height, y);
    }
    FlipDone(old(bytes[..]), bytes[..], width, height);
  }

  // ---------------------------------------------------------------------------
  // REGULAR_CUBE

  /** The corners of the cube [-1, 1]^3 in the order the volume is placed
      with. */
  const RegularCube: seq<Vec3> := [
    Vec3(-1.0, -1.0, -1.0),
    Vec3( 1.0, -1.0, -1.0),
    Vec3(-1.0,  1.0, -1.0),
    Vec3(-1.0, -1.0,  1.0),
    Vec3( 1.0,  1.0, -1.0),
    Vec3(-1.0,  1.0,  1.0),
    Vec3( 1.0, -1.0,  1.0),
    Vec3( 1.0,  1.0,  1.0)
  ]

  predicate IsUnit(r: real)
  {
    r == 1.0 || r == -1.0
  }

  /** Eight distinct corners, every coordinate of them 1 or -1: each corner
      of the cube appears exactly once. */
  lemma RegularCubeCorners()
    ensures |RegularCube| == 8
    ensures forall i, j | 0 <= i < j < 8 :: RegularCube[i] != RegularCube[j]
    ensures forall i | 0 <= i < 8 ::
      IsUnit(RegularCube[i].x) && IsUnit(RegularCube[i].y) && IsUnit(RegularCube[i].z)
    ensures forall v: Vec3 | IsUnit(v.x) && IsUnit(v.y) && IsUnit(v.z) :: v in RegularCube
  {
  }

  // ---------------------------------------------------------------------------
  // The render loop

  /** `updateVolume()` of the program: the texture advances one frame and
      its pyramid is filtered, with the corrected filter schedule (every
      allocated level, from maxLod - 1 down to 0). */
  method UpdateScene(volTex: Texture.VolumeTexture)
      returns (passes: seq<Texture.FilterPass>)
    requires volTex.Ready() && Texture.ValidLayout(volTex.Shape())
    modifies volTex`frame
    ensures volTex.frame == Texture.NextFrame(old(volTex.frame), volTex.numFrames) && volTex.Ready()
    ensures |passes| == Texture.MaxLod(volTex.Shape())
    ensures forall i | 0 <= i < |passes| :: passes[i].level == Texture.MaxLod(volTex.Shape()) - 1 - i
  {
    var density, emissionGrid, inject, mips := volTex.UpdateVolume();
    passes := volTex.GaussianFilter3D();
  }

  /** `paintGL`'s guard: a volume with one frame is not updated again. */
  method PaintGL(volTex: Texture.VolumeTexture)
    requires volTex.Ready() && Texture.ValidLayout(volTex.Shape())
    modifies volTex`frame
    ensures volTex.frame ==
      if volTex.numFrames > 1 then Texture.NextFrame(old(volTex.frame), volTex.numFrames)
      else old(volTex.frame)
    ensures volTex.Ready()
  {
    if volTex.numFrames > 1 {
      var passes := UpdateScene(volTex);
    }
  }

  /** `frames` is a `uint32_t`. */
  const FrameCounterModulus := 0x1_0000_0000

  /** The value of `frames` after i iterations. */
  function Counter(i: nat): (r: nat)
    ensures r < FrameCounterModulus
  {
    i % FrameCounterModulus
  }

  /** `frames++` on a `uint32_t`: back to 0 after the largest value. */
  lemma CounterStep(i: nat)
    ensures Counter(i + 1) == if Counter(i) == FrameCounterModulus - 1 then 0 else Counter(i) + 1
  {
    Texture.ModSucc(i, FrameCounterModulus);
  }

  /** Before it wraps, the counter counts the iterations. */
  lemma CounterSmall(i: nat)
    requires i < FrameCounterModulus
    ensures Counter(i) == i
  {
    DivUnique(i, FrameCounterModulus, 0, i);
  }

  /** `fpsInterval`. */
  const FpsInterval := 30

  /** The counter values at which the title is rewritten during the first n
      iterations of the main loop. */
  function TitleFrames(n: nat): seq<nat>
  {
    if n == 0 then []
    else
      var counter := Counter(n - 1);
      TitleFrames(n - 1) + if counter % FpsInterval == 0 then [counter] else []
  }

  /** One more iteration starts a new block of 30 exactly when the
      iteration number is a multiple of 30. */
  lemma BlockStep(m: nat)
    ensures (m + FpsInterval) / FpsInterval ==
      (m + FpsInterval - 1) / FpsInterval + if m % FpsInterval == 0 then 1 else 0
    ensures m % FpsInterval == 0 ==> m == FpsInterval * ((m + FpsInterval - 1) / FpsInterval)
  {
    var q, r := m / FpsInterval, m % FpsInterval;
    if r == 0 {
      DivUnique(m + FpsInterval - 1, FpsInterval, q, FpsInterval - 1);
      DivUnique(m + FpsInterval, FpsInterval, q + 1, 0);
    } else {
      DivUnique(m + FpsInterval - 1, FpsInterval, q + 1, r - 1);
      DivUnique(m + FpsInterval, FpsInterval, q + 1, r);
    }
  }

  /** Before the counter wraps, the title is rewritten on iterations 0, 30,
      60, ...: one title per started block of 30 iterations. */
  lemma {:induction false} TitleEvery30(n: nat)
    requires n <= FrameCounterModulus
    ensures |TitleFrames(n)| == (n + FpsInterval - 1) / FpsInterval
    ensures forall i | 0 <= i < |TitleFrames(n)| :: TitleFrames(n)[i] == FpsInterval * i
  {
    if n > 0 {
      TitleEvery30(n - 1);
      BlockStep(n - 1);
      CounterSmall(n - 1);
    }
  }

  /** The end of `initializeGL` and the main loop, run for `iterations`
      iterations: the volume is updated once before the first frame, then
      once per painted frame only when it has several frames; the title is
      rewritten whenever the 32-bit frame counter is a multiple of 30. */
  method RenderLoop(volTex: Texture.VolumeTexture, iterations: nat) returns (titles: seq<nat>)
    requires volTex.Ready() && Texture.ValidLayout(volTex.Shape())
    modifies volTex`frame
    ensures volTex.Ready()
    ensures volTex.frame == Texture.Advance(old(volTex.frame), volTex.numFrames,
                                            1 + if volTex.numFrames > 1 then iterations else 0)
    ensures titles == TitleFrames(iterations)
  {
    ghost var first, n := volTex.frame, volTex.numFrames;
    var passes := UpdateScene(volTex);
    ghost var updates := 1;
    var frames := 0;
    titles := [];
    for i := 0 to iterations
      invariant volTex.Ready() && volTex.numFrames == n
      invariant updates == 1 + if n > 1 then i else 0
      invariant volTex.frame == Texture.Advance(first, n, updates)
      invariant frames == Counter(i)
      invariant titles == TitleFrames(i)
    {
      var frames', title := Iteration(volTex, frames);
      PassStep(i, frames, frames', title);
      frames, titles := frames', titles + title;
      if n > 1 {
        updates := updates + 1;
      }
    }
  }

  /** One pass of the main loop: the frame is painted, the title rewritten
      when the counter is a multiple of 30, and the counter incremented with
      32-bit wrap-around. */
  method Iteration(volTex: Texture.VolumeTexture, frames: nat) returns (frames': nat, title: seq<nat>)
    requires volTex.Ready() && Texture.ValidLayout(volTex.Shape())
    modifies volTex`frame
    ensures volTex.frame ==
      if volTex.numFrames > 1 then Texture.NextFrame(old(volTex.frame), volTex.numFrames)
      else old(volTex.frame)
    ensures volTex.Ready()
    ensures title == if frames % FpsInterval == 0 then [frames] else []
    ensures frames' == if frames == FrameCounterModulus - 1 then 0 else frames + 1
  {
    PaintGL(volTex);
    title := [];
    if frames % FpsInterval == 0 {
      title := [frames];
    }
    frames' := if frames == FrameCounterModulus - 1 then 0 else frames + 1;
  }

  /** One pass of the main loop keeps the counter and the titles in step
      with the iteration number. */
  lemma PassStep(i: nat, frames: nat, frames': nat, title: seq<nat>)
    requires frames == Counter(i)
    requires frames' == if frames == FrameCounterModulus - 1 then 0 else frames + 1
    requires title == if frames % FpsInterval == 0 then [frames] else []
    ensures frames' == Counter(i + 1) && TitleFrames(i + 1) == TitleFrames(i) + title
  {
    CounterStep(i);
    TitleStep(i, frames);
  }

  lemma TitleStep(i: nat, frames: nat)
    requires frames == Counter(i)
    ensures TitleFrames(i + 1) == TitleFrames(i) + if frames % FpsInterval == 0 then [frames] else []
  {
  }
}
