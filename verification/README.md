# IndirectIlluminationLPAL core, modelled in Dafny

IndirectIlluminationLPAL renders a participating medium together with the
light it scatters onto nearby surfaces. The volume is stored as a 3D grid
of samples read from `.vol` files. It is uploaded as a margined texture,
and compute passes inject radiance into it, build a mip pyramid and
Gaussian-filter every level. This project models the CPU side of that
pipeline and proves what it computes:

- `power_of_two.dfy` (module `PowerOfTwo`): `nextPowerOfTwo`, the 32-bit
  bit-smearing routine, over `int` with its wrap-around written out
  (helpers in `cint.dfy`, module `CInt`).
- `volume_data.dfy` (module `Volume`): the `VolumeData` grid as a class over
  an `array<real>`. Covers its constructors, element access, `resize`,
  `setRange`, copy assignment and the `.vol` loader. The loader rounds every
  extent up to a power of two, stretches the bounding box to keep the voxel
  spacing, and pastes the file's rows into a zeroed grid.
- `volume_texture.dfy` (module `Texture`): `VolumeTexture` as a class. Covers
  the inner and margined extents, the mip level count and the per-level
  sizes. Also covers the work-group counts of every compute dispatch, the
  Gaussian kernel, and the frame cycle. Reading a sequence of density and
  emission frames into margined grids is modelled as well, and so is the
  `Cube` centroid.
- `config.h` as module `Settings` in `config.dfy`. Covers `strip`, the
  `name = value` line format, the bindings after `load`, `getString`, and
  `getInt` with `sscanf("%d")` semantics.
- `vertex_array_object.cpp` as module `Mesh` in `mesh.dfy`. Covers vertex
  assembly from OBJ index tuples, the vertex deduplication loop, and the
  buffers and draw count of `addMeshFromFile`.
- `main.cpp` as module `Viewer` in `viewer.dfy`. Covers the vertical flip of a
  read-back RGBA framebuffer in place, `REGULAR_CUBE`, the update guard of
  `paintGL`, and the main loop's 32-bit frame counter with its every-30-frames
  title refresh.

`arith.dfy` (module `Arith`) and `common.dfy` (module `Common`) hold shared
arithmetic lemmas and value types. Error exits of the program (`exit(1)`,
`FatalError`) become an `Abort(fault)` outcome. Floats are `real`.

## Model

| member | source | states |
|---|---|---|
| PowerOfTwo.NextPowerOfTwo | src/core/volume_data.cpp:6-16 | For a 32-bit v in 1..2^30 the result is the least power of two at least v. Every v from INT_MIN+1 to 0 gives 0. Any v above 2^30, and INT_MIN itself, gives INT_MIN. The result is always a 32-bit int. |
| PowerOfTwo.SmearBits | src/core/volume_data.cpp:8-12 | The five or-with-shift steps set every bit below the highest set bit of a non-negative v. They copy the sign bit of a negative v into every bit, so every negative v becomes -1. |
| PowerOfTwo.NextPowerIsLeast | src/core/volume_data.cpp:6-16 | v <= NextPower(v) < 2v. |
| PowerOfTwo.NextPowerIsMinimal | src/core/volume_data.cpp:6-16 | No power of two at least v is smaller than NextPower(v). |
| PowerOfTwo.NextPowerFixesPowers | src/core/volume_data.cpp:6-16 | A power of two is its own next power of two. |
| PowerOfTwo.NextPowerIdempotent | src/core/volume_data.cpp:6-16 | Rounding up twice is rounding up once. |
| PowerOfTwo.NextPowerFits | src/core/volume_data.cpp:113-115 | Extents up to 2^30 round up to at most 2^30, so the loader's grid extents stay ints. |
| Volume.IndexBounds | src/core/volume_data.cpp:54-56 | Every in-grid (x, y, z, c) addresses a sample below totalSize(). |
| Volume.IndexInjective | src/core/volume_data.cpp:54-56 | Distinct in-grid coordinates address distinct samples. |
| Volume.IndexSurjective | src/core/volume_data.cpp:54-56 | Every sample index is addressed by the in-grid coordinates decoded from it. |
| Volume.VolumeData.constructor | src/core/volume_data.cpp:18-23 | Zero extents and channels, an empty buffer, and the box set to (FLT_MAX, ...) and (FLT_MIN, ...). |
| Volume.VolumeData.Sized | src/core/volume_data.cpp:25-31 | The given extents and channels, the default box, and a zeroed buffer of totalSize() samples. |
| Volume.VolumeData.Copy | src/core/volume_data.cpp:33-36 | The copy has the original's extents, channels, box and samples in a buffer of its own. |
| Volume.VolumeData.Set | src/core/volume_data.cpp:54-56 | Writing through operator() changes exactly the addressed sample. |
| Volume.VolumeData.Resize | src/core/volume_data.cpp:58-63 | New extents and channels, a fresh zeroed buffer of totalSize() samples, and the box kept. |
| Volume.VolumeData.SetRange | src/core/volume_data.cpp:65-68 | The box becomes the given corners. |
| Volume.GrowMax | src/core/volume_data.cpp:117-123 | Stretching the far corner from the file's extent to the rounded-up one keeps the voxel spacing. |
| Volume.LoadedVoxel | src/core/volume_data.cpp:129-138 | After every file row is copied, each voxel of the padded grid holds its file sample inside the file's extents and 0 in the padding. |
| Volume.VolumeData.ReadRows | src/core/volume_data.cpp:129-138 | The z/y row loop leaves the grid equal to the zeroed grid with every file row pasted in. |
| Volume.VolumeData.Load | src/core/volume_data.cpp:70-139 | A missing file, a bad identifier, a bad version and a non-float type each abort with their own fault and change nothing. Loading succeeds exactly for a loadable file. Then the extents are the file's rounded up to powers of two, the box keeps its spacing, and each voxel holds its file sample or 0. |
| Volume.VolumeData.AssignAsWritten | src/core/volume_data.cpp:41-52 | operator= as written: another grid's fields and samples are copied. Assigning a grid to itself zeroes every sample. |
| Volume.SelfAssignmentLosesData | src/core/volume_data.cpp:41-52 | A one-voxel grid holding 1.0 holds 0.0 after self-assignment. |
| Volume.VolumeData.Assign | src/core/volume_data.cpp:41-52 | Copy assignment that leaves this equal to what vol was, self-assignment included. |
| Texture.MarginedCoversInner | src/core/volume_texture.h:45-61 | The margined grid is at least the inner one in total size and in longest extent, and the inner grid is non-empty. |
| Texture.MaxLod | src/core/volume_texture.h:103-106 | 2^maxLod <= longest margined extent < 2^(maxLod+1). |
| Texture.FloorLog2Unique | src/core/volume_texture.h:103-106 | That bracketing exponent is unique. |
| Texture.CoarsestLevel | src/core/volume_texture.h:103-106 | Halving the longest margined extent maxLod times leaves exactly one voxel. |
| Texture.RankOrder | src/core/volume_texture.cpp:221-249 | Interior voxels consume file samples in scan order: rank order is z, then y, then x order. |
| Texture.RankBounds | src/core/volume_texture.cpp:221-249 | Every interior voxel takes a sample below totalSizeInner(). |
| Texture.RankOnto | src/core/volume_texture.cpp:221-249 | Every sample below totalSizeInner() is taken by some interior voxel. |
| Texture.FrameVoxel | src/core/volume_texture.cpp:221-249 | Margin voxels hold 0 density and 0 emission. An interior voxel holds its ranked density sample times densityScale. It holds its ranked emission sample in all three channels, or 0 without emission. |
| Texture.BuildFrame | src/core/volume_texture.cpp:221-249 | The triple loop over the margined grid produces exactly those density and emission grids. |
| Texture.ListFiles | src/core/volume_texture.cpp:180-191 | The density list is the entries containing the density prefix. The emission list is the same for the emission prefix, or empty without emission. |
| Texture.MatchingMembers | src/core/volume_texture.cpp:183-191 | A name is listed exactly when it is an entry that contains the prefix. |
| Texture.EmptyPrefixMatchesAll | src/core/volume_texture.cpp:184-189 | An empty prefix occurs in every name, so every entry is listed. |
| Texture.Resized | src/core/volume_texture.cpp:198-201 | vector::resize(n) keeps the first n grids and appends empty ones. |
| Texture.ReadFrame | src/core/volume_texture.cpp:205-249 | A frame is read exactly when its files load and hold the interior's samples. It yields the density and emission grids of those files. |
| Texture.ReadFrames | src/core/volume_texture.cpp:204-252 | The frame loop over the emission list as the resizes left it. It reports MissingSlot exactly when the loop reaches a frame past that list's end with every earlier frame read and that frame's files loaded. It succeeds exactly when the list has a slot for every frame and every frame is readable. Then frame i holds the grids built from the i-th files, and the list's other entries are kept. |
| Texture.EmissionSlotMissing | src/core/volume_texture.cpp:198-212 | Without emission, with fewer earlier emission grids than density files and every file readable, the as-written resize leaves the frame loop indexing the emission list past its end. |
| Texture.GroupCount | src/core/volume_texture.cpp:294-296 | The least number of 4-wide work groups that covers the extent. |
| Texture.LevelSizeDivides | src/core/volume_texture.cpp:306-319 | Halving l times gives the margined extents divided by 2^l. |
| Texture.MipDispatches | src/core/volume_texture.cpp:306-319 | One dispatch per level 1..maxLod-1, each over that level's extents with covering group counts. |
| Texture.LevelSizes | src/core/volume_texture.cpp:333-339 | texSizeLod has maxLod+1 entries, entry l being the extents halved l times. |
| Texture.FilterSchedule | src/core/volume_texture.cpp:341-361 | One pass per level from the top level down to 0, each over that level's extents. |
| Texture.NextFrame | src/core/volume_texture.cpp:324 | The next frame is in range and wraps from the last frame to 0. |
| Texture.AdvanceIsModular | src/core/volume_texture.cpp:324 | k updates move the frame to (frame + k) mod numFrames. |
| Texture.KernelRadius | src/core/volume_texture.cpp:130 | (int)(2 sigma): the largest integer at most 2 sigma. |
| Texture.StoreWeights | src/core/volume_texture.cpp:133-138 | The kernel holds the weights for -size..size in order, and sumWgt is their sum. |
| Texture.DivideAll | src/core/volume_texture.cpp:140-142 | Every entry is divided by the sum. |
| Texture.SumDivided | src/core/volume_texture.cpp:140-142 | Dividing every entry by d divides the sum by d. |
| Texture.Normalized | src/core/volume_texture.cpp:140-142 | Dividing by the sum makes the entries sum to 1. |
| Texture.GaussianKernel | src/core/volume_texture.cpp:126-147 | 2*size+1 entries, entry k+size being weight(k) over the sum of all weights, together summing to 1. |
| Texture.MakeCube | src/core/volume_texture.h:18-25 | A cube keeps its corners and its center is their centroid. |
| Texture.TimesScales | src/core/volume_texture.h:20-24 | Adding t n times is scaling t by n. |
| Texture.TotalTranslated | src/core/volume_texture.h:20-24 | Translating n corners by t adds n t to their sum. |
| Texture.CentroidTranslated | src/core/volume_texture.h:18-25 | Translating the corners translates the center by the same vector. |
| Texture.TotalBounds | src/core/volume_texture.h:20-24 | The sum of n coordinates lies between n times their lower and upper bounds. |
| Texture.VolumeTexture.constructor | src/core/volume_texture.cpp:14-19 | The given sizes and cubes with centroid centers. Albedo 0.3, emission 1, density scale 1, emissive, one frame at frame 0, no grids yet. |
| Texture.VolumeTexture.SetAlbedo | src/core/volume_texture.h:67-69 | The albedo becomes the argument. |
| Texture.VolumeTexture.SetEmission | src/core/volume_texture.h:75-77 | The emission colour becomes the argument. |
| Texture.VolumeTexture.SetDensityScale | src/core/volume_texture.h:83-85 | The density scale becomes the argument. |
| Texture.VolumeTexture.SetVolumeType | src/core/volume_texture.h:87-89 | The volume type becomes the argument. |
| Texture.VolumeTexture.Initialize | src/core/volume_texture.cpp:126-147 | maxLod mip levels and the normalized kernel of radius (int)(2 sigma): 9 entries summing to 1. |
| Texture.VolumeTexture.ReadVolumeData | src/core/volume_texture.cpp:177-257 | The corrected readVolumeData. Unequal density and emission counts abort. Reading succeeds exactly when every frame is readable, and no list is indexed past its end. Then numFrames is the density file count, frame is 0, and frame i holds the grids built from the i-th files. An abort leaves the texture unchanged. |
| Texture.VolumeTexture.ReadVolumeDataAsWritten | src/core/volume_texture.cpp:177-257 | readVolumeData as written. Without emission the emission list keeps its earlier length. The read aborts with MissingSlot exactly when the frame loop reaches the end of that list. On success the frames' grids are in front, and any extra earlier emission grids are kept. |
| Texture.VolumeTexture.UpdateVolume | src/core/volume_texture.cpp:259-325 | The current frame's grids are uploaded and injection covers the margined grid. The mip dispatches cover levels 1..maxLod-1, and the frame advances with wrap-around. |
| Texture.VolumeTexture.GaussianFilter3D | src/core/volume_texture.cpp:327-364 | One pass per allocated level, from maxLod-1 down to 0, each over that level's extents with the kernel's length. |
| Texture.VolumeTexture.GaussianFilter3DAsWritten | src/core/volume_texture.cpp:341-361 | As written: maxLod+1 passes, the first binding level maxLod. |
| Settings.StripEnds | src/core/config.h:116-123 | The result is the input when it is all spaces. Otherwise it neither starts nor ends with a space. |
| Settings.StripRemovesSpaces | src/core/config.h:116-123 | Only spaces are removed, and only from both ends. |
| Settings.StripKeepsSpaces | src/core/config.h:116-123 | A string of spaces only, the empty one included, comes back unchanged. |
| Settings.StripIdempotent | src/core/config.h:116-123 | Stripping twice is stripping once. |
| Settings.ParseLineShape | src/core/config.h:32-45 | A parsed line binds a white-space-free name to a value that neither starts nor ends with a space. |
| Settings.ParseWritten | src/core/config.h:32-45 | A line written as "name = value" parses back to (name, value). |
| Settings.BindStep | src/core/config.h:31-47 | Reading one more line adds its binding, if any, over the earlier ones. |
| Settings.LastWriteWins | src/core/config.h:46 | A name takes the value of its last binding. |
| Settings.UndefinedKept | src/core/config.h:31-47 | A name no line binds keeps its earlier value or stays absent. |
| Settings.Config.constructor | src/core/config.h:16 | A new configuration has no bindings. |
| Settings.Config.Load | src/core/config.h:21-56 | A file that cannot be opened aborts and changes nothing. Otherwise the bindings are the earlier ones updated by every parsed line in order. |
| Settings.Config.GetString | src/core/config.h:58-65 | The bound value, or MissingKey exactly when the name is unbound. |
| Settings.Config.GetInt | src/core/config.h:77-88 | MissingKey for an unbound name and NotAnInt for a value `%d` cannot read. Otherwise the integer `%d` reads. |
| Settings.ScanShow | src/core/config.h:84-86 | `%d` reads back any written integer, whatever non-digit text follows. |
| Settings.ScanDigits | src/core/config.h:84-86 | After an optional '-', `%d` reads exactly the leading digits. |
| Mesh.Equal | src/core/vertex_array_object.cpp:20-25 | Vertex equality holds exactly when position, texcoord and normal all agree. |
| Mesh.Assemble | src/core/vertex_array_object.cpp:93-115 | A negative index keeps the default attribute. A non-negative index takes the attribute from its slot of the attribute arrays. |
| Mesh.UniqueSpec | src/core/vertex_array_object.cpp:117-121 | The kept vertices are exactly the assembled ones, without repeats, and no more of them. |
| Mesh.Visit | src/core/vertex_array_object.cpp:117-121 | One tuple: a new vertex is appended and numbered, and the index names the vertex's entry. |
| Mesh.VisitShape | src/core/vertex_array_object.cpp:92-122 | One shape keeps the deduplication invariant over all its assembled vertices. |
| Mesh.Deduplicate | src/core/vertex_array_object.cpp:88-123 | The vertex list is the distinct assembled vertices in first-occurrence order. There is one index per tuple, naming that tuple's vertex. |
| Mesh.VertexArrayObject.AddMeshFromFile | src/core/vertex_array_object.cpp:72-143 | A file that does not load aborts and changes nothing. Otherwise the buffers get the deduplicated vertices and indices, and bufferSize is the index count. |
| Viewer.DemoLayoutLevels | src/main.cpp:29-30 | The demo layout is valid and 136 voxels a side with its margin, with maxLod 7. |
| Viewer.Offset | src/main.cpp:65 | Every swapped byte offset lies inside the width*height*4 buffer. |
| Viewer.OffsetInjective | src/main.cpp:65 | Distinct (row, column, channel) triples address distinct bytes. |
| Viewer.OffsetDecode | src/main.cpp:57-65 | Every byte of the buffer is addressed by some (row, column, channel). |
| Viewer.Swap | src/main.cpp:65 | std::swap exchanges the two bytes and leaves the rest and the multiset of bytes unchanged. |
| Viewer.SwapPixel | src/main.cpp:63-66 | The four channels of the two pixels are exchanged and nothing else changes. |
| Viewer.SwapRows | src/main.cpp:62-67 | Rows y and height-y-1 are exchanged, and the other rows and the multiset of bytes are unchanged. |
| Viewer.FlipStep | src/main.cpp:61-68 | After y row pairs, the outer y rows at each end are mirrored and the middle is untouched. |
| Viewer.FlipRows | src/main.cpp:61-68 | Row y of the result is row height-1-y of the input, and the bytes are a permutation of the input's. |
| Viewer.FlipInvolution | src/main.cpp:61-68 | Flipping twice gives the original buffer back. |
| Viewer.FlipUnique | src/main.cpp:61-68 | A buffer has exactly one flip. |
| Viewer.MiddleRowKept | src/main.cpp:61-68 | With an odd height the middle row stays where it is. |
| Viewer.RegularCubeCorners | src/main.cpp:42-51 | Eight distinct corners with every coordinate ±1, and every ±1 vector is one of them. |
| Viewer.UpdateScene | src/main.cpp:79-82 | The volume advances one frame. The corrected filter then runs one pass per allocated level, from maxLod-1 down to 0. |
| Viewer.PaintGL | src/main.cpp:174-176 | The volume advances only when it has more than one frame. |
| Viewer.CounterStep | src/main.cpp:277 | frames++ on a uint32_t: the next value, or 0 after 2^32-1. |
| Viewer.TitleEvery30 | src/main.cpp:268-273 | Before the counter wraps, the title is rewritten at counts 0, 30, 60, ..., once per started block of 30. |
| Viewer.Iteration | src/main.cpp:256-278 | One loop pass: paint, a title when the counter is a multiple of 30, and the counter incremented with wrap-around. |
| Viewer.RenderLoop | src/main.cpp:252-278 | After initializeGL's update and n iterations, the frame has advanced 1 + n times modulo numFrames, or only once for a single frame. The titles are those the wrapping counter selects. |

## Left out

- OpenGL, GLFW, the compute shaders and file I/O are not modelled. Textures are the integer bookkeeping around them: levels, extents, work groups and the data handed over. Files are given by their parsed contents. A directory listing is the sequence of its entries' full paths, in directory order.
- Floats are modelled as `real`, so rounding, NaN and -0 are not captured. The Gaussian weights `exp(-beta k^2)` are a parameter required to be positive.
- The program ends on `exit(1)` and `FatalError`. The model returns `Abort(fault)` instead. `VolumeData::load`, `Config::load` and both models of `readVolumeData` leave the object unchanged when they abort. The program assigns `numFrames_` before its count check, but it exits there.
- Volume.VolumeData.Load: a file with fewer samples than its header announces aborts with `Truncated`. The program reads past the end of the stream and keeps whatever the buffer held.
- Volume.VolumeData.Load: extents above 2^30, negative channel counts and grids whose sample count overflows an int abort with `Unsupported`. The program computes with overflowed ints there.
- Volume.VolumeData.Load: a header extent of 0 or below also aborts with `Unsupported`. The program rounds an extent from INT_MIN+1 to 0 up to 0 (see `PowerOfTwo.NextPowerOfTwo`) and allocates an empty grid, which its row loops leave empty. It then divides the box by that extent: an extent of 0 makes the far corner non-finite, and a negative one moves it back onto the near corner. INT_MIN rounds to INT_MIN, and the allocation size is then negative. The model gives neither the grid nor the box for such a file.
- Texture.ReadFrame: a grid with fewer samples than the interior aborts with `TooSmall`. The program reads past the end of its buffer.
- Texture.VolumeTexture.UpdateVolume: requires at least one frame. With zero frames the program indexes an empty vector and divides by zero.
- Texture.MaxLod: `floor(log2(float))` is modelled as the integer floor of log2. The two agree while the longest margined extent is exactly representable as a float (up to 2^24). Above that the conversion to float can round up to the next power of two.
- Texture.VolumeTexture.Initialize: the texture parameters and the upload of the kernel to a texture buffer are not modelled.
- `getPath`, `getFloat` and `getVec3D` (src/core/config.h:67-114) are not part of this model. They need path canonicalisation and float parsing.
- Settings.Config.GetInt: `%d` overflow is not modelled, so values beyond 32 bits read as themselves.
- Viewer.FlipRows: `width * height * 4` overflowing an int is not modelled. Nor is `glReadPixels`, the PNG write or the window size query.
- Mesh.VertexArrayObject.AddMeshFromFile: requires every OBJ index to be in range, which the OBJ loader guarantees. `uint32_t` index overflow past 2^32 vertices is not modelled.
- The camera animation, glm transforms and the timer's measured duration are not modelled. The title records the counter value at which it is rewritten.
- Viewer.TitleEvery30: proved up to 2^32 iterations. After the counter wraps, the title cadence restarts at 0. 2^32 is not a multiple of 30, so one block is then cut short; RenderLoop's titles cover that through the wrapping counter.
- Viewer.UpdateScene: composes the corrected `GaussianFilter3D`, whose passes cover levels maxLod-1 down to 0. main.cpp:81 runs the filter as written, whose first pass names the unallocated level maxLod (second row under "## Findings"; `GaussianFilter3DAsWritten` models that schedule).
- The centroid of `REGULAR_CUBE` itself is not proved. Only how centroids move under translation is.

## Findings

| source | as written | input that shows it | evidently intended | confidence | as-written member | corrected member |
|---|---|---|---|---|---|---|
| src/core/volume_texture.cpp:198-212 | The emission grid list is resized only when an emission prefix is given, but every frame's emission grid is then indexed and resized. `ReadVolumeDataAsWritten` aborts with MissingSlot exactly when the loop reaches that list's end. | `readVolumeData(folder, "density")` on a fresh texture with one density file: the emission list is empty and entry 0 is indexed. | Resize the emission grid list to numFrames unconditionally. | not executed | Texture.EmissionSlotMissing | Texture.VolumeTexture.ReadVolumeData |
| src/core/volume_texture.cpp:341-361 | The filter loop starts at level maxLod, but the textures are allocated with maxLod levels (0..maxLod-1, line 48). | The demo's 136^3 layout has maxLod 7, and the first pass binds level 7, which does not exist. | Filter levels maxLod-1 down to 0. | not executed | Texture.VolumeTexture.GaussianFilter3DAsWritten | Texture.VolumeTexture.GaussianFilter3D |
| src/core/volume_data.cpp:41-52 | operator= replaces the buffer before copying from vol's buffer, which is the new zeroed buffer when vol is this object. | `v = v` on a one-voxel grid holding 1.0 leaves it holding 0.0. | Skip the copy on self-assignment. | not executed | Volume.SelfAssignmentLosesData | Volume.VolumeData.Assign |
