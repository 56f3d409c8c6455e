/** Values shared by the models: the outcome of an operation that may stop the
    program, and the small glm vector types the renderer passes around. */
module Common {

  /** Why an operation gave up. Most of these are where the program prints a
      message and terminates the process (`exit(1)` or `FatalError`);
      Truncated, TooSmall and MissingSlot mark where it reads or writes past
      the end of a buffer instead. */
  datatype Fault =
    | OpenFailed             // the file could not be opened
    | BadIdentifier          // a .vol file not starting with "VOL"
    | BadVersion             // a .vol version other than 3
    | BadType                // a .vol sample type other than 1 (float32)
    | Truncated              // fewer samples than the header announces
    | Unsupported            // sizes the program cannot represent in an int
    | CountMismatch          // density and emission frame counts differ
    | TooSmall               // a loaded grid with fewer samples than the texture interior
    | MissingSlot            // a std::vector indexed at or past its size
    | MissingKey(name: string)
    | NotAnInt(text: string)
  {
    /** A fault `VolumeData::load` stops with. */
    predicate IsLoadFault()
    {
      OpenFailed? || BadIdentifier? || BadVersion? || BadType? || Truncated? || Unsupported?
    }
  }

  datatype Option<T> = None | Some(value: T)

  datatype Outcome<T> = Ok(value: T) | Abort(fault: Fault)
  {
    predicate IsOk() { Ok? }
  }

  /** `glm::vec3` over exact reals. */
  datatype Vec3 = Vec3(x: real, y: real, z: real)
  {
    function Plus(o: Vec3): Vec3 { Vec3(x + o.x, y + o.y, z + o.z) }
    function Div(d: real): Vec3
      requires d != 0.0
    {
      Vec3(x / d, y / d, z / d)
    }
  }

  const Zero3: Vec3 := Vec3(0.0, 0.0, 0.0)

  /** `glm::vec2` over exact reals. */
  datatype Vec2 = Vec2(u: real, v: real)

  /** `glm::ivec3`. */
  datatype Int3 = Int3(x: int, y: int, z: int)

  /** `glm::ivec3 / 2`: componentwise integer division, truncating toward zero
      as C++ does (it agrees with Dafny's division on the non-negative sizes
      the program uses). */
  function Half(v: Int3): (r: Int3)
    requires v.x >= 0 && v.y >= 0 && v.z >= 0
    ensures r.x >= 0 && r.y >= 0 && r.z >= 0
    ensures 2 * r.x <= v.x < 2 * r.x + 2 && 2 * r.y <= v.y < 2 * r.y + 2
    ensures 2 * r.z <= v.z < 2 * r.z + 2
  {
    Int3(v.x / 2, v.y / 2, v.z / 2)
  }

  function Max(a: int, b: int): int { if a < b then b else a }

  /** `std::max(v.x, std::max(v.y, v.z))`. */
  function MaxComponent(v: Int3): (r: int)
    ensures r >= v.x && r >= v.y && r >= v.z
    ensures r == v.x || r == v.y || r == v.z
  {
    Max(v.x, Max(v.y, v.z))
  }
}
