/**
 * The graphics core's value types: two- and three-dimensional sizes
 * (unsigned 32-bit components) and offsets (signed 32-bit components).
 * A three-dimensional type extends its two-dimensional base with one more
 * component; `Base()` is the C++ slicing conversion to the base struct.
 */
module CgTypes {
  newtype u32 = x: int | 0 <= x < 0x1_0000_0000
  newtype i32 = x: int | -0x8000_0000 <= x < 0x8000_0000

  datatype Size2 = Size2(width: u32, height: u32)
  {
    /** `operator==`: every component agrees. */
    predicate Eq(other: Size2) { width == other.width && height == other.height }
    /** `operator!=`: the negation of `operator==`. */
    predicate Ne(other: Size2) { !Eq(other) }
  }

  datatype Size3 = Size3(width: u32, height: u32, depth: u32)
  {
    function Base(): Size2 { Size2(width, height) }
    /** `operator==`: the base parts are equal and the depths agree. */
    predicate Eq(other: Size3) { Base().Eq(other.Base()) && depth == other.depth }
    predicate Ne(other: Size3) { !Eq(other) }
  }

  datatype Offset2 = Offset2(x: i32, y: i32)
  {
    predicate Eq(other: Offset2) { x == other.x && y == other.y }
    predicate Ne(other: Offset2) { !Eq(other) }
  }

  datatype Offset3 = Offset3(x: i32, y: i32, z: i32)
  {
    function Base(): Offset2 { Offset2(x, y) }
    predicate Eq(other: Offset3) { Base().Eq(other.Base()) && z == other.z }
    predicate Ne(other: Offset3) { !Eq(other) }
  }

  /** `Size2(uint32_t size)`: a square size. */
  function Size2Of(size: u32): (r: Size2)
    ensures r.width == size && r.height == size
  {
    Size2(size, size)
  }

  /** `Size3(Size2 size2, uint32_t depth)`: extends a base size with a depth. */
  function Size3From(size2: Size2, depth: u32): (r: Size3)
    ensures r.Base() == size2 && r.depth == depth
  {
    Size3(size2.width, size2.height, depth)
  }

  /** `Size3(uint32_t size)`: a cube. */
  function Size3Of(size: u32): (r: Size3)
    ensures r.Base() == Size2Of(size) && r.depth == size
  {
    Size3From(Size2Of(size), size)
  }

  /** `Offset2(int32_t value = 0)`: both components equal to `value`. */
  function Offset2Of(value: i32): (r: Offset2)
    ensures r.x == value && r.y == value
  {
    Offset2(value, value)
  }

  /** `Offset3(Offset2 offset2, int32_t z)`. */
  function Offset3From(offset2: Offset2, z: i32): (r: Offset3)
    ensures r.Base() == offset2 && r.z == z
  {
    Offset3(offset2.x, offset2.y, z)
  }

  /** `Offset3(int32_t value = 0)`: delegates to the three-component constructor. */
  function Offset3Of(value: i32): (r: Offset3)
    ensures r.Base() == Offset2Of(value) && r.z == value
  {
    Offset3(value, value, value)
  }

  /** `==` holds exactly when every component agrees and `!=` is its negation,
      for all four types. */
  lemma EqualityIsComponentwise(a2: Size2, b2: Size2, a3: Size3, b3: Size3,
                                c2: Offset2, d2: Offset2, c3: Offset3, d3: Offset3)
    ensures a2.Eq(b2) <==> a2 == b2
    ensures a2.Ne(b2) <==> a2 != b2
    ensures a3.Eq(b3) <==> a3 == b3
    ensures a3.Ne(b3) <==> a3 != b3
    ensures c2.Eq(d2) <==> c2 == d2
    ensures c2.Ne(d2) <==> c2 != d2
    ensures c3.Eq(d3) <==> c3 == d3
    ensures c3.Ne(d3) <==> c3 != d3
  {
  }

  /** Building from a base part agrees with the component constructors, and
      the uniform constructors repeat their argument. */
  lemma ComposedConstructors(w: u32, h: u32, d: u32, x: i32, y: i32, z: i32)
    ensures Size3From(Size2(w, h), d).Eq(Size3(w, h, d))
    ensures Size3Of(d) == Size3(d, d, d)
    ensures Offset2Of(0) == Offset2(0, 0)
    ensures Offset3Of(z) == Offset3(z, z, z)
    ensures Offset3From(Offset2(x, y), z).Eq(Offset3(x, y, z))
  {
  }

  /** The values checked by the unit tests of these types. */
  lemma TypesExamples()
    ensures Size2Of(20).Eq(Size2(20, 20)) && !Size2Of(20).Eq(Size2(1, 2))
    ensures Size2(1, 2).Ne(Size2(2, 1))
    ensures Size3Of(30).Eq(Size3(30, 30, 30)) && Size3(1, 2, 3).Ne(Size3(1, 2, 4))
    ensures !Size3(1, 2, 3).Ne(Size3From(Size2(1, 2), 3))
    ensures Offset2Of(-20).Eq(Offset2(-20, -20)) && Offset2(-1, 2).Ne(Offset2(2, -1))
    ensures Offset3Of(3).Eq(Offset3(3, 3, 3)) && Offset3(-1, 2, -3).Ne(Offset3(3, -1, 1))
    ensures Offset3(-1, 2, -3).Eq(Offset3From(Offset2(-1, 2), -3))
  {
  }
}
