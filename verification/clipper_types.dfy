/** Value types shared with the polygon kernel: 32- and 64-bit signed integers
    and the kernel's integer point with a spare Z field. A path is a closed
    polygon given as its vertex sequence; a polygon set is a sequence of paths. */
module ClipperTypes {

  const Two31: int := 0x8000_0000
  const Two32: int := 0x1_0000_0000
  const Two63: int := 0x8000_0000_0000_0000
  const Two64: int := 0x1_0000_0000_0000_0000

  /** C++ `int` */
  type Int32 = x: int | -0x8000_0000 <= x < 0x8000_0000

  /** The kernel's coordinate type `cInt` (signed 64-bit) */
  type CInt = x: int | -0x8000_0000_0000_0000 <= x < 0x8000_0000_0000_0000

  /** A kernel vertex. `z` is the spare field: it carries a colour pointer,
      a packed back-reference or a placeholder, never a coordinate. */
  datatype Point = Point(x: CInt, y: CInt, z: CInt)

  type Path = seq<Point>

  /** The kernel's `Paths`; the slicer's `Polygons` wraps exactly this. */
  type Paths = seq<Path>

  /** Null pointer value as it appears in a Z field. */
  const Null: CInt := 0
}
