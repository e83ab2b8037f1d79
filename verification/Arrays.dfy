/** Decoded tiles: the array type async-tiff hands over, and how one pixel is read from it. */
module Arrays {
  import opened Wrappers

  /** A decoded tile: its three dimensions, its elements, and the byte width of one element. */
  datatype Array<V> = Array(d0: nat, d1: nat, d2: nat, data: seq<V>, elementBytes: nat)

  /** How the three dimensions are to be read. */
  datatype Planar = Chunky | Planar | Unknown

  /** Resident size of a decoded tile. */
  function ArrayBytes<V>(a: Array<V>): nat {
    |a.data| * a.elementBytes
  }

  /** The element at (row, col, band0); None when the shape or the data does not contain it. */
  function SampleArray<V>(a: Array<V>, planar: Planar, row: nat, col: nat, band0: nat): Option<V> {
    match planar
    case Chunky =>
      if row >= a.d0 || col >= a.d1 || band0 >= a.d2 then None else Get(a.data, (row * a.d1 + col) * a.d2 + band0)
    case Planar =>
      if band0 >= a.d0 || row >= a.d1 || col >= a.d2 then None else Get(a.data, (band0 * a.d1 + row) * a.d2 + col)
    case Unknown => None
  }

  function Get<V>(data: seq<V>, i: int): Option<V> {
    if 0 <= i < |data| then Some(data[i]) else None
  }
}
