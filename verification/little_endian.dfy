/** Unsigned 16-bit integers stored low byte first, as the AWS header stores them. */
module LittleEndian {
  import opened Bytes

  type uint16 = x: int | 0 <= x < 0x1_0000

  /** Reads the integer whose low byte is `lo` and whose high byte is `hi`. */
  function Uint16(lo: byte, hi: byte): uint16
  {
    lo + 0x100 * hi
  }

  /** Writes `v` as two bytes, low byte first. */
  function PutUint16(v: uint16): (r: seq<byte>)
    ensures |r| == 2
    ensures Uint16(r[0], r[1]) == v
  {
    [v % 0x100, v / 0x100]
  }

  /** Reading two bytes and writing the value back gives the same two bytes. */
  lemma PutUint16OfUint16(lo: byte, hi: byte)
    ensures PutUint16(Uint16(lo, hi)) == [lo, hi]
  {
  }
}
