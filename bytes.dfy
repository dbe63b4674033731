/**
 * Byte-level building blocks shared by the Facedancer framing protocol and the
 * USB setup-packet builder: the byte type, little-endian 16-bit fields as
 * Python's struct module packs them with the 'H' code under '<', and the
 * failure-carrying result types used for the source's exceptions.
 */
module Bytes {

  /** A byte as Python's `bytes` holds it: an integer in 0..255. */
  type byte = b: int | 0 <= b < 256

  const U16Limit: nat := 0x1_0000

  datatype Option<+T> = None | Some(value: T)

  datatype Result<+T, +E> = Success(value: T) | Failure(error: E)

  datatype Outcome<+E> = Pass | Fail(error: E)

  /** The value of a little-endian 16-bit field whose bytes are `lo`, `hi`. */
  function LeU16(lo: byte, hi: byte): (v: nat)
    ensures v < U16Limit
  {
    lo + 256 * hi
  }

  /** `struct.pack('<H', v)`: the two bytes of `v`, low byte first. */
  function U16Le(v: nat): (r: seq<byte>)
    requires v < U16Limit
    ensures |r| == 2 && r[0] as int + 256 * r[1] as int == v
  {
    [v % 256, v / 256]
  }

  /** Packing is the inverse of reading back: any two bytes are the packing of their value. */
  lemma U16LeOfLeU16(lo: byte, hi: byte)
    ensures U16Le(LeU16(lo, hi)) == [lo, hi]
  {
    var v := LeU16(lo, hi);
    assert v % 256 == lo && v / 256 == hi by {
      assert v == hi * 256 + lo;
    }
  }
}
