/** Byte-level helpers shared by the report model and the encoders. */
module Bytes {

  datatype Option<+T> = None | Some(value: T)

  /** A C++ `uint32_t` id, as a number (the ids are only masked, shifted and compared). */
  type U32 = x: int | 0 <= x < 0x1_0000_0000

  function Min(a: int, b: int): (m: int)
    ensures m <= a && m <= b && (m == a || m == b)
  {
    if a <= b then a else b
  }

  /** `n` zero bytes: the content of a value-initialised C++ buffer. */
  function Zeros(n: nat): (z: seq<bv8>)
    ensures |z| == n
    ensures forall i :: 0 <= i < n ==> z[i] == 0
  {
    seq(n, _ => 0)
  }

  /** The byte holding a value known to be in 0..255. */
  function ByteOf(x: int): (b: bv8)
    requires 0 <= x < 256
    ensures b as int == x
  {
    x as bv8
  }

  /** C++ `(uint8_t)x` for a 16-bit value: keeps the low eight bits. */
  function Low8(x: bv16): bv8
  {
    (x & 0xFF) as bv8
  }

  /** Two bytes read as a big-endian unsigned 16-bit value. */
  function BigEndian16(hi: bv8, lo: bv8): nat
  {
    hi as nat * 256 + lo as nat
  }

  /** Two bytes read as a big-endian two's-complement 16-bit value. */
  function FromS16(hi: bv8, lo: bv8): int
  {
    var u := BigEndian16(hi, lo);
    if u >= 0x8000 then u - 0x10000 else u
  }

  /**
   * A signed 16-bit value written big-endian as `(v >> 8) & 0xFF`, `v & 0xFF`
   * (arithmetic shift of the two's-complement representation).
   */
  function S16Bytes(v: int): (bs: seq<bv8>)
    requires -0x8000 <= v <= 0x7fff
    ensures |bs| == 2
  {
    var u := v % 0x10000;
    [ByteOf(u / 256), ByteOf(u % 256)]
  }

  /** Decoding the two bytes recovers the signed value. */
  lemma S16RoundTrip(v: int)
    requires -0x8000 <= v <= 0x7fff
    ensures FromS16(S16Bytes(v)[0], S16Bytes(v)[1]) == v
  {
    var u := v % 0x10000;
    var hi, lo := S16Bytes(v)[0], S16Bytes(v)[1];
    assert hi as int == u / 256 && lo as int == u % 256;
    assert BigEndian16(hi, lo) == u;
    if v < 0 {
      assert u == v + 0x10000;
    } else {
      assert u == v;
    }
  }
}
