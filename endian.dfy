/**
 * The little-endian field conversions of the on-disk format (le16_to_cpu,
 * le32_to_cpu and their inverses): a field is stored least significant byte first.
 */
module Endian {
  newtype byte = x: int | 0 <= x < 0x100

  const U16_LIMIT: nat := 0x1_0000
  const U32_LIMIT: nat := 0x1_0000_0000

  /** A 16-bit on-disk field, its bytes in storage order. */
  datatype Le16 = Le16(b0: byte, b1: byte)

  /** A 32-bit on-disk field, its bytes in storage order. */
  datatype Le32 = Le32(b0: byte, b1: byte, b2: byte, b3: byte)

  /** A byte below a value shifted left by eight bits is recovered by % and /. */
  lemma SplitByte(lo: nat, hi: nat)
    requires lo < 0x100
    ensures (lo + 0x100 * hi) % 0x100 == lo
    ensures (lo + 0x100 * hi) / 0x100 == hi
  {
  }

  /** le16_to_cpu: the value of a 16-bit field. */
  function Le16ToCpu(f: Le16): (v: nat)
    ensures v < U16_LIMIT
    ensures v % 0x100 == f.b0 as nat && v / 0x100 == f.b1 as nat
  {
    SplitByte(f.b0 as nat, f.b1 as nat);
    f.b0 as nat + 0x100 * f.b1 as nat
  }

  /** cpu_to_le16: the field that stores a 16-bit value. */
  function CpuToLe16(v: nat): (f: Le16)
    requires v < U16_LIMIT
    ensures Le16ToCpu(f) == v
  {
    Le16((v % 0x100) as byte, (v / 0x100) as byte)
  }

  /** Every 16-bit field is the encoding of its own value. */
  lemma Le16RoundTrip(f: Le16)
    ensures CpuToLe16(Le16ToCpu(f)) == f
  {
  }

  /** le32_to_cpu: the value of a 32-bit field. */
  function Le32ToCpu(f: Le32): (v: nat)
    ensures v < U32_LIMIT
  {
    f.b0 as nat + 0x100 * (f.b1 as nat + 0x100 * (f.b2 as nat + 0x100 * f.b3 as nat))
  }

  /** The bytes of a 32-bit field are the bytes of its value, least significant first. */
  lemma Le32ToCpuBytes(f: Le32)
    ensures Le32ToCpu(f) % 0x100 == f.b0 as nat
    ensures (Le32ToCpu(f) / 0x100) % 0x100 == f.b1 as nat
    ensures (Le32ToCpu(f) / 0x1_0000) % 0x100 == f.b2 as nat
    ensures Le32ToCpu(f) / 0x100_0000 == f.b3 as nat
  {
  }

  /** cpu_to_le32: the field that stores a 32-bit value. */
  function CpuToLe32(v: nat): (f: Le32)
    requires v < U32_LIMIT
    ensures Le32ToCpu(f) == v
  {
    var q1 := v / 0x100;
    var q2 := q1 / 0x100;
    var f := Le32((v % 0x100) as byte, (q1 % 0x100) as byte, (q2 % 0x100) as byte, (q2 / 0x100) as byte);
    assert q2 / 0x100 < 0x100;
    assert f.b2 as nat + 0x100 * f.b3 as nat == q2;
    assert f.b1 as nat + 0x100 * q2 == q1;
    f
  }

  /** Every 32-bit field is the encoding of its own value: decoding loses nothing. */
  lemma Le32RoundTrip(f: Le32)
    ensures CpuToLe32(Le32ToCpu(f)) == f
  {
  }

  /** Distinct 32-bit fields have distinct values. */
  lemma Le32Injective(f: Le32, g: Le32)
    requires Le32ToCpu(f) == Le32ToCpu(g)
    ensures f == g
  {
    Le32RoundTrip(f);
    Le32RoundTrip(g);
  }
}
