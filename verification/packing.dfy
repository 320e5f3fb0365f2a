/** The 64-bit keys that name a module (modid, cmdid) and a host (ip, port).

    Every component builds them as ((uint64_t)hi << 32) + lo from two C ints, so a negative low
    half is sign-extended by the addition and borrows one from the high half. */
module Packing {

  const TWO31: int := 0x8000_0000
  const TWO32: int := 0x1_0000_0000
  const TWO64: int := 0x1_0000_0000_0000_0000

  type Int32 = x: int | -0x8000_0000 <= x < 0x8000_0000
  type UInt32 = x: int | 0 <= x < 0x1_0000_0000
  type UInt64 = x: int | 0 <= x < 0x1_0000_0000_0000_0000

  /** Conversion of any C integer to int32_t, as gcc defines it: the low 32 bits, read signed. */
  function ToInt32(x: int): Int32 {
    var low := x % TWO32;
    if low < TWO31 then low else low - TWO32
  }

  function ToUInt32(x: int): UInt32 {
    x % TWO32
  }

  function ToUInt64(x: int): UInt64 {
    x % TWO64
  }

  /** ((uint64_t)hi << 32) + lo, step by step: each operand is first converted to uint64_t. */
  function Pack(hi: int, lo: int): UInt64 {
    ToUInt64(ToUInt64(ToUInt64(hi) * TWO32) + ToUInt64(lo))
  }

  /** int(key >> 32) */
  function High(key: UInt64): Int32 {
    ToInt32(key / TWO32)
  }

  /** int(key) */
  function Low(key: UInt64): Int32 {
    ToInt32(key)
  }

  /** The key obtained when a key is unpacked into two ints and packed again, which is how a push
      task addresses a module. */
  function Repack(key: UInt64): UInt64 {
    Pack(High(key), Low(key))
  }

  /** A key survives unpacking exactly when its low half is not negative as an int. */
  predicate Addressable(key: UInt64) {
    key % TWO32 < TWO31
  }

  /** Shifting into 64 bits keeps the low 32 bits of the operand. */
  lemma Shifted(hi: Int32)
    ensures ToUInt64(ToUInt64(hi) * TWO32) == ToUInt32(hi) * TWO32
  {
    if hi < 0 {
      assert ToUInt64(hi) == hi + TWO64;
      assert (hi + TWO64) * TWO32 == (hi + TWO32) * TWO32 + (TWO32 - 1) * TWO64;
    }
  }

  lemma PackValue(hi: Int32, lo: Int32)
    ensures Pack(hi, lo) == ToUInt32(if lo < 0 then hi - 1 else hi) * TWO32 + ToUInt32(lo)
  {
    Shifted(hi);
    assert Pack(hi, lo) == ToUInt64(ToUInt32(hi) * TWO32 + ToUInt64(lo));
    assert ToUInt64(lo) == if lo < 0 then lo + TWO64 else lo;
    assert ToUInt32(hi) == if hi < 0 then hi + TWO32 else hi;
  }

  /** Storing the high half as an unsigned int does not change the key. */
  lemma PackUnsigned(hi: Int32, lo: Int32)
    ensures Pack(ToUInt32(hi), lo) == Pack(hi, lo)
  {
    var u := if hi < 0 then hi + TWO32 else hi;
    assert ToUInt32(hi) == u;
    var h := if hi < 0 then hi + TWO64 else hi;
    assert ToUInt64(hi) == h;
    assert h * TWO32 == u * TWO32 + (if hi < 0 then (TWO32 - 1) * TWO64 else 0);
    assert ToUInt64(h * TWO32) == ToUInt64(u * TWO32);
  }

  /** Two pairs of ints never share a key. */
  lemma PackInjective(hi: Int32, lo: Int32, hi': Int32, lo': Int32)
    ensures Pack(hi, lo) == Pack(hi', lo') <==> hi == hi' && lo == lo'
  {
    hide Pack;
    PackValue(hi, lo);
    PackValue(hi', lo');
  }

  lemma SplitKey(h: UInt32, l: UInt32)
    ensures (h * TWO32 + l) / TWO32 == h && (h * TWO32 + l) % TWO32 == l
  {
  }

  /** Unpacking gives the pair back exactly when the low half is not negative; otherwise the high
      half comes back one too small. */
  lemma UnpackPack(hi: Int32, lo: Int32)
    ensures Low(Pack(hi, lo)) == lo
    ensures High(Pack(hi, lo)) == ToInt32(if lo < 0 then hi - 1 else hi)
    ensures (High(Pack(hi, lo)), Low(Pack(hi, lo))) == (hi, lo) <==> 0 <= lo
    ensures Addressable(Pack(hi, lo)) <==> 0 <= lo
  {
    hide Pack;
    PackValue(hi, lo);
    SplitKey(ToUInt32(if lo < 0 then hi - 1 else hi), ToUInt32(lo));
  }

  lemma RepackIff(key: UInt64)
    ensures Repack(key) == key <==> Addressable(key)
  {
    hide Pack;
    PackValue(High(key), Low(key));
  }
}
