/** Bytes and fixed-width big-endian unsigned integers: what `struct.pack`
    with `">h"` and `">I"` and `int.to_bytes(width, byteorder="big")` produce
    for values that fit. */
module Bytes {
  type Byte = b: int | 0 <= b < 256

  /** 256 to the power `width`: one more than the largest `width`-byte value. */
  function Pow256(width: nat): (p: nat)
    ensures p >= 1
  {
    if width == 0 then 1 else 256 * Pow256(width - 1)
  }

  /** `n` written as `width` bytes, most significant byte first. */
  function BigEndian(n: nat, width: nat): (bs: seq<Byte>)
    requires n < Pow256(width)
    ensures |bs| == width
  {
    if width == 0 then [] else BigEndian(n / 256, width - 1) + [n % 256]
  }

  /** The unsigned value of `bs`, read most significant byte first. */
  function FromBigEndian(bs: seq<Byte>): (n: nat)
    ensures n < Pow256(|bs|)
  {
    if bs == [] then 0
    else
      var high := FromBigEndian(bs[..|bs| - 1]);
      assert high * 256 + bs[|bs| - 1] < Pow256(|bs| - 1) * 256 by {
        assert high <= Pow256(|bs| - 1) - 1;
      }
      high * 256 + bs[|bs| - 1]
  }

  /** Reading back a big-endian field gives the value written. */
  lemma {:induction false} BigEndianRoundTrip(n: nat, width: nat)
    requires n < Pow256(width)
    ensures FromBigEndian(BigEndian(n, width)) == n
  {
    if width > 0 {
      var bs := BigEndian(n, width);
      assert bs[..width - 1] == BigEndian(n / 256, width - 1);
      BigEndianRoundTrip(n / 256, width - 1);
    }
  }

  /** Every byte sequence is the big-endian form of its value: the encoding
      is a bijection between `width`-byte sequences and `[0, 256^width)`. */
  lemma {:induction false} FromBigEndianRoundTrip(bs: seq<Byte>)
    ensures BigEndian(FromBigEndian(bs), |bs|) == bs
  {
    if bs != [] {
      var init := bs[..|bs| - 1];
      var n := FromBigEndian(bs);
      assert n == FromBigEndian(init) * 256 + bs[|bs| - 1];
      assert n / 256 == FromBigEndian(init) && n % 256 == bs[|bs| - 1];
      FromBigEndianRoundTrip(init);
      assert bs == init + [bs[|bs| - 1]];
    }
  }
}
