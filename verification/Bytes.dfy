/** Bytes, machine widths and little-endian integers, as the metadata file lays them out. */
module Bytes {
  newtype byte = x: int | 0 <= x < 256

  const U32_SPAN: nat := 0x1_0000_0000
  const U64_SPAN: nat := 0x1_0000_0000_0000_0000

  lemma NarrowBack(k: bv8)
    ensures (k as int) as bv8 == k
  {}

  lemma NarrowSucc(k: bv8)
    requires k != 255
    ensures (k + 1) as int == k as int + 1
  {}

  /** Every byte value is the value of some eight bits. */
  lemma {:induction false} NarrowOnto(v: nat) returns (k: bv8)
    requires v < 256
    ensures k as int == v
  {
    if v == 0 {
      k := 0;
    } else {
      k := NarrowOnto(v - 1);
      assert k != 255;
      NarrowSucc(k);
      k := k + 1;
    }
  }

  lemma NarrowRoundTrip(v: int)
    requires 0 <= v < 256
    ensures (v as bv8) as int == v
  {
    var k := NarrowOnto(v);
    NarrowBack(k);
  }

  /** 256 to the power `k`: the number of values that `k` bytes can hold. */
  function Span(k: nat): (n: nat)
    ensures n >= 1
  {
    if k == 0 then 1 else 256 * Span(k - 1)
  }

  /** `to_le_bytes` of an integer of `k` bytes. */
  function ToLE(v: nat, k: nat): (bs: seq<byte>)
    ensures |bs| == k
  {
    if k == 0 then [] else [(v % 256) as byte] + ToLE(v / 256, k - 1)
  }

  /** `from_le_bytes`. */
  function FromLE(bs: seq<byte>): nat {
    if bs == [] then 0 else bs[0] as nat + 256 * FromLE(bs[1..])
  }

  lemma {:induction false} FromLEOfToLE(v: nat, k: nat)
    requires v < Span(k)
    ensures FromLE(ToLE(v, k)) == v
  {
    if k > 0 {
      FromLEOfToLE(v / 256, k - 1);
      assert ToLE(v, k)[1..] == ToLE(v / 256, k - 1);
    }
  }

  lemma {:induction false} ToLEOfFromLE(bs: seq<byte>)
    ensures FromLE(bs) < Span(|bs|) && ToLE(FromLE(bs), |bs|) == bs
  {
    if bs != [] {
      ToLEOfFromLE(bs[1..]);
      assert FromLE(bs) % 256 == bs[0] as nat && FromLE(bs) / 256 == FromLE(bs[1..]);
      assert bs == [bs[0]] + bs[1..];
    }
  }

  /** The two widths the file uses, as numbers. */
  lemma Widths()
    ensures Span(4) == U32_SPAN && Span(8) == U64_SPAN
  {
    assert Span(1) == 256;
    assert Span(2) == 0x1_0000;
    assert Span(3) == 0x100_0000;
    assert Span(4) == U32_SPAN;
    assert Span(5) == 0x100_0000_0000;
    assert Span(6) == 0x1_0000_0000_0000;
    assert Span(7) == 0x100_0000_0000_0000;
  }
}
