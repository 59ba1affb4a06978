/** Bytes and big-endian numbers. */
module Bytes {
  import opened Arithmetic

  type byte = bv8

  function Power256(k: nat): (p: nat)
    ensures p > 0
  {
    if k == 0 then 1 else 256 * Power256(k - 1)
  }

  function BigEndian(bytes: seq<byte>): nat {
    if bytes == [] then 0 else BigEndian(bytes[..|bytes| - 1]) * 256 + bytes[|bytes| - 1] as nat
  }

  // The byte of this value, counted up from zero.
  function ByteOf(m: nat): (b: byte)
    requires m < 256
    ensures b as nat == m
  {
    if m == 0 then 0 else ByteOf(m - 1) + 1
  }

  function LowByte(n: nat): (b: byte)
    ensures b as nat == n % 256
  {
    hide ByteOf;
    ByteOf(n % 256)
  }

  function ToBigEndian(n: nat, k: nat): (bytes: seq<byte>)
    ensures |bytes| == k
  {
    if k == 0 then [] else ToBigEndian(n / 256, k - 1) + [LowByte(n)]
  }

  lemma {:induction false} BigEndianRoundTrip(n: nat, k: nat)
    requires n < Power256(k)
    ensures BigEndian(ToBigEndian(n, k)) == n
  {
    if k > 0 {
      BigEndianRoundTrip(n / 256, k - 1);
      var bytes := ToBigEndian(n, k);
      assert bytes[..|bytes| - 1] == ToBigEndian(n / 256, k - 1);
    }
  }

  // The low byte of `n >> (8 * j)`.
  function ShiftedByte(n: nat, j: nat): byte {
    hide LowByte, Power256;
    LowByte(n / Power256(j))
  }

  lemma {:induction false} BigEndianByte(n: nat, k: nat, i: nat)
    requires i < k
    ensures ToBigEndian(n, k)[i] == ShiftedByte(n, k - 1 - i)
  {
    if i < k - 1 {
      BigEndianByte(n / 256, k - 1, i);
      DivTwice(n, 256, Power256(k - 2 - i));
    }
  }
}
