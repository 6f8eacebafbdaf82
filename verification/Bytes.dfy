/** Byte buffers, memcpy and little-endian integers. */
module Bytes {

  type byte = b: int | 0 <= b < 256

  /** memcpy of data into buffer at offset. */
  function Splice(buffer: seq<byte>, offset: int, data: seq<byte>): (r: seq<byte>)
    requires 0 <= offset && offset + |data| <= |buffer|
    ensures |r| == |buffer|
    ensures forall k :: 0 <= k < |buffer| ==>
              r[k] == if offset <= k < offset + |data| then data[k - offset] else buffer[k]
  {
    buffer[..offset] + data + buffer[offset + |data|..]
  }

  /** The first n bytes of an unsigned integer, least significant first. */
  function ToBytes(x: int, n: nat): (b: seq<byte>)
    requires x >= 0
    ensures |b| == n
  {
    if n == 0 then [] else [x % 256] + ToBytes(x / 256, n - 1)
  }

  function FromBytes(b: seq<byte>): (x: int)
    ensures x >= 0
  {
    if b == [] then 0 else b[0] + 256 * FromBytes(b[1..])
  }

  function Power256(n: nat): (p: int)
    ensures p >= 1
  {
    if n == 0 then 1 else 256 * Power256(n - 1)
  }

  lemma {:induction false} BytesRoundTrip(x: int, n: nat)
    requires 0 <= x < Power256(n)
    ensures FromBytes(ToBytes(x, n)) == x
  {
    if n > 0 {
      assert x / 256 < Power256(n - 1);
      BytesRoundTrip(x / 256, n - 1);
      assert ToBytes(x, n)[1..] == ToBytes(x / 256, n - 1);
    }
  }

  lemma {:induction false} TwoBytes(x: int)
    requires x >= 0
    ensures ToBytes(x, 2) == [x % 256, x / 0x100 % 256]
  {
    assert ToBytes(x / 256, 1) == [x / 256 % 256] + ToBytes(x / 256 / 256, 0);
  }

  lemma {:induction false} FourBytes(x: int)
    requires x >= 0
    ensures ToBytes(x, 4) == [x % 256, x / 0x100 % 256, x / 0x1_0000 % 256, x / 0x100_0000 % 256]
  {
    TwoBytes(x / 0x1_0000);
    assert x / 256 / 256 == x / 0x1_0000;
    assert ToBytes(x, 4) == [x % 256] + ([x / 256 % 256] + ToBytes(x / 256 / 256, 2));
  }

  method Memcpy(buffer: array<byte>, offset: int, data: seq<byte>)
    requires 0 <= offset && offset + |data| <= buffer.Length
    modifies buffer
    ensures buffer[..] == Splice(old(buffer[..]), offset, data)
  {
    for k := 0 to |data|
      invariant forall i :: 0 <= i < buffer.Length ==>
                buffer[i] == if offset <= i < offset + k then data[i - offset] else old(buffer[i])
    {
      buffer[offset + k] := data[k];
    }
  }
}
