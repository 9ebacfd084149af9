// Bytes, and 32-bit numbers in them, the lowest byte first.
module Words {
  type Byte = x: int | 0 <= x < 256
  type Bytes = seq<Byte>

  const WORD := 0x1_0000_0000

  function Encode(v: nat): (r: Bytes)
    requires v < WORD
    ensures |r| == 4
    ensures r[0] as int + 0x100 * r[1] as int + 0x1_0000 * r[2] as int + 0x100_0000 * r[3] as int == v
  {
    [v % 256, v / 256 % 256, v / 256 / 256 % 256, v / 256 / 256 / 256]
  }

  function Decode(b: Bytes): (v: nat)
    requires |b| == 4
    ensures v < WORD && v == b[0] as int + 0x100 * b[1] as int + 0x1_0000 * b[2] as int + 0x100_0000 * b[3] as int
  {
    b[0] as int + 256 * (b[1] as int + 256 * (b[2] as int + 256 * b[3] as int))
  }

  lemma DecodeEncode(v: nat)
    requires v < WORD
    ensures Decode(Encode(v)) == v
  {
  }

  function Spliced(b: Bytes, off: nat, data: Bytes): (r: Bytes)
    requires off + |data| <= |b|
    ensures |r| == |b|
  {
    b[..off] + data + b[off + |data|..]
  }
}
