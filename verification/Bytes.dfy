/** 32-bit ints as they lie in a byte-addressed memory, lowest byte first. */
module Bytes {
  newtype byte = b: int | 0 <= b < 256
  newtype int32 = v: int | -0x8000_0000 <= v < 0x8000_0000

  const SIZEOF_INT := 4

  function Unsigned(v: int32): (u: int)
    ensures 0 <= u < 0x1_0000_0000
  {
    if v < 0 then v as int + 0x1_0000_0000 else v as int
  }

  function Encode(v: int32): (bs: seq<byte>)
    ensures |bs| == SIZEOF_INT
  {
    var u := Unsigned(v);
    [(u % 0x100) as byte, (u / 0x100 % 0x100) as byte, (u / 0x1_0000 % 0x100) as byte, (u / 0x100_0000 % 0x100) as byte]
  }

  function Word(b0: byte, b1: byte, b2: byte, b3: byte): (u: int)
    ensures 0 <= u < 0x1_0000_0000
  {
    b0 as int + 0x100 * b1 as int + 0x1_0000 * b2 as int + 0x100_0000 * b3 as int
  }

  function Decode(bs: seq<byte>): int32
    requires |bs| == SIZEOF_INT
  {
    var u := Word(bs[0], bs[1], bs[2], bs[3]);
    (if u >= 0x8000_0000 then u - 0x1_0000_0000 else u) as int32
  }

  lemma {:induction false} WordOfBytes(u: int)
    requires 0 <= u < 0x1_0000_0000
    ensures u % 0x100 + 0x100 * (u / 0x100 % 0x100) + 0x1_0000 * (u / 0x1_0000 % 0x100) + 0x100_0000 * (u / 0x100_0000 % 0x100) == u
  {
    var a, b, c := u / 0x100, u / 0x1_0000, u / 0x100_0000;
    assert u == u % 0x100 + 0x100 * a;
    assert a == a % 0x100 + 0x100 * b;
    assert b == b % 0x100 + 0x100 * c;
    assert c % 0x100 == c;
  }

  lemma {:induction false} SignedOfUnsigned(v: int32)
    ensures Unsigned(v) >= 0x8000_0000 <==> v < 0
    ensures (if Unsigned(v) >= 0x8000_0000 then Unsigned(v) - 0x1_0000_0000 else Unsigned(v)) == v as int
  {
  }

  // What memcpy writes, memcpy reads back; and every four bytes are some int.
  lemma {:induction false} DecodeEncode(v: int32)
    ensures Decode(Encode(v)) == v
  {
    WordOfBytes(Unsigned(v));
    SignedOfUnsigned(v);
    hide Unsigned;
    var bs := Encode(v);
    assert Word(bs[0], bs[1], bs[2], bs[3]) == Unsigned(v);
  }

  lemma {:induction false} EncodeDecode(bs: seq<byte>)
    requires |bs| == SIZEOF_INT
    ensures Encode(Decode(bs)) == bs
  {
    var b1, b2, b3 := bs[1] as int, bs[2] as int, bs[3] as int;
    var u := Word(bs[0], bs[1], bs[2], bs[3]);
    assert Unsigned(Decode(bs)) == u;
    assert u / 0x100 == b1 + 0x100 * b2 + 0x1_0000 * b3;
    assert u / 0x1_0000 == b2 + 0x100 * b3;
    assert u / 0x100_0000 == b3;
  }
}
