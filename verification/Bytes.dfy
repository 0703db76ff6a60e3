// The bytes of dwords, and of the memory that is made of them.
module Bytes {
  import opened Words

  type Byte = x: int | 0 <= x < 256

  function Weight(p: int): int
    requires 0 <= p < 4
  {
    if p == 0 then 1 else if p == 1 then 0x100 else if p == 2 then 0x1_0000 else 0x100_0000
  }

  // Byte p of a dword, little-endian.
  function ByteOf(w: Word, p: int): Byte
    requires 0 <= p < 4
  {
    w / Weight(p) % 256
  }

  function WithByte(w: Word, p: int, b: Byte): Word
    requires 0 <= p < 4
  {
    Make(if p == 0 then b else ByteOf(w, 0), if p == 1 then b else ByteOf(w, 1),
         if p == 2 then b else ByteOf(w, 2), if p == 3 then b else ByteOf(w, 3))
  }

  function ByteAt(m: Mem, x: int): Byte
    requires 0 <= x < 4 * PHYS_WORDS
  {
    ByteOf(m[x / 4], x % 4)
  }

  // All of memory, byte by byte.
  function BytesOf(m: Mem): (bs: seq<Byte>)
    ensures |bs| == 4 * PHYS_WORDS
  {
    seq(4 * PHYS_WORDS, x requires 0 <= x < 4 * PHYS_WORDS => ByteAt(m, x))
  }

  function Make(b0: Byte, b1: Byte, b2: Byte, b3: Byte): Word {
    b0 + 0x100 * b1 + 0x1_0000 * b2 + 0x100_0000 * b3
  }

  lemma MakeBytes(b0: Byte, b1: Byte, b2: Byte, b3: Byte)
    ensures var w := Make(b0, b1, b2, b3);
      ByteOf(w, 0) == b0 && ByteOf(w, 1) == b1 && ByteOf(w, 2) == b2 && ByteOf(w, 3) == b3
  {
    var w := Make(b0, b1, b2, b3);
    DivIs(w, 0x100, b1 + 0x100 * b2 + 0x1_0000 * b3, b0);
    DivIs(w, 0x1_0000, b2 + 0x100 * b3, b0 + 0x100 * b1);
    DivIs(w, 0x100_0000, b3, b0 + 0x100 * b1 + 0x1_0000 * b2);
  }

  lemma WithByteGives(w: Word, p: int, b: Byte, q: int)
    requires 0 <= p < 4 && 0 <= q < 4
    ensures ByteOf(WithByte(w, p, b), q) == if q == p then b else ByteOf(w, q)
  {
    hide Make, ByteOf;
    MakeBytes(if p == 0 then b else ByteOf(w, 0), if p == 1 then b else ByteOf(w, 1),
              if p == 2 then b else ByteOf(w, 2), if p == 3 then b else ByteOf(w, 3));
  }
}
