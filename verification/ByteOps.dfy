// The byte operations of kernel/include/string.h: `rep stos`, `rep movs` and `repnz scas` over
// memory, a dword bulk first and then a byte tail.
module ByteOps {
  import opened Words
  import opened Bytes
  import opened Paging
  import opened Machine

  // ---- Specifications ------------------------------------------------------------------------------------

  // m with the n bytes at d replaced by c.
  function Filled(m: seq<Byte>, d: nat, c: Byte, n: nat): seq<Byte> {
    seq(|m|, i requires 0 <= i < |m| => if d <= i < d + n then c else m[i])
  }

  // m with the n bytes at d replaced by those that were at s: memmove.
  function Moved(m: seq<Byte>, d: nat, s: nat, n: nat): (r: seq<Byte>)
    requires s + n <= |m|
    ensures |r| == |m|
  {
    seq(|m|, i requires 0 <= i < |m| => if d <= i < d + n then m[s + i - d] else m[i])
  }

  // n moves of w bytes each, in ascending order: `rep movsl` for w == 4, `rep movsb` for w == 1.
  function RepMoved(m: seq<Byte>, d: nat, s: nat, w: nat, n: nat): (r: seq<Byte>)
    requires s + w * n <= |m|
    ensures |r| == |m|
  {
    if n == 0 then m
    else
      assert w * n == w * (n - 1) + w;
      Moved(RepMoved(m, d, s, w, n - 1), d + w * (n - 1), s + w * (n - 1), w)
  }

  // What memcpy leaves in memory.
  function Copied(m: seq<Byte>, d: nat, s: nat, size: nat): (r: seq<Byte>)
    requires s + size <= |m|
    ensures |r| == |m|
  {
    var bulk := size / 4 * 4;
    RepMoved(RepMoved(m, d, s, 4, size / 4), d + bulk, s + bulk, 1, size % 4)
  }

  // ---- memcpy and memmove -----------------------------------------------------------------------------------

  // A forward copy to lower or separate addresses reads every byte before it is overwritten.
  lemma {:induction false} RepMovedForward(m: seq<Byte>, d: nat, s: nat, w: nat, n: nat)
    requires 1 <= w <= 4 && s + w * n <= |m| && (d <= s || s + w * n <= d)
    ensures RepMoved(m, d, s, w, n) == Moved(m, d, s, w * n)
  {
    if n > 0 {
      var k := w * (n - 1);
      assert w * n == k + w;
      RepMovedForward(m, d, s, w, n - 1);
      MovedTwice(m, d, s, k, w);
    }
  }

  // A block moved in two parts, the lower one first.
  lemma MovedTwice(m: seq<Byte>, d: nat, s: nat, k: nat, w: nat)
    requires s + k + w <= |m| && (d <= s || s + k + w <= d)
    ensures Moved(Moved(m, d, s, k), d + k, s + k, w) == Moved(m, d, s, k + w)
  {
  }

  lemma CopiedForward(m: seq<Byte>, d: nat, s: nat, size: nat)
    requires s + size <= |m| && (d <= s || s + size <= d)
    ensures Copied(m, d, s, size) == Moved(m, d, s, size)
  {
    hide RepMoved, Moved;
    var q, r, bulk := size / 4, size % 4, size / 4 * 4;
    assert 4 * q == bulk && bulk + r == size && 1 * r == r;
    RepMovedForward(m, d, s, 4, q);
    RepMovedForward(Moved(m, d, s, bulk), d + bulk, s + bulk, 1, r);
    MovedTwice(m, d, s, bulk, r);
  }

  // A single dword is read whole before it is written.
  lemma CopiedDword(m: seq<Byte>, d: nat, s: nat)
    requires s + 4 <= |m|
    ensures Copied(m, d, s, 4) == Moved(m, d, s, 4)
  {
    assert RepMoved(m, d, s, 4, 0) == m;
  }

  // Byte b of the destination is what byte b of the source was when its move began; bytes outside
  // the destination stay.
  lemma {:induction false} RepMovedAt(m: seq<Byte>, d: nat, s: nat, w: nat, n: nat, j: nat, b: nat)
    requires 1 <= w <= 4 && s + w * n <= |m| && d + w * n <= |m| && j < n && w * j <= b < w * (j + 1)
    ensures s + b < |m| && d + b < |m| && w * j <= w * n
    ensures RepMoved(m, d, s, w, n)[d + b] == RepMoved(m, d, s, w, j)[s + b]
  {
    assert w * (n - 1) == w * n - w;
    Steps(w, j, n);
    if j < n - 1 {
      RepMovedAt(m, d, s, w, n - 1, j, b);
    }
  }

  lemma Steps(w: nat, j: nat, n: nat)
    requires j < n && 1 <= w <= 4
    ensures w * (j + 1) == w * j + w && w * (j + 1) <= w * n
    ensures j < n - 1 ==> w * (j + 1) <= w * (n - 1)
  {
    if w == 1 {} else if w == 2 {} else if w == 3 {} else {}
  }

  lemma {:induction false} RepMovedElsewhere(m: seq<Byte>, d: nat, s: nat, w: nat, n: nat, x: nat)
    requires s + w * n <= |m| && x < |m| && !(d <= x < d + w * n)
    ensures RepMoved(m, d, s, w, n)[x] == m[x]
  {
    if n > 0 {
      assert w * n == w * (n - 1) + w;
      RepMovedElsewhere(m, d, s, w, n - 1, x);
    }
  }

  // A byte of the first move, and the byte that is read where that move put it.
  function Clash(k: nat, size: nat): (nat, nat) {
    if size < 4 || k >= 4 then (0, k) else (4 - k, 4)
  }

  // An upward overlap other than within one dword: one byte of the source arrives twice.
  lemma OverlapCorrupts(m: seq<Byte>, d: nat, s: nat, size: nat)
    requires s < d < s + size && size != 4 && d + size <= |m|
    ensures var (a, b) := Clash(d - s, size);
      a < b < size && s + b == d + a && Copied(m, d, s, size)[d + b] == m[s + a]
  {
    var (a, b) := Clash(d - s, size);
    if size < 4 {
      RepMovedAt(m, d, s, 1, size, b, b);
      RepMovedAt(m, d, s, 1, b, 0, 0);
      assert RepMoved(m, d, s, 4, 0) == m;
    } else {
      LaterByte(m, d, s, size, a, b);
    }
  }

  // A byte that is not of the first dword, read where the first dword was written.
  lemma LaterByte(m: seq<Byte>, d: nat, s: nat, size: nat, a: nat, b: nat)
    requires size > 4 && d + size <= |m| && s < d && a < 4 <= b < size && s + b == d + a
    ensures Copied(m, d, s, size)[d + b] == m[s + a]
  {
    if b < size / 4 * 4 { LaterDword(m, d, s, size, a, b); } else { TailByte(m, d, s, size, a, b); }
  }

  lemma LaterDword(m: seq<Byte>, d: nat, s: nat, size: nat, a: nat, b: nat)
    requires d + size <= |m| && s < d && a < 4 <= b < size / 4 * 4 && s + b == d + a
    ensures Copied(m, d, s, size)[d + b] == m[s + a]
  {
    hide RepMoved;
    var q, r, bulk := size / 4, size % 4, size / 4 * 4;
    RepMovedAt(m, d, s, 4, q, b / 4, b);
    RepMovedAt(m, d, s, 4, b / 4, 0, a);
    RepMovedNone(m, d, s);
    RepMovedElsewhere(RepMoved(m, d, s, 4, q), d + bulk, s + bulk, 1, r, d + b);
  }

  lemma TailByte(m: seq<Byte>, d: nat, s: nat, size: nat, a: nat, b: nat)
    requires size > 4 && d + size <= |m| && s < d && a < 4 && size / 4 * 4 <= b < size && s + b == d + a
    ensures Copied(m, d, s, size)[d + b] == m[s + a]
  {
    hide RepMoved;
    var q, r, bulk := size / 4, size % 4, size / 4 * 4;
    var m1 := RepMoved(m, d, s, 4, q);
    RepMovedAt(m1, d + bulk, s + bulk, 1, r, b - bulk, b - bulk);
    RepMovedElsewhere(m1, d + bulk, s + bulk, 1, b - bulk, s + b);
    RepMovedAt(m, d, s, 4, q, 0, a);
    RepMovedNone(m, d, s);
  }

  lemma RepMovedNone(m: seq<Byte>, d: nat, s: nat)
    requires s <= |m|
    ensures RepMoved(m, d, s, 4, 0) == m
  {
  }

  ghost predicate AlwaysMoves(d: nat, s: nat, size: nat, n: nat)
    requires s + size <= n
  {
    forall m: seq<Byte> :: |m| == n ==> Copied(m, d, s, size) == Moved(m, d, s, size)
  }

  // Main theorem: memcpy is memmove on all contents exactly when the destination is not above
  // the source inside it, or the size is one dword.
  lemma MemcpyIsMemmove(d: nat, s: nat, size: nat, n: nat)
    requires s + size <= n && d + size <= n
    ensures AlwaysMoves(d, s, size, n) <==> d <= s || s + size <= d || size == 4
  {
    if d <= s || s + size <= d || size == 4 {
      forall m: seq<Byte> | |m| == n ensures Copied(m, d, s, size) == Moved(m, d, s, size) {
        if size == 4 { CopiedDword(m, d, s); } else { CopiedForward(m, d, s, size); }
      }
    } else {
      WitnessOf(d, s, size, n);
    }
  }

  // Contents on which they differ.
  lemma WitnessOf(d: nat, s: nat, size: nat, n: nat)
    requires s < d < s + size && size != 4 && d + size <= n
    ensures exists m: seq<Byte> :: |m| == n && Copied(m, d, s, size) != Moved(m, d, s, size)
  {
    hide Copied;
    var (a, b) := Clash(d - s, size);
    var m: seq<Byte> := seq(n, i => if i == s + a then 1 else 0);
    OverlapCorrupts(m, d, s, size);
    assert Moved(m, d, s, size)[d + b] == 0;
  }

  // ---- Dwords ------------------------------------------------------------------------------------------------

  // memcpy of n dwords, to lower or separate addresses, moves the dwords: what the kernel does with the 15
  // words of an int_ctx_t.
  lemma CopiedDwords(m: Mem, d: nat, s: nat, n: nat)
    requires d + n <= PHYS_WORDS && s + n <= PHYS_WORDS && (d <= s || s + n <= d)
    ensures Copied(BytesOf(m), 4 * d, 4 * s, 4 * n) == BytesOf(Blit(m, d, m[s..s + n]))
  {
    CopiedForward(BytesOf(m), 4 * d, 4 * s, 4 * n);
    hide Copied, ByteOf, BytesOf, Blit;
    var moved, r := Moved(BytesOf(m), 4 * d, 4 * s, 4 * n), Blit(m, d, m[s..s + n]);
    forall x | 0 <= x < 4 * PHYS_WORDS ensures moved[x] == BytesOf(r)[x] { MovedByte(m, d, s, n, x); }
  }

  lemma MovedByte(m: Mem, d: nat, s: nat, n: nat, x: nat)
    requires d + n <= PHYS_WORDS && s + n <= PHYS_WORDS && x < 4 * PHYS_WORDS
    ensures Moved(BytesOf(m), 4 * d, 4 * s, 4 * n)[x] == BytesOf(Blit(m, d, m[s..s + n]))[x]
  {
    hide ByteOf;
    if 4 * d <= x < 4 * d + 4 * n {
      var y := 4 * s + x - 4 * d;
      assert y / 4 == s + x / 4 - d && y % 4 == x % 4;
    }
  }

  // And memset of n dwords to zero clears them.
  lemma FilledDwords(m: Mem, d: nat, n: nat)
    requires d + n <= PHYS_WORDS
    ensures Filled(BytesOf(m), 4 * d, 0, 4 * n) == BytesOf(Zeroed(m, d, n))
  {
    hide ByteOf;
    assert forall p :: 0 <= p < 4 ==> ByteOf(0, p) == 0 by { ZeroBytes(); }
  }

  lemma ZeroBytes()
    ensures forall p :: 0 <= p < 4 ==> ByteOf(0, p) == 0
  {
  }

  // ---- rep movs and rep stos in place ---------------------------------------------------------------------------

  method MoveDword(mem: array<Byte>, d: nat, s: nat)
    requires s + 4 <= mem.Length && d + 4 <= mem.Length
    modifies mem
    ensures mem[..] == Moved(old(mem[..]), d, s, 4)
  {
    var b0, b1, b2, b3 := mem[s], mem[s + 1], mem[s + 2], mem[s + 3];
    mem[d] := b0;
    mem[d + 1] := b1;
    mem[d + 2] := b2;
    mem[d + 3] := b3;
  }

  method RepMovsl(mem: array<Byte>, d: nat, s: nat, count: nat)
    requires s + 4 * count <= mem.Length && d + 4 * count <= mem.Length
    modifies mem
    ensures mem[..] == RepMoved(old(mem[..]), d, s, 4, count)
  {
    hide Moved;
    ghost var m := mem[..];
    for i := 0 to count
      invariant mem[..] == RepMoved(m, d, s, 4, i)
    {
      MoveDword(mem, d + 4 * i, s + 4 * i);
    }
  }

  method RepMovsb(mem: array<Byte>, d: nat, s: nat, count: nat)
    requires s + count <= mem.Length && d + count <= mem.Length
    modifies mem
    ensures mem[..] == RepMoved(old(mem[..]), d, s, 1, count)
  {
    ghost var m := mem[..];
    for i := 0 to count
      invariant mem[..] == RepMoved(m, d, s, 1, i)
    {
      ghost var before := mem[..];
      mem[d + i] := mem[s + i];
      assert mem[..] == Moved(before, d + 1 * i, s + 1 * i, 1);
    }
  }

  // Byte by byte.
  lemma MovedBytes(m: seq<Byte>, d: nat, s: nat, n: nat)
    requires s + n <= |m|
    ensures forall i :: 0 <= i < |m| ==> Moved(m, d, s, n)[i] == if d <= i < d + n then m[s + i - d] else m[i]
  {
  }

  // memcpy
  method Memcpy(mem: array<Byte>, dst: nat, src: nat, size: nat) returns (r: nat)
    requires src + size <= mem.Length && dst + size <= mem.Length
    modifies mem
    ensures r == dst && mem[..] == Copied(old(mem[..]), dst, src, size)
    ensures dst <= src || src + size <= dst || size == 4 ==> mem[..] == Moved(old(mem[..]), dst, src, size)
  {
    ghost var m := mem[..];
    var d, s := dst, src;
    if size == 0 {
      MemcpyIsMemmove(dst, src, 0, mem.Length);
      return dst;
    }
    var cnt, rm := size / 4, size % 4;
    if cnt != 0 {
      RepMovsl(mem, d, s, cnt);
      d, s := d + cnt * 4, s + cnt * 4;
    }
    if rm != 0 {
      RepMovsb(mem, d, s, rm);
    }
    MemcpyIsMemmove(dst, src, size, mem.Length);
    return dst;
  }

  // __rep_8_16 and __rep_8_32
  function Rep16(b: Byte): Word { b * 0x100 + b }
  function Rep32(b: Byte): Word { Rep16(b) * 0x1_0000 + Rep16(b) }

  lemma Rep32Bytes(b: Byte, k: nat)
    requires k < 4
    ensures ByteOf(Rep32(b), k) == b
  {
    DivIs(Rep32(b), 0x100, b * 0x1_0101, b);
    DivIs(Rep32(b), 0x1_0000, b * 0x101, b * 0x101);
    DivIs(Rep32(b), 0x100_0000, b, b * 0x1_0101);
    DivIs(b * 0x1_0101, 0x100, b * 0x101, b);
    DivIs(b * 0x101, 0x100, b, b);
  }

  method StoreDword(mem: array<Byte>, d: nat, w: Word)
    requires d + 4 <= mem.Length
    modifies mem
    ensures forall i :: 0 <= i < mem.Length ==> mem[i] == if d <= i < d + 4 then ByteOf(w, i - d) else old(mem[i])
  {
    mem[d] := ByteOf(w, 0);
    mem[d + 1] := ByteOf(w, 1);
    mem[d + 2] := ByteOf(w, 2);
    mem[d + 3] := ByteOf(w, 3);
  }

  method RepStosl(mem: array<Byte>, d: nat, c: Byte, count: nat)
    requires d + 4 * count <= mem.Length
    modifies mem
    ensures mem[..] == Filled(old(mem[..]), d, c, 4 * count)
  {
    hide ByteOf, Rep32;
    ghost var m := mem[..];
    forall k | 0 <= k < 4 ensures ByteOf(Rep32(c), k) == c { Rep32Bytes(c, k); }
    for i := 0 to count
      invariant mem[..] == Filled(m, d, c, 4 * i)
    {
      ghost var before := mem[..];
      StoreDword(mem, d + 4 * i, Rep32(c));
      assert mem[..] == Filled(before, d + 4 * i, c, 4);
      FilledTwice(m, d, c, 4 * i, 4);
    }
  }

  method RepStosb(mem: array<Byte>, d: nat, c: Byte, count: nat)
    requires d + count <= mem.Length
    modifies mem
    ensures mem[..] == Filled(old(mem[..]), d, c, count)
  {
    ghost var m := mem[..];
    for i := 0 to count
      invariant mem[..] == Filled(m, d, c, i)
    {
      mem[d + i] := c;
    }
  }

  lemma FilledTwice(m: seq<Byte>, d: nat, c: Byte, k: nat, n: nat)
    ensures Filled(Filled(m, d, c, k), d + k, c, n) == Filled(m, d, c, k + n)
  {
  }

  lemma FilledBytes(m: seq<Byte>, d: nat, c: Byte, n: nat)
    ensures |Filled(m, d, c, n)| == |m|
    ensures forall i :: 0 <= i < |m| ==> Filled(m, d, c, n)[i] == if d <= i < d + n then c else m[i]
  {
  }

  // memset
  method Memset(mem: array<Byte>, dst: nat, c: Byte, size: nat) returns (r: nat)
    requires dst + size <= mem.Length
    modifies mem
    ensures r == dst && mem[..] == Filled(old(mem[..]), dst, c, size)
    ensures forall i :: 0 <= i < mem.Length ==> mem[i] == if dst <= i < dst + size then c else old(mem[i])
  {
    FilledBytes(mem[..], dst, c, size);
    ghost var m := mem[..];
    var d := dst;
    if size == 0 {
      assert mem[..] == Filled(m, dst, c, 0);
      return dst;
    }
    var cnt, rm := size / 4, size % 4;
    FilledTwice(m, dst, c, 4 * cnt, rm);
    if cnt != 0 {
      RepStosl(mem, d, c, cnt);
      d := d + cnt * 4;
    } else {
      assert m == Filled(m, dst, c, 0);
    }
    if rm != 0 {
      RepStosb(mem, d, c, rm);
    } else {
      assert mem[..] == Filled(m, dst, c, size);
    }
    return dst;
  }

  // ---- repnz scasb ---------------------------------------------------------------------------------------------------

  // The first c from s on is at p.
  ghost predicate FirstAt(m: seq<Byte>, s: nat, p: nat, c: Byte) {
    s <= p < |m| && m[p] == c && forall i :: s <= i < p ==> m[i] != c
  }

  // Scans from s until c has been passed or the count is used up.
  method RepnzScasb(mem: array<Byte>, s: nat, c: Byte, count: nat) returns (d: nat, left: nat)
    requires s + count <= mem.Length || exists p: nat :: FirstAt(mem[..], s, p, c)
    ensures left <= count && d == s + (count - left) && d <= mem.Length
    ensures forall i :: s <= i < d - 1 ==> mem[i] != c
    ensures left > 0 ==> d > s && mem[d - 1] == c
    ensures forall p: nat :: FirstAt(mem[..], s, p, c) && p < s + count ==> d == p + 1
  {
    d, left := s, count;
    while left != 0
      invariant left <= count && d == s + (count - left) && d <= mem.Length
      invariant forall i :: s <= i < d ==> mem[i] != c
      invariant forall p: nat :: FirstAt(mem[..], s, p, c) ==> d <= p
    {
      left := left - 1;
      d := d + 1;
      if mem[d - 1] == c { break; }
    }
  }

  // What strchr answers: the first c, but only if it comes before the last of the len bytes.
  ghost predicate StrchrAnswers(m: seq<Byte>, str: nat, len: nat, c: Byte, r: Option<nat>) {
    && (r.Some? ==> FirstAt(m, str, r.value, c) && r.value < str + len - 1)
    && (forall p: nat :: FirstAt(m, str, p, c) && p < str + len - 1 ==> r == Some(p))
  }

  method Strchr(mem: array<Byte>, str: nat, len: nat, c: Byte) returns (r: Option<nat>)
    requires str + len <= mem.Length
    ensures StrchrAnswers(mem[..], str, len, c, r)
  {
    var d, left := RepnzScasb(mem, str, c, len);
    if left == 0 {
      return None;
    }
    assert FirstAt(mem[..], str, d - 1, c);
    return Some(d - 1);
  }

  // A byte that does occur among the len bytes is found exactly if its first place is not the last.
  lemma StrchrFinds(m: seq<Byte>, str: nat, len: nat, c: Byte, p: nat, r: Option<nat>)
    requires FirstAt(m, str, p, c) && p < str + len && StrchrAnswers(m, str, len, c, r)
    ensures r == Some(p) <==> p != str + len - 1
    ensures r.Some? ==> r == Some(p)
  {
  }

  // strlen: the number of bytes before the first zero, which must come within 2^32 - 1 bytes.
  method Strlen(mem: array<Byte>, str: nat) returns (n: nat)
    requires exists p: nat :: FirstAt(mem[..], str, p, 0) && p < str + 0xffff_ffff
    ensures FirstAt(mem[..], str, str + n, 0)
  {
    var d, left := RepnzScasb(mem, str, 0, 0xffff_ffff);
    return (d - 1) - str;
  }
}
