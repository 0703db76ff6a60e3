// Machine words and physical memory of the 32-bit x86 target.
module Words {

  datatype Option<+T> = None | Some(value: T)

  // A 32-bit machine word; every addition on it is written with its wrap-around.
  type Word = x: int | 0 <= x < 0x1_0000_0000

  // The 4 GB physical address space, held as little-endian dwords.
  const PHYS_WORDS := 0x4000_0000

  type Mem = m: seq<Word> | |m| == PHYS_WORDS
    ghost witness seq(PHYS_WORDS, i => 0)

  const PAGE_SIZE := 4096
  const PAGE_WORDS := 1024
  const FRAMES := 0x10_0000

  function Add32(a: int, b: int): Word {
    (a + b) % 0x1_0000_0000
  }

  // Dword j of physical frame f.
  function At(m: Mem, f: int, j: int): Word
    requires 0 <= f < FRAMES && 0 <= j < PAGE_WORDS
  {
    m[f * PAGE_WORDS + j]
  }

  // Quotient and remainder are determined by the usual equation.
  lemma DivIs(x: int, d: int, q: int, r: int)
    requires 0 <= r < d && x == q * d + r
    ensures x / d == q && x % d == r
  {
    var k := x / d - q;
    assert k * d == r - x % d;
    assert k >= 1 ==> k * d >= d;
    assert k <= -1 ==> k * d <= -d;
  }
}
