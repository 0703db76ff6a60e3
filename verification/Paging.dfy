// 32-bit paging: the entries of kernel/include/pagemem.h and the page walk of the
// Intel SDM, volume 3A, sections 4.3 and 4.6 (CR4.PSE = 0 and CR0.WP = 0, as in this kernel).
module Paging {
  import opened Words

  const PG_KRN := 0
  const PG_RW := 2
  const PG_USR := 4

  // ---- Entries -------------------------------------------------------------------------

  // The two assignments of pg_set_entry: `raw` takes the attributes and the present bit,
  // then the 20-bit `addr` field takes the page frame number.
  function RawOf(attr: Word): Word {
    attr / 2 * 2 + 1
  }

  function WithAddr(raw: Word, pfn: Word): Word {
    raw % 4096 + pfn % 0x10_0000 * 4096
  }

  function Entry(attr: Word, pfn: Word): Word {
    WithAddr(RawOf(attr), pfn)
  }

  predicate Present(e: Word) { e % 2 == 1 }
  predicate Writable(e: Word) { e / 2 % 2 == 1 }
  predicate UserLevel(e: Word) { e / 4 % 2 == 1 }
  function FrameOf(e: Word): (f: int) ensures 0 <= f < FRAMES { e / 4096 }

  // The processor marks the entries it walks through: bit 5 (accessed), bit 6 (dirty).
  function SetAccessed(e: Word): Word {
    if e / 32 % 2 == 1 then e else e + 32
  }

  function SetDirty(e: Word): Word {
    if e / 64 % 2 == 1 then e else e + 64
  }

  // An entry without its accessed and dirty bits.
  function Strip(e: Word): Word {
    e - e / 32 % 4 * 32
  }

  // Bit fields of the word made of `hi` above bit 6, the two mark bits, and `lo` below them.
  lemma Fields(hi: int, d: int, a: int, lo: int)
    requires 0 <= hi < 0x200_0000 && 0 <= d <= 1 && 0 <= a <= 1 && 0 <= lo < 32
    ensures var e := hi * 128 + d * 64 + a * 32 + lo;
      e / 32 % 2 == a && e / 64 % 2 == d && Strip(e) == hi * 128 + lo
  {
    var e := hi * 128 + d * 64 + a * 32 + lo;
    DivIs(e, 32, hi * 4 + d * 2 + a, lo);
    DivIs(hi * 4 + d * 2 + a, 2, hi * 2 + d, a);
    DivIs(hi * 4 + d * 2 + a, 4, hi, d * 2 + a);
    DivIs(e, 64, hi * 2 + d, a * 32 + lo);
    DivIs(hi * 2 + d, 2, hi, d);
  }

  lemma Split(e: Word) returns (hi: int, d: int, a: int, lo: int)
    ensures 0 <= hi < 0x200_0000 && 0 <= d <= 1 && 0 <= a <= 1 && 0 <= lo < 32
    ensures e == hi * 128 + d * 64 + a * 32 + lo
  {
    hi := e / 128;
    lo := e % 128;
    if lo >= 64 { d, lo := 1, lo - 64; } else { d := 0; }
    if lo >= 32 { a, lo := 1, lo - 32; } else { a := 0; }
  }

  // Stripping keeps the flags and the frame.
  lemma StripSplit(e: Word)
    ensures Present(Strip(e)) == Present(e) && Writable(Strip(e)) == Writable(e)
    ensures UserLevel(Strip(e)) == UserLevel(e) && FrameOf(Strip(e)) == FrameOf(e)
  {
    var hi, d, a, lo := Split(e);
    Fields(hi, d, a, lo);
    LowFlags(hi * 16 + d * 8 + a * 4, lo);
    LowFlags(hi * 16, lo);
    Frames(hi, d * 64 + a * 32 + lo);
    Frames(hi, lo);
  }

  lemma LowFlags(y: int, lo: int)
    requires 0 <= y && 0 <= lo < 32 && 8 * y + lo < 0x1_0000_0000
    ensures var e := 8 * y + lo;
      Present(e) == (lo % 2 == 1) && Writable(e) == (lo / 2 % 2 == 1) && UserLevel(e) == (lo / 4 % 2 == 1)
  {
    var e := 8 * y + lo;
    var p, w, u := lo % 2, lo / 2 % 2, lo / 4 % 2;
    DivIs(e, 2, 4 * y + lo / 2, p);
    DivIs(4 * y + lo / 2, 2, 2 * y + lo / 4, w);
    DivIs(e, 4, 2 * y + lo / 4, lo % 4);
    DivIs(2 * y + lo / 4, 2, y + lo / 8, u);
  }

  lemma Frames(hi: int, low: int)
    requires 0 <= hi < 0x200_0000 && 0 <= low < 128
    ensures FrameOf(hi * 128 + low) == hi / 32
  {
    DivIs(hi * 128 + low, 4096, hi / 32, hi % 32 * 128 + low);
  }

  // Entries that agree up to those two bits grant the same rights to the same frame.
  lemma SameStripSameEntry(e: Word, f: Word)
    requires Strip(e) == Strip(f)
    ensures Present(e) == Present(f) && Writable(e) == Writable(f)
    ensures UserLevel(e) == UserLevel(f) && FrameOf(e) == FrameOf(f)
  {
    StripSplit(e);
    StripSplit(f);
  }

  // The attributes this kernel gives its pages: always writable.
  function Attr(user: bool): Word {
    if user then PG_USR + PG_RW else PG_KRN + PG_RW
  }

  lemma EntryDecodes(user: bool, pfn: Word)
    requires pfn < FRAMES
    ensures var e := Entry(Attr(user), pfn);
      Present(e) && Writable(e) && UserLevel(e) == user && FrameOf(e) == pfn && Strip(e) == e
  {
    EntryIs(user, pfn);
    RawDecodes(Entry(Attr(user), pfn), user, pfn);
  }

  lemma RawDecodes(e: Word, user: bool, pfn: Word)
    requires pfn < FRAMES && e == pfn * 4096 + if user then 7 else 3
    ensures Present(e) && Writable(e) && UserLevel(e) == user && FrameOf(e) == pfn && Strip(e) == e
  {
    var y, x, low := pfn * 512, pfn * 32, if user then 7 else 3;
    assert e == 8 * y + low == x * 128 + low;
    LowFlags(y, low);
    Frames(x, low);
    Fields(x, 0, 0, low);
    assert x / 32 == pfn;
  }

  lemma EntryIs(user: bool, pfn: Word)
    requires pfn < FRAMES
    ensures Entry(Attr(user), pfn) == pfn * 4096 + if user then 7 else 3
  {
    var low := if user then 7 else 3;
    DivIs(low, 4096, 0, low);
    DivIs(pfn, FRAMES, 0, pfn);
  }

  // A marked entry still means what pg_set_entry wrote.
  lemma MarkedEntryDecodes(e: Word, user: bool, pfn: Word)
    requires pfn < FRAMES && Strip(e) == Entry(Attr(user), pfn)
    ensures Present(e) && Writable(e) && UserLevel(e) == user && FrameOf(e) == pfn
  {
    EntryDecodes(user, pfn);
    SameStripSameEntry(e, Entry(Attr(user), pfn));
  }

  lemma AccessedKeepsStrip(e: Word)
    ensures Strip(SetAccessed(e)) == Strip(e)
  {
    var hi, d, a, lo := Split(e);
    Fields(hi, d, a, lo);
    Fields(hi, d, 1, lo);
  }

  lemma DirtyKeepsStrip(e: Word)
    ensures Strip(SetDirty(e)) == Strip(e)
  {
    var hi, d, a, lo := Split(e);
    Fields(hi, d, a, lo);
    Fields(hi, 1, a, lo);
  }

  // Writing dword i of frame g changes that dword alone.
  lemma AtUpdate(m: Mem, n: Mem, g: int, i: int, v: Word)
    requires 0 <= g < FRAMES && 0 <= i < PAGE_WORDS
    requires n == m[g * PAGE_WORDS + i := v]
    ensures forall f: int, j: int :: 0 <= f < FRAMES && 0 <= j < PAGE_WORDS ==>
      At(n, f, j) == if f == g && j == i then v else At(m, f, j)
  {
  }

  // ---- The walk ------------------------------------------------------------------------

  datatype Access = Access(user: bool, write: bool)

  // The rights of the directory entry and of the table entry both have to allow the access;
  // with CR0.WP clear, supervisor writes ignore the R/W bit.
  predicate Permits(e: Word, a: Access) {
    Present(e) && (a.user ==> UserLevel(e)) && (a.user && a.write ==> Writable(e))
  }

  // pd32_get_idx and pt32_get_idx.
  function PdIdx(va: Word): (i: int) ensures 0 <= i < PAGE_WORDS { va / 0x40_0000 }
  function PtIdx(va: Word): (i: int) ensures 0 <= i < PAGE_WORDS { va / 0x1000 % 1024 }

  lemma AddressSplits(va: Word)
    ensures va == (PdIdx(va) * PAGE_WORDS + PtIdx(va)) * PAGE_SIZE + va % PAGE_SIZE
  {
    assert va / 0x40_0000 == va / 0x1000 / 1024;
  }

  // The physical address `va` stands for under directory `cr3`, or None for a page fault.
  function Walk(m: Mem, cr3: Word, va: Word, a: Access): Option<Word> {
    var pde := At(m, FrameOf(cr3), PdIdx(va));
    if !Permits(pde, a) then None else
    var pte := At(m, FrameOf(pde), PtIdx(va));
    if !Permits(pte, a) then None else Some(FrameOf(pte) * PAGE_SIZE + va % PAGE_SIZE)
  }

  lemma WalkThrough(m: Mem, cr3: Word, va: Word, a: Access, t: int, pfn: int)
    requires Permits(At(m, FrameOf(cr3), PdIdx(va)), a) && FrameOf(At(m, FrameOf(cr3), PdIdx(va))) == t
    requires 0 <= t < FRAMES
    requires Permits(At(m, t, PtIdx(va)), a) && FrameOf(At(m, t, PtIdx(va))) == pfn
    ensures Walk(m, cr3, va, a) == Some(pfn * PAGE_SIZE + va % PAGE_SIZE)
    ensures PteSlot(m, cr3, va) == t * PAGE_WORDS + PtIdx(va)
  {
  }

  lemma WalkStops(m: Mem, cr3: Word, va: Word, a: Access, t: int)
    requires 0 <= t < FRAMES && FrameOf(At(m, FrameOf(cr3), PdIdx(va))) == t
    requires !Permits(At(m, FrameOf(cr3), PdIdx(va)), a) || !Permits(At(m, t, PtIdx(va)), a)
    ensures Walk(m, cr3, va, a) == None
  {
  }

  function PdeSlot(cr3: Word, va: Word): (i: int) ensures 0 <= i < PHYS_WORDS {
    FrameOf(cr3) * PAGE_WORDS + PdIdx(va)
  }

  function PteSlot(m: Mem, cr3: Word, va: Word): (i: int) ensures 0 <= i < PHYS_WORDS {
    FrameOf(m[PdeSlot(cr3, va)]) * PAGE_WORDS + PtIdx(va)
  }

  // What a successful walk leaves behind in the tables.
  function Mark(m: Mem, cr3: Word, va: Word, a: Access): Mem {
    var i, j := PdeSlot(cr3, va), PteSlot(m, cr3, va);
    var m1: Mem := m[i := SetAccessed(m[i])];
    var e := SetAccessed(m1[j]);
    m1[j := if a.write then SetDirty(e) else e]
  }

  // m and n agree, except for accessed and dirty bits in the word range [lo, hi).
  ghost predicate SameButAD(m: Mem, n: Mem, lo: int, hi: int) {
    forall i :: 0 <= i < PHYS_WORDS ==>
      if lo <= i < hi then Strip(m[i]) == Strip(n[i]) else m[i] == n[i]
  }

  lemma MarkChangesOnlyAD(m: Mem, cr3: Word, va: Word, a: Access, lo: int, hi: int)
    requires lo <= PdeSlot(cr3, va) < hi && lo <= PteSlot(m, cr3, va) < hi
    ensures SameButAD(m, Mark(m, cr3, va, a), lo, hi)
  {
    var i, j := PdeSlot(cr3, va), PteSlot(m, cr3, va);
    var m1: Mem := m[i := SetAccessed(m[i])];
    AccessedKeepsStrip(m[i]);
    AccessedKeepsStrip(m1[j]);
    DirtyKeepsStrip(SetAccessed(m1[j]));
  }

  lemma SameButADCompose(m: Mem, n: Mem, o: Mem, lo: int, hi: int)
    requires SameButAD(m, n, lo, hi) && SameButAD(n, o, lo, hi)
    ensures SameButAD(m, o, lo, hi)
  {
  }

  lemma SameButADWrite(m: Mem, n: Mem, p: int, v: Word, lo: int, hi: int)
    requires SameButAD(m, n, lo, hi) && 0 <= p < PHYS_WORDS
    ensures SameButAD(m[p := v], n[p := v], lo, hi)
  {
  }

  // A translation reads two words, and not their accessed and dirty bits.
  lemma WalkReadsTwoSlots(m: Mem, n: Mem, cr3: Word, va: Word, a: Access)
    requires Strip(m[PdeSlot(cr3, va)]) == Strip(n[PdeSlot(cr3, va)])
    requires Strip(m[PteSlot(m, cr3, va)]) == Strip(n[PteSlot(m, cr3, va)])
    ensures Walk(n, cr3, va, a) == Walk(m, cr3, va, a)
    ensures PteSlot(n, cr3, va) == PteSlot(m, cr3, va)
  {
    SameStripSameEntry(m[PdeSlot(cr3, va)], n[PdeSlot(cr3, va)]);
    SameStripSameEntry(m[PteSlot(m, cr3, va)], n[PteSlot(m, cr3, va)]);
  }

  lemma WalkIgnoresAD(m: Mem, n: Mem, cr3: Word, va: Word, a: Access, lo: int, hi: int)
    requires SameButAD(m, n, lo, hi)
    ensures Walk(n, cr3, va, a) == Walk(m, cr3, va, a)
    ensures PteSlot(n, cr3, va) == PteSlot(m, cr3, va)
  {
    WalkReadsTwoSlots(m, n, cr3, va, a);
  }

  // ---- Data accesses of the processor ----------------------------------------------------

  function Resolve(m: Mem, cr3: Word, paging: bool, va: Word, a: Access): Option<Word> {
    if paging then Walk(m, cr3, va, a) else Some(va)
  }

  function Marked(m: Mem, cr3: Word, paging: bool, va: Word, a: Access): Mem {
    if paging then Mark(m, cr3, va, a) else m
  }

  const KERNEL_READ := Access(false, false)
  const KERNEL_WRITE := Access(false, true)

  // The supervisor reaches physical address `pa` through `va`, by entries that lie in the
  // word range [lo, hi); without paging there are no such entries.
  ghost predicate Reaches(m: Mem, cr3: Word, paging: bool, va: Word, pa: Word, lo: int, hi: int) {
    && Resolve(m, cr3, paging, va, KERNEL_READ) == Some(pa)
    && (paging ==> lo <= PdeSlot(cr3, va) < hi && lo <= PteSlot(m, cr3, va) < hi)
  }

  // The entries that translate `va` lie outside the words [p, p + n).
  ghost predicate Avoids(m: Mem, cr3: Word, paging: bool, va: Word, p: int, n: int) {
    paging ==> !(p <= PdeSlot(cr3, va) < p + n) && !(p <= PteSlot(m, cr3, va) < p + n)
  }

  lemma StillReaches(m: Mem, n: Mem, cr3: Word, paging: bool, va: Word, pa: Word, lo: int, hi: int)
    requires Reaches(m, cr3, paging, va, pa, lo, hi)
    requires paging ==> Strip(m[PdeSlot(cr3, va)]) == Strip(n[PdeSlot(cr3, va)])
    requires paging ==> Strip(m[PteSlot(m, cr3, va)]) == Strip(n[PteSlot(m, cr3, va)])
    ensures Reaches(n, cr3, paging, va, pa, lo, hi)
    ensures paging ==> PteSlot(n, cr3, va) == PteSlot(m, cr3, va)
  {
    if paging { WalkReadsTwoSlots(m, n, cr3, va, KERNEL_READ); }
  }

  lemma PageStillReaches(m: Mem, n: Mem, cr3: Word, paging: bool, va: Word, f: int, p: int, lo: int, hi: int)
    requires va % PAGE_SIZE == 0 && 0 <= f < FRAMES
    requires PageReaches(m, cr3, paging, va, f, lo, hi)
    requires f * PAGE_WORDS <= p < (f + 1) * PAGE_WORDS
    requires SameButAD(m[p := n[p]], n, lo, hi)
    ensures PageReaches(n, cr3, paging, va, f, lo, hi)
  {
    forall k: int | 0 <= k < PAGE_WORDS
      ensures Reaches(n, cr3, paging, va + 4 * k, f * PAGE_SIZE + 4 * k, lo, hi)
      ensures Avoids(n, cr3, paging, va + 4 * k, f * PAGE_WORDS, PAGE_WORDS)
    {
      assert Reaches(m, cr3, paging, va + 4 * k, f * PAGE_SIZE + 4 * k, lo, hi);
      StillReaches(m, n, cr3, paging, va + 4 * k, f * PAGE_SIZE + 4 * k, lo, hi);
    }
  }

  function Zeroed(m: Mem, p: int, n: int): Mem {
    seq(PHYS_WORDS, i requires 0 <= i < PHYS_WORDS => if p <= i < p + n then 0 else m[i])
  }

  lemma ZeroNext(m: Mem, before: Mem, after: Mem, p: int, k: nat, lo: int, hi: int)
    requires 0 <= p && p + k < PHYS_WORDS
    requires SameButAD(Zeroed(m, p, k), before, lo, hi)
    requires SameButAD(before[p + k := 0], after, lo, hi)
    ensures SameButAD(Zeroed(m, p, k + 1), after, lo, hi)
  {
    SameButADWrite(Zeroed(m, p, k), before, p + k, 0, lo, hi);
    assert Zeroed(m, p, k)[p + k := 0] == Zeroed(m, p, k + 1);
  }

  // The page at `va` is frame `f`, through entries in [lo, hi) that are not in that frame.
  ghost predicate PageReaches(m: Mem, cr3: Word, paging: bool, va: Word, f: int, lo: int, hi: int)
    requires va % PAGE_SIZE == 0 && 0 <= f < FRAMES
  {
    forall k: int :: 0 <= k < PAGE_WORDS ==>
      && Reaches(m, cr3, paging, va + 4 * k, f * PAGE_SIZE + 4 * k, lo, hi)
      && Avoids(m, cr3, paging, va + 4 * k, f * PAGE_WORDS, PAGE_WORDS)
  }

  lemma WordReaches(m: Mem, cr3: Word, paging: bool, va: Word, f: int, k: int, lo: int, hi: int)
    requires va % PAGE_SIZE == 0 && 0 <= f < FRAMES && 0 <= k < PAGE_WORDS
    requires PageReaches(m, cr3, paging, va, f, lo, hi)
    ensures var pa := f * PAGE_SIZE + 4 * k;
      Reaches(m, cr3, paging, va + 4 * k, pa, lo, hi) && pa % 4 == 0 && pa / 4 == f * PAGE_WORDS + k
  {
    hide Reaches, Avoids;
    DivIs(f * PAGE_SIZE + 4 * k, 4, f * PAGE_WORDS + k, 0);
  }

  // Memory and control registers as the kernel drives them. The preconditions of the
  // accesses are the absence of a page fault, so every caller proves it never takes one.
  class Board {
    var mem: Mem
    var cr3: Word
    var paging: bool

    constructor (contents: Mem)
      ensures mem == contents && cr3 == 0 && !paging
    {
      mem, cr3, paging := contents, 0, false;
    }

    method Load(va: Word, ghost pa: Word, ghost lo: int, ghost hi: int) returns (v: Word)
      requires va % 4 == 0 && pa % 4 == 0 && Reaches(mem, cr3, paging, va, pa, lo, hi)
      modifies this`mem
      ensures v == mem[pa / 4]
      ensures Avoids(old(mem), cr3, paging, va, pa / 4, 1) ==> v == old(mem)[pa / 4]
      ensures SameButAD(old(mem), mem, lo, hi)
      ensures Reaches(mem, cr3, paging, va, pa, lo, hi)
      ensures paging ==> PteSlot(mem, cr3, va) == PteSlot(old(mem), cr3, va)
    {
      var at := Resolve(mem, cr3, paging, va, KERNEL_READ).value;
      ghost var before := mem;
      mem := Marked(mem, cr3, paging, va, KERNEL_READ);
      v := mem[at / 4];
      if paging { MarkChangesOnlyAD(before, cr3, va, KERNEL_READ, lo, hi); }
      StillReaches(before, mem, cr3, paging, va, pa, lo, hi);
    }

    method Store(va: Word, v: Word, ghost pa: Word, ghost lo: int, ghost hi: int)
      requires va % 4 == 0 && pa % 4 == 0 && Reaches(mem, cr3, paging, va, pa, lo, hi)
      modifies this`mem
      ensures mem[pa / 4] == v
      ensures SameButAD(old(mem)[pa / 4 := v], mem, lo, hi)
      ensures Avoids(old(mem), cr3, paging, va, pa / 4, 1) ==>
        Reaches(mem, cr3, paging, va, pa, lo, hi)
        && (paging ==> PteSlot(mem, cr3, va) == PteSlot(old(mem), cr3, va))
    {
      var at := Resolve(mem, cr3, paging, va, KERNEL_WRITE).value;
      ghost var before := mem;
      mem := Marked(mem, cr3, paging, va, KERNEL_WRITE)[at / 4 := v];
      if paging { MarkChangesOnlyAD(before, cr3, va, KERNEL_WRITE, lo, hi); }
      if Avoids(before, cr3, paging, va, pa / 4, 1) {
        StillReaches(before, mem, cr3, paging, va, pa, lo, hi);
      }
    }

    method ClearWord(va: Word, k: int, ghost f: int, ghost lo: int, ghost hi: int)
      requires va % PAGE_SIZE == 0 && 0 <= f < FRAMES && 0 <= k < PAGE_WORDS
      requires PageReaches(mem, cr3, paging, va, f, lo, hi)
      modifies this`mem
      ensures SameButAD(old(mem)[f * PAGE_WORDS + k := 0], mem, lo, hi)
      ensures PageReaches(mem, cr3, paging, va, f, lo, hi)
    {
      hide SameButAD, Reaches, PageReaches, Avoids;
      ghost var pa := f * PAGE_SIZE + 4 * k;
      WordReaches(mem, cr3, paging, va, f, k, lo, hi);
      Store(va + 4 * k, 0, pa, lo, hi);
      PageStillReaches(old(mem), mem, cr3, paging, va, f, f * PAGE_WORDS + k, lo, hi);
    }

    // memset(page, 0, PAGE_SIZE), dword by dword.
    method ClearPage(va: Word, ghost f: int, ghost lo: int, ghost hi: int)
      requires va % PAGE_SIZE == 0 && 0 <= f < FRAMES
      requires PageReaches(mem, cr3, paging, va, f, lo, hi)
      modifies this`mem
      ensures SameButAD(Zeroed(old(mem), f * PAGE_WORDS, PAGE_WORDS), mem, lo, hi)
      ensures PageReaches(mem, cr3, paging, va, f, lo, hi)
    {
      for k := 0 to PAGE_WORDS
        invariant SameButAD(Zeroed(old(mem), f * PAGE_WORDS, k), mem, lo, hi)
        invariant PageReaches(mem, cr3, paging, va, f, lo, hi)
      {
        ghost var before := mem;
        ClearWord(va, k, f, lo, hi);
        ZeroNext(old(mem), before, mem, f * PAGE_WORDS, k, lo, hi);
      }
    }

    // pg_set_entry: two stores and the load between them, all through the translation in
    // force. The entry must not be one of those that translate its own address.
    method PgSetEntry(va: Word, attr: Word, pfn: Word, ghost pa: Word, ghost lo: int, ghost hi: int)
      requires va % 4 == 0 && pa % 4 == 0 && Reaches(mem, cr3, paging, va, pa, lo, hi)
      requires Avoids(mem, cr3, paging, va, pa / 4, 1)
      modifies this`mem
      ensures SameButAD(old(mem)[pa / 4 := Entry(attr, pfn)], mem, lo, hi)
      ensures mem[pa / 4] == Entry(attr, pfn)
    {
      ghost var p := pa / 4;
      ghost var m0 := mem;
      Store(va, RawOf(attr), pa, lo, hi);
      ghost var m1 := mem;
      var raw := Load(va, pa, lo, hi);
      ghost var m2 := mem;
      SameButADCompose(m0[p := RawOf(attr)], m1, m2, lo, hi);
      Store(va, WithAddr(raw, pfn), pa, lo, hi);
      SameButADWrite(m0[p := RawOf(attr)], m2, p, WithAddr(raw, pfn), lo, hi);
      assert m0[p := RawOf(attr)][p := WithAddr(raw, pfn)] == m0[p := Entry(attr, pfn)];
      SameButADCompose(m0[p := Entry(attr, pfn)], m2[p := Entry(attr, pfn)], mem, lo, hi);
    }
  }
}
