// tp4/tp.c: page tables built in physical memory, then edited through themselves.
module LiveEdit {
  import opened Words
  import opened Paging

  const PGD: Word := 0x60_0000
  const PTB: Word := 0x60_1000
  const PTB2: Word := 0x60_2000
  const PTB3: Word := 0x60_3000
  const TARGET: Word := 0xc000_0000

  const LO := 0x600 * PAGE_WORDS
  const HI := 0x604 * PAGE_WORDS

  // The frame that entry j of table frame f maps, for the kernel alone, ...
  type Tables = (int, int) -> Option<Word>

  function EntryOf(s: Option<Word>): Word {
    match s case None => 0 case Some(pfn) => Entry(Attr(false), pfn)
  }

  // ... when paging is switched on: 8 MB of identity mapping; frame 0x603 is still unused,
  function Built(f: int, j: int): (s: Option<Word>)
    ensures s.Some? ==> s.value < FRAMES
  {
    if !(0 <= j < PAGE_WORDS) then None
    else match f
      case 0x600 => if j == 0 then Some(0x601) else if j == 1 then Some(0x602) else None
      case 0x601 => Some(j)
      case 0x602 => Some(j + 1024)
      case _ => None
  }

  // ... once 0xc0000000 stands for the page directory itself,
  function Aliased(f: int, j: int): Option<Word> {
    if f == 0x600 && j == 0x300 then Some(0x603)
    else if f == 0x603 then if j == 0 then Some(0x600) else None
    else Built(f, j)
  }

  // ... once pages 0x700 and 0x7ff share frame 2,
  function Shared(f: int, j: int): Option<Word> {
    if f == 0x602 && (j == 0x300 || j == 0x3ff) then Some(2) else Aliased(f, j)
  }

  // ... and after the store through 0xc0000000.
  function Unmapped(f: int, j: int): Option<Word> {
    if f == 0x600 && j == 0 then None else Shared(f, j)
  }

  // Frames 0x600 to `last` hold `want`, up to accessed and dirty bits.
  ghost predicate Hold(m: Mem, want: Tables, last: int)
    requires last < FRAMES
  {
    forall f: int, j: int :: 0x600 <= f <= last && 0 <= j < PAGE_WORDS ==>
      Strip(At(m, f, j)) == EntryOf(want(f, j))
  }

  ghost predicate SameOutside(m: Mem, n: Mem) {
    forall p :: 0 <= p < PHYS_WORDS && !(LO <= p < HI) ==> m[p] == n[p]
  }

  // ---- Every edit reaches its word -----------------------------------------------------

  // The four table frames are mapped at their own addresses, by five words of the tables.
  ghost predicate TablesMapped(want: Tables) {
    want(0x600, 1) == Some(0x602)
    && forall j :: 0x200 <= j < 0x204 ==> want(0x602, j) == Some(0x400 + j)
  }

  lemma TableIndices(va: Word)
    requires PGD <= va < PGD + 4 * PAGE_SIZE
    ensures PdIdx(va) == 1 && PtIdx(va) == va / PAGE_SIZE - 0x400 && 0x200 <= PtIdx(va) < 0x204
    ensures va == (0x400 + PtIdx(va)) * PAGE_SIZE + va % PAGE_SIZE
  {
  }

  lemma TablesReach(m: Mem, want: Tables, last: int, va: Word)
    requires 0x602 <= last <= 0x603 && Hold(m, want, last) && TablesMapped(want)
    requires PGD <= va < PGD + 4 * PAGE_SIZE
    ensures Reaches(m, PGD, true, va, va, LO + 1, HI)
    ensures PdeSlot(PGD, va) == LO + 1
    ensures PteSlot(m, PGD, va) == 0x602 * PAGE_WORDS + va / PAGE_SIZE - 0x400
  {
    TableIndices(va);
    var j := PtIdx(va);
    assert Strip(At(m, 0x600, 1)) == EntryOf(want(0x600, 1));
    MarkedEntryDecodes(At(m, 0x600, 1), false, 0x602);
    assert Strip(At(m, 0x602, j)) == EntryOf(want(0x602, j));
    MarkedEntryDecodes(At(m, 0x602, j), false, 0x400 + j);
    WalkThrough(m, PGD, va, KERNEL_READ, 0x602, 0x400 + j);
  }

  // ---- Writing one entry ---------------------------------------------------------------------

  // n is m with word (g, i) replaced by v, up to marks in the tables.
  ghost predicate Edited(m: Mem, n: Mem, g: int, i: int, v: Word)
    requires 0x600 <= g <= 0x603 && 0 <= i < PAGE_WORDS
  {
    SameButAD(m[g * PAGE_WORDS + i := v], n, LO, HI)
  }

  lemma EditedHolds(m: Mem, n: Mem, want: Tables, next: Tables, last: int, g: int, i: int, v: Option<Word>)
    requires 0x600 <= g <= 0x603 && 0 <= i < PAGE_WORDS && last <= 0x603
    requires Hold(m, want, last) && Edited(m, n, g, i, EntryOf(v)) && (v.Some? ==> v.value < FRAMES)
    requires forall f: int, j: int :: 0x600 <= f <= last && 0 <= j < PAGE_WORDS ==>
      next(f, j) == if f == g && j == i then v else want(f, j)
    ensures Hold(n, next, last) && SameOutside(m, n)
  {
    var p := g * PAGE_WORDS + i;
    var mv: Mem := m[p := EntryOf(v)];
    if v.Some? { EntryDecodes(false, v.value); }
    forall f: int, j: int | 0x600 <= f <= last && 0 <= j < PAGE_WORDS
      ensures Strip(At(n, f, j)) == EntryOf(next(f, j))
    {
      assert Strip(At(m, f, j)) == EntryOf(want(f, j));
      var q := f * PAGE_WORDS + j;
      assert Strip(mv[q]) == Strip(n[q]);
      assert q == p <==> f == g && j == i;
    }
  }

  // The entry (g, i) does not translate its own address.
  lemma EntryAvoidsItself(m: Mem, want: Tables, last: int, g: int, i: int)
    requires 0x602 <= last <= 0x603 && Hold(m, want, last) && TablesMapped(want)
    requires 0x600 <= g <= 0x603 && 0 <= i < PAGE_WORDS
    requires !(g == 0x600 && i == 1) && !(g == 0x602 && 0x200 <= i < 0x204)
    ensures var va := g * PAGE_SIZE + 4 * i;
      Reaches(m, PGD, true, va, va, LO, HI) && Avoids(m, PGD, true, va, g * PAGE_WORDS + i, 1)
  {
    TablesReach(m, want, last, g * PAGE_SIZE + 4 * i);
  }

  // pg_set_entry once paging is on: the store goes through the tables it edits, and still
  // changes the one entry it is meant to change.
  method EditLive(board: Board, g: int, i: int, pfn: Word, ghost want: Tables, ghost next: Tables, ghost last: int)
    requires board.paging && board.cr3 == PGD
    requires 0x600 <= g <= 0x603 && 0 <= i < PAGE_WORDS && pfn < FRAMES
    requires 0x602 <= last <= 0x603 && Hold(board.mem, want, last) && TablesMapped(want)
    requires !(g == 0x600 && i == 1) && !(g == 0x602 && 0x200 <= i < 0x204)
    requires forall f: int, j: int :: 0x600 <= f <= last && 0 <= j < PAGE_WORDS ==>
      next(f, j) == if f == g && j == i then Some(pfn) else want(f, j)
    modifies board`mem
    ensures Hold(board.mem, next, last) && SameOutside(old(board.mem), board.mem)
  {
    var va := g * PAGE_SIZE + 4 * i;
    EntryAvoidsItself(board.mem, want, last, g, i);
    assert va / 4 == g * PAGE_WORDS + i;
    board.PgSetEntry(va, Attr(false), pfn, va, LO, HI);
    EditedHolds(old(board.mem), board.mem, want, next, last, g, i, Some(pfn));
  }

  // The same while paging is still off.
  method EditFlat(board: Board, table: Word, i: int, pfn: Word)
    requires !board.paging && table in {PGD, PTB, PTB2} && 0 <= i < PAGE_WORDS && pfn < FRAMES
    modifies board`mem
    ensures board.mem == old(board.mem)[table / PAGE_SIZE * PAGE_WORDS + i := Entry(Attr(false), pfn)]
  {
    var va := table + 4 * i;
    assert va / 4 == table / PAGE_SIZE * PAGE_WORDS + i;
    board.PgSetEntry(va, Attr(false), pfn, va, 0, 0);
  }

  // ---- tp4, step by step ---------------------------------------------------------------------

  method FillTable(board: Board, table: Word, first: Word)
    requires !board.paging && table in {PTB, PTB2} && first <= 1024
    modifies board`mem
    ensures forall j: int :: 0 <= j < PAGE_WORDS ==> At(board.mem, table / PAGE_SIZE, j) == Entry(Attr(false), j + first)
    ensures forall f: int, j: int :: 0 <= f < FRAMES && 0 <= j < PAGE_WORDS && f != table / PAGE_SIZE ==>
      At(board.mem, f, j) == At(old(board.mem), f, j)
  {
    for i := 0 to 1024
      invariant forall j: int :: 0 <= j < i ==> At(board.mem, table / PAGE_SIZE, j) == Entry(Attr(false), j + first)
      invariant forall f: int, j: int :: 0 <= f < FRAMES && 0 <= j < PAGE_WORDS && f != table / PAGE_SIZE ==>
        At(board.mem, f, j) == At(old(board.mem), f, j)
    {
      ghost var before := board.mem;
      EditFlat(board, table, i, i + first);
      AtUpdate(before, board.mem, table / PAGE_SIZE, i, Entry(Attr(false), i + first));
    }
  }

  lemma BuiltHolds(m: Mem)
    requires forall f: int, j: int :: 0x600 <= f <= 0x602 && 0 <= j < PAGE_WORDS ==>
      At(m, f, j) == EntryOf(Built(f, j))
    ensures Hold(m, Built, 0x602)
  {
    forall f: int, j: int | 0x600 <= f <= 0x602 && 0 <= j < PAGE_WORDS
      ensures Strip(At(m, f, j)) == EntryOf(Built(f, j))
    {
      if Built(f, j).Some? { EntryDecodes(false, Built(f, j).value); }
    }
  }

  lemma SameFramesSameOutside(m: Mem, n: Mem)
    requires forall f: int, j: int :: 0 <= f < FRAMES && 0 <= j < PAGE_WORDS && !(0x600 <= f <= 0x603) ==>
      At(n, f, j) == At(m, f, j)
    ensures SameOutside(m, n)
  {
    forall p | 0 <= p < PHYS_WORDS && !(LO <= p < HI) ensures m[p] == n[p] {
      assert At(n, p / PAGE_WORDS, p % PAGE_WORDS) == At(m, p / PAGE_WORDS, p % PAGE_WORDS);
    }
  }

  // Q2 to Q6: the tables are complete before paging goes on.
  method BuildTables(board: Board)
    requires !board.paging
    modifies board
    ensures board.paging && board.cr3 == PGD
    ensures Hold(board.mem, Built, 0x602) && SameOutside(old(board.mem), board.mem)
  {
    hide Entry, Attr, Strip, Hold, SameOutside;
    board.cr3 := PGD;
    FillTable(board, PTB, 0);
    ghost var m1 := board.mem;
    board.ClearPage(PGD, 0x600, 0, 0);
    ghost var m2 := board.mem;
    assert forall f: int, j: int :: 0 <= f < FRAMES && 0 <= j < PAGE_WORDS ==>
      At(m2, f, j) == if f == 0x600 then 0 else At(m1, f, j);
    EditFlat(board, PGD, 0, PTB / PAGE_SIZE);
    ghost var m3 := board.mem;
    AtUpdate(m2, m3, 0x600, 0, Entry(Attr(false), 0x601));
    FillTable(board, PTB2, 1024);
    ghost var m4 := board.mem;
    EditFlat(board, PGD, 1, PTB2 / PAGE_SIZE);
    AtUpdate(m4, board.mem, 0x600, 1, Entry(Attr(false), 0x602));
    BuiltHolds(board.mem);
    SameFramesSameOutside(old(board.mem), board.mem);
    board.paging := true;
  }

  // Q7: through the identity mapping, make 0xc0000000 stand for the directory; the values
  // read back through the two addresses are the same.
  method AliasDirectory(board: Board) returns (direct: Word, target: Word)
    requires board.paging && board.cr3 == PGD && Hold(board.mem, Built, 0x602)
    modifies board`mem
    ensures Hold(board.mem, Aliased, 0x603) && SameOutside(old(board.mem), board.mem)
    ensures direct == target && Strip(direct) == EntryOf(Some(0x601))
  {
    ghost var m0 := board.mem;
    PageThreeReaches(m0);
    board.ClearPage(PTB3, 0x603, LO, HI);
    ghost var m1 := board.mem;
    ClearedHolds(m0, m1);
    EditLive(board, 0x603, 0, PGD / PAGE_SIZE, Cleared, HalfAliased, 0x603);
    EditLive(board, 0x600, 0x300, PTB3 / PAGE_SIZE, HalfAliased, Aliased, 0x603);
    ghost var m2 := board.mem;
    TablesReach(m2, Aliased, 0x603, PGD);
    direct := board.Load(PGD, PGD, LO + 1, HI);
    ghost var m3 := board.mem;
    MarkedHolds(m2, m3, Aliased);
    TargetReaches(m3, Aliased);
    target := board.Load(TARGET, PGD, LO + 1, HI);
    MarkedHolds(m3, board.mem, Aliased);
    assert m2[LO] == At(m2, 0x600, 0);
  }

  // Between the two edits of Q7.
  function Cleared(f: int, j: int): Option<Word> {
    if f == 0x603 then None else Built(f, j)
  }

  function HalfAliased(f: int, j: int): Option<Word> {
    if f == 0x603 && j == 0 then Some(0x600) else Cleared(f, j)
  }

  lemma PageThreeReaches(m: Mem)
    requires Hold(m, Built, 0x602)
    ensures PageReaches(m, PGD, true, PTB3, 0x603, LO, HI)
  {
    forall k: int | 0 <= k < PAGE_WORDS
      ensures Reaches(m, PGD, true, PTB3 + 4 * k, 0x603 * PAGE_SIZE + 4 * k, LO, HI)
      ensures Avoids(m, PGD, true, PTB3 + 4 * k, 0x603 * PAGE_WORDS, PAGE_WORDS)
    {
      TablesReach(m, Built, 0x602, PTB3 + 4 * k);
    }
  }

  lemma ClearedHolds(m: Mem, n: Mem)
    requires Hold(m, Built, 0x602) && SameButAD(Zeroed(m, 0x603 * PAGE_WORDS, PAGE_WORDS), n, LO, HI)
    ensures Hold(n, Cleared, 0x603) && SameOutside(m, n)
  {
    var z := Zeroed(m, 0x603 * PAGE_WORDS, PAGE_WORDS);
    forall f: int, j: int | 0x600 <= f <= 0x603 && 0 <= j < PAGE_WORDS ensures Strip(At(n, f, j)) == EntryOf(Cleared(f, j)) {
      var q := f * PAGE_WORDS + j;
      assert Strip(z[q]) == Strip(n[q]);
      if f <= 0x602 {
        assert Strip(At(m, f, j)) == EntryOf(Built(f, j));
        assert z[q] == m[q];
      } else {
        assert z[q] == 0;
      }
    }
  }

  lemma MarkedHolds(m: Mem, n: Mem, want: Tables)
    requires Hold(m, want, 0x603) && SameButAD(m, n, LO, HI)
    ensures Hold(n, want, 0x603) && SameOutside(m, n)
  {
    forall f: int, j: int | 0x600 <= f <= 0x603 && 0 <= j < PAGE_WORDS ensures Strip(At(n, f, j)) == EntryOf(want(f, j)) {
      assert Strip(At(m, f, j)) == EntryOf(want(f, j));
      assert Strip(m[f * PAGE_WORDS + j]) == Strip(n[f * PAGE_WORDS + j]);
    }
  }

  // 0xc0000000 reaches the directory, by entries 0x300 of it and 0 of ptb3.
  lemma TargetReaches(m: Mem, want: Tables)
    requires Hold(m, want, 0x603)
    requires want(0x600, 0x300) == Some(0x603) && want(0x603, 0) == Some(0x600)
    ensures Reaches(m, PGD, true, TARGET, PGD, LO + 1, HI)
    ensures Avoids(m, PGD, true, TARGET, LO, 1)
  {
    assert PdIdx(TARGET) == 0x300 && PtIdx(TARGET) == 0;
    assert Strip(At(m, 0x600, 0x300)) == EntryOf(want(0x600, 0x300));
    MarkedEntryDecodes(At(m, 0x600, 0x300), false, 0x603);
    assert Strip(At(m, 0x603, 0)) == EntryOf(want(0x603, 0));
    MarkedEntryDecodes(At(m, 0x603, 0), false, 0x600);
    WalkThrough(m, PGD, TARGET, KERNEL_READ, 0x603, 0x600);
  }

  // Q8: two virtual pages share physical frame 2.
  method ShareFrame(board: Board)
    requires board.paging && board.cr3 == PGD && Hold(board.mem, Aliased, 0x603)
    modifies board`mem
    ensures Hold(board.mem, Shared, 0x603) && SameOutside(old(board.mem), board.mem)
  {
    assert PtIdx(0x70_0000) == 0x300 && PtIdx(0x7f_f000) == 0x3ff;
    assert TablesMapped(Aliased);
    assert TablesMapped(HalfShared);
    EditLive(board, PTB2 / PAGE_SIZE, PtIdx(0x70_0000), 2, Aliased, HalfShared, 0x603);
    EditLive(board, PTB2 / PAGE_SIZE, PtIdx(0x7f_f000), 2, HalfShared, Shared, 0x603);
  }

  function HalfShared(f: int, j: int): Option<Word> {
    if f == 0x602 && j == 0x300 then Some(2) else Aliased(f, j)
  }

  // Q9: `*target = 0`.
  method UnmapFirst(board: Board)
    requires board.paging && board.cr3 == PGD && Hold(board.mem, Shared, 0x603)
    modifies board`mem
    ensures board.mem[PGD / 4] == 0
    ensures Hold(board.mem, Unmapped, 0x603) && SameOutside(old(board.mem), board.mem)
  {
    TargetReaches(board.mem, Shared);
    board.Store(TARGET, 0, PGD, LO, HI);
    EditedHolds(old(board.mem), board.mem, Shared, Unmapped, 0x603, 0x600, 0, None);
  }

  method Tp(board: Board) returns (direct: Word, target: Word)
    requires !board.paging
    modifies board
    ensures board.paging && board.cr3 == PGD
    ensures Hold(board.mem, Unmapped, 0x603) && SameOutside(old(board.mem), board.mem)
    ensures direct == target
  {
    BuildTables(board);
    direct, target := AliasDirectory(board);
    ShareFrame(board);
    UnmapFirst(board);
  }

  // ---- What the edited tables mean -----------------------------------------------------------

  // The map before the last store: 8 MB of identity but for two pages, and the directory.
  function MapBefore(va: Word): Option<Word> {
    if va / PAGE_SIZE == 0x700 || va / PAGE_SIZE == 0x7ff then Some(0x2000 + va % PAGE_SIZE)
    else if va < 0x80_0000 then Some(va)
    else if va / PAGE_SIZE == TARGET / PAGE_SIZE then Some(PGD + va % PAGE_SIZE)
    else None
  }

  // Clearing directory entry 0 takes away the first 4 MB, and nothing else.
  function MapAfter(va: Word): Option<Word> {
    if va < 0x40_0000 then None else MapBefore(va)
  }

  function PageTable(unmapped: bool, i: int): Option<Word> {
    if i == 0 then if unmapped then None else Some(0x601)
    else if i == 1 then Some(0x602)
    else if i == 0x300 then Some(0x603)
    else None
  }

  function Leaf(t: int, j: int): Option<Word>
    requires 0 <= j < PAGE_WORDS
  {
    if t == 0x601 then Some(j)
    else if t == 0x602 then if j == 0x300 || j == 0x3ff then Some(2) else Some(j + 1024)
    else if j == 0 then Some(0x600) else None
  }

  function Stage(unmapped: bool): Tables {
    if unmapped then Unmapped else Shared
  }

  lemma EntryMeans(m: Mem, want: Tables, f: int, j: int, e: Option<Word>)
    requires Hold(m, want, 0x603) && 0x600 <= f <= 0x603 && 0 <= j < PAGE_WORDS
    requires want(f, j) == e && (e.Some? ==> e.value < FRAMES)
    ensures var w := At(m, f, j);
      if e.None? then !Present(w) else Present(w) && !UserLevel(w) && FrameOf(w) == e.value
  {
    assert Strip(At(m, f, j)) == EntryOf(want(f, j));
    match e
    case None => StripSplit(At(m, f, j));
    case Some(pfn) => MarkedEntryDecodes(At(m, f, j), false, pfn);
  }

  lemma MapByIndex(unmapped: bool, va: Word)
    ensures (if unmapped then MapAfter(va) else MapBefore(va)) ==
      match PageTable(unmapped, PdIdx(va))
      case None => None
      case Some(t) => match Leaf(t, PtIdx(va))
        case None => None
        case Some(pfn) => Some(pfn * PAGE_SIZE + va % PAGE_SIZE)
  {
    AddressSplits(va);
    var i, j, k := PdIdx(va), PtIdx(va), va % PAGE_SIZE;
    assert va / PAGE_SIZE == i * 1024 + j;
    assert va == i * 0x40_0000 + j * 0x1000 + k && 0 <= j * 0x1000 + k < 0x40_0000;
  }

  // For every virtual address: the walk through the edited tables, before and after the store
  // that clears the directory's first entry. Nothing is ever mapped for user mode.
  lemma EditedTranslation(m: Mem, unmapped: bool, va: Word, a: Access)
    requires Hold(m, Stage(unmapped), 0x603)
    ensures Walk(m, PGD, va, a) ==
      if a.user then None else if unmapped then MapAfter(va) else MapBefore(va)
  {
    var i, j := PdIdx(va), PtIdx(va);
    MapByIndex(unmapped, va);
    EntryMeans(m, Stage(unmapped), 0x600, i, PageTable(unmapped, i));
    match PageTable(unmapped, i)
    case None => WalkStops(m, PGD, va, a, FrameOf(At(m, 0x600, i)));
    case Some(t) =>
      EntryMeans(m, Stage(unmapped), t, j, Leaf(t, j));
      if a.user || Leaf(t, j).None? {
        WalkStops(m, PGD, va, a, t);
      } else {
        WalkThrough(m, PGD, va, a, t, Leaf(t, j).value);
      }
  }
}