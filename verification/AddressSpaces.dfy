// The three address spaces that config_pgds lays out in tp_exam/tp.c.
module AddressSpaces {
  import opened Words
  import opened Paging

  // Page directories and page tables, at their physical addresses.
  const PGD: Word := 0x35_0000
  const PGD_PTB: Word := 0x35_1000
  const PGD_TASK_1: Word := 0x35_2000
  const PGD_TASK_1_PTB_0: Word := 0x35_3000
  const PGD_TASK_1_PTB_1: Word := 0x35_4000
  const PGD_TASK_1_PTB_2: Word := 0x35_5000
  const PGD_TASK_2: Word := 0x35_6000
  const PGD_TASK_2_PTB_0: Word := 0x35_7000
  const PGD_TASK_2_PTB_1: Word := 0x35_8000
  const PGD_TASK_2_PTB_2: Word := 0x35_9000

  const FIRST_TABLE := 0x350
  const LAST_TABLE := 0x359
  const TABLES_LO := FIRST_TABLE * PAGE_WORDS
  const TABLES_HI := (LAST_TABLE + 1) * PAGE_WORDS
  const SHARED_FRAME := 0xe00

  // What an entry of a table maps: a frame, for the kernel alone or for a task too.
  datatype Mapping = Mapping(user: bool, pfn: Word)

  function EntryOf(s: Option<Mapping>): Word {
    match s case None => 0 case Some(x) => Entry(Attr(x.user), x.pfn)
  }

  // Entry j of table frame f, as config_pgds leaves it.
  function Table(f: int, j: int): Word { EntryOf(Slot(f, j)) }

  function Slot(f: int, j: int): (s: Option<Mapping>)
    ensures s.Some? ==> s.value.pfn < FRAMES
  {
    match (f, j)
    case (0x352, 1) => Some(Mapping(true, 0x354))
    case (0x352, 2) => Some(Mapping(true, 0x355))
    case (0x356, 1) => Some(Mapping(true, 0x359))
    case (0x356, 2) => Some(Mapping(true, 0x358))
    case _ => KernelSlot(f, j)
  }

  // The same without the user entries of the two task directories.
  function KernelTable(f: int, j: int): Word { EntryOf(KernelSlot(f, j)) }

  function KernelSlot(f: int, j: int): (s: Option<Mapping>)
    ensures s.Some? ==> s.value.pfn < FRAMES
  {
    match (f, j)
    case (0x350, 0) => Some(Mapping(false, 0x351))
    case (0x352, 0) => Some(Mapping(false, 0x353))
    case (0x356, 0) => Some(Mapping(false, 0x357))
    case (0x355, 0) => Some(Mapping(true, SHARED_FRAME))
    case (0x359, 0) => Some(Mapping(true, SHARED_FRAME))
    case _ => IdentitySlot(f, j)
  }

  // The five tables that the loop of config_pgds fills.
  function IdentitySlot(f: int, j: int): (s: Option<Mapping>)
    ensures s.Some? ==> s.value.pfn < FRAMES
  {
    if !(0 <= j < PAGE_WORDS) then None else
    match f
    case 0x351 => Some(Mapping(false, j))
    case 0x353 => Some(Mapping(false, j))
    case 0x357 => Some(Mapping(false, j))
    case 0x354 => Some(Mapping(true, 1024 + j))
    case 0x358 => Some(Mapping(true, 2 * 1024 + j))
    case _ => None
  }

  // The tables in memory are those of config_pgds, whatever accesses have marked in them.
  ghost predicate TablesOk(m: Mem) {
    forall f: int, j: int :: FIRST_TABLE <= f <= LAST_TABLE && 0 <= j < PAGE_WORDS ==>
      Strip(At(m, f, j)) == Table(f, j)
  }

  // ---- Building --------------------------------------------------------------------------

  // pg_set_entry before paging is on: exactly one word changes.
  method SetEntry(board: Board, table: Word, i: int, attr: Word, pfn: Word)
    requires table % PAGE_SIZE == 0 && 0 <= i < PAGE_WORDS && !board.paging
    modifies board`mem
    ensures board.mem == old(board.mem)[table / PAGE_SIZE * PAGE_WORDS + i := Entry(attr, pfn)]
  {
    var va := table + 4 * i;
    assert va / 4 == table / PAGE_SIZE * PAGE_WORDS + i;
    board.PgSetEntry(va, attr, pfn, va, 0, 0);
  }

  // `memset(table, 0, PAGE_SIZE)` before paging is on.
  method ClearTable(board: Board, table: Word)
    requires table % PAGE_SIZE == 0 && !board.paging
    modifies board`mem
    ensures board.mem == Zeroed(old(board.mem), table / 4, PAGE_WORDS)
  {
    assert table == table / PAGE_SIZE * PAGE_SIZE;
    board.ClearPage(table, table / PAGE_SIZE, 0, 0);
  }

  // The words of the ten table frames are given by `want`; every other word is that of m.
  ghost predicate Built(m: Mem, n: Mem, want: (int, int) -> Word) {
    && (forall f: int, j: int :: FIRST_TABLE <= f <= LAST_TABLE && 0 <= j < PAGE_WORDS ==>
          At(n, f, j) == want(f, j))
    && (forall p :: 0 <= p < PHYS_WORDS && !(TABLES_LO <= p < TABLES_HI) ==> n[p] == m[p])
  }

  // The loop of config_pgds has filled entries 0..i of the five mapped tables.
  function Filled(i: int): (int, int) -> Word {
    (f: int, j: int) => if 0 <= j < i then EntryOf(IdentitySlot(f, j)) else 0
  }

  // One round of the loop.
  method FillRound(board: Board, i: int, ghost m: Mem)
    requires 0 <= i < PAGE_WORDS && !board.paging && Built(m, board.mem, Filled(i))
    modifies board`mem
    ensures Built(m, board.mem, Filled(i + 1))
  {
    ghost var m0 := board.mem;
    SetEntry(board, PGD_PTB, i, Attr(false), i);
    ghost var m1 := board.mem;
    AtUpdate(m0, m1, 0x351, i, Entry(Attr(false), i));
    SetEntry(board, PGD_TASK_1_PTB_0, i, Attr(false), i);
    ghost var m2 := board.mem;
    AtUpdate(m1, m2, 0x353, i, Entry(Attr(false), i));
    SetEntry(board, PGD_TASK_2_PTB_0, i, Attr(false), i);
    ghost var m3 := board.mem;
    AtUpdate(m2, m3, 0x357, i, Entry(Attr(false), i));
    SetEntry(board, PGD_TASK_1_PTB_1, i, Attr(true), 1024 + i);
    ghost var m4 := board.mem;
    AtUpdate(m3, m4, 0x354, i, Entry(Attr(true), 1024 + i));
    SetEntry(board, PGD_TASK_2_PTB_1, i, Attr(true), 2 * 1024 + i);
    AtUpdate(m4, board.mem, 0x358, i, Entry(Attr(true), 2 * 1024 + i));
  }

  lemma ZeroedExtend(m: Mem, p: int, n: nat, k: nat)
    ensures Zeroed(Zeroed(m, p, n), p + n, k) == Zeroed(m, p, n + k)
  {
  }

  method ClearTables(board: Board)
    requires !board.paging
    modifies board`mem
    ensures Built(old(board.mem), board.mem, Filled(0))
  {
    ghost var m := board.mem;
    ClearTable(board, PGD);
    ClearTable(board, PGD_PTB);          ZeroedExtend(m, TABLES_LO, 1024, 1024);
    ClearTable(board, PGD_TASK_1);       ZeroedExtend(m, TABLES_LO, 2 * 1024, 1024);
    ClearTable(board, PGD_TASK_1_PTB_0); ZeroedExtend(m, TABLES_LO, 3 * 1024, 1024);
    ClearTable(board, PGD_TASK_1_PTB_1); ZeroedExtend(m, TABLES_LO, 4 * 1024, 1024);
    ClearTable(board, PGD_TASK_1_PTB_2); ZeroedExtend(m, TABLES_LO, 5 * 1024, 1024);
    ClearTable(board, PGD_TASK_2);       ZeroedExtend(m, TABLES_LO, 6 * 1024, 1024);
    ClearTable(board, PGD_TASK_2_PTB_0); ZeroedExtend(m, TABLES_LO, 7 * 1024, 1024);
    ClearTable(board, PGD_TASK_2_PTB_1); ZeroedExtend(m, TABLES_LO, 8 * 1024, 1024);
    ClearTable(board, PGD_TASK_2_PTB_2); ZeroedExtend(m, TABLES_LO, 9 * 1024, 1024);
    assert board.mem == Zeroed(m, TABLES_LO, 10 * 1024);
  }

  // The shared page and the kernel entries, after the loop.
  method SetKernelEntries(board: Board, ghost m: Mem)
    requires !board.paging && Built(m, board.mem, Filled(PAGE_WORDS))
    modifies board`mem
    ensures Built(m, board.mem, KernelTable)
  {
    var user, kernel := Attr(true), Attr(false);
    ghost var m0 := board.mem;
    SetEntry(board, PGD_TASK_1_PTB_2, 0, user, 0xe0_0000 / PAGE_SIZE);
    ghost var m1 := board.mem;  AtUpdate(m0, m1, 0x355, 0, Entry(user, SHARED_FRAME));
    SetEntry(board, PGD_TASK_2_PTB_2, 0, user, 0xe0_0000 / PAGE_SIZE);
    ghost var m2 := board.mem;  AtUpdate(m1, m2, 0x359, 0, Entry(user, SHARED_FRAME));
    SetEntry(board, PGD, 0, kernel, PGD_PTB / PAGE_SIZE);
    ghost var m3 := board.mem;  AtUpdate(m2, m3, 0x350, 0, Entry(kernel, 0x351));
    SetEntry(board, PGD_TASK_1, 0, kernel, PGD_TASK_1_PTB_0 / PAGE_SIZE);
    ghost var m4 := board.mem;  AtUpdate(m3, m4, 0x352, 0, Entry(kernel, 0x353));
    SetEntry(board, PGD_TASK_2, 0, kernel, PGD_TASK_2_PTB_0 / PAGE_SIZE);
    AtUpdate(m4, board.mem, 0x356, 0, Entry(kernel, 0x357));
  }

  method SetUserEntries(board: Board, ghost m: Mem)
    requires !board.paging && Built(m, board.mem, KernelTable)
    modifies board`mem
    ensures Built(m, board.mem, Table)
  {
    var user := Attr(true);
    ghost var m0 := board.mem;
    SetEntry(board, PGD_TASK_1, 1, user, PGD_TASK_1_PTB_1 / PAGE_SIZE);
    ghost var m1 := board.mem;  AtUpdate(m0, m1, 0x352, 1, Entry(user, 0x354));
    SetEntry(board, PGD_TASK_2, 2, user, PGD_TASK_2_PTB_1 / PAGE_SIZE);
    ghost var m2 := board.mem;  AtUpdate(m1, m2, 0x356, 2, Entry(user, 0x358));
    SetEntry(board, PGD_TASK_2, 1, user, PGD_TASK_2_PTB_2 / PAGE_SIZE);
    ghost var m3 := board.mem;  AtUpdate(m2, m3, 0x356, 1, Entry(user, 0x359));
    SetEntry(board, PGD_TASK_1, 2, user, PGD_TASK_1_PTB_2 / PAGE_SIZE);
    AtUpdate(m3, board.mem, 0x352, 2, Entry(user, 0x355));
  }

  method ConfigPgds(board: Board)
    requires !board.paging
    modifies board
    ensures Built(old(board.mem), board.mem, Table)
    ensures board.cr3 == PGD && board.paging
  {
    ghost var m := board.mem;
    ClearTables(board);
    for i := 0 to 1024
      invariant Built(m, board.mem, Filled(i)) && !board.paging
    {
      FillRound(board, i, m);
    }
    SetKernelEntries(board, m);
    SetUserEntries(board, m);
    board.cr3 := PGD;
    board.paging := true;
  }

  lemma TableIsUnmarked(f: int, j: int)
    ensures Strip(Table(f, j)) == Table(f, j)
  {
    match Slot(f, j)
    case None =>
    case Some(x) => EntryDecodes(x.user, x.pfn);
  }

  lemma BuiltIsOk(m: Mem, n: Mem)
    requires Built(m, n, Table)
    ensures TablesOk(n)
  {
    forall f: int, j: int | FIRST_TABLE <= f <= LAST_TABLE && 0 <= j < PAGE_WORDS
      ensures Strip(At(n, f, j)) == Table(f, j)
    {
      TableIsUnmarked(f, j);
    }
  }

  // ---- What the tables mean ----------------------------------------------------------------

  datatype Space = Boot | Task1 | Task2

  function Directory(s: Space): Word {
    match s case Boot => PGD case Task1 => PGD_TASK_1 case Task2 => PGD_TASK_2
  }

  // The intended address spaces: the kernel's 4 MB, the task's own 4 MB, one shared page.
  function Intended(s: Space, va: Word, user: bool): Option<Word> {
    if va < 0x40_0000 then if user then None else Some(va)
    else match s
      case Boot => None
      case Task1 =>
        if va < 0x80_0000 then Some(va)
        else if va < 0x80_1000 then Some(va - 0x80_0000 + 0xe0_0000) else None
      case Task2 =>
        if va < 0x40_1000 then Some(va - 0x40_0000 + 0xe0_0000)
        else if 0x80_0000 <= va < 0xc0_0000 then Some(va) else None
  }

  // An entry in memory grants what its slot says.
  lemma SlotGrants(m: Mem, f: int, j: int)
    requires TablesOk(m) && FIRST_TABLE <= f <= LAST_TABLE && 0 <= j < PAGE_WORDS
    ensures var e := At(m, f, j);
      match Slot(f, j)
      case None => !Present(e)
      case Some(x) => Present(e) && Writable(e) && UserLevel(e) == x.user && FrameOf(e) == x.pfn
  {
    match Slot(f, j)
    case None => StripSplit(At(m, f, j));
    case Some(x) => MarkedEntryDecodes(At(m, f, j), x.user, x.pfn);
  }

  // The frame of the page table behind directory entry i.
  function PageTable(s: Space, i: int): Option<Word> {
    match (s, i)
    case (Boot, 0) => Some(0x351)
    case (Task1, 0) => Some(0x353)
    case (Task1, 1) => Some(0x354)
    case (Task1, 2) => Some(0x355)
    case (Task2, 0) => Some(0x357)
    case (Task2, 1) => Some(0x359)
    case (Task2, 2) => Some(0x358)
    case _ => None
  }

  lemma DirectoryLevel(m: Mem, s: Space, i: int)
    requires TablesOk(m) && 0 <= i < PAGE_WORDS
    ensures var e := At(m, FrameOf(Directory(s)), i);
      if PageTable(s, i).None? then !Present(e)
      else Present(e) && Writable(e) && (UserLevel(e) <==> i > 0) && FrameOf(e) == PageTable(s, i).value
  {
    SlotGrants(m, FrameOf(Directory(s)), i);
  }

  // The frame behind entry j of page table t.
  function Leaf(t: int, j: int): Option<Word>
    requires 0 <= j < PAGE_WORDS
  {
    if t == 0x354 then Some(1024 + j)
    else if t == 0x358 then Some(2 * 1024 + j)
    else if t == 0x355 || t == 0x359 then if j == 0 then Some(SHARED_FRAME) else None
    else Some(j)
  }

  lemma LeafLevel(m: Mem, s: Space, i: int, j: int)
    requires TablesOk(m) && 0 <= j < PAGE_WORDS && PageTable(s, i).Some?
    ensures var t := PageTable(s, i).value;
      var e := At(m, t, j);
      if Leaf(t, j).None? then !Present(e)
      else Present(e) && Writable(e) && (UserLevel(e) <==> i > 0) && FrameOf(e) == Leaf(t, j).value
  {
    SlotGrants(m, PageTable(s, i).value, j);
  }

  // The intended map, read off the indices of an address.
  lemma IntendedByIndex(s: Space, va: Word, user: bool)
    ensures var i, j := PdIdx(va), PtIdx(va);
      Intended(s, va, user) ==
        if PageTable(s, i).None? || (user && i == 0) then None
        else match Leaf(PageTable(s, i).value, j)
             case None => None
             case Some(pfn) => Some(pfn * PAGE_SIZE + va % PAGE_SIZE)
  {
    var i, j, k := PdIdx(va), PtIdx(va), va % PAGE_SIZE;
    AddressSplits(va);
    assert va == i * 0x40_0000 + j * 0x1000 + k;
    assert 0 <= k < 0x1000 && 0 <= j * 0x1000 + k < 0x40_0000;
  }

  // For every virtual address, directory and kind of access, the walk is the intended map.
  lemma ExactTranslation(m: Mem, s: Space, va: Word, a: Access)
    requires TablesOk(m)
    ensures Walk(m, Directory(s), va, a) == Intended(s, va, a.user)
  {
    var i, j := PdIdx(va), PtIdx(va);
    IntendedByIndex(s, va, a.user);
    DirectoryLevel(m, s, i);
    if PageTable(s, i).Some? {
      LeafLevel(m, s, i, j);
    }
  }

  // What a task may access lies above the kernel, and the supervisor reaches it alike.
  lemma IntendedForUser(s: Space, va: Word)
    requires Intended(s, va, true).Some?
    ensures Intended(s, va, true).value >= 0x40_0000
    ensures va % 4 == 0 ==> Intended(s, va, true).value % 4 == 0
    ensures Intended(s, va, false) == Intended(s, va, true)
  {
  }

  // Two tasks reach the same byte exactly when both go through the shared page, at the same
  // offset of their windows 0x800000 and 0x400000.
  lemma OneSharedWindow(m: Mem, va1: Word, va2: Word, w1: bool, w2: bool)
    requires TablesOk(m)
    ensures var pa1 := Walk(m, PGD_TASK_1, va1, Access(true, w1));
      var pa2 := Walk(m, PGD_TASK_2, va2, Access(true, w2));
      (pa1.Some? && pa1 == pa2) <==>
        (0x80_0000 <= va1 < 0x80_1000 && va2 - 0x40_0000 == va1 - 0x80_0000)
  {
    ExactTranslation(m, Task1, va1, Access(true, w1));
    ExactTranslation(m, Task2, va2, Access(true, w2));
  }

  lemma SlotsAreTables(m: Mem, s: Space, va: Word, a: Access)
    requires TablesOk(m) && Walk(m, Directory(s), va, a).Some?
    ensures TABLES_LO <= PdeSlot(Directory(s), va) < TABLES_HI
    ensures TABLES_LO <= PteSlot(m, Directory(s), va) < TABLES_HI
  {
    DirectoryLevel(m, s, PdIdx(va));
    assert At(m, FrameOf(Directory(s)), PdIdx(va)) == m[PdeSlot(Directory(s), va)];
  }

  lemma TablesOkIgnoresAD(m: Mem, n: Mem)
    requires TablesOk(m) && SameButAD(m, n, TABLES_LO, TABLES_HI)
    ensures TablesOk(n)
  {
    forall f: int, j: int | FIRST_TABLE <= f <= LAST_TABLE && 0 <= j < PAGE_WORDS
      ensures Strip(At(n, f, j)) == Table(f, j)
    {
      assert Strip(At(m, f, j)) == Table(f, j);
      assert Strip(m[f * PAGE_WORDS + j]) == Strip(n[f * PAGE_WORDS + j]);
    }
  }

  lemma TablesOkSameWords(m: Mem, n: Mem)
    requires TablesOk(m) && forall i :: TABLES_LO <= i < TABLES_HI ==> n[i] == m[i]
    ensures TablesOk(n)
  {
    forall f: int, j: int | FIRST_TABLE <= f <= LAST_TABLE && 0 <= j < PAGE_WORDS
      ensures Strip(At(n, f, j)) == Table(f, j)
    {
      assert Strip(At(m, f, j)) == Table(f, j);
      assert n[f * PAGE_WORDS + j] == m[f * PAGE_WORDS + j];
    }
  }

  // The kernel reaches all of its 4 MB, at the same addresses, whichever directory is loaded.
  lemma KernelReaches(m: Mem, s: Space, va: Word)
    requires TablesOk(m) && va < 0x40_0000
    ensures Reaches(m, Directory(s), true, va, va, TABLES_LO, TABLES_HI)
  {
    ExactTranslation(m, s, va, KERNEL_READ);
    SlotsAreTables(m, s, va, KERNEL_READ);
  }

  // A store of a task, with the marks its walk leaves.
  function UserStored(m: Mem, s: Space, va: Word, v: Word): Mem
    requires Walk(m, Directory(s), va, Access(true, true)).Some?
  {
    Mark(m, Directory(s), va, Access(true, true))
      [Walk(m, Directory(s), va, Access(true, true)).value / 4 := v]
  }

  // A task's store changes one word above the kernel's 4 MB; below it, nothing but
  // accessed and dirty bits of the ten tables. Every translation stays as it was.
  lemma UserStoreKeepsTables(m: Mem, s: Space, va: Word, v: Word)
    requires TablesOk(m) && Walk(m, Directory(s), va, Access(true, true)).Some?
    ensures var pa := Walk(m, Directory(s), va, Access(true, true)).value;
      pa >= 0x40_0000
      && SameButAD(m[pa / 4 := v], UserStored(m, s, va, v), TABLES_LO, TABLES_HI)
    ensures TablesOk(UserStored(m, s, va, v))
    ensures forall r: Space, x: Word, a: Access ::
      Walk(UserStored(m, s, va, v), Directory(r), x, a) == Walk(m, Directory(r), x, a)
  {
    var a := Access(true, true);
    var pa := Walk(m, Directory(s), va, a).value;
    ExactTranslation(m, s, va, a);
    SlotsAreTables(m, s, va, a);
    MarkChangesOnlyAD(m, Directory(s), va, a, TABLES_LO, TABLES_HI);
    var n := UserStored(m, s, va, v);
    SameButADWrite(m, Mark(m, Directory(s), va, a), pa / 4, v, TABLES_LO, TABLES_HI);
    TablesOkSameWords(m, m[pa / 4 := v]);
    TablesOkIgnoresAD(m[pa / 4 := v], n);
    forall r: Space, x: Word, b: Access ensures Walk(n, Directory(r), x, b) == Walk(m, Directory(r), x, b) {
      ExactTranslation(m, r, x, b);
      ExactTranslation(n, r, x, b);
    }
  }
}
