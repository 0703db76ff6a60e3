// The kernel's data as plain numbers: at which address each word lies, and which value it has there. The other
// modules speak of fields and entries; these are the values that a debugger would show.
module Numbers {
  import opened Words
  import opened Bytes
  import opened Paging
  import opened AddressSpaces
  import opened Machine
  import opened Digits
  import opened Kernel
  import opened Scheduling
  import LiveEdit

  // ---- Page tables --------------------------------------------------------------------------------------

  // The ten tables that config_pgds leaves in memory, entry by entry.
  lemma TableWords(m: Mem, n: Mem, j: int)
    requires Built(m, n, Table) && 0 <= j < 1024
    ensures n[0xd_4000 + j] == if j == 0 then 0x35_1003 else 0
    ensures n[0xd_4400 + j] == 0x1000 * j + 3
    ensures n[0xd_4800 + j] == if j == 0 then 0x35_3003 else if j == 1 then 0x35_4007 else if j == 2 then 0x35_5007 else 0
    ensures n[0xd_4c00 + j] == 0x1000 * j + 3
    ensures n[0xd_5000 + j] == 0x40_0000 + 0x1000 * j + 7
    ensures n[0xd_5400 + j] == if j == 0 then 0xe0_0007 else 0
    ensures n[0xd_5800 + j] == if j == 0 then 0x35_7003 else if j == 1 then 0x35_9007 else if j == 2 then 0x35_8007 else 0
    ensures n[0xd_5c00 + j] == 0x1000 * j + 3
    ensures n[0xd_6000 + j] == 0x80_0000 + 0x1000 * j + 7
    ensures n[0xd_6400 + j] == if j == 0 then 0xe0_0007 else 0
  {
    hide Entry, Attr;
    TableEntry(m, n, 0x350, j);
    TableEntry(m, n, 0x351, j);
    TableEntry(m, n, 0x352, j);
    TableEntry(m, n, 0x353, j);
    TableEntry(m, n, 0x354, j);
    TableEntry(m, n, 0x355, j);
    TableEntry(m, n, 0x356, j);
    TableEntry(m, n, 0x357, j);
    TableEntry(m, n, 0x358, j);
    TableEntry(m, n, 0x359, j);
  }

  lemma TableEntry(m: Mem, n: Mem, f: int, j: int)
    requires Built(m, n, Table) && 0x350 <= f <= 0x359 && 0 <= j < 1024
    ensures n[f * 1024 + j] == match Slot(f, j) case None => 0 case Some(x) => x.pfn * 4096 + if x.user then 7 else 3
  {
    assert At(n, f, j) == Table(f, j);
    if Slot(f, j).Some? { EntryIs(Slot(f, j).value.user, Slot(f, j).value.pfn); }
  }

  // The four table frames of tp4, but for marks, before and after the last store.
  lemma LiveWords(m: Mem, unmapped: bool, j: int)
    requires LiveEdit.Hold(m, LiveEdit.Stage(unmapped), 0x603) && 0 <= j < 1024
    ensures Strip(m[0x18_0000 + j]) ==
      if j == 0 then if unmapped then 0 else 0x60_1003 else if j == 1 then 0x60_2003 else if j == 0x300 then 0x60_3003 else 0
    ensures Strip(m[0x18_0400 + j]) == 0x1000 * j + 3
    ensures Strip(m[0x18_0800 + j]) == if j == 0x300 || j == 0x3ff then 0x2003 else 0x40_0000 + 0x1000 * j + 3
    ensures Strip(m[0x18_0c00 + j]) == if j == 0 then 0x60_0003 else 0
  {
    hide Strip, Entry, Attr;
    LiveEntry(m, unmapped, 0x600, j);
    LiveEntry(m, unmapped, 0x601, j);
    LiveEntry(m, unmapped, 0x602, j);
    LiveEntry(m, unmapped, 0x603, j);
  }

  lemma LiveEntry(m: Mem, unmapped: bool, f: int, j: int)
    requires LiveEdit.Hold(m, LiveEdit.Stage(unmapped), 0x603) && 0x600 <= f <= 0x603 && 0 <= j < 1024
    ensures var e := LiveEdit.Stage(unmapped)(f, j);
      Strip(m[f * 1024 + j]) == if e.None? then 0 else e.value * 4096 + 3
  {
    hide Strip, Entry, Attr;
    assert Strip(At(m, f, j)) == LiveEdit.EntryOf(LiveEdit.Stage(unmapped)(f, j));
    var e := LiveEdit.Stage(unmapped)(f, j);
    assert e.Some? ==> e.value < FRAMES;
    if e.Some? { EntryIs(false, e.value); }
  }

  // The page walk on the bits of the two entries: 0 present, 1 writable, 2 user.
  lemma WalkBits(m: Mem, cr3: Word, va: Word, a: Access)
    ensures var d := m[cr3 / 0x1000 * 1024 + va / 0x40_0000]; var t := m[d / 0x1000 * 1024 + va / 0x1000 % 1024];
      Walk(m, cr3, va, a) ==
        if d % 2 == 1 && t % 2 == 1
           && (a.user ==> d / 4 % 2 == 1 && t / 4 % 2 == 1 && (a.write ==> d / 2 % 2 == 1 && t / 2 % 2 == 1))
        then Some(t / 0x1000 * 0x1000 + va % 0x1000) else None
  {
  }

  // ---- Interrupts ---------------------------------------------------------------------------------------

  lemma TopBounds(k: Layout, top: Word)
    requires StackRoom(k, top)
    ensures top % 4 == 0 && 0x30_0000 <= top <= 0x39_1000
  {
  }

  // What lies on the kernel's stack when the handler is called, from its argument up: the registers and the frame
  // of five words from ring 3, on the stack that the TSS gives, or of three from ring 0.
  lemma ContextFrom3(k: Layout, s: State)
    requires Valid(k) && StackRoom(k, EntryTop(k, s)) && s.cpu.cs % 4 == 3
    ensures var p, c, g := s.mem[k.tss / 4 + 1] / 4 - 13, s.cpu, s.cpu.g;
      && 0 <= p < PHYS_WORDS - 13 && CtxAt(k, s) == p
      && Pushed(k, s)[p..p + 13] == [g.edi, g.esi, g.ebp, 4 * p + 32, g.ebx, g.edx, g.ecx, g.eax,
                                     c.eip, c.cs, c.eflags, g.esp, c.ss]
      && forall i :: 0 <= i < PHYS_WORDS && !(p <= i < p + 13) ==> Pushed(k, s)[i] == s.mem[i]
  {
    hide StackRoom, Blit;
    TopBounds(k, EntryTop(k, s));
    var p, c, g := s.mem[k.tss / 4 + 1] / 4 - 13, s.cpu, s.cpu.g;
    assert |FrameWords(c)| == 5;
    var ws := GprWords(g, EntryTop(k, s) - 4 * |FrameWords(c)|) + FrameWords(c);
    BlitReadsBack(s.mem, p, ws);
    assert ws == [g.edi, g.esi, g.ebp, 4 * p + 32, g.ebx, g.edx, g.ecx, g.eax, c.eip, c.cs, c.eflags, g.esp, c.ss];
  }

  lemma ContextFrom0(k: Layout, s: State)
    requires Valid(k) && StackRoom(k, EntryTop(k, s)) && s.cpu.cs % 4 != 3
    ensures var p, c, g := s.cpu.g.esp / 4 - 11, s.cpu, s.cpu.g;
      && 0 <= p < PHYS_WORDS - 11 && CtxAt(k, s) == p
      && Pushed(k, s)[p..p + 11] == [g.edi, g.esi, g.ebp, 4 * p + 32, g.ebx, g.edx, g.ecx, g.eax, c.eip, c.cs, c.eflags]
      && forall i :: 0 <= i < PHYS_WORDS && !(p <= i < p + 11) ==> Pushed(k, s)[i] == s.mem[i]
  {
    hide StackRoom, Blit;
    TopBounds(k, EntryTop(k, s));
    var p, c, g := s.cpu.g.esp / 4 - 11, s.cpu, s.cpu.g;
    assert |FrameWords(c)| == 3;
    var ws := GprWords(g, EntryTop(k, s) - 4 * |FrameWords(c)|) + FrameWords(c);
    BlitReadsBack(s.mem, p, ws);
    assert ws == [g.edi, g.esi, g.ebp, 4 * p + 32, g.ebx, g.edx, g.ecx, g.eax, c.eip, c.cs, c.eflags];
  }

  // Saving a task: 15 words from the context to offset 16 of its record of 80 bytes, and the byte at offset 76.
  lemma SavedRecord(k: Layout, m: Mem, ctx: int, t: int)
    requires Valid(k) && 0 <= t < 2 && 0 <= ctx <= PHYS_WORDS - 15
    ensures var a, n := k.tasks / 4 + 20 * t, SaveContext(k, m, ctx, t);
      && n[a + 4..a + 19] == m[ctx..ctx + 15] && n[a + 19] % 0x100 == 1 && n[a + 19] / 0x100 == m[a + 19] / 0x100
      && forall i :: 0 <= i < PHYS_WORDS && !(a + 4 <= i < a + 20) ==> n[i] == m[i]
  {
    hide WithByte;
    var a := k.tasks / 4 + 20 * t;
    LowByte(m[a + 19]);
    BlitReadsBack(m, a + 4, m[ctx..ctx + 15]);
    var n := Blit(m, a + 4, m[ctx..ctx + 15]);
    assert SaveContext(k, m, ctx, t) == n[a + 19 := WithByte(n[a + 19], 0, 1)];
    UpdateAbove(n, a + 4, 15, WithByte(n[a + 19], 0, 1));
    hide SaveContext, Blit;
  }

  lemma BlitReadsBack(m: Mem, p: int, ws: seq<Word>)
    requires 0 <= p <= PHYS_WORDS - |ws|
    ensures var n := Blit(m, p, ws);
      n[p..p + |ws|] == ws && forall i :: 0 <= i < PHYS_WORDS && !(p <= i < p + |ws|) ==> n[i] == m[i]
  {
  }

  lemma UpdateAbove(m: Mem, p: int, len: nat, v: Word)
    requires 0 <= p && p + len < PHYS_WORDS
    ensures m[p + len := v][p..p + len] == m[p..p + len]
  {
  }

  lemma LowByte(w: Word)
    ensures WithByte(w, 0, 1) % 0x100 == 1 && WithByte(w, 0, 1) / 0x100 == w / 0x100
  {
    QuotientsOf(w);
    DivIs(WithByte(w, 0, 1), 0x100, w / 0x100, 1);
  }

  // A dword from its bytes.
  lemma QuotientsOf(w: Word)
    ensures w == w % 0x100 + 0x100 * (w / 0x100 % 0x100) + 0x1_0000 * (w / 0x1_0000 % 0x100)
                 + 0x100_0000 * (w / 0x100_0000 % 0x100)
  {
    var q1 := w / 0x100;
    var q2 := q1 / 0x100;
    DivIs(w, 0x1_0000, q2, q1 % 0x100 * 0x100 + w % 0x100);
    DivIs(w, 0x100_0000, q2 / 0x100, q2 % 0x100 * 0x1_0000 + q1 % 0x100 * 0x100 + w % 0x100);
  }

  // Switching: the word at offset 4 of the TSS and the index.
  lemma SwitchedWords(k: Layout, m: Mem, t: int)
    requires Valid(k) && 0 <= t < 2
    ensures var n := SwitchTo(k, m, t);
      && n[k.tss / 4 + 1] == m[k.tasks / 4 + 20 * t + 2] && n[k.current / 4] == t
      && forall i :: 0 <= i < PHYS_WORDS && i != k.current / 4 && i != k.tss / 4 + 1 ==> n[i] == m[i]
  {
    VariablesApart(k);
  }

  // What config leaves: no task, the first one's stack and directory in place, and both records.
  lemma BootNumbers(k: Layout, s: State)
    requires BootState(k, s)
    ensures var m, a := s.mem, k.tasks / 4;
      && m[k.current / 4] == 0xffff_ffff && m[k.tss / 4 + 1] == 0x38_1000 && s.cr3 == 0x35_2000
      && m[a] == k.function1 && m[a + 1] == 0x40_3ffc && m[a + 2] == 0x38_1000 && m[a + 3] == 0x35_2000
      && m[a + 20] == k.function2 && m[a + 21] == 0x80_3ffc && m[a + 22] == 0x39_1000 && m[a + 23] == 0x35_6000
      && m[a + 19] % 0x100 != 1 && m[a + 39] % 0x100 != 1
      && s.cpu.cs == 0x08 && s.cpu.eflags / 0x200 % 2 == 1 && s.cpu.eflags / 0x1000 % 4 == 0
  {
    hide TablesOk, KernelRoom;
  }

  // What a tick does for a task that has no context: five words below the handler's stack.
  lemma LaunchedWords(k: Layout, m: Mem, ctx: int, t: int, j: Leftover)
    requires Valid(k) && 0 <= t < 2 && m[k.tasks / 4 + 20 * t + 19] % 0x100 != 1
    requires k.depth + 5 <= ctx < 0x10_0000 - 15
    ensures var n, a, e := Dispatched(k, m, ctx, t, j), k.tasks / 4 + 20 * t, ctx - k.depth - 5;
      && n[e..e + 5] == [m[a], 0x1b, SetIF(j.flags), m[a + 1], 0x23]
      && forall i :: 0 <= i < PHYS_WORDS && !(e <= i < e + 5) ==> n[i] == m[i]
  {
  }

  // The processor then, still in the kernel.
  lemma LaunchingNumbers(k: Layout, s: State, j: Leftover, ctx: int)
    requires k.depth + 5 <= ctx < 0x10_0000
    ensures var c := Launching(k, ctx, j, KernelSs(s));
      && c.cs == 0x08 && c.ss == (if s.cpu.cs % 4 == 3 then 0x10 else s.cpu.ss) && c.g.esp == 4 * (ctx - k.depth - 5)
      && c.eflags / 0x200 % 2 == 1 && c.eflags / 0x1000 % 4 == j.flags / 0x1000 % 4
  {
    var f := SetIF(j.flags);
    assert IF(f) && IOPL(f) == IOPL(j.flags);
  }

  // And for one that has: `popa` and `iret` from the record's words.
  lemma ResumedWords(k: Layout, m: Mem, ctx: int, t: int, j: Leftover, ss: Selector)
    requires Valid(k) && 0 <= t < 2 && m[k.tasks / 4 + 20 * t + 19] % 0x100 == 1
    requires 0 <= ctx < 0x10_0000 - 15
    ensures var n, a := Dispatched(k, m, ctx, t, j), k.tasks / 4 + 20 * t; var c := Restored(n, ctx, ss);
      && n[ctx..ctx + 15] == m[a + 4..a + 19]
      && c.g.edi == m[a + 4] && c.g.esi == m[a + 5] && c.g.ebp == m[a + 6]
      && c.g.ebx == m[a + 8] && c.g.edx == m[a + 9] && c.g.ecx == m[a + 10] && c.g.eax == m[a + 11]
      && c.eip == m[a + 12] && c.cs == m[a + 13] % 0x1_0000 && c.eflags == m[a + 14]
      && (c.cs % 4 == 3 ==> c.g.esp == m[a + 15] && c.ss == m[a + 16] % 0x1_0000)
      && (c.cs % 4 != 3 ==> c.g.esp == 4 * ctx + 44 && c.ss == ss)
  {
    var n, a := Dispatched(k, m, ctx, t, j), k.tasks / 4 + 20 * t;
    var x, y := n[ctx..ctx + 15], m[a + 4..a + 19];
    assert x[0] == y[0] && x[1] == y[1] && x[2] == y[2] && x[4] == y[4] && x[5] == y[5] && x[6] == y[6] && x[7] == y[7];
    assert x[8] == y[8] && x[9] == y[9] && x[10] == y[10] && x[11] == y[11] && x[12] == y[12];
  }

  // The `iret` that ends a launch.
  lemma PoppedWords(s: State)
    requires s.cpu.g.esp / 4 <= PHYS_WORDS - 5
    ensures var m, a := s.mem, s.cpu.g.esp / 4;
      Finished(s).cpu == Cpu(s.cpu.g.(esp := m[a + 3]), m[a], m[a + 1] % 0x1_0000, m[a + 2], m[a + 4] % 0x1_0000)
      && Finished(s) == s.(cpu := Finished(s).cpu)
  {
  }

  // ---- Text -----------------------------------------------------------------------------------------------

  // The line of a tick, and what it leaves in the kernel's variables, by the task that it takes the processor from.
  lemma TickNumbers(k: Layout, s: State, j: Leftover)
    requires TickReady(k, s)
    ensures var r, second := Tick(k, s, j), s.mem[k.current / 4] == 0;
      && r.console == s.console + (if second then "Printing Counter... \n" else "Increasing Counter... \n")
      && r.mem[k.current / 4] == (if second then 1 else 0)
      && r.cr3 == (if second then 0x35_6000 else 0x35_2000)
      && r.mem[k.tss / 4 + 1] == (if second then 0x39_1000 else 0x38_1000)
  {
    hide TickReady, Switched, TablesOk, TasksOk, SameTask, IsSaved, SavedCpu, SavedOk, SavedInRing3, CtxAt, EntryTop, Interrupted,
      Restored, Launching, Dispatched, CtxRoom;
    ReadyTasks(k, s);
    SameStateOf(Tick(k, s, j));
    AfterTick(k, s, j, Tick(k, s, j));
    if s.mem[Cur(k)] == NO_TASK { FirstSwitch(k, s); } else { LaterSwitch(k, s, s.mem[Cur(k)]); }
    hide Tick;
    TickConsole(k, s, j);
  }

  lemma SameStateOf(s: State)
    ensures SameState(s, s)
  {
  }

  lemma TickConsole(k: Layout, s: State, j: Leftover)
    requires TickReady(k, s)
    ensures var r, t := Tick(k, s, j), Next(s.mem[Cur(k)]);
      r.console == s.console + Announce(t) && r.cr3 == Directory(TaskSpace(t))
  {
    hide TickReady, Switched, Dispatched, Restored, Launching, CtxAt;
  }

  // A byte of memory is a byte of its dword, the low one first.
  lemma ByteNumbers(m: Mem, w: int)
    requires 0 <= w < PHYS_WORDS
    ensures m[w] == ByteAt(m, 4 * w) + 0x100 * ByteAt(m, 4 * w + 1) + 0x1_0000 * ByteAt(m, 4 * w + 2)
                    + 0x100_0000 * ByteAt(m, 4 * w + 3)
  {
    QuotientsOf(m[w]);
  }

  // After printing, vprint_buffer holds the first 1023 characters and a zero byte.
  lemma BufferBytesAre(m: Mem, b: int, line: string, x: int)
    requires 0 <= b <= PHYS_WORDS - 256 && 0 <= x < 1024
    ensures var n := Blit(m, b, LineWords(m, b, line));
      && (x < |line| && x < 1023 ==> ByteAt(n, 4 * b + x) == line[x] as int % 0x100)
      && (x == |line| || x == 1023 ==> (x <= |line| ==> ByteAt(n, 4 * b + x) == 0))
      && (x > |line| ==> ByteAt(n, 4 * b + x) == ByteAt(m, 4 * b + x))
  {
    hide ByteAt, LineWords;
    ReadsAsLine(m, b, line);
  }
}
