// The clock and system-call handlers of tp_exam/tp.c, run through the MMU.
module Kernel {
  import opened Words
  import opened Bytes
  import opened Paging
  import opened AddressSpaces
  import opened Machine
  import opened Digits

  // ---- Specification of a clock tick -----------------------------------------------------------

  // Where the processor's stack pointer is once it has accepted the interrupt: the TSS gives
  // it when the interrupted code runs in ring 3.
  function EntryTop(k: Layout, s: State): Word
    requires k.tss + TSS_SIZE <= IMAGE_HI
  {
    if Ring3(s.cpu.cs) then s.mem[Esp0(k)] else s.cpu.g.esp
  }

  // Word number of the context the handler receives.
  function CtxAt(k: Layout, s: State): int
    requires k.tss + TSS_SIZE <= IMAGE_HI
  {
    EntryTop(k, s) / 4 - |FrameWords(s.cpu)| - 8
  }

  ghost predicate TickReady(k: Layout, s: State) {
    && Valid(k) && TablesOk(s.mem) && TasksOk(k, s.mem)
    && (exists p :: s.cr3 == Directory(p))
    && s.mem[Cur(k)] in {0, 1, NO_TASK}
    && StackRoom(k, EntryTop(k, s))
  }

  // ---- Lines in vprint_buffer ----------------------------------------------------------------------

  // A store of one byte.
  function StoredByte(m: Mem, a: int, b: Byte): Mem
    requires 0 <= a < 4 * PHYS_WORDS
  {
    m[a / 4 := WithByte(m[a / 4], a % 4, b)]
  }

  function StoredBytes(m: Mem, a: int, bs: seq<Byte>): Mem
    requires 0 <= a && a + |bs| <= 4 * PHYS_WORDS
  {
    if bs == [] then m
    else StoredByte(StoredBytes(m, a, bs[..|bs| - 1]), a + |bs| - 1, bs[|bs| - 1])
  }

  // printf cuts a line that does not fit into its buffer with its terminator.
  function Clipped(line: string): string {
    if |line| < 4 * BUFFER_WORDS then line else line[..4 * BUFFER_WORDS - 1]
  }

  function LineBytes(line: string): (bs: seq<Byte>)
    ensures 1 <= |bs| <= 4 * BUFFER_WORDS
  {
    seq(|Clipped(line)|, i requires 0 <= i < |Clipped(line)| => Clipped(line)[i] as int % 256) + [0]
  }

  // What printf leaves in vprint_buffer, as far as it reaches.
  type BufferText = ws: seq<Word> | |ws| <= BUFFER_WORDS witness []

  function LineWords(m: Mem, b: int, line: string): BufferText
    requires 0 <= b <= PHYS_WORDS - BUFFER_WORDS
  {
    StoredBytes(m, 4 * b, LineBytes(line))[b..b + (|LineBytes(line)| + 3) / 4]
  }

  lemma {:induction false} StoredBytesAt(m: Mem, a: int, bs: seq<Byte>, x: int)
    requires 0 <= a && a + |bs| <= 4 * PHYS_WORDS && 0 <= x < 4 * PHYS_WORDS
    ensures ByteAt(StoredBytes(m, a, bs), x) == if a <= x < a + |bs| then bs[x - a] else ByteAt(m, x)
  {
    hide WithByte, ByteOf;
    if bs != [] {
      var init, last := bs[..|bs| - 1], a + |bs| - 1;
      StoredBytesAt(m, a, init, x);
      var n := StoredBytes(m, a, init);
      WithByteGives(n[last / 4], last % 4, bs[|bs| - 1], x % 4);
      if x / 4 == last / 4 { assert x == last <==> x % 4 == last % 4; }
    }
  }

  // Byte stores change the dwords that they reach and no others.
  lemma {:induction false} StoredBytesElsewhere(m: Mem, a: int, bs: seq<Byte>, i: int)
    requires 0 <= a && a + |bs| <= 4 * PHYS_WORDS && 0 <= i < PHYS_WORDS && !(a / 4 <= i < (a + |bs| + 3) / 4)
    ensures StoredBytes(m, a, bs)[i] == m[i]
  {
    if bs != [] { StoredBytesElsewhere(m, a, bs[..|bs| - 1], i); }
  }

  // Printing is a block of dwords of the buffer.
  lemma PrintedIs(m: Mem, b: int, line: string)
    requires 0 <= b <= PHYS_WORDS - BUFFER_WORDS
    ensures StoredBytes(m, 4 * b, LineBytes(line)) == Blit(m, b, LineWords(m, b, line))
  {
    var n, ws := StoredBytes(m, 4 * b, LineBytes(line)), LineWords(m, b, line);
    forall i | 0 <= i < PHYS_WORDS ensures n[i] == Blit(m, b, ws)[i] {
      if !(b <= i < b + |ws|) { StoredBytesElsewhere(m, 4 * b, LineBytes(line), i); }
    }
  }

  // Byte for byte, the buffer at address a of n reads as the line and its terminator, and the rest of it as in m.
  ghost predicate HoldsLine(m: Mem, n: Mem, a: int, line: string)
    requires 0 <= a <= 4 * (PHYS_WORDS - BUFFER_WORDS)
  {
    var l := Clipped(line);
    forall x :: a <= x < a + 4 * BUFFER_WORDS ==>
      ByteAt(n, x) == if x < a + |l| then l[x - a] as int % 256 else if x == a + |l| then 0 else ByteAt(m, x)
  }

  lemma ReadsAsLine(m: Mem, b: int, line: string)
    requires 0 <= b <= PHYS_WORDS - BUFFER_WORDS
    ensures HoldsLine(m, Blit(m, b, LineWords(m, b, line)), 4 * b, line)
  {
    hide ByteAt, StoredBytes, LineWords;
    PrintedIs(m, b, line);
    forall x | 4 * b <= x < 4 * b + 4 * BUFFER_WORDS { StoredBytesAt(m, 4 * b, LineBytes(line), x); }
  }

  // ---- Memory during an interrupt ----------------------------------------------------------------------

  // Memory once the frame and the registers are on the stack.
  function Pushed(k: Layout, s: State): Mem
    requires k.tss + TSS_SIZE <= IMAGE_HI && EntryTop(k, s) >= 0x1000
  {
    Blit(s.mem, CtxAt(k, s),
         GprWords(s.cpu.g, EntryTop(k, s) - 4 * |FrameWords(s.cpu)|) + FrameWords(s.cpu))
  }

  // The same once the handler has printed its line.
  function Entered(k: Layout, s: State, text: BufferText): Mem
    requires k.tss + TSS_SIZE <= IMAGE_HI && EntryTop(k, s) >= 0x1000
  {
    Blit(Pushed(k, s), Buf(k), text)
  }

  // `tasks[t].context = *ctx; tasks[t].context_saved = 1`, as raw words.
  function SaveContext(k: Layout, m: Mem, ctx: int, t: int): Mem
    requires 0 <= t < 2 && k.tasks + 160 <= IMAGE_HI && 0 <= ctx && ctx + CTX_WORDS <= PHYS_WORDS
  {
    var n := Blit(m, Rec(k, t) + CONTEXT, m[ctx..ctx + CTX_WORDS]);
    n[Rec(k, t) + SAVED := WithByte(n[Rec(k, t) + SAVED], 0, 1)]
  }

  function SwitchTo(k: Layout, m: Mem, t: int): Mem
    requires 0 <= t < 2 && k.tasks + 160 <= IMAGE_HI && k.tss + TSS_SIZE <= IMAGE_HI && k.current < IMAGE_HI
  {
    m[Esp0(k) := m[Rec(k, t) + INTERRUPT_STACK]][Cur(k) := t]
  }

  // What the handler leaves behind that its C code does not fix: the registers of a task that it
  // starts, and the address of the instruction after its last `out`.
  datatype Leftover = Leftover(g: Gprs, flags: Word, eip: Word)

  function Next(current: Word): int {
    Add32(current, 1) % 2
  }

  function Announce(t: int): string {
    if t == 1 then "Printing Counter... \n" else "Increasing Counter... \n"
  }

  // What the handler's announcement leaves in vprint_buffer.
  function TickText(k: Layout, s: State): BufferText
    requires TickReady(k, s)
  {
    LineWords(Pushed(k, s), Buf(k), Announce(Next(s.mem[Cur(k)])))
  }

  // Memory when the handler looks at `context_saved` of the next task.
  function Switched(k: Layout, s: State): Mem
    requires TickReady(k, s)
  {
    var m1 := Entered(k, s, TickText(k, s));
    var m2 := if m1[Cur(k)] == NO_TASK then m1 else SaveContext(k, m1, CtxAt(k, s), s.mem[Cur(k)]);
    SwitchTo(k, m2, Next(s.mem[Cur(k)]))
  }

  // The frame and the registers of a task that starts.
  function LaunchFrame(k: Layout, m: Mem, t: int, j: Leftover): seq<Word>
    requires 0 <= t < 2 && k.tasks + 160 <= IMAGE_HI
  {
    [m[Rec(k, t) + FUNCTION], C3_SEL, SetIF(j.flags), m[Rec(k, t) + STACK], D3_SEL]
  }

  // The handler at the end of its launch branch, between `outb(32, 32)` and `iret`: still in ring 0,
  // with the new task's frame on top of the stack and interrupts enabled since the `sti`.
  function Launching(k: Layout, ctx: int, j: Leftover, ss: Selector): Cpu
    requires k.depth + 5 <= ctx < 0x10_0000
  {
    Cpu(j.g.(esp := 4 * (ctx - k.depth - 5)), j.eip, C0_SEL, SetIF(j.flags), ss)
  }

  // Memory once the handler has put the chosen task's frame on the current stack.
  function Dispatched(k: Layout, m: Mem, ctx: int, t: int, j: Leftover): Mem
    requires 0 <= t < 2 && k.tasks + 160 <= IMAGE_HI
  {
    if IsSaved(k, m, t) then
      Blit(m, ctx, m[Rec(k, t) + CONTEXT..Rec(k, t) + CONTEXT + CTX_WORDS])
    else
      Blit(m, ctx - k.depth - 5, LaunchFrame(k, m, t, j))
  }

  function KernelSs(s: State): Selector { if Ring3(s.cpu.cs) then D0_SEL else s.cpu.ss }

  // The state after clock_interrupt_isr has gone back to the context it chose, or, for a task that
  // has none, at the point from which only `iret` is left.
  function Tick(k: Layout, s: State, j: Leftover): State
    requires TickReady(k, s)
  {
    CtxHasRoom(k, s);
    var next := Next(s.mem[Cur(k)]);
    var ctx, m := CtxAt(k, s), Switched(k, s);
    var n := Dispatched(k, m, ctx, next, j);
    State(n, Directory(TaskSpace(next)),
          if IsSaved(k, m, next) then Restored(n, ctx, KernelSs(s)) else Launching(k, ctx, j, KernelSs(s)),
          false, s.acks + 1, s.console + Announce(next))
  }

  // The registers that `iret` would give the task whose frame is on top of the kernel's stack.
  function Pending(s: State): Cpu {
    var e := s.cpu.g.esp / 4;
    if e <= PHYS_WORDS - 5 then Popped(s.mem, e, s.cpu.g) else s.cpu
  }

  // The handler is about to `iret` into a task.
  ghost predicate FinishReady(s: State) {
    var e := s.cpu.g.esp / 4;
    && TablesOk(s.mem) && (exists p :: s.cr3 == Directory(p)) && !Ring3(s.cpu.cs)
    && s.cpu.g.esp % 4 == 0 && 0 <= e < 0x10_0000 - 5 && Ring3(Sel(s.mem[e + 1]))
    && KernelWord(e) && KernelWord(e + 1) && KernelWord(e + 2) && KernelWord(e + 3) && KernelWord(e + 4)
  }

  function Finished(s: State): State { s.(cpu := Pending(s)) }

  // ---- Specification of the system call -----------------------------------------------------------

  // The text syscall_handler prints for the counter value v.
  function CounterLine(v: Word): string {
    "Counter value: " + Numeral(v, 10) + "\n"
  }

  lemma CounterLineFits(v: Word)
    ensures Clipped(CounterLine(v)) == CounterLine(v)
  {
    NumeralLength(v, 10, 10);
  }

  // The task passes an address that it can read itself, as sys_counter(counter) does.
  ghost predicate SyscallReady(k: Layout, s: State) {
    && Valid(k) && TablesOk(s.mem) && Ring3(s.cpu.cs)
    && (exists p :: s.cr3 == Directory(p))
    && StackRoom(k, EntryTop(k, s))
    && s.cpu.g.eax % 4 == 0 && Walk(s.mem, s.cr3, s.cpu.g.eax, Access(true, false)).Some?
  }

  function CounterRead(s: State): Word
    requires Walk(s.mem, s.cr3, s.cpu.g.eax, Access(true, false)).Some?
  {
    s.mem[Walk(s.mem, s.cr3, s.cpu.g.eax, Access(true, false)).value / 4]
  }

  function SyscallText(k: Layout, s: State): BufferText
    requires SyscallReady(k, s)
  {
    LineWords(Pushed(k, s), Buf(k), CounterLine(CounterRead(s)))
  }

  // int 0x80 prints the counter and gives the processor back exactly as it was.
  function Syscall(k: Layout, s: State): State
    requires SyscallReady(k, s)
  {
    s.(mem := Entered(k, s, SyscallText(k, s)), console := s.console + CounterLine(CounterRead(s)))
  }

  // ---- The machine --------------------------------------------------------------------------------

  // Dword i of physical memory belongs to the kernel and not to its page tables.
  predicate KernelWord(i: int) {
    0 <= i < 0x10_0000 && !(TABLES_LO <= i < TABLES_HI)
  }

  // One more dword of a forward copy between separate blocks.
  lemma BlitNext(m: Mem, d: int, s: int, i: nat)
    requires 0 <= s && s + i < PHYS_WORDS && 0 <= d && d + i < PHYS_WORDS
    requires d + i < s || s + i < d
    ensures var b := Blit(m, d, m[s..s + i]);
      b[d + i := b[s + i]] == Blit(m, d, m[s..s + i + 1])
  {
  }

  lemma BlitGrow(m: Mem, d: int, ws: seq<Word>, i: nat)
    requires i < |ws| && 0 <= d && d + i < PHYS_WORDS
    ensures Blit(m, d, ws[..i])[d + i := ws[i]] == Blit(m, d, ws[..i + 1])
  {
  }

  lemma BlitPush(m: Mem, q: int, ws: seq<Word>, n: nat)
    requires n < |ws| && 0 <= q < PHYS_WORDS
    ensures Blit(m, q + 1, ws[n + 1..])[q := ws[n]] == Blit(m, q, ws[n..])
  {
  }

  // Kernel variables and stack words lie outside the page tables and apart from each other.
  lemma ImageData(va: int)
    requires va % 4 == 0 && IMAGE_LO <= va < IMAGE_HI
    ensures KernelWord(va / 4)
  {
  }

  predicate RecordWord(k: Layout, i: int) {
    KernelWord(i) && Variable(k, i) && i != Cur(k) && i != Esp0(k)
  }

  // A word of the kernel's image that printf does not write.
  predicate Variable(k: Layout, i: int) {
    InImage(i) && !(Buf(k) <= i < Buf(k) + BUFFER_WORDS)
  }

  lemma BufferData(k: Layout)
    requires Valid(k)
    ensures forall i :: Buf(k) <= i < Buf(k) + BUFFER_WORDS ==> KernelWord(i) && InImage(i)
  {
  }

  lemma BufferBytes(k: Layout)
    requires Valid(k)
    ensures k.buffer == 4 * Buf(k) && k.buffer + 4 * BUFFER_WORDS <= 0x40_0000
    ensures forall x :: k.buffer <= x < k.buffer + 4 * BUFFER_WORDS ==> KernelWord(x / 4)
  {
    BufferData(k);
  }

  lemma RecordData(k: Layout, t: int)
    requires Valid(k) && 0 <= t < 2
    ensures forall i :: Rec(k, t) <= i < Rec(k, t) + TASK_WORDS ==> RecordWord(k, i)
    ensures forall i :: Rec(k, t) <= i < Rec(k, t) + TASK_WORDS ==> KernelWord(i)
  {
    var a, b, c, d := k.tasks / 4, k.current / 4, k.tss / 4, k.buffer / 4;
    assert k.tasks == 4 * a && k.current == 4 * b && k.tss == 4 * c && k.buffer == 4 * d;
    assert b + 1 <= a || a + 2 * TASK_WORDS <= b;
    assert c + 2 <= a || a + 2 * TASK_WORDS <= c;
    assert d + BUFFER_WORDS <= a || a + 2 * TASK_WORDS <= d;
  }

  lemma RecordFields(k: Layout, m: Mem, t: int)
    requires Valid(k) && TasksOk(k, m) && 0 <= t < 2
    ensures var rec := Rec(k, t);
      && KernelWord(rec + INTERRUPT_STACK) && KernelWord(rec + TASK_PGD) && rec + TASK_PGD != Esp0(k)
      && m[rec + INTERRUPT_STACK] == InterruptStack(t) && m[rec + TASK_PGD] == Directory(TaskSpace(t))
  {
    RecordData(k, t);
    assert RecordWord(k, Rec(k, t) + INTERRUPT_STACK) && RecordWord(k, Rec(k, t) + TASK_PGD);
  }

  // The context at dword ctx, and the handler's stack below it, are kernel words outside the image.
  ghost predicate CtxRoom(k: Layout, ctx: int) {
    forall i :: ctx - k.depth - 5 <= i < ctx + CTX_WORDS ==> KernelWord(i) && !InImage(i)
  }

  predicate InImage(i: int) {
    IMAGE_LO / 4 <= i < IMAGE_HI / 4
  }

  lemma CtxHasRoom(k: Layout, s: State)
    requires Valid(k) && StackRoom(k, EntryTop(k, s))
    ensures CtxRoom(k, CtxAt(k, s)) && k.depth + 5 <= CtxAt(k, s) < 0x10_0000 - CTX_WORDS
  {
    StackData(k, EntryTop(k, s));
  }

  lemma StackData(k: Layout, top: Word)
    requires StackRoom(k, top)
    ensures forall i :: top / 4 - 18 - k.depth <= i < top / 4 + 5 ==>
      KernelWord(i) && !InImage(i)
  {
  }

  // A context is apart from the task records.
  lemma RecordApart(k: Layout, t: int, ctx: int)
    requires Valid(k) && 0 <= t < 2 && CtxRoom(k, ctx)
    ensures ctx + CTX_WORDS <= Rec(k, t) || Rec(k, t) + TASK_WORDS <= ctx
  {
    RecordData(k, t);
    var r := Rec(k, t);
    var w := if r >= ctx then r else ctx;
    assert r <= w < r + TASK_WORDS ==> RecordWord(k, w);
    assert ctx <= w < ctx + CTX_WORDS ==> KernelWord(w) && !InImage(w);
  }

  method KernelAddress(i: int) returns (va: Word)
    requires KernelWord(i)
    ensures va % 4 == 0 && va / 4 == i && va < 0x40_0000
  {
    va := 4 * i;
  }

  class Processor {
    const k: Layout
    const board: Board
    var cpu: Cpu
    var inService: bool
    var acks: nat
    var console: string

    constructor (k: Layout, board: Board, cpu: Cpu)
      ensures this.k == k && this.board == board && this.cpu == cpu
      ensures !inService && acks == 0 && console == ""
    {
      this.k, this.board, this.cpu := k, board, cpu;
      inService, acks, console := false, 0, "";
    }

    ghost function Now(): State
      reads this, board
    {
      State(board.mem, board.cr3, cpu, inService, acks, console)
    }

    // The kernel sees memory m through directory p.
    ghost predicate View(m: Mem, p: Space)
      reads this, board
    {
      && board.paging && board.cr3 == Directory(p)
      && TablesOk(m) && SameButAD(m, board.mem, TABLES_LO, TABLES_HI)
    }

    // Dword i of kernel memory, through the translation in force.
    method Read(i: int, ghost m: Mem, ghost p: Space) returns (v: Word)
      requires View(m, p) && KernelWord(i)
      modifies board`mem
      ensures View(m, p) && v == m[i]
    {
      var va := KernelAddress(i);
      TablesOkIgnoresAD(m, board.mem);
      KernelReaches(board.mem, p, va);
      v := board.Load(va, va, TABLES_LO, TABLES_HI);
    }

    method Write(i: int, v: Word, ghost m: Mem, ghost p: Space) returns (ghost r: Mem)
      requires View(m, p) && KernelWord(i)
      modifies board`mem
      ensures r == m[i := v] && View(r, p)
    {
      hide TablesOk, Reaches;
      var va := KernelAddress(i);
      TablesOkIgnoresAD(m, board.mem);
      KernelReaches(board.mem, p, va);
      ghost var before := board.mem;
      board.Store(va, v, va, TABLES_LO, TABLES_HI);
      SameButADWrite(m, before, i, v, TABLES_LO, TABLES_HI);
      r := m[i := v];
      TablesOkSameWords(m, r);
    }

    // The processor pushes ws, the last word first.
    method PushAll(ws: seq<Word>, ghost m: Mem, ghost p: Space) returns (ghost r: Mem)
      requires View(m, p) && cpu.g.esp % 4 == 0 && cpu.g.esp >= 4 * |ws|
      requires forall i :: cpu.g.esp / 4 - |ws| <= i < cpu.g.esp / 4 ==> KernelWord(i)
      modifies board`mem, this`cpu
      ensures cpu == old(cpu).(g := old(cpu).g.(esp := old(cpu).g.esp - 4 * |ws|))
      ensures r == Blit(m, old(cpu).g.esp / 4 - |ws|, ws) && View(r, p)
    {
      var n := |ws|;
      ghost var top := cpu.g.esp / 4;
      BlitNothing(m, top);
      r := m;
      while n > 0
        invariant 0 <= n <= |ws|
        invariant cpu == old(cpu).(g := old(cpu).g.(esp := old(cpu).g.esp - 4 * (|ws| - n)))
        invariant r == Blit(m, top - (|ws| - n), ws[n..]) && View(r, p)
      {
        n := n - 1;
        cpu := cpu.(g := cpu.g.(esp := cpu.g.esp - 4));
        ghost var q := top - (|ws| - n);
        assert KernelWord(q) && cpu.g.esp / 4 == q;
        BlitPush(m, q, ws, n);
        r := Write(cpu.g.esp / 4, ws[n], r, p);
      }
    }

    // memcpy of n dwords from dword s to dword d of kernel memory, between separate blocks.
    method Memcpy(d: int, s: int, n: nat, ghost m: Mem, ghost p: Space) returns (ghost r: Mem)
      requires View(m, p) && (d + n <= s || s + n <= d)
      requires 0 <= d && d + n <= PHYS_WORDS && forall i :: d <= i < d + n ==> KernelWord(i)
      requires 0 <= s && s + n <= PHYS_WORDS && forall i :: s <= i < s + n ==> KernelWord(i)
      modifies board`mem
      ensures r == Blit(m, d, m[s..s + n]) && View(r, p)
    {
      BlitNothing(m, d);
      r := m;
      for i := 0 to n
        invariant r == Blit(m, d, m[s..s + i]) && View(r, p)
      {
        assert KernelWord(d + i) && KernelWord(s + i);
        BlitNext(m, d, s, i);
        r := CopyDword(d + i, s + i, r, p);
      }
    }

    method CopyDword(d: int, s: int, ghost m: Mem, ghost p: Space) returns (ghost n: Mem)
      requires View(m, p) && KernelWord(d) && KernelWord(s)
      modifies board`mem
      ensures n == m[d := m[s]] && View(n, p)
    {
      var v := Read(s, m, p);
      n := Write(d, v, m, p);
    }

    // The processor accepts an interrupt through an interrupt gate.
    method Accept(ghost s: State, ghost p: Space) returns (ghost r: Mem)
      requires s.mem == board.mem && s.cpu == cpu && View(s.mem, p)
      requires Valid(k) && StackRoom(k, EntryTop(k, s))
      modifies board`mem, this`cpu
      ensures r == Blit(s.mem, EntryTop(k, s) / 4 - |FrameWords(s.cpu)|, FrameWords(s.cpu)) && View(r, p)
      ensures cpu == s.cpu.(g := s.cpu.g.(esp := EntryTop(k, s) - 4 * |FrameWords(s.cpu)|),
        cs := C0_SEL, eflags := ClearIF(s.cpu.eflags), ss := if Ring3(s.cpu.cs) then D0_SEL else s.cpu.ss)
      ensures !IF(cpu.eflags) && IOPL(cpu.eflags) == IOPL(s.cpu.eflags)
    {
      var frame := FrameWords(cpu);
      if Ring3(cpu.cs) {
        ImageData(k.tss + 4);
        var esp0 := Read(Esp0(k), s.mem, p);
        cpu := cpu.(g := cpu.g.(esp := esp0), ss := D0_SEL);
      }
      StackData(k, EntryTop(k, s));
      r := PushAll(frame, s.mem, p);
      cpu := cpu.(cs := C0_SEL, eflags := ClearIF(cpu.eflags));
    }

    // Acceptance, then `cli; leave; pusha; mov %esp, %eax`.
    method Enter(ghost s: State, ghost p: Space) returns (ctx: Word, ghost r: Mem)
      requires s.mem == board.mem && s.cpu == cpu && View(s.mem, p)
      requires Valid(k) && StackRoom(k, EntryTop(k, s))
      modifies board`mem, this`cpu
      ensures ctx % 4 == 0 && ctx / 4 == CtxAt(k, s) && r == Pushed(k, s) && View(r, p)
      ensures cpu.g.esp == ctx && cpu.ss == (if Ring3(s.cpu.cs) then D0_SEL else s.cpu.ss)
      ensures cpu.cs == C0_SEL && cpu.eflags == ClearIF(s.cpu.eflags) && !IF(cpu.eflags)
    {
      hide TablesOk, View, ClearIF;
      ghost var m := Accept(s, p);
      ghost var frame, top := FrameWords(s.cpu), EntryTop(k, s);
      var regs := GprWords(cpu.g, cpu.g.esp);
      StackData(k, top);
      BlitJoin(s.mem, top / 4 - |frame| - 8, regs, frame);
      r := PushAll(regs, m, p);
      ctx := cpu.g.esp;
    }

    method StoreByte(a: int, b: Byte, ghost m: Mem, ghost p: Space) returns (ghost r: Mem)
      requires View(m, p) && 0 <= a && KernelWord(a / 4)
      modifies board`mem
      ensures r == StoredByte(m, a, b) && View(r, p)
    {
      var w := Read(a / 4, m, p);
      r := Write(a / 4, WithByte(w, a % 4, b), m, p);
    }

    method StoreBytes(a: int, bytes: seq<Byte>, ghost m: Mem, ghost p: Space) returns (ghost r: Mem)
      requires View(m, p) && 0 <= a && a + |bytes| <= 0x40_0000
      requires forall x :: a <= x < a + |bytes| ==> KernelWord(x / 4)
      modifies board`mem
      ensures r == StoredBytes(m, a, bytes) && View(r, p)
    {
      hide View, StoredByte, KernelWord;
      r := m;
      for i := 0 to |bytes|
        invariant r == StoredBytes(m, a, bytes[..i]) && View(r, p)
      {
        assert bytes[..i + 1][..i] == bytes[..i];
        assert a <= a + i < a + |bytes|;
        r := StoreByte(a + i, bytes[i], r, p);
      }
      assert bytes[..|bytes|] == bytes;
    }

    // debug(...): the line goes out, and stays in vprint_buffer.
    method Print(line: string, ghost m: Mem, ghost p: Space) returns (ghost r: Mem)
      requires View(m, p) && Valid(k)
      modifies board`mem, this`console
      ensures r == Blit(m, Buf(k), LineWords(m, Buf(k), line)) && View(r, p) && console == old(console) + Clipped(line)
      ensures HoldsLine(m, r, k.buffer, line)
    {
      hide StoredBytes, LineWords, HoldsLine, Blit;
      BufferBytes(k);
      PrintedIs(m, Buf(k), line);
      ReadsAsLine(m, Buf(k), line);
      r := StoreBytes(k.buffer, LineBytes(line), m, p);
      console := console + Clipped(line);
    }

    // memcpy(&tasks[t].context, ctx, sizeof(int_ctx_t)); tasks[t].context_saved = 1;
    method SaveTask(t: int, ctx: int, ghost m: Mem, ghost p: Space) returns (ghost r: Mem)
      requires View(m, p) && Valid(k) && 0 <= t < 2
      requires CtxRoom(k, ctx) && 0 <= ctx < 0x10_0000 - CTX_WORDS
      modifies board`mem
      ensures 0 <= ctx <= PHYS_WORDS - CTX_WORDS && r == SaveContext(k, m, ctx, t) && View(r, p)
    {
      RecordData(k, t);
      RecordApart(k, t, ctx);
      var saved := Rec(k, t) + SAVED;
      ghost var n := Memcpy(Rec(k, t) + CONTEXT, ctx, CTX_WORDS, m, p);
      var w := Read(saved, n, p);
      r := Write(saved, WithByte(w, 0, 1), n, p);
    }

    // TSS.s0.esp, CR3 and current_task_idx take the values of task t.
    method SwitchTask(t: int, ghost m: Mem, ghost p: Space) returns (ghost r: Mem)
      requires View(m, p) && Valid(k) && TasksOk(k, m) && 0 <= t < 2
      modifies board`mem, board`cr3
      ensures r == SwitchTo(k, m, t) && View(r, TaskSpace(t))
    {
      hide TablesOk, SameButAD, TasksOk, RecordWord, Variable;
      RecordFields(k, m, t);
      ImageData(k.tss + 4);
      ImageData(k.current);
      var rec := Rec(k, t);
      var esp0 := Read(rec + INTERRUPT_STACK, m, p);
      r := Write(Esp0(k), esp0, m, p);
      var pgd := Read(rec + TASK_PGD, r, p);
      board.cr3 := pgd;
      r := Write(Cur(k), t, r, TaskSpace(t));
    }

    method Eoi()
      modifies this`inService, this`acks
      ensures !inService && acks == old(acks) + 1
    {
      inService := false;
      acks := acks + 1;
    }

    // `iret` from dword f of the stack.
    method Iret(f: int, ghost m: Mem, ghost p: Space)
      requires View(m, p) && 0 <= f < 0x10_0000 - 5
      requires KernelWord(f) && KernelWord(f + 1) && KernelWord(f + 2) && KernelWord(f + 3) && KernelWord(f + 4)
      modifies board`mem, this`cpu
      ensures View(m, p)
      ensures var cs := Sel(m[f + 1]);
        cpu == Cpu(old(cpu).g.(esp := if Ring3(cs) then m[f + 3] else 4 * f + 12),
                   m[f], cs, m[f + 2], if Ring3(cs) then Sel(m[f + 4]) else old(cpu).ss)
    {
      var eip := Read(f, m, p);
      var code := Read(f + 1, m, p);
      var cs := Sel(code);
      var eflags := Read(f + 2, m, p);
      var esp, ss := 4 * f + 12, cpu.ss;
      if Ring3(cs) {
        esp := Read(f + 3, m, p);
        var stack := Read(f + 4, m, p);
        ss := Sel(stack);
      }
      cpu := Cpu(cpu.g.(esp := esp), eip, cs, eflags, ss);
    }

    method Popa(ctx: int, ghost m: Mem, ghost p: Space)
      requires View(m, p) && 0 <= ctx < 0x10_0000 - CTX_WORDS
      requires forall i :: ctx <= i < ctx + 8 ==> KernelWord(i)
      modifies board`mem, this`cpu
      ensures View(m, p)
      ensures cpu == old(cpu).(g := Gprs(m[ctx + 7], m[ctx + 6], m[ctx + 5], m[ctx + 4],
                                         4 * ctx + 32, m[ctx + 2], m[ctx + 1], m[ctx]))
    {
      var edi := Read(ctx, m, p);
      var esi := Read(ctx + 1, m, p);
      var ebp := Read(ctx + 2, m, p);
      var ebx := Read(ctx + 4, m, p);
      var edx := Read(ctx + 5, m, p);
      var ecx := Read(ctx + 6, m, p);
      var eax := Read(ctx + 7, m, p);
      cpu := cpu.(g := Gprs(eax, ecx, edx, ebx, 4 * ctx + 32, ebp, esi, edi));
    }

    // `popa; sti; iret` from the context at dword ctx.
    method Leave(ctx: int, ghost m: Mem, ghost p: Space)
      requires View(m, p) && 0 <= ctx < 0x10_0000 - CTX_WORDS
      requires forall i :: ctx <= i < ctx + CTX_WORDS ==> KernelWord(i)
      modifies board`mem, this`cpu
      ensures View(m, p) && cpu == Restored(m, ctx, old(cpu).ss)
    {
      Popa(ctx, m, p);
      assert KernelWord(ctx + 8) && KernelWord(ctx + 9) && KernelWord(ctx + 10) && KernelWord(ctx + 11) && KernelWord(ctx + 12);
      Iret(ctx + 8, m, p);
    }

    // The frame of a task that has no saved context is pushed by hand.
    method PushLaunchFrame(t: int, esp: Word, j: Leftover, ghost m: Mem, ghost p: Space) returns (ghost r: Mem)
      requires View(m, p) && Valid(k) && 0 <= t < 2 && esp % 4 == 0 && 20 <= esp < 0x40_0000
      requires forall i :: esp / 4 - 5 <= i < esp / 4 ==> KernelWord(i)
      modifies board`mem, this`cpu
      ensures r == Blit(m, esp / 4 - 5, LaunchFrame(k, m, t, j)) && View(r, p)
      ensures cpu == old(cpu).(g := j.g.(esp := esp - 20), eflags := SetIF(j.flags))
    {
      RecordData(k, t);
      var rec := Rec(k, t);
      assert RecordWord(k, rec + FUNCTION) && RecordWord(k, rec + STACK);
      var stack := Read(rec + STACK, m, p);
      var start := Read(rec + FUNCTION, m, p);
      cpu := cpu.(g := j.g.(esp := esp), eflags := SetIF(j.flags));
      r := PushAll([start, C3_SEL, cpu.eflags, stack, D3_SEL], m, p);
    }

    // The launch branch up to its EOI. It ends in ring 0 with interrupts enabled: the `iret` is a step
    // of its own, and a tick may come before it.
    method StartTask(t: int, esp: Word, j: Leftover, ghost m: Mem, ghost p: Space) returns (ghost r: Mem)
      requires View(m, p) && Valid(k) && 0 <= t < 2 && esp % 4 == 0 && 20 <= esp < 0x40_0000
      requires forall i :: esp / 4 - 5 <= i < esp / 4 ==> KernelWord(i)
      requires cpu.cs == C0_SEL
      modifies board`mem, this`cpu, this`inService, this`acks
      ensures r == Blit(m, esp / 4 - 5, LaunchFrame(k, m, t, j)) && View(r, p)
      ensures cpu == Cpu(j.g.(esp := esp - 20), j.eip, C0_SEL, SetIF(j.flags), old(cpu).ss)
      ensures IF(cpu.eflags) && !inService && acks == old(acks) + 1
    {
      r := PushLaunchFrame(t, esp, j, m, p);
      Eoi();
      cpu := cpu.(eip := j.eip);
    }

    // `iret` into a task: the last step of a launch, or of a launch that was interrupted and resumed.
    method FinishLaunch(ghost p: Space)
      requires FinishReady(Now()) && board.paging && board.cr3 == Directory(p)
      modifies board`mem, this`cpu
      ensures board.paging && SameState(Finished(old(Now())), Now())
    {
      Iret(cpu.g.esp / 4, board.mem, p);
    }

    // The first half of clock_interrupt_handler: save the interrupted task, choose the next.
    method ChooseTask(ctx: Word, ghost s: State, ghost m: Mem, ghost p: Space)
        returns (next: int, ghost r: Mem)
      requires TickReady(k, s) && m == Pushed(k, s) && View(m, p)
      requires ctx % 4 == 0 && ctx / 4 == CtxAt(k, s)
      modifies board`mem, board`cr3, this`console
      ensures next == Next(s.mem[Cur(k)]) && console == old(console) + Announce(next)
      ensures r == Switched(k, s) && View(r, TaskSpace(next))
    {
      EnteredKeepsImage(k, s, TickText(k, s));
      CtxHasRoom(k, s);
      ImageData(k.current);
      var current := Read(Cur(k), m, p);
      next := Next(current);
      r := Print(Announce(next), m, p);
      ghost var entered := r;
      current := Read(Cur(k), r, p);
      if current != NO_TASK {
        r := SaveTask(current, ctx / 4, r, p);
        SaveKeepsTasks(k, entered, ctx / 4, current);
      }
      r := SwitchTask(next, r, p);
    }

    method ResumeTask(t: int, ctx: int, ghost m: Mem, ghost p: Space) returns (ghost r: Mem)
      requires View(m, p) && Valid(k) && 0 <= t < 2
      requires CtxRoom(k, ctx) && 0 <= ctx < 0x10_0000 - CTX_WORDS
      modifies board`mem, this`cpu, this`inService, this`acks
      ensures r == Blit(m, ctx, m[Rec(k, t) + CONTEXT..Rec(k, t) + CONTEXT + CTX_WORDS]) && View(r, p)
      ensures cpu == Restored(r, ctx, old(cpu).ss) && !inService && acks == old(acks) + 1
    {
      hide TablesOk, SameButAD, Restored, RecordWord;
      RecordData(k, t);
      RecordApart(k, t, ctx);
      r := Memcpy(ctx, Rec(k, t) + CONTEXT, CTX_WORDS, m, p);
      Eoi();
      Leave(ctx, r, p);
    }

    // The second half: resume it or start it.
    method Dispatch(next: int, ctx: int, j: Leftover, ghost m: Mem, ghost p: Space) returns (ghost r: Mem)
      requires View(m, p) && Valid(k) && 0 <= next < 2
      requires CtxRoom(k, ctx) && k.depth + 5 <= ctx < 0x10_0000 - CTX_WORDS && cpu.cs == C0_SEL && !IF(cpu.eflags)
      modifies board`mem, this`cpu, this`inService, this`acks
      ensures r == Dispatched(k, m, ctx, next, j) && View(r, p)
      ensures cpu == if IsSaved(k, m, next) then Restored(r, ctx, old(cpu).ss) else Launching(k, ctx, j, old(cpu).ss)
      ensures !inService && acks == old(acks) + 1
    {
      RecordData(k, next);
      assert RecordWord(k, Rec(k, next) + SAVED);
      var saved := Read(Rec(k, next) + SAVED, m, p);
      if saved % 256 == 1 {
        r := ResumeTask(next, ctx, m, p);
      } else {
        assert KernelWord(ctx - k.depth);
        var esp := KernelAddress(ctx - k.depth);
        r := StartTask(next, esp, j, m, p);
      }
    }

    // clock_interrupt_handler and the return from it.
    method ClockInterruptHandler(ctx: Word, j: Leftover, ghost s: State, ghost m: Mem, ghost p: Space)
        returns (next: int, ghost r: Mem)
      requires TickReady(k, s) && m == Pushed(k, s) && View(m, p) && cpu.cs == C0_SEL && !IF(cpu.eflags)
      requires ctx % 4 == 0 && ctx / 4 == CtxAt(k, s)
      modifies board`mem, board`cr3, this`cpu, this`inService, this`acks, this`console
      ensures next == Next(s.mem[Cur(k)]) && r == Dispatched(k, Switched(k, s), CtxAt(k, s), next, j)
      ensures View(r, TaskSpace(next)) && k.depth + 5 <= CtxAt(k, s) < 0x10_0000
      ensures cpu == if IsSaved(k, Switched(k, s), next) then Restored(r, CtxAt(k, s), old(cpu).ss)
                     else Launching(k, CtxAt(k, s), j, old(cpu).ss)
      ensures !inService && acks == old(acks) + 1 && console == old(console) + Announce(next)
    {
      hide TablesOk, TasksOk, StackRoom, Restored, Launching, Pushed, Switched, Dispatched;
      CtxHasRoom(k, s);
      next, r := ChooseTask(ctx, s, m, p);
      r := Dispatch(next, ctx / 4, j, r, TaskSpace(next));
    }

    // An IRQ0 accepted between two instructions, up to the `iret` that ends its handling or to the
    // point where a launch lacks nothing but that.
    method ClockInterrupt(j: Leftover, ghost p: Space)
      requires TickReady(k, Now()) && board.paging && board.cr3 == Directory(p)
      modifies this, board
      ensures board.paging && SameState(Tick(k, old(Now()), j), Now())
    {
      hide TablesOk, TasksOk, Pushed, Switched, Dispatched, CtxAt, EntryTop, StackRoom, Restored, Launching;
      ghost var s := Now();
      inService := true;
      var ctx, m := Enter(s, p);
      var next;
      next, m := ClockInterruptHandler(ctx, j, s, m, p);
    }

    // `int $32`, which ring 3 may use: the same code, with nothing in service.
    method YieldInterrupt(j: Leftover, ghost p: Space)
      requires TickReady(k, Now()) && board.paging && board.cr3 == Directory(p)
      modifies this, board
      ensures board.paging && SameState(Tick(k, old(Now()), j), Now())
    {
      hide TablesOk, TasksOk, Pushed, Switched, Dispatched, CtxAt, EntryTop, StackRoom, Restored, Launching;
      ghost var s := Now();
      var ctx, m := Enter(s, p);
      var next;
      next, m := ClockInterruptHandler(ctx, j, s, m, p);
    }

    // A dword the interrupted task can read, read by the supervisor through the same directory.
    method ReadUser(va: Word, ghost m: Mem, ghost p: Space) returns (v: Word)
      requires View(m, p) && va % 4 == 0 && Walk(m, Directory(p), va, Access(true, false)).Some?
      modifies board`mem
      ensures View(m, p) && v == m[Walk(m, Directory(p), va, Access(true, false)).value / 4]
    {
      ghost var pa := Walk(m, Directory(p), va, Access(true, false)).value;
      TablesOkIgnoresAD(m, board.mem);
      UserReaches(m, board.mem, p, va);
      v := board.Load(va, pa, TABLES_LO, TABLES_HI);
    }

    // syscall_handler: the pointer is the EAX word of the context.
    method SyscallHandler(ctx: int, ghost s: State, ghost m: Mem, ghost p: Space)
        returns (ghost r: Mem)
      requires SyscallReady(k, s) && m == Pushed(k, s) && View(m, p) && s.cr3 == Directory(p)
      requires ctx == CtxAt(k, s)
      modifies board`mem, this`console
      ensures r == Entered(k, s, SyscallText(k, s)) && View(r, p)
      ensures console == old(console) + CounterLine(CounterRead(s))
    {
      CounterLineFits(CounterRead(s));
      EnteredKeepsUser(k, s, p);
      CtxHasRoom(k, s);
      assert KernelWord(ctx + 7) && m[ctx + 7] == s.cpu.g.eax;
      var counter := Read(ctx + 7, m, p);
      var value := ReadUser(counter, m, p);
      r := Print(CounterLine(value), m, p);
    }

    method ReturnTo(ctx: int, ghost text: BufferText, ghost s: State, ghost m: Mem, ghost p: Space)
      requires Valid(k) && StackRoom(k, EntryTop(k, s)) && Ring3(s.cpu.cs)
      requires m == Entered(k, s, text) && View(m, p) && ctx == CtxAt(k, s) && cpu.ss == D0_SEL
      modifies board`mem, this`cpu
      ensures View(m, p) && cpu == s.cpu
    {
      CtxHasRoom(k, s);
      Leave(ctx, m, p);
      EnteredRestores(k, s, text);
    }

    // int 0x80, up to the `iret` that ends its handling.
    method SyscallInterrupt(ghost p: Space)
      requires SyscallReady(k, Now()) && board.paging && board.cr3 == Directory(p)
      modifies board`mem, this`cpu, this`console
      ensures board.paging && SameState(Syscall(k, old(Now())), Now())
    {
      hide TablesOk, Pushed, Entered, CtxAt, EntryTop, StackRoom, Walk, CounterLine, CounterRead;
      ghost var s := Now();
      var ctx, m := Enter(s, p);
      m := SyscallHandler(ctx / 4, s, m, p);
      ReturnTo(ctx / 4, SyscallText(k, s), s, m, p);
    }

    // memset of n dwords to zero.
    method Memset(i: int, n: nat, ghost m: Mem, ghost p: Space) returns (ghost r: Mem)
      requires View(m, p) && 0 <= i && i + n <= PHYS_WORDS && forall x :: i <= x < i + n ==> KernelWord(x)
      modifies board`mem
      ensures r == Zeroed(m, i, n) && View(r, p)
    {
      assert Zeroed(m, i, 0) == m;
      r := m;
      for x := 0 to n
        invariant r == Zeroed(m, i, x) && View(r, p)
      {
        assert KernelWord(i + x);
        assert Zeroed(m, i, x)[i + x := 0] == Zeroed(m, i, x + 1);
        r := Write(i + x, 0, r, p);
      }
    }

    // config_task
    method ConfigTask(t: int, ghost m: Mem, ghost p: Space) returns (ghost r: Mem)
      requires View(m, p) && Valid(k) && 0 <= t < 2
      modifies board`mem
      ensures r == Configured(k, m, t) && View(r, p)
      ensures var a := k.tasks / 4 + 20 * t;
        && r[a] == (if t == 0 then k.function1 else k.function2)
        && r[a + 1] == (if t == 0 then 0x40_3ffc else 0x80_3ffc)
        && r[a + 2] == (if t == 0 then 0x38_1000 else 0x39_1000)
        && r[a + 3] == (if t == 0 then 0x35_2000 else 0x35_6000)
        && (forall i :: a + 4 <= i < a + 19 ==> r[i] == 0) && r[a + 19] % 0x100 == 0
        && (forall i :: 0 <= i < PHYS_WORDS && !(a <= i < a + 20) ==> r[i] == m[i])
    {
      ConfiguredNumbers(k, m, t);
      RecordData(k, t);
      var rec := Rec(k, t);
      r := Write(rec + FUNCTION, TaskFunction(k, t), m, p);
      r := Write(rec + STACK, StackBase(t), r, p);
      r := Write(rec + TASK_PGD, Directory(TaskSpace(t)), r, p);
      r := Write(rec + INTERRUPT_STACK, InterruptStack(t), r, p);
      r := Memset(rec + CONTEXT, CTX_WORDS, r, p);
      var w := Read(rec + SAVED, r, p);
      r := Write(rec + SAVED, WithByte(w, 0, 0), r, p);
    }

    // TSS.s0.esp = tasks[0].interrupt_stack; set_cr3(tasks[0].pgd);
    method LoadFirst(ghost m: Mem, ghost p: Space) returns (ghost r: Mem)
      requires View(m, p) && Valid(k) && TasksOk(k, m)
      modifies board`mem, board`cr3
      ensures r == m[Esp0(k) := InterruptStack(0)] && View(r, Task1)
    {
      RecordData(k, 0);
      ImageData(k.tss + 4);
      assert RecordWord(k, Rec(k, 0) + INTERRUPT_STACK) && RecordWord(k, Rec(k, 0) + TASK_PGD);
      var esp0 := Read(Rec(k, 0) + INTERRUPT_STACK, m, p);
      r := Write(Esp0(k), esp0, m, p);
      var pgd := Read(Rec(k, 0) + TASK_PGD, r, p);
      board.cr3 := pgd;
    }

    // The rest of config, once paging is on: the tasks, the first stack and directory.
    method ConfigTasks(ghost m: Mem) returns (ghost r: Mem)
      requires View(m, Boot) && Valid(k)
      modifies board`mem, board`cr3
      ensures r == Configured(k, Configured(k, m, 0), 1)[Esp0(k) := InterruptStack(0)] && View(r, Task1)
    {
      r := ConfigTask(0, m, Boot);
      r := ConfigTask(1, r, Boot);
      BothConfigured(k, m);
      r := LoadFirst(r, Boot);
    }

    // config: address spaces, tasks, then interrupts on.
    method Config()
      requires Valid(k) && !board.paging && board.mem[Cur(k)] == NO_TASK
      requires cpu.cs == C0_SEL && IOPL(cpu.eflags) == 0 && KernelRoom(k, cpu.g.esp, 2) && !inService
      modifies board, this`cpu, this`console
      ensures board.paging && BootState(k, Now())
      ensures acks == old(acks) && console == old(console) + "pagination enabled\n"
    {
      hide TablesOk, SameButAD, LineWords, Configured, HoldsLine;
      ConfigPgds(board);
      BuiltIsOk(old(board.mem), board.mem);
      BuiltKeepsIndex(k, old(board.mem), board.mem);
      ghost var built := board.mem;
      SameButADRefl(built);
      ghost var m := Print(PAGING_LINE, built, Boot);
      VariablesApart(k);
      assert m[Cur(k)] == NO_TASK;
      ghost var r := ConfigTasks(m);
      ConfiguredBoots(k, m, r, board.mem);
      TablesOkIgnoresAD(r, board.mem);
      cpu := cpu.(eflags := SetIF(cpu.eflags));
    }
  }

  // What config_pgds prints when paging is on.
  const PAGING_LINE := "pagination enabled\n"

  lemma BuiltKeepsIndex(k: Layout, m: Mem, n: Mem)
    requires Valid(k) && Built(m, n, Table)
    ensures n[Cur(k)] == m[Cur(k)]
  {
    ImageData(k.current);
    assert KernelWord(Cur(k));
  }

  lemma SameButADRefl(m: Mem)
    ensures SameButAD(m, m, TABLES_LO, TABLES_HI)
  {
  }

  // tasks[t] as config_task leaves it.
  function Configured(k: Layout, m: Mem, t: int): Mem
    requires 0 <= t < 2 && k.tasks + 160 <= IMAGE_HI
  {
    var rec := Rec(k, t);
    var n := Zeroed(m[rec + FUNCTION := TaskFunction(k, t)][rec + STACK := StackBase(t)]
                     [rec + TASK_PGD := Directory(TaskSpace(t))][rec + INTERRUPT_STACK := InterruptStack(t)],
                    rec + CONTEXT, CTX_WORDS);
    n[rec + SAVED := WithByte(n[rec + SAVED], 0, 0)]
  }

  // What the two calls of config_task leave in memory.
  lemma BothConfigured(k: Layout, m: Mem)
    requires Valid(k)
    ensures var n := Configured(k, Configured(k, m, 0), 1);
      TasksOk(k, n) && n[Cur(k)] == m[Cur(k)] && !IsSaved(k, n, 0) && !IsSaved(k, n, 1)
  {
    hide Configured;
    var m0 := Configured(k, m, 0);
    ConfiguredRecord(k, m, 0);
    ConfiguredRecord(k, m0, 1);
    RecordData(k, 0);
    RecordData(k, 1);
  }

  // The kernel's variables other than TSS.esp0 carry over.
  lemma SameVariables(k: Layout, m: Mem, n: Mem)
    requires Valid(k) && TasksOk(k, m)
    requires forall i :: Variable(k, i) && i != Esp0(k) ==> n[i] == m[i]
    ensures TasksOk(k, n) && n[Cur(k)] == m[Cur(k)]
    ensures forall t :: 0 <= t < 2 ==> IsSaved(k, n, t) == IsSaved(k, m, t)
  {
    RecordData(k, 0);
    RecordData(k, 1);
    assert forall i :: RecordWord(k, i) ==> n[i] == m[i];
    VariablesApart(k);
  }

  lemma ConfiguredBoots(k: Layout, m: Mem, r: Mem, n: Mem)
    requires Valid(k) && m[Cur(k)] == NO_TASK
    requires r == Configured(k, Configured(k, m, 0), 1)[Esp0(k) := InterruptStack(0)]
    requires SameButAD(r, n, TABLES_LO, TABLES_HI)
    ensures TasksOk(k, n) && n[Cur(k)] == NO_TASK && n[Esp0(k)] == InterruptStack(0)
    ensures !IsSaved(k, n, 0) && !IsSaved(k, n, 1)
  {
    BothConfigured(k, m);
    SameVariables(k, Configured(k, Configured(k, m, 0), 1), n);
  }

  lemma VariablesApart(k: Layout)
    requires Valid(k)
    ensures Cur(k) != Esp0(k) && Variable(k, Cur(k)) && Variable(k, Esp0(k))
  {
  }

  lemma ConfiguredRecord(k: Layout, m: Mem, t: int)
    requires Valid(k) && 0 <= t < 2
    ensures var rec, n := Rec(k, t), Configured(k, m, t);
      && n[rec + FUNCTION] == TaskFunction(k, t) && n[rec + STACK] == StackBase(t)
      && n[rec + INTERRUPT_STACK] == InterruptStack(t) && n[rec + TASK_PGD] == Directory(TaskSpace(t))
      && !IsSaved(k, n, t)
      && forall i :: 0 <= i < PHYS_WORDS && !(rec <= i < rec + TASK_WORDS) ==> n[i] == m[i]
  {
  }

  lemma ConfiguredNumbers(k: Layout, m: Mem, t: int)
    requires Valid(k) && 0 <= t < 2
    ensures var a, n := k.tasks / 4 + 20 * t, Configured(k, m, t);
      && n[a] == (if t == 0 then k.function1 else k.function2)
      && n[a + 1] == (if t == 0 then 0x40_3ffc else 0x80_3ffc)
      && n[a + 2] == (if t == 0 then 0x38_1000 else 0x39_1000)
      && n[a + 3] == (if t == 0 then 0x35_2000 else 0x35_6000)
      && (forall i :: a + 4 <= i < a + 19 ==> n[i] == 0) && n[a + 19] % 0x100 == 0
      && (forall i :: 0 <= i < PHYS_WORDS && !(a <= i < a + 20) ==> n[i] == m[i])
  {
    ConfiguredRecord(k, m, t);
    hide WithByte;
    var rec := Rec(k, t);
    var z := Zeroed(m[rec + FUNCTION := TaskFunction(k, t)][rec + STACK := StackBase(t)]
                     [rec + TASK_PGD := Directory(TaskSpace(t))][rec + INTERRUPT_STACK := InterruptStack(t)],
                    rec + CONTEXT, CTX_WORDS);
    ClearedFlag(z[rec + SAVED]);
  }

  lemma ClearedFlag(w: Word)
    ensures WithByte(w, 0, 0) % 0x100 == 0
  {
    WithByteGives(w, 0, 0, 0);
  }

  // Interrupts are on, the kernel idles in ring 0 and no task has run.
  ghost predicate BootState(k: Layout, s: State) {
    && Valid(k) && TablesOk(s.mem) && TasksOk(k, s.mem)
    && s.mem[Cur(k)] == NO_TASK && s.mem[Esp0(k)] == InterruptStack(0) && s.cr3 == Directory(Task1)
    && !IsSaved(k, s.mem, 0) && !IsSaved(k, s.mem, 1)
    && s.cpu.cs == C0_SEL && IF(s.cpu.eflags) && IOPL(s.cpu.eflags) == 0
    && KernelRoom(k, s.cpu.g.esp, 2) && !s.inService
  }

  // The stacks and printf's buffer are apart from the kernel's variables.
  lemma EnteredKeepsImage(k: Layout, s: State, text: BufferText)
    requires TickReady(k, s)
    ensures forall i :: Variable(k, i) ==> Pushed(k, s)[i] == s.mem[i] && Entered(k, s, text)[i] == s.mem[i]
    ensures Pushed(k, s)[Cur(k)] == s.mem[Cur(k)] && Entered(k, s, text)[Cur(k)] == s.mem[Cur(k)]
    ensures TasksOk(k, Entered(k, s, text))
  {
    StackData(k, EntryTop(k, s));
    VariablesApart(k);
    TasksAreVariables(k, s.mem, Entered(k, s, text));
  }

  lemma TasksAreVariables(k: Layout, m: Mem, n: Mem)
    requires Valid(k) && TasksOk(k, m) && forall i :: Variable(k, i) ==> n[i] == m[i]
    ensures TasksOk(k, n)
  {
    RecordData(k, 0);
    RecordData(k, 1);
    assert forall i :: RecordWord(k, i) ==> n[i] == m[i];
  }

  lemma SaveKeepsTasks(k: Layout, m: Mem, ctx: int, t: int)
    requires Valid(k) && TasksOk(k, m) && 0 <= t < 2 && 0 <= ctx <= PHYS_WORDS - CTX_WORDS
    ensures TasksOk(k, SaveContext(k, m, ctx, t))
  {
  }

  lemma UserReaches(m: Mem, n: Mem, p: Space, va: Word)
    requires TablesOk(m) && TablesOk(n) && SameButAD(m, n, TABLES_LO, TABLES_HI)
    requires va % 4 == 0 && Walk(m, Directory(p), va, Access(true, false)).Some?
    ensures var pa := Walk(m, Directory(p), va, Access(true, false)).value;
      pa >= 0x40_0000 && pa % 4 == 0
      && Reaches(n, Directory(p), true, va, pa, TABLES_LO, TABLES_HI) && m[pa / 4] == n[pa / 4]
  {
    ExactTranslation(m, p, va, Access(true, false));
    ExactTranslation(n, p, va, KERNEL_READ);
    SlotsAreTables(n, p, va, KERNEL_READ);
    IntendedForUser(p, va);
  }

  // Entering the kernel changes neither the tables nor what user addresses stand for.
  lemma EnteredKeepsUser(k: Layout, s: State, p: Space)
    requires SyscallReady(k, s) && s.cr3 == Directory(p)
    ensures TablesOk(Pushed(k, s))
    ensures var a := Access(true, false);
      Walk(Pushed(k, s), s.cr3, s.cpu.g.eax, a) == Walk(s.mem, s.cr3, s.cpu.g.eax, a)
    ensures Pushed(k, s)[Walk(s.mem, s.cr3, s.cpu.g.eax, Access(true, false)).value / 4] == CounterRead(s)
  {
    var a := Access(true, false);
    StackData(k, EntryTop(k, s));
    TablesOkSameWords(s.mem, Pushed(k, s));
    ExactTranslation(s.mem, p, s.cpu.g.eax, a);
    ExactTranslation(Pushed(k, s), p, s.cpu.g.eax, a);
  }

  // `popa; iret` undoes `pusha` and the interrupt, for a task in ring 3.
  lemma EnteredRestores(k: Layout, s: State, text: BufferText)
    requires Valid(k) && StackRoom(k, EntryTop(k, s)) && Ring3(s.cpu.cs)
    ensures 0x1000 <= EntryTop(k, s) < 0x40_0000 && Restored(Entered(k, s, text), CtxAt(k, s), D0_SEL) == s.cpu
  {
    var c := CtxAt(k, s);
    PushedRestores(k, s);
    EnteredContext(k, s, text);
    hide Pushed, Entered, EntryTop, FrameWords, StackRoom;
  }

  lemma PushedRestores(k: Layout, s: State)
    requires Valid(k) && StackRoom(k, EntryTop(k, s)) && Ring3(s.cpu.cs)
    ensures 0x1000 <= EntryTop(k, s) < 0x40_0000 && 0 <= CtxAt(k, s) < 0x10_0000 - CTX_WORDS
    ensures Restored(Pushed(k, s), CtxAt(k, s), D0_SEL) == s.cpu
  {
  }

  // The context lies apart from printf's buffer.
  lemma EnteredContext(k: Layout, s: State, text: BufferText)
    requires Valid(k) && StackRoom(k, EntryTop(k, s))
    ensures 0x1000 <= EntryTop(k, s) && 0 <= CtxAt(k, s) < 0x10_0000 - CTX_WORDS - 1
    ensures forall i :: CtxAt(k, s) <= i <= CtxAt(k, s) + CTX_WORDS ==> Entered(k, s, text)[i] == Pushed(k, s)[i]
  {
    StackData(k, EntryTop(k, s));
    BufferData(k);
  }
}
