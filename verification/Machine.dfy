// The processor state a kernel entry saves and restores, and the kernel's own variables in
// physical memory (tp_exam/tp.c, kernel/include/intr.h, kernel/include/gpr.h).
module Machine {
  import opened Words
  import opened Paging
  import opened AddressSpaces

  // ---- Processor -------------------------------------------------------------------------

  datatype Gprs = Gprs(eax: Word, ecx: Word, edx: Word, ebx: Word, esp: Word, ebp: Word, esi: Word, edi: Word)

  // A segment register: 16 bits. The processor pushes it as a dword with a clear upper half, and
  // ignores the upper half of what it pops.
  type Selector = x: int | 0 <= x < 0x1_0000

  function Sel(w: Word): Selector { w % 0x1_0000 }

  datatype Cpu = Cpu(g: Gprs, eip: Word, cs: Selector, eflags: Word, ss: Selector)

  // Selectors: gdt_krn_seg_sel(1), gdt_krn_seg_sel(2), gdt_usr_seg_sel(3), gdt_usr_seg_sel(4).
  const C0_SEL: Selector := 0x08
  const D0_SEL: Selector := 0x10
  const C3_SEL: Selector := 0x1b
  const D3_SEL: Selector := 0x23

  predicate Ring3(cs: Word) { cs % 4 == 3 }

  predicate IF(eflags: Word) { eflags / 512 % 2 == 1 }
  function IOPL(eflags: Word): int { eflags / 4096 % 4 }

  function SetIF(eflags: Word): (r: Word)
    ensures IF(r) && IOPL(r) == IOPL(eflags) && r in {eflags, eflags + 0x200}
  {
    if IF(eflags) then eflags
    else
      assert (eflags + 512) / 512 == eflags / 512 + 1 by { DivIs(eflags + 512, 512, eflags / 512 + 1, eflags % 512); }
      assert (eflags + 512) / 4096 == eflags / 4096 by { FlagQuotient(eflags); }
      eflags + 512
  }

  lemma FlagQuotient(eflags: Word)
    requires !IF(eflags)
    ensures (eflags + 512) / 4096 == eflags / 4096
  {
    var q, r := eflags / 512, eflags % 512;
    assert q % 2 == 0 && q % 8 <= 6;
    DivIs(eflags + 512, 4096, q / 8, (q % 8 + 1) * 512 + r);
    DivIs(eflags, 4096, q / 8, q % 8 * 512 + r);
  }

  // What an interrupt gate does to the flags.
  function ClearIF(eflags: Word): (r: Word)
    ensures !IF(r) && IOPL(r) == IOPL(eflags) && r in {eflags, eflags - 0x200}
  {
    if IF(eflags) then
      assert (eflags - 512) / 512 == eflags / 512 - 1 by { DivIs(eflags - 512, 512, eflags / 512 - 1, eflags % 512); }
      SetQuotient(eflags);
      eflags - 512
    else eflags
  }

  lemma SetQuotient(eflags: Word)
    requires IF(eflags)
    ensures (eflags - 512) / 4096 == eflags / 4096
  {
    var q, r := eflags / 512, eflags % 512;
    assert q % 2 == 1;
    DivIs(eflags - 512, 4096, q / 8, (q % 8 - 1) * 512 + r);
    DivIs(eflags, 4096, q / 8, q % 8 * 512 + r);
  }

  // What a user program may do to EFLAGS: at CPL 3 with IOPL 0, IF and IOPL keep their values.
  predicate SameControl(e: Word, f: Word) {
    IF(e) == IF(f) && IOPL(e) == IOPL(f)
  }

  // The words of a context, in memory order. `pusha` stores the ESP it starts from.
  function GprWords(g: Gprs, esp: Word): seq<Word> {
    [g.edi, g.esi, g.ebp, esp, g.ebx, g.edx, g.ecx, g.eax]
  }

  // What the processor pushes on an interrupt: five words from ring 3, three from ring 0.
  function FrameWords(c: Cpu): seq<Word> {
    if Ring3(c.cs) then [c.eip, c.cs, c.eflags, c.g.esp, c.ss] else [c.eip, c.cs, c.eflags]
  }

  // `iret` to ring 3 from the frame at word e of memory m.
  function Popped(m: Mem, e: int, g: Gprs): Cpu
    requires 0 <= e <= PHYS_WORDS - 5
  {
    Cpu(g.(esp := m[e + 3]), m[e], Sel(m[e + 1]), m[e + 2], Sel(m[e + 4]))
  }

  // `popa` and `iret` from a context that starts at word p of memory m.
  function Restored(m: Mem, p: int, ss: Selector): Cpu
    requires 0 <= p && p + 15 <= PHYS_WORDS && 4 * p + 44 < 0x1_0000_0000
  {
    var outer := Ring3(Sel(m[p + 9]));
    Cpu(Gprs(m[p + 7], m[p + 6], m[p + 5], m[p + 4],
             if outer then m[p + 11] else 4 * p + 44,
             m[p + 2], m[p + 1], m[p]),
        m[p + 8], Sel(m[p + 9]), m[p + 10], if outer then Sel(m[p + 12]) else ss)
  }

  // ---- Kernel variables ----------------------------------------------------------------------

  // Link-time addresses: current_task_idx, tasks[2], TSS, vprint_buffer, the two task functions;
  // `depth` is the number of words clock_interrupt_handler uses on its stack below the context.
  datatype Layout = Layout(current: Word, tasks: Word, tss: Word, buffer: Word, function1: Word, function2: Word,
                           depth: nat)

  const IMAGE_LO := 0x30_2010
  const IMAGE_HI := 0x35_0000
  const TSS_SIZE := 8329
  const CTX_WORDS := 15
  const BUFFER_WORDS := 256
  const TASK_WORDS := 20

  // struct task, in words: function, stack, interrupt_stack, pgd, context, context_saved.
  const FUNCTION := 0
  const STACK := 1
  const INTERRUPT_STACK := 2
  const TASK_PGD := 3
  const CONTEXT := 4
  const SAVED := 19

  ghost predicate Valid(k: Layout) {
    && k.current % 4 == 0 && k.tasks % 4 == 0 && k.tss % 4 == 0 && k.buffer % 4 == 0
    && IMAGE_LO <= k.current && k.current + 4 <= IMAGE_HI
    && IMAGE_LO <= k.tasks && k.tasks + 8 * TASK_WORDS <= IMAGE_HI
    && IMAGE_LO <= k.tss && k.tss + TSS_SIZE <= IMAGE_HI
    && (k.current + 4 <= k.tasks || k.tasks + 8 * TASK_WORDS <= k.current)
    && (k.current + 4 <= k.tss || k.tss + TSS_SIZE <= k.current)
    && (k.tss + TSS_SIZE <= k.tasks || k.tasks + 8 * TASK_WORDS <= k.tss)
    && IMAGE_LO <= k.buffer && k.buffer + 4 * BUFFER_WORDS <= IMAGE_HI
    && (k.current + 4 <= k.buffer || k.buffer + 4 * BUFFER_WORDS <= k.current)
    && (k.tasks + 8 * TASK_WORDS <= k.buffer || k.buffer + 4 * BUFFER_WORDS <= k.tasks)
    && (k.tss + TSS_SIZE <= k.buffer || k.buffer + 4 * BUFFER_WORDS <= k.tss)
    && 1 <= k.depth <= 400
  }

  // Word numbers of the variables.
  function Cur(k: Layout): int { k.current / 4 }
  function Esp0(k: Layout): int { k.tss / 4 + 1 }
  function Buf(k: Layout): int { k.buffer / 4 }
  function Rec(k: Layout, t: int): int { k.tasks / 4 + TASK_WORDS * t }

  const NO_TASK: Word := 0xffff_ffff

  function TaskSpace(t: int): Space { if t == 0 then Task1 else Task2 }
  function TaskFunction(k: Layout, t: int): Word { if t == 0 then k.function1 else k.function2 }
  function StackBase(t: int): Word { if t == 0 then 0x40_3ffc else 0x80_3ffc }
  function InterruptStack(t: int): Word { if t == 0 then 0x38_1000 else 0x39_1000 }

  // The fields of tasks[] that only config_task writes.
  ghost predicate TasksOk(k: Layout, m: Mem)
    requires Valid(k)
  {
    forall t :: 0 <= t < 2 ==>
      && m[Rec(k, t) + FUNCTION] == TaskFunction(k, t)
      && m[Rec(k, t) + STACK] == StackBase(t)
      && m[Rec(k, t) + INTERRUPT_STACK] == InterruptStack(t)
      && m[Rec(k, t) + TASK_PGD] == Directory(TaskSpace(t))
  }

  // context_saved is one byte, the low one of its word.
  predicate IsSaved(k: Layout, m: Mem, t: int)
    requires 0 <= t < 2 && k.tasks + 160 <= IMAGE_HI
  {
    m[Rec(k, t) + SAVED] % 256 == 1
  }

  // m with the words ws at p.
  function Blit(m: Mem, p: int, ws: seq<Word>): Mem {
    seq(PHYS_WORDS, i requires 0 <= i < PHYS_WORDS => if p <= i < p + |ws| then ws[i - p] else m[i])
  }

  lemma BlitNothing(m: Mem, p: int)
    ensures Blit(m, p, []) == m
  {
  }

  lemma BlitJoin(m: Mem, p: int, xs: seq<Word>, ys: seq<Word>)
    ensures Blit(Blit(m, p + |xs|, ys), p, xs) == Blit(m, p, xs + ys)
  {
  }

  // A stack top with room for the frame, the context and the handler below it, and a few more
  // words of kernel memory above it.
  ghost predicate StackRoom(k: Layout, top: Word) {
    var below := 4 * (18 + k.depth);
    && top % 4 == 0
    && (0x30_0010 + below <= top <= 0x30_1ff0
        || 0x38_0000 + below <= top <= 0x38_1000
        || 0x39_0000 + below <= top <= 0x39_1000)
  }

  // The same for code that runs in ring 0 and has l launches before it: room for l + 1 ticks, and
  // no more than two words above the stack top of an interrupt stack in reach of the raw copy.
  ghost predicate KernelRoom(k: Layout, top: Word, l: nat) {
    var below := if l == 0 then 4 * (18 + k.depth) else if l == 1 then 8 * (18 + k.depth) else 12 * (18 + k.depth);
    && top % 4 == 0
    && (0x30_0010 + below <= top <= 0x30_1ff0
        || 0x38_0000 + below <= top <= 0x38_1000 - 8
        || 0x39_0000 + below <= top <= 0x39_1000 - 8)
  }

  // ---- State -----------------------------------------------------------------------------------

  datatype State = State(mem: Mem, cr3: Word, cpu: Cpu, inService: bool, acks: nat, console: string)

  // Equal but for accessed and dirty bits of the page tables.
  ghost predicate SameState(s: State, t: State) {
    && SameButAD(s.mem, t.mem, TABLES_LO, TABLES_HI)
    && s.cr3 == t.cr3 && s.cpu == t.cpu
    && s.inService == t.inService && s.acks == t.acks && s.console == t.console
  }
}
