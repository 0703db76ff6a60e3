// Whole runs of the two-task system of tp_exam/tp.c: instructions of the running task, system
// calls, clock ticks and the ends of launches in any order.
module Runs {
  import opened Words
  import opened Paging
  import opened AddressSpaces
  import opened Machine
  import opened Kernel
  import opened Scheduling

  // ---- Steps ---------------------------------------------------------------------------------------

  // What happens between two instruction boundaries. `cpu` holds the registers afterwards. The last
  // two are steps of the kernel in ring 0: the `iret` of a launch, and an instruction that only
  // goes on to the next (the idle loop, and the `sti` before that `iret`).
  datatype Event =
    | Compute(cpu: Cpu)
    | Load(va: Word, value: Word, cpu: Cpu)
    | Store(va: Word, value: Word, cpu: Cpu)
    | Int80(eip: Word)
    | Int32(eip: Word, left: Leftover)
    | ClockTick(left: Leftover)
    | FinishLaunch
    | Idle(eip: Word)

  // The programs of the tasks: which instruction task t may execute with these registers.
  type Code = (int, Cpu, Event) -> bool

  const READ := Access(true, false)
  const WRITE := Access(true, true)

  // Ring 3 keeps its segments, and with IOPL 0 it cannot change IF or IOPL.
  predicate SameRights(c: Cpu, d: Cpu) {
    d.cs == c.cs && d.ss == c.ss && SameControl(c.eflags, d.eflags)
  }

  // An instruction of ring 3 that does not fault.
  ghost predicate UserStep(s: State, e: Event, r: State) {
    && Ring3(s.cpu.cs)
    && match e
       case Compute(c) =>
         SameRights(s.cpu, c) && r == s.(cpu := c)
       case Load(va, v, c) =>
         && SameRights(s.cpu, c) && va % 4 == 0 && Walk(s.mem, s.cr3, va, READ).Some?
         && v == Mark(s.mem, s.cr3, va, READ)[Walk(s.mem, s.cr3, va, READ).value / 4]
         && r == s.(mem := Mark(s.mem, s.cr3, va, READ), cpu := c)
       case Store(va, v, c) =>
         && SameRights(s.cpu, c) && va % 4 == 0 && Walk(s.mem, s.cr3, va, WRITE).Some?
         && r == s.(mem := Mark(s.mem, s.cr3, va, WRITE)[Walk(s.mem, s.cr3, va, WRITE).value / 4 := v], cpu := c)
       case _ => false
  }

  // The machine as a software interrupt leaves it for the handler: the return address is the next
  // instruction.
  function Trapped(s: State, eip: Word): State {
    s.(cpu := s.cpu.(eip := eip))
  }

  ghost predicate Step(k: Layout, code: Code, s: State, e: Event, r: State)
    requires k.current < IMAGE_HI
  {
    match e
    case ClockTick(j) =>
      && IF(s.cpu.eflags) && !s.inService && IOPL(j.flags) == IOPL(s.cpu.eflags)
      && TickReady(k, s) && SameState(Tick(k, s, j), r)
    case Int32(eip, j) =>
      && code(s.mem[Cur(k)], s.cpu, e) && Ring3(s.cpu.cs) && IOPL(j.flags) == IOPL(s.cpu.eflags)
      && TickReady(k, Trapped(s, eip)) && SameState(Tick(k, Trapped(s, eip), j), r)
    case Int80(eip) =>
      && code(s.mem[Cur(k)], s.cpu, e) && SyscallReady(k, Trapped(s, eip))
      && SameState(Syscall(k, Trapped(s, eip)), r)
    case FinishLaunch =>
      // `iret` to ring 3 faults unless SS is the one selector of a ring-3 data segment.
      && s.mem[Cur(k)] != NO_TASK && FinishReady(s) && Pending(s).ss == D3_SEL && SameState(Finished(s), r)
    case Idle(eip) => !Ring3(s.cpu.cs) && r == Trapped(s, eip)
    case _ => code(s.mem[Cur(k)], s.cpu, e) && UserStep(s, e, r)
  }

  // A change of task, and the state in which the handler of vector 32 is entered.
  predicate IsSwitch(e: Event) { e.ClockTick? || e.Int32? }

  function SwitchOf(e: Event): nat { if IsSwitch(e) then 1 else 0 }

  function From(s: State, e: Event): State { if e.Int32? then Trapped(s, e.eip) else s }

  // Consecutive states of the machine, from the end of `config` on.
  ghost predicate Run(k: Layout, code: Code, ss: seq<State>, es: seq<Event>) {
    && Valid(k) && |ss| == |es| + 1
    && BootState(k, ss[0]) && ss[0].acks == 0
    && (forall i :: 0 <= i < |es| ==> Step(k, code, ss[i], es[i], ss[i + 1]))
  }

  function Switches(es: seq<Event>): nat {
    if es == [] then 0 else Switches(es[..|es| - 1]) + SwitchOf(es[|es| - 1])
  }

  // ---- One step ----------------------------------------------------------------------------------------

  // Memory as the task means it: a store changes one word, everything else none.
  function Effect(s: State, e: Event): Mem {
    if e.Store? && Walk(s.mem, s.cr3, e.va, WRITE).Some?
    then s.mem[Walk(s.mem, s.cr3, e.va, WRITE).value / 4 := e.value] else s.mem
  }

  lemma UserStepMemory(p: Space, s: State, e: Event, r: State)
    requires TablesOk(s.mem) && s.cr3 == Directory(p) && UserStep(s, e, r)
    ensures SameButAD(Effect(s, e), r.mem, TABLES_LO, TABLES_HI) && TablesOk(r.mem)
    ensures forall i :: 0 <= i < 0x10_0000 ==> Effect(s, e)[i] == s.mem[i]
    ensures e.Load? ==> e.value == s.mem[Walk(s.mem, s.cr3, e.va, READ).value / 4]
  {
    match e
    case Compute(c) =>
    case Load(va, v, c) =>
      LoadMemory(s.mem, p, va);
      hide TablesOk, SameButAD, Walk, Mark;
    case Store(va, v, c) =>
      hide SameButAD, Mark, Walk;
      UserStoreKeepsTables(s.mem, p, va, v);
  }

  lemma LoadMemory(m: Mem, p: Space, va: Word)
    requires TablesOk(m) && Walk(m, Directory(p), va, READ).Some?
    ensures var n, i := Mark(m, Directory(p), va, READ), Walk(m, Directory(p), va, READ).value / 4;
      SameButAD(m, n, TABLES_LO, TABLES_HI) && TablesOk(n) && n[i] == m[i]
  {
    var n, i := Mark(m, Directory(p), va, READ), Walk(m, Directory(p), va, READ).value / 4;
    ExactTranslation(m, p, va, READ);
    SlotsAreTables(m, p, va, READ);
    MarkChangesOnlyAD(m, Directory(p), va, READ, TABLES_LO, TABLES_HI);
    hide Mark, Walk;
    TablesOkIgnoresAD(m, n);
    MarkedWord(m, n, i);
  }

  lemma MarkedWord(m: Mem, n: Mem, i: int)
    requires SameButAD(m, n, TABLES_LO, TABLES_HI) && 0x10_0000 <= i < PHYS_WORDS
    ensures n[i] == m[i]
  {
  }

  // An instruction of the running task changes nothing of the kernel below 4 MB but marks.
  lemma UserStepKeepsKernel(p: Space, s: State, e: Event, r: State)
    requires TablesOk(s.mem) && s.cr3 == Directory(p) && UserStep(s, e, r)
    ensures forall i :: 0 <= i < 0x10_0000 && !(TABLES_LO <= i < TABLES_HI) ==> r.mem[i] == s.mem[i]
    ensures forall i :: TABLES_LO <= i < TABLES_HI ==> Strip(r.mem[i]) == Strip(s.mem[i])
    ensures forall q: Space, x: Word, a: Access ::
      Walk(r.mem, Directory(q), x, a) == Walk(s.mem, Directory(q), x, a)
  {
    hide TablesOk, Walk, UserStep, Effect;
    UserStepMemory(p, s, e, r);
    forall q: Space, x: Word, a: Access
      ensures Walk(r.mem, Directory(q), x, a) == Walk(s.mem, Directory(q), x, a)
    {
      ExactTranslation(s.mem, q, x, a);
      ExactTranslation(r.mem, q, x, a);
    }
  }

  lemma UserStepKeepsImage(p: Space, s: State, e: Event, r: State)
    requires TablesOk(s.mem) && s.cr3 == Directory(p) && UserStep(s, e, r)
    ensures TablesOk(r.mem) && forall k :: SameImage(k, s.mem, r.mem)
  {
    UserStepMemory(p, s, e, r);
    hide TablesOk;
    assert forall i :: InImage(i) ==> 0 <= i < 0x10_0000 && !(TABLES_LO <= i < TABLES_HI);
  }

  // What the scheduler knows survives a change of memory outside the image.
  lemma InvCarries(k: Layout, n: nat, s: State, r: State)
    requires n > 0 && Inv(k, n, s) && SameImage(k, s.mem, r.mem) && TablesOk(r.mem)
    requires r.cr3 == s.cr3 && r.acks == s.acks && r.inService == s.inService && UserCpu(r.cpu) && Ring3(r.cpu.cs)
    ensures Inv(k, n, r)
  {
    hide TablesOk, TasksOk, IsSaved, SavedOk, SavedCpu, SavedInRing3, UserView, KernelRoom, SameImage, KernelCode, IF, IOPL,
      BootState;
    SameImageSameTasks(k, s.mem, r.mem);
    assert SameTask(k, s.mem, r.mem, 0) && SameTask(k, s.mem, r.mem, 1);
    InvRuns(k, n, s);
    CarriedRuns(k, (n - 1) % 2, s, r);
  }

  lemma CarriedRuns(k: Layout, c: int, s: State, r: State)
    requires 0 <= c < 2 && Valid(k) && OnDuty(k, c, s) && r.cr3 == s.cr3 && UserCpu(r.cpu) && Ring3(r.cpu.cs)
    requires r.mem[Cur(k)] == s.mem[Cur(k)] && r.mem[Esp0(k)] == s.mem[Esp0(k)] && SameTask(k, s.mem, r.mem, 1 - c)
    ensures OnDuty(k, c, r)
  {
    hide IsSaved, SavedOk, SavedCpu, SavedInRing3, KernelCode, IF, IOPL;
  }

  // The running task is in ring 3 exactly as the processor is.
  lemma InvInRing3(k: Layout, n: nat, s: State)
    requires Inv(k, n, s) && Ring3(s.cpu.cs)
    ensures n > 0 && UserCpu(s.cpu)
  {
    hide TablesOk, TasksOk, IsSaved, SavedOk, KernelRoom, IF, IOPL;
  }

  // Nothing of the invariant is about the instruction pointer.
  lemma TrappedInv(k: Layout, n: nat, s: State, eip: Word)
    requires Inv(k, n, s)
    ensures Inv(k, n, Trapped(s, eip))
  {
    hide TablesOk, TasksOk, IsSaved, SavedOk, KernelRoom, IF, IOPL;
  }

  lemma SyscallKeepsImage(k: Layout, n: nat, s: State, eip: Word, r: State)
    requires Inv(k, n, s) && SyscallReady(k, Trapped(s, eip))
    requires SameState(Syscall(k, Trapped(s, eip)), r)
    ensures SameImage(k, s.mem, r.mem) && TablesOk(r.mem)
    ensures forall i :: 0x10_0000 <= i < PHYS_WORDS ==> r.mem[i] == s.mem[i]
  {
    hide TickReady, SyscallReady, Entered, TasksOk, TablesOk, Inv, CounterRead, CounterLine, Rest;
    var x := Trapped(s, eip);
    InvTables(k, n, s);
    TrappedInv(k, n, s, eip);
    InvIsTickReady(k, n, x);
    ReadyTables(k, x);
    EnteredAbove(k, x, SyscallText(k, x));
    EnteredKeepsImage(k, x, SyscallText(k, x));
    TablesOkSameWords(s.mem, Entered(k, x, SyscallText(k, x)));
    TablesOkIgnoresAD(Entered(k, x, SyscallText(k, x)), r.mem);
  }

  lemma EnteredAbove(k: Layout, s: State, text: BufferText)
    requires TickReady(k, s)
    ensures 0x1000 <= EntryTop(k, s) < 0x40_0000
    ensures forall i :: TABLES_LO <= i < TABLES_HI ==> Entered(k, s, text)[i] == s.mem[i]
    ensures forall i :: 0x10_0000 <= i < PHYS_WORDS ==> Entered(k, s, text)[i] == s.mem[i]
  {
    ReadyIs(k, s);
    StackData(k, EntryTop(k, s));
    EnteredKeepsRest(k, s, text);
    hide TickReady, Entered, StackRoom;
    assert forall i :: Elsewhere(i) ==> Rest(k, s, i);
    assert forall i :: TABLES_LO <= i < TABLES_HI ==> Elsewhere(i);
    assert forall i :: 0x10_0000 <= i < PHYS_WORDS ==> Elsewhere(i);
  }

  // Before the first tick no task runs.
  lemma BootOnlyTicks(k: Layout, code: Code, s: State, e: Event, r: State)
    requires Inv(k, 0, s) && Step(k, code, s, e, r)
    ensures e.ClockTick? || e.Idle?
  {
    hide TickReady, TablesOk, TasksOk, Tick, Syscall, StackRoom, FinishReady, KernelRoom;
  }

  lemma UserStepKeepsInv(k: Layout, n: nat, s: State, e: Event, r: State)
    requires Inv(k, n, s) && UserStep(s, e, r)
    ensures Inv(k, n, r)
  {
    hide Inv, TablesOk, TasksOk, Mark, Walk, IF, IOPL;
    InvInRing3(k, n, s);
    InvTables(k, n, s);
    UserStepKeepsImage(TaskSpace((n - 1) % 2), s, e, r);
    InvCarries(k, n, s, r);
  }

  lemma InvTables(k: Layout, n: nat, s: State)
    requires Inv(k, n, s)
    ensures Valid(k) && TablesOk(s.mem) && (n > 0 ==> s.cr3 == Directory(TaskSpace((n - 1) % 2)))
  {
    hide TablesOk, TasksOk, IsSaved, SavedOk, KernelRoom, UserView, IF, IOPL;
  }

  lemma SyscallKeepsInv(k: Layout, n: nat, s: State, eip: Word, r: State)
    requires Inv(k, n, s) && SyscallReady(k, Trapped(s, eip))
    requires SameState(Syscall(k, Trapped(s, eip)), r)
    ensures Inv(k, n, r) && n > 0
  {
    hide Inv, TablesOk, SyscallReady, SameButAD, Entered, SameImage;
    SyscallInRing3(k, s, eip);
    InvInRing3(k, n, s);
    SyscallKeepsImage(k, n, s, eip, r);
    InvCarries(k, n, s, r);
  }

  lemma SyscallInRing3(k: Layout, s: State, eip: Word)
    requires SyscallReady(k, Trapped(s, eip))
    ensures Ring3(s.cpu.cs)
  {
    hide TablesOk, StackRoom, Walk;
  }

  // Interrupts are enabled, I/O is not: a tick can come now.
  lemma InvIsPreemptible(k: Layout, n: nat, s: State)
    requires Inv(k, n, s)
    ensures Valid(k)
    ensures IF(s.cpu.eflags) && IOPL(s.cpu.eflags) == 0 && !s.inService && s.acks == n && TickReady(k, s)
  {
    InvIsTickReady(k, n, s);
    hide TickReady, TablesOk, TasksOk, StackRoom, IsSaved, SavedOk, KernelRoom, Pending, IF, IOPL;
  }

  lemma TickKeepsInv(k: Layout, n: nat, s: State, j: Leftover, r: State)
    requires Inv(k, n, s) && IOPL(j.flags) == 0 && TickReady(k, s) && SameState(Tick(k, s, j), r)
    ensures Inv(k, n + 1, r)
  {
    hide *;
    TickFidelity(k, n, s, j, r);
  }

  // Every step keeps the invariant; a switch advances it.
  lemma StepKeepsInv(k: Layout, code: Code, n: nat, s: State, e: Event, r: State)
    requires Inv(k, n, s) && Step(k, code, s, e, r)
    ensures Inv(k, n + SwitchOf(e), r)
  {
    hide Inv, TickReady, Tick, Syscall, SyscallReady, UserStep, SameState, IF, IOPL, Pending, FinishReady, Trapped;
    InvIsPreemptible(k, n, s);
    match e
    case ClockTick(j) => TickKeepsInv(k, n, s, j, r);
    case Int32(eip, j) =>
      TrappedInv(k, n, s, eip);
      TickKeepsInv(k, n, Trapped(s, eip), j, r);
    case Int80(eip) => SyscallKeepsInv(k, n, s, eip, r);
    case FinishLaunch =>
      FinishInRing0(k, n, s);
      FinishKeepsInv(k, n, s, r);
    case Idle(eip) => TrappedInv(k, n, s, eip);
    case _ => UserStepKeepsInv(k, n, s, e, r);
  }

  lemma FinishInRing0(k: Layout, n: nat, s: State)
    requires Inv(k, n, s) && k.current < IMAGE_HI && s.mem[Cur(k)] != NO_TASK && FinishReady(s)
    ensures n > 0 && !Ring3(s.cpu.cs)
  {
    hide TablesOk, TasksOk, IsSaved, SavedOk, KernelRoom, UserView, IF, IOPL;
  }

  // ---- Whole runs ------------------------------------------------------------------------------------------

  lemma {:induction false} SwitchesOfPrefix(es: seq<Event>, i: int)
    requires 0 <= i < |es|
    ensures Switches(es[..i + 1]) == Switches(es[..i]) + SwitchOf(es[i])
  {
    assert es[..i + 1][..i] == es[..i];
  }

  // Main invariant: state i of any run has seen exactly its switches.
  lemma {:induction false} RunInv(k: Layout, code: Code, ss: seq<State>, es: seq<Event>, i: int)
    requires Run(k, code, ss, es) && 0 <= i <= |es|
    ensures Inv(k, Switches(es[..i]), ss[i])
    decreases i
  {
    hide Inv, Step, BootState;
    if i == 0 {
      BootInv(k, ss[0]);
    } else {
      RunInv(k, code, ss, es, i - 1);
      SwitchesOfPrefix(es, i - 1);
      assert Step(k, code, ss[i - 1], es[i - 1], ss[i - 1 + 1]);
      StepKeepsInv(k, code, Switches(es[..i - 1]), ss[i - 1], es[i - 1], ss[i]);
    }
  }

  lemma BootInv(k: Layout, s: State)
    requires BootState(k, s) && s.acks == 0
    ensures Inv(k, 0, s)
  {
    hide TablesOk, TasksOk, KernelRoom;
  }

  lemma TickIsStep(k: Layout, code: Code, s: State, j: Leftover)
    requires TickReady(k, s) && IF(s.cpu.eflags) && !s.inService && IOPL(j.flags) == IOPL(s.cpu.eflags)
    requires k.current < IMAGE_HI
    ensures Step(k, code, s, ClockTick(j), Tick(k, s, j))
  {
    hide TickReady, Tick, IF, IOPL;
  }

  function Ticks(es: seq<Event>): nat {
    if es == [] then 0 else Ticks(es[..|es| - 1]) + if es[|es| - 1].ClockTick? then 1 else 0
  }

  function Yields(es: seq<Event>): nat {
    if es == [] then 0 else Yields(es[..|es| - 1]) + if es[|es| - 1].Int32? then 1 else 0
  }

  lemma {:induction false} SwitchesAre(es: seq<Event>)
    ensures Switches(es) == Ticks(es) + Yields(es)
  {
    if es != [] { SwitchesAre(es[..|es| - 1]); }
  }

  lemma FlagBits(eflags: Word)
    ensures IF(eflags) <==> eflags / 0x200 % 2 == 1
    ensures IOPL(eflags) == eflags / 0x1000 % 4
  {
  }

  // In every state of every run, also in the middle of a launch: interrupts are enabled, no IRQ0 is
  // in service, every tick was acknowledged once (and every `int $32`, whose EOI nobody asked for),
  // and the next tick can be taken.
  lemma AlwaysPreemptible(k: Layout, code: Code, ss: seq<State>, es: seq<Event>, i: int, j: Leftover)
    requires Run(k, code, ss, es) && 0 <= i <= |es| && IOPL(j.flags) == 0
    ensures var s := ss[i];
      && s.cpu.eflags / 0x200 % 2 == 1 && s.cpu.eflags / 0x1000 % 4 == 0 && !s.inService
      && s.acks == Ticks(es[..i]) + Yields(es[..i])
      && exists r :: Step(k, code, s, ClockTick(j), r)
  {
    var s := ss[i];
    hide Inv, TickReady, Tick, IF, IOPL, Step, BootState;
    RunInv(k, code, ss, es, i);
    SwitchesAre(es[..i]);
    InvIsPreemptible(k, Switches(es[..i]), s);
    TickIsStep(k, code, s, j);
    FlagBits(s.cpu.eflags);
  }

  // After n switches: who runs, on which page directory and interrupt stack, in which ring, and who
  // has been saved.
  lemma ScheduleOf(k: Layout, code: Code, ss: seq<State>, es: seq<Event>, i: int)
    requires Run(k, code, ss, es) && 0 <= i <= |es|
    ensures var n, m := Switches(es[..i]), ss[i].mem;
      && (n == 0 ==> m[Cur(k)] == NO_TASK && ss[i].cpu.cs == C0_SEL)
      && (n >= 1 ==>
            var c := (n - 1) % 2;
            m[Cur(k)] == c && ss[i].cr3 == Directory(TaskSpace(c)) && m[Esp0(k)] == InterruptStack(c)
            && ss[i].cpu.cs in {C0_SEL, C3_SEL} && (ss[i].cpu.cs == C0_SEL ==> FinishReady(ss[i])))
      && (IsSaved(k, m, 0) <==> n >= 2) && (IsSaved(k, m, 1) <==> n >= 3)
  {
    var n, s := Switches(es[..i]), ss[i];
    hide Run, TablesOk, TasksOk, IsSaved, SavedOk, StackRoom, KernelRoom, FinishReady, IF, IOPL;
    RunInv(k, code, ss, es, i);
    if n > 0 && !Ring3(s.cpu.cs) { PendingIsReady(k, n, s); }
  }

  // No run changes a translation, in any of the three address spaces.
  lemma StableTranslations(k: Layout, code: Code, ss: seq<State>, es: seq<Event>, i: int, p: Space, va: Word,
                           a: Access)
    requires Run(k, code, ss, es) && 0 <= i <= |es|
    ensures Walk(ss[i].mem, Directory(p), va, a) == Intended(p, va, a.user)
  {
    var s := ss[i];
    hide Run, Inv, Walk, TablesOk;
    RunInv(k, code, ss, es, i);
    InvTables(k, Switches(es[..i]), s);
    ExactTranslation(s.mem, p, va, a);
  }

  // Whatever directory clock_interrupt_handler loads, its own code, stack and variables stay
  // where they are.
  lemma SwitchKeepsFloor(k: Layout, code: Code, ss: seq<State>, es: seq<Event>, i: int, p: Space, q: Space, va: Word,
                         w: bool)
    requires Run(k, code, ss, es) && 0 <= i <= |es| && va < 0x40_0000
    ensures var a := Access(false, w);
      Walk(ss[i].mem, Directory(p), va, a) == Walk(ss[i].mem, Directory(q), va, a) == Some(va)
  {
    StableTranslations(k, code, ss, es, i, p, va, Access(false, w));
    StableTranslations(k, code, ss, es, i, q, va, Access(false, w));
  }

  // ---- Switches -------------------------------------------------------------------------------------------

  // A task that a switch chooses for the first time is at its entry point, and at its `iret` in ring 0;
  // one that it chooses again is as it was suspended, up to the SS of an interrupted launch.
  ghost predicate LaunchOrResume(k: Layout, n: nat, s: State, r: State)
    requires Valid(k)
  {
    && TaskCpu(k, r, n % 2) == Some(UserView(r))
    && (TaskCpu(k, s, n % 2).None? <==> n < 2)
    && (if n < 2 then Fresh(k, n % 2, UserView(r))
        else TaskCpu(k, s, n % 2).Some? && SameButSs(TaskCpu(k, s, n % 2).value, UserView(r)))
  }

  lemma ChosenTask(k: Layout, n: nat, s: State)
    requires Inv(k, n, s)
    ensures Valid(k)
    ensures TaskCpu(k, s, n % 2).None? <==> n < 2
    ensures n > 0 ==> TaskCpu(k, s, (n - 1) % 2) == Some(UserView(s))
  {
    hide TablesOk, TasksOk, IsSaved, SavedCpu, SavedOk, StackRoom, KernelRoom, UserView, UserCode, KernelCode;
  }

  lemma TickLaunches(k: Layout, n: nat, s: State, j: Leftover, r: State)
    requires Inv(k, n, s) && IOPL(j.flags) == 0 && TickReady(k, s) && SameState(Tick(k, s, j), r)
    ensures Valid(k) && LaunchOrResume(k, n, s, r)
  {
    hide Inv, Tick, TickReady, SameState, Fresh, TaskCpu, UserView, Sound, Completes, Preserved;
    TickFidelity(k, n, s, j, r);
    ChosenTask(k, n, s);
    ChosenTask(k, n + 1, r);
    assert 0 <= n % 2 < 2;
    assert (n + 1 - 1) % 2 == n % 2;
  }

  // A switch starts from a state like any other.
  lemma SwitchSource(k: Layout, code: Code, n: nat, s: State, e: Event, r: State)
    requires Inv(k, n, s) && Step(k, code, s, e, r) && IsSwitch(e)
    ensures Valid(k) && Inv(k, n, From(s, e)) && IOPL(e.left.flags) == 0 && TickReady(k, From(s, e))
    ensures SameState(Tick(k, From(s, e), e.left), r)
  {
    hide Inv, Tick, TickReady, SameState, IF, IOPL, Trapped, Syscall, SyscallReady, UserStep;
    InvIsPreemptible(k, n, s);
    if e.Int32? { TrappedInv(k, n, s, e.eip); }
  }

  // A task is launched at the first switch that chooses it, and resumed at all later ones.
  lemma LaunchedOnce(k: Layout, code: Code, ss: seq<State>, es: seq<Event>, i: int)
    requires Run(k, code, ss, es) && 0 <= i < |es| && IsSwitch(es[i])
    ensures LaunchOrResume(k, Switches(es[..i]), From(ss[i], es[i]), ss[i + 1])
  {
    hide Inv, Tick, TickReady, SameState, LaunchOrResume, BootState, Step;
    var n := Switches(es[..i]);
    RunInv(k, code, ss, es, i);
    assert Step(k, code, ss[i], es[i], ss[i + 1]);
    SwitchSource(k, code, n, ss[i], es[i], ss[i + 1]);
    TickLaunches(k, n, From(ss[i], es[i]), es[i].left, ss[i + 1]);
  }

  predicate IsInstruction(e: Event) { e.Compute? || e.Load? || e.Store? }

  // Equal below 4 MB, but for accessed and dirty bits in the tables.
  ghost predicate SameKernel(m: Mem, n: Mem) {
    && (forall i :: 0 <= i < 0x10_0000 && !(TABLES_LO <= i < TABLES_HI) ==> n[i] == m[i])
    && (forall i :: TABLES_LO <= i < TABLES_HI ==> Strip(n[i]) == Strip(m[i]))
  }

  // No stretch of instructions between two kernel entries changes the kernel's memory, its page
  // tables among it.
  lemma {:induction false} TasksCannotReachKernel(k: Layout, code: Code, ss: seq<State>, es: seq<Event>, i: int, j: int)
    requires Run(k, code, ss, es) && 0 <= i <= j <= |es|
    requires forall x :: i <= x < j ==> IsInstruction(es[x])
    ensures SameKernel(ss[i].mem, ss[j].mem)
    decreases j
  {
    hide Inv, Step, BootState, SameKernel;
    if i == j {
      SameKernelReflexive(ss[i].mem);
    } else {
      TasksCannotReachKernel(k, code, ss, es, i, j - 1);
      RunInv(k, code, ss, es, j - 1);
      assert Step(k, code, ss[j - 1], es[j - 1], ss[j - 1 + 1]);
      InstructionKeepsKernel(k, code, Switches(es[..j - 1]), ss[j - 1], es[j - 1], ss[j]);
      SameKernelComposes(ss[i].mem, ss[j - 1].mem, ss[j].mem);
    }
  }

  lemma SameKernelReflexive(m: Mem)
    ensures SameKernel(m, m)
  {
  }

  lemma SameKernelComposes(m: Mem, n: Mem, o: Mem)
    requires SameKernel(m, n) && SameKernel(n, o)
    ensures SameKernel(m, o)
  {
  }

  lemma InstructionKeepsKernel(k: Layout, code: Code, n: nat, s: State, e: Event, r: State)
    requires Inv(k, n, s) && Step(k, code, s, e, r) && IsInstruction(e)
    ensures SameKernel(s.mem, r.mem)
  {
    hide Inv, TablesOk, UserStep, Walk;
    if n == 0 { BootOnlyTicks(k, code, s, e, r); }
    InvTables(k, n, s);
    UserStepKeepsKernel(TaskSpace((n - 1) % 2), s, e, r);
  }
}
