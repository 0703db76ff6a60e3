// The two task programs of tp_exam/tp.c and the counter they share.
module Counter {
  import opened Words
  import opened Paging
  import opened AddressSpaces
  import opened Machine
  import opened Kernel
  import opened Scheduling
  import opened Runs
  import opened Projection

  // ---- The programs -------------------------------------------------------------------------------------

  // Where task1_function is: before `*counter = 0`, or before the load, the addition or the
  // store of `*counter = *counter + 1`.
  datatype Phase = Reset | Fetch | Add | Put

  // The compiled code: the value of the first store (0 in the source), the phase of each instruction address
  // of task 1, where the value in flight is at each of them, and the addresses of `int $0x80` in task 2.
  datatype Listing = Listing(start: Word, phase: Word -> Phase, held: (Word, Gprs) -> Word, trap: Word -> bool)

  // The counter's new value is in a register, or about to be.
  predicate InFlight(p: Phase) { p == Add || p == Put }

  ghost predicate Compiled(k: Layout, l: Listing) {
    l.phase(k.function1) == Reset && !l.trap(k.function2)
  }

  const COUNTER_1: Word := 0x80_0000
  const COUNTER_2: Word := 0x40_0000

  // The registers after an instruction on registers and private memory alone.
  predicate Local(t: int, e: Event) {
    match e
    case Compute(c) => true
    case Load(va, v, c) => Private(t, va)
    case Store(va, v, c) => Private(t, va)
    case _ => false
  }

  predicate SameFlight(l: Listing, c: Cpu, d: Cpu) {
    && l.phase(d.eip) == l.phase(c.eip)
    && (InFlight(l.phase(c.eip)) ==> l.held(d.eip, d.g) == l.held(c.eip, c.g))
  }

  // The four steps on the counter, and between them anything on registers and private memory; a task may
  // also yield.
  predicate Code1(l: Listing, c: Cpu, e: Event) {
    if e.Int32? then SameFlight(l, c, c.(eip := e.eip))
    else if !IsInstruction(e) then false
    else
      var d, p, q := e.cpu, l.phase(c.eip), l.phase(e.cpu.eip);
      || (Local(0, e) && SameFlight(l, c, d))
      || (p == Reset && q == Fetch && e.Store? && e.va == COUNTER_1 && e.value == l.start)
      || (p == Fetch && q == Add && e.Load? && e.va == COUNTER_1 && l.held(d.eip, d.g) == e.value)
      || (p == Add && q == Put && e.Compute? && l.held(d.eip, d.g) == Add32(l.held(c.eip, c.g), 1))
      || (p == Put && q == Fetch && e.Store? && e.va == COUNTER_1 && e.value == l.held(c.eip, c.g))
  }

  predicate Code2(l: Listing, c: Cpu, e: Event) {
    if e.Int80? then l.trap(c.eip) && !l.trap(e.eip)
    else if e.Int32? then l.trap(e.eip) ==> c.g.eax == COUNTER_2
    else if !IsInstruction(e) then false
    else Local(1, e) && (l.trap(e.cpu.eip) ==> e.cpu.g.eax == COUNTER_2)
  }

  function Programs(l: Listing): Code {
    (t: int, c: Cpu, e: Event) => if t == 0 then Code1(l, c, e) else Code2(l, c, e)
  }

  lemma OnlyTask2Traps(l: Listing, t: int, c: Cpu, eip: Word)
    requires Programs(l)(t, c, Int80(eip))
    ensures t != 0 && Code2(l, c, Int80(eip)) && l.trap(c.eip)
  {
    assert !Code1(l, c, Int80(eip));
    assert Code2(l, c, Int80(eip));
  }

  // ---- The shared word --------------------------------------------------------------------------------------

  function SharedWord(m: Mem): Word { m[0x38_0000] }

  predicate StoresCounter(s: State, e: Event, k: Layout)
    requires k.current < IMAGE_HI
  {
    s.mem[Cur(k)] == 0 && e.Store? && e.va == COUNTER_1
  }

  predicate IsReset(k: Layout, l: Listing, s: State, e: Event)
    requires k.current < IMAGE_HI
  {
    StoresCounter(s, e, k) && l.phase(s.cpu.eip) == Reset
  }

  predicate IsIncrement(k: Layout, l: Listing, s: State, e: Event)
    requires k.current < IMAGE_HI
  {
    StoresCounter(s, e, k) && l.phase(s.cpu.eip) == Put
  }

  // An instruction of task t reaches the shared word only through the base of its window.
  lemma SharedAfter(t: int, s: State, e: Event, r: State)
    requires 0 <= t < 2 && TablesOk(s.mem) && s.cr3 == Directory(TaskSpace(t)) && UserStep(s, e, r)
    requires e.Store? ==> Private(t, e.va) || e.va == WindowBase(t)
    ensures SharedWord(r.mem) == if e.Store? && !Private(t, e.va) then e.value else SharedWord(s.mem)
    ensures e.Load? && e.va == WindowBase(t) ==> e.value == SharedWord(s.mem)
  {
    hide TablesOk, Walk, Mark;
    UserStepMemory(TaskSpace(t), s, e, r);
    if e.Load? { UserAddress(s.mem, t, e.va, false); }
    if e.Store? { UserAddress(s.mem, t, e.va, true); }
  }

  // ---- The invariant --------------------------------------------------------------------------------------------

  // Task 1 in flight: c its registers, w the shared word, n the completed increments.
  ghost predicate Counting(l: Listing, c: Cpu, w: Word, started: bool, n: nat) {
    match l.phase(c.eip)
    case Reset => !started && n == 0
    case Fetch => started && w == Add32(l.start, n)
    case Add => started && w == Add32(l.start, n) && l.held(c.eip, c.g) == w
    case Put => started && w == Add32(l.start, n) && l.held(c.eip, c.g) == Add32(w, 1)
  }

  ghost predicate CounterInv(k: Layout, l: Listing, s: State, started: bool, n: nat)
    requires k.tasks + 160 <= IMAGE_HI && k.current < IMAGE_HI
  {
    && (match TaskCpu(k, s, 0)
        case None => !started && n == 0
        case Some(c) => Counting(l, c, SharedWord(s.mem), started, n))
    && (match TaskCpu(k, s, 1)
        case None => true
        case Some(c) => l.trap(c.eip) ==> c.g.eax == COUNTER_2)
  }

  lemma CountingStep(l: Listing, c: Cpu, e: Event, w: Word, x: Word, started: bool, n: nat)
    requires Counting(l, c, w, started, n) && IsInstruction(e) && Code1(l, c, e)
    requires x == if e.Store? && !Private(0, e.va) then e.value else w
    requires e.Load? && e.va == COUNTER_1 ==> e.value == w
    ensures var counts := e.Store? && e.va == COUNTER_1;
      Counting(l, e.cpu, x, started || (counts && l.phase(c.eip) == Reset),
               if counts && l.phase(c.eip) == Put then n + 1 else n)
  {
  }

  // An instruction of task 1.
  lemma Task1Keeps(k: Layout, l: Listing, s: State, e: Event, r: State, started: bool, n: nat)
    requires k.tasks + 160 <= IMAGE_HI && k.current < IMAGE_HI && s.mem[Cur(k)] == 0
    requires TablesOk(s.mem) && s.cr3 == PGD_TASK_1 && UserStep(s, e, r) && SameTasks(k, 0, s, r)
    requires CounterInv(k, l, s, started, n) && Code1(l, s.cpu, e)
    ensures CounterInv(k, l, r, started || IsReset(k, l, s, e), if IsIncrement(k, l, s, e) then n + 1 else n)
  {
    hide TablesOk, TaskCpu, Walk, Mark, Counting;
    SharedAfter(0, s, e, r);
    CountingStep(l, s.cpu, e, SharedWord(s.mem), SharedWord(r.mem), started, n);
  }

  // An instruction of task 2.
  lemma Task2Keeps(k: Layout, l: Listing, s: State, e: Event, r: State, started: bool, n: nat)
    requires k.tasks + 160 <= IMAGE_HI && k.current < IMAGE_HI && s.mem[Cur(k)] == 1
    requires TablesOk(s.mem) && s.cr3 == PGD_TASK_2 && UserStep(s, e, r) && SameTasks(k, 1, s, r)
    requires CounterInv(k, l, s, started, n) && Code2(l, s.cpu, e)
    ensures CounterInv(k, l, r, started, n) && !IsReset(k, l, s, e) && !IsIncrement(k, l, s, e)
  {
    hide TablesOk, TaskCpu, Walk, Mark, Counting;
    SharedAfter(1, s, e, r);
  }

  lemma InstructionKeeps(k: Layout, l: Listing, m: nat, s: State, e: Event, r: State, started: bool, n: nat)
    requires m > 0 && Inv(k, m, s) && Inv(k, m, r) && UserStep(s, e, r)
    requires Programs(l)(s.mem[Cur(k)], s.cpu, e) && k.tasks + 160 <= IMAGE_HI && k.current < IMAGE_HI
    requires CounterInv(k, l, s, started, n)
    ensures CounterInv(k, l, r, started || IsReset(k, l, s, e), if IsIncrement(k, l, s, e) then n + 1 else n)
  {
    InstructionInRing3(k, m, s, e, r);
    hide Inv, TablesOk, TaskCpu, UserStep, CounterInv, Code1, Code2, IsReset, IsIncrement;
    RunningSpace(k, m, s);
    UserStepKeepsImage(TaskSpace((m - 1) % 2), s, e, r);
    UserStepCpu(k, m, s, r);
    if (m - 1) % 2 == 0 {
      Task1Keeps(k, l, s, e, r, started, n);
    } else {
      Task2Keeps(k, l, s, e, r, started, n);
    }
  }

  lemma TrapKeeps(k: Layout, l: Listing, s: State, eip: Word, r: State, started: bool, n: nat)
    requires k.tasks + 160 <= IMAGE_HI && k.current < IMAGE_HI
    requires SameTasks(k, 1, s, r) && r.cpu == Trapped(s, eip).cpu && Code2(l, s.cpu, Int80(eip))
    requires SharedWord(r.mem) == SharedWord(s.mem) && CounterInv(k, l, s, started, n)
    ensures CounterInv(k, l, r, started, n)
  {
    hide TaskCpu, Counting;
  }

  lemma SyscallKeeps(k: Layout, l: Listing, m: nat, s: State, eip: Word, r: State, started: bool, n: nat)
    requires m > 0 && Inv(k, m, s) && Inv(k, m, r) && k.tasks + 160 <= IMAGE_HI && k.current < IMAGE_HI
    requires Programs(l)(s.mem[Cur(k)], s.cpu, Int80(eip))
    requires SyscallReady(k, Trapped(s, eip)) && SameState(Syscall(k, Trapped(s, eip)), r)
    requires CounterInv(k, l, s, started, n)
    ensures CounterInv(k, l, r, started, n) && (m - 1) % 2 == 1
  {
    hide Inv, TablesOk, TaskCpu, SyscallReady, Entered, SameButAD, CounterInv, Code2, SameImage;
    RunningSpace(k, m, s);
    OnlyTask2Traps(l, s.mem[Cur(k)], s.cpu, eip);
    assert (m - 1) % 2 == 1;
    SyscallInRing3(k, s, eip);
    SyscallKeepsImage(k, m, s, eip, r);
    UserStepCpu(k, m, s, r);
    TrapKeeps(k, l, s, eip, r, started, n);
  }

  // A clock tick takes nothing from the count, wherever in the increment or in a launch it comes.
  lemma TickKeeps(k: Layout, l: Listing, m: nat, s: State, j: Leftover, r: State, started: bool, n: nat)
    requires Inv(k, m, s) && IOPL(j.flags) == 0 && TickReady(k, s) && SameState(Tick(k, s, j), r)
    requires Compiled(k, l) && k.tasks + 160 <= IMAGE_HI && k.current < IMAGE_HI && CounterInv(k, l, s, started, n)
    ensures CounterInv(k, l, r, started, n)
  {
    hide Inv, Tick, TickReady, SameState, TaskCpu, UserCpu, Preserved, UserView, Sound, Completes;
    TickFidelity(k, m, s, j, r);
    TickKeepsUserMemory(k, s, j, r);
    StartedAfter(k, m, s, 0);
    StartedAfter(k, m, s, 1);
    StartedAfter(k, m + 1, r, 0);
    StartedAfter(k, m + 1, r, 1);
    TickLaunches(k, m, s, j, r);
  }

  // So does the step up to the switch of a yield.
  lemma YieldKeeps(k: Layout, l: Listing, m: nat, s: State, eip: Word, j: Leftover, started: bool, n: nat)
    requires m > 0 && Inv(k, m, s) && Ring3(s.cpu.cs) && k.tasks + 160 <= IMAGE_HI && k.current < IMAGE_HI
    requires Programs(l)(s.mem[Cur(k)], s.cpu, Int32(eip, j)) && CounterInv(k, l, s, started, n)
    ensures CounterInv(k, l, Trapped(s, eip), started, n)
  {
    hide Inv, TaskCpu;
    RunningSpace(k, m, s);
    TrappedTasks(k, m, s, eip);
    assert if s.mem[Cur(k)] == 0 then Code1(l, s.cpu, Int32(eip, j)) else Code2(l, s.cpu, Int32(eip, j));
    if s.mem[Cur(k)] == 0 {
      assert Counting(l, s.cpu, SharedWord(s.mem), started, n);
    } else {
      assert s.mem[Cur(k)] == 1;
    }
  }

  // So do the end of a launch and the instruction before it.
  lemma LaunchKeeps(k: Layout, l: Listing, s: State, r: State, started: bool, n: nat)
    requires k.tasks + 160 <= IMAGE_HI && k.current < IMAGE_HI && CounterInv(k, l, s, started, n)
    requires forall t :: 0 <= t < 2 ==> TaskCpu(k, r, t) == TaskCpu(k, s, t)
    requires SharedWord(r.mem) == SharedWord(s.mem)
    ensures CounterInv(k, l, r, started, n)
  {
    hide TaskCpu, Counting;
  }

  lemma FinishKeeps(k: Layout, l: Listing, m: nat, s: State, r: State, started: bool, n: nat)
    requires Inv(k, m, s) && k.tasks + 160 <= IMAGE_HI && k.current < IMAGE_HI && CounterInv(k, l, s, started, n)
    requires s.mem[Cur(k)] != NO_TASK && FinishReady(s) && Pending(s).ss == D3_SEL && SameState(Finished(s), r)
    ensures CounterInv(k, l, r, started, n)
  {
    hide Inv, TaskCpu, CounterInv, FinishReady, Finished, Pending, SameState, Sound, UserView;
    FinishInRing0(k, m, s);
    FinishKeepsInv(k, m, s, r);
    StartedAfter(k, m, s, 0);
    StartedAfter(k, m, s, 1);
    StartedAfter(k, m, r, 0);
    StartedAfter(k, m, r, 1);
    LaunchKeeps(k, l, s, r, started, n);
  }

  lemma IdleKeeps(k: Layout, l: Listing, m: nat, s: State, eip: Word, started: bool, n: nat)
    requires Inv(k, m, s) && k.tasks + 160 <= IMAGE_HI && k.current < IMAGE_HI && CounterInv(k, l, s, started, n)
    requires !Ring3(s.cpu.cs)
    ensures CounterInv(k, l, Trapped(s, eip), started, n)
  {
    hide Inv, CounterInv, IsSaved, SavedCpu;
    KernelStack(k, m, s);
    LaunchKeeps(k, l, s, Trapped(s, eip), started, n);
  }

  lemma StepKeepsCounter(k: Layout, l: Listing, m: nat, s: State, e: Event, r: State, started: bool, n: nat)
    requires Inv(k, m, s) && Compiled(k, l) && k.tasks + 160 <= IMAGE_HI && k.current < IMAGE_HI
    requires Step(k, Programs(l), s, e, r) && CounterInv(k, l, s, started, n)
    ensures CounterInv(k, l, r, started || IsReset(k, l, s, e), if IsIncrement(k, l, s, e) then n + 1 else n)
  {
    hide Inv, Tick, TickReady, Syscall, SyscallReady, UserStep, SameState, TaskCpu, IF, IOPL, CounterInv, Code1, Code2,
      Compiled, Pending, FinishReady, Finished, Trapped;
    StepKeepsInv(k, Programs(l), m, s, e, r);
    InvIsPreemptible(k, m, s);
    if m == 0 { BootOnlyTicks(k, Programs(l), s, e, r); }
    match e
    case ClockTick(j) => TickKeeps(k, l, m, s, j, r, started, n);
    case Int32(eip, j) =>
      TrappedInv(k, m, s, eip);
      YieldKeeps(k, l, m, s, eip, j, started, n);
      TickKeeps(k, l, m, Trapped(s, eip), j, r, started, n);
    case Int80(eip) => SyscallKeeps(k, l, m, s, eip, r, started, n);
    case FinishLaunch => FinishKeeps(k, l, m, s, r, started, n);
    case Idle(eip) => IdleKeeps(k, l, m, s, eip, started, n);
    case _ => InstructionKeeps(k, l, m, s, e, r, started, n);
  }

  // ---- Whole runs ----------------------------------------------------------------------------------------------------

  // The initial store has been done among the first i events.
  ghost predicate Started(k: Layout, l: Listing, ss: seq<State>, es: seq<Event>, i: nat)
    requires k.current < IMAGE_HI && i <= |es| < |ss|
  {
    exists j :: 0 <= j < i && IsReset(k, l, ss[j], es[j])
  }

  // The completed increments among the first i events.
  function Increments(k: Layout, l: Listing, ss: seq<State>, es: seq<Event>, i: nat): nat
    requires k.current < IMAGE_HI && i <= |es| < |ss|
  {
    if i == 0 then 0
    else Increments(k, l, ss, es, i - 1) + if IsIncrement(k, l, ss[i - 1], es[i - 1]) then 1 else 0
  }

  lemma {:induction false} RunCounter(k: Layout, l: Listing, ss: seq<State>, es: seq<Event>, i: nat)
    requires Run(k, Programs(l), ss, es) && Compiled(k, l) && i <= |es|
    ensures CounterInv(k, l, ss[i], Started(k, l, ss, es, i), Increments(k, l, ss, es, i))
  {
    hide Inv, Step, BootState, TaskCpu, CounterInv, IsReset, IsIncrement, Compiled;
    RunInv(k, Programs(l), ss, es, 0);
    if i == 0 {
      BootCounter(k, l, ss[0]);
    } else {
      RunCounter(k, l, ss, es, i - 1);
      RunInv(k, Programs(l), ss, es, i - 1);
      assert Step(k, Programs(l), ss[i - 1], es[i - 1], ss[i - 1 + 1]);
      StepKeepsCounter(k, l, Switches(es[..i - 1]), ss[i - 1], es[i - 1], ss[i],
                       Started(k, l, ss, es, i - 1), Increments(k, l, ss, es, i - 1));
    }
  }

  lemma BootCounter(k: Layout, l: Listing, s: State)
    requires Inv(k, 0, s)
    ensures Valid(k) && CounterInv(k, l, s, false, 0)
  {
    hide Inv, TaskCpu;
    StartedAfter(k, 0, s, 0);
    StartedAfter(k, 0, s, 1);
  }

  // At a system call: task 2 runs, and its pointer is its end of the shared window.
  lemma CallerIsTask2(k: Layout, l: Listing, m: nat, s: State, eip: Word, r: State, started: bool, n: nat)
    requires Inv(k, m, s) && k.tasks + 160 <= IMAGE_HI && k.current < IMAGE_HI
    requires Step(k, Programs(l), s, Int80(eip), r) && CounterInv(k, l, s, started, n)
    ensures s.mem[Cur(k)] == 1 && s.cr3 == PGD_TASK_2 && TablesOk(s.mem) && s.cpu.g.eax == COUNTER_2
    ensures TaskCpu(k, s, 0).Some?
  {
    hide Inv, Tick, TickReady, Syscall, SyscallReady, SameState, TaskCpu, IF, IOPL, TablesOk, Counting, Pending;
    if m == 0 { BootOnlyTicks(k, Programs(l), s, Int80(eip), r); } else { RunningSpace(k, m, s); }
    OnlyTask2Traps(l, s.mem[Cur(k)], s.cpu, eip);
    assert (m - 1) % 2 == 1;
    assert TaskSpace((m - 1) % 2) == Task2;
    SyscallInRing3(k, s, eip);
    ChosenTask(k, m, s);
    assert TaskCpu(k, s, 1) == Some(s.cpu) && l.trap(s.cpu.eip);
    StartedAfter(k, m, s, 0);
  }

  lemma WindowRead(s: State, eip: Word)
    requires TablesOk(s.mem) && s.cr3 == PGD_TASK_2 && s.cpu.g.eax == COUNTER_2
    ensures Walk(s.mem, s.cr3, s.cpu.g.eax, Access(true, false)).Some?
    ensures CounterRead(Trapped(s, eip)) == SharedWord(s.mem)
  {
    hide TablesOk, Walk;
    UserAddress(s.mem, 1, COUNTER_2, false);
  }

  lemma SyscallPrints(k: Layout, code: Code, s: State, eip: Word, r: State)
    requires k.current < IMAGE_HI && Step(k, code, s, Int80(eip), r)
    ensures SyscallReady(k, Trapped(s, eip)) && r.console == s.console + CounterLine(CounterRead(Trapped(s, eip)))
  {
    hide SyscallReady, Entered, CounterLine, CounterRead, SameButAD;
  }

  lemma SharedIsCount(k: Layout, l: Listing, s: State, started: bool, n: nat)
    requires k.tasks + 160 <= IMAGE_HI && k.current < IMAGE_HI && CounterInv(k, l, s, started, n)
    requires started && TaskCpu(k, s, 0).Some?
    ensures SharedWord(s.mem) == Add32(l.start, n)
  {
    hide TaskCpu;
  }

  lemma ExactSyscall(k: Layout, l: Listing, m: nat, s: State, eip: Word, r: State, n: nat)
    requires Inv(k, m, s) && k.tasks + 160 <= IMAGE_HI && k.current < IMAGE_HI
    requires Step(k, Programs(l), s, Int80(eip), r) && CounterInv(k, l, s, true, n)
    ensures r.console == s.console + CounterLine(Add32(l.start, n))
  {
    hide *;
    CallerIsTask2(k, l, m, s, eip, r, true, n);
    SyscallPrints(k, Programs(l), s, eip, r);
    WindowRead(s, eip);
    SharedIsCount(k, l, s, true, n);
  }

  // Main theorem: in every run, every system call made once the counter has been reset prints
  // the first value of the counter, 0 in the source, plus the number of completed increments, modulo 2^32.
  lemma CounterIsExact(k: Layout, l: Listing, ss: seq<State>, es: seq<Event>, i: nat)
    requires Run(k, Programs(l), ss, es) && Compiled(k, l) && i < |es| && es[i].Int80?
    requires Started(k, l, ss, es, i)
    ensures ss[i + 1].console == ss[i].console + CounterLine(Add32(l.start, Increments(k, l, ss, es, i)))
  {
    hide Inv, BootState, TaskCpu, Compiled, CounterLine, Started, Increments, Step, CounterInv;
    RunCounter(k, l, ss, es, i);
    RunInv(k, Programs(l), ss, es, i);
    assert Step(k, Programs(l), ss[i], es[i], ss[i + 1]);
    ExactSyscall(k, l, Switches(es[..i]), ss[i], es[i].eip, ss[i + 1], Increments(k, l, ss, es, i));
  }

  // A task 2 that is about to trap always can.
  lemma SyscallIsReady(k: Layout, l: Listing, m: nat, s: State, eip: Word, started: bool, n: nat)
    requires m > 0 && m % 2 == 0 && Inv(k, m, s) && Valid(k) && CounterInv(k, l, s, started, n)
    requires Ring3(s.cpu.cs) && l.trap(s.cpu.eip)
    ensures SyscallReady(k, Trapped(s, eip))
  {
    hide Inv, TablesOk, TaskCpu, Walk, Counting, StackRoom;
    InvTables(k, m, s);
    assert (m - 1) % 2 == 1;
    ChosenTask(k, m, s);
    TrapStack(k, m, s, eip);
    WindowRead(s, eip);
  }

  lemma TrapStack(k: Layout, m: nat, s: State, eip: Word)
    requires m > 0 && Inv(k, m, s) && Ring3(s.cpu.cs)
    ensures Valid(k) && StackRoom(k, EntryTop(k, Trapped(s, eip)))
  {
    hide Inv, StackRoom;
    TrappedInv(k, m, s, eip);
    InvTables(k, m, s);
    InvIsTickReady(k, m, Trapped(s, eip));
    ReadyIs(k, Trapped(s, eip));
  }

  // Later system calls print counts that are no smaller.
  lemma {:induction false} IncrementsGrow(k: Layout, l: Listing, ss: seq<State>, es: seq<Event>, i: nat, j: nat)
    requires k.current < IMAGE_HI && i <= j <= |es| < |ss|
    ensures Increments(k, l, ss, es, i) <= Increments(k, l, ss, es, j)
    ensures Started(k, l, ss, es, i) ==> Started(k, l, ss, es, j)
    decreases j
  {
    hide IsReset, IsIncrement;
    if i < j { IncrementsGrow(k, l, ss, es, i, j - 1); }
  }
}
