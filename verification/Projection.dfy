// Preemption is invisible: what a task does in a run of the whole system is a run of that task
// alone on a machine of its own, with the same registers and the same private memory.
module Projection {
  import opened Words
  import opened Paging
  import opened AddressSpaces
  import opened Machine
  import opened Kernel
  import opened Scheduling
  import opened Runs

  // ---- The machine of one task ------------------------------------------------------------------------

  const OWN_WORDS := 0x10_0000

  // Registers and the task's own 4 MB; the shared page is not part of it.
  datatype Solo = Solo(cpu: Cpu, own: seq<Word>)

  function OwnBase(t: int): int { 0x40_0000 * (t + 1) }
  function WindowBase(t: int): int { 0x40_0000 * (2 - t) }

  predicate Private(t: int, va: Word) { OwnBase(t) <= va < OwnBase(t) + 0x40_0000 }
  predicate Shared(t: int, va: Word) { WindowBase(t) <= va < WindowBase(t) + PAGE_SIZE }

  predicate SoloLegal(t: int, code: Code, u: Solo, e: Event)
    requires |u.own| == OWN_WORDS
  {
    && code(t, u.cpu, e)
    && match e
       case Compute(c) => SameRights(u.cpu, c)
       case Load(va, v, c) =>
         SameRights(u.cpu, c) && va % 4 == 0 && (Private(t, va) || Shared(t, va))
         && (Private(t, va) ==> v == u.own[(va - OwnBase(t)) / 4])
       case Store(va, v, c) =>
         SameRights(u.cpu, c) && va % 4 == 0 && (Private(t, va) || Shared(t, va))
       case Int80(eip) => u.cpu.g.eax % 4 == 0 && (Private(t, u.cpu.g.eax) || Shared(t, u.cpu.g.eax))
       case Int32(eip, left) => true
       case _ => false
  }

  // The instructions of tasks; the other events are the clock's and the kernel's.
  predicate IsOwn(e: Event) { !e.ClockTick? && !e.FinishLaunch? && !e.Idle? }

  function SoloApply(t: int, u: Solo, e: Event): (w: Solo)
    requires |u.own| == OWN_WORDS
    ensures |w.own| == OWN_WORDS
  {
    match e
    case Compute(c) => Solo(c, u.own)
    case Load(va, v, c) => Solo(c, u.own)
    case Store(va, v, c) => Solo(c, if Private(t, va) then u.own[(va - OwnBase(t)) / 4 := v] else u.own)
    case Int80(eip) => u.(cpu := u.cpu.(eip := eip))
    case Int32(eip, left) => u.(cpu := u.cpu.(eip := eip))
    case _ => u
  }

  function SoloExec(t: int, u: Solo, es: seq<Event>): (w: Solo)
    requires |u.own| == OWN_WORDS
    ensures |w.own| == OWN_WORDS
  {
    if es == [] then u else SoloApply(t, SoloExec(t, u, es[..|es| - 1]), es[|es| - 1])
  }

  predicate SoloRun(t: int, code: Code, u: Solo, es: seq<Event>)
    requires |u.own| == OWN_WORDS
  {
    es == [] || (SoloRun(t, code, u, es[..|es| - 1])
                 && SoloLegal(t, code, SoloExec(t, u, es[..|es| - 1]), es[|es| - 1]))
  }

  // ---- A run as one task sees it -------------------------------------------------------------------------

  // The task that runs after n switches, if any.
  function Running(n: nat): int { if n == 0 then -1 else (n - 1) % 2 }

  // The instructions of task t among the events that follow n switches.
  function Project(n: nat, es: seq<Event>, t: int): seq<Event> {
    if es == [] then []
    else
      var init, e := es[..|es| - 1], es[|es| - 1];
      Project(n, init, t) + if IsOwn(e) && Running(n + Switches(init)) == t then [e] else []
  }

  function OwnWords(m: Mem, t: int): (r: seq<Word>)
    requires 0 <= t < 2
    ensures |r| == OWN_WORDS
  {
    m[OWN_WORDS * (t + 1)..OWN_WORDS * (t + 2)]
  }

  // Task t in machine state s, once it has been chosen.
  function ViewOf(k: Layout, s: State, t: int): (u: Solo)
    requires 0 <= t < 2 && k.tasks + 160 <= IMAGE_HI && k.current < IMAGE_HI && TaskCpu(k, s, t).Some?
    ensures |u.own| == OWN_WORDS
  {
    Solo(TaskCpu(k, s, t).value, OwnWords(s.mem, t))
  }

  // ---- One step --------------------------------------------------------------------------------------------

  // Where the user addresses of a task lie in physical memory.
  lemma UserAddress(m: Mem, t: int, va: Word, w: bool)
    requires TablesOk(m) && 0 <= t < 2 && va % 4 == 0
    ensures Walk(m, Directory(TaskSpace(t)), va, Access(true, w)) ==
      if Private(t, va) then Some(va)
      else if Shared(t, va) then Some(va - WindowBase(t) + 0xe0_0000) else None
  {
    hide TablesOk, Walk;
    ExactTranslation(m, TaskSpace(t), va, Access(true, w));
  }

  // The words of the private memory are those at the private addresses.
  lemma OwnWordAt(m: Mem, t: int, va: Word)
    requires 0 <= t < 2 && va % 4 == 0 && Private(t, va)
    ensures OwnWords(m, t)[(va - OwnBase(t)) / 4] == m[va / 4]
  {
  }

  lemma OwnWordsSame(m: Mem, n: Mem, t: int)
    requires 0 <= t < 2 && forall i :: 0x10_0000 <= i < PHYS_WORDS ==> n[i] == m[i]
    ensures OwnWords(n, t) == OwnWords(m, t)
  {
  }

  lemma OwnWordsStore(m: Mem, n: Mem, t: int, va: Word, v: Word)
    requires 0 <= t < 2 && va % 4 == 0 && Private(t, va)
    requires SameButAD(m[va / 4 := v], n, TABLES_LO, TABLES_HI)
    ensures OwnWords(n, t) == OwnWords(m, t)[(va - OwnBase(t)) / 4 := v]
    ensures OwnWords(n, 1 - t) == OwnWords(m, 1 - t)
  {
  }

  lemma OwnWordsShared(m: Mem, n: Mem, t: int, i: int, v: Word)
    requires 0 <= t < 2 && 0x38_0000 <= i < PHYS_WORDS
    requires SameButAD(m[i := v], n, TABLES_LO, TABLES_HI)
    ensures OwnWords(n, t) == OwnWords(m, t)
  {
  }

  // What an instruction of the running task t does to the private memories.
  lemma UserStepOwn(t: int, s: State, e: Event, r: State)
    requires 0 <= t < 2 && TablesOk(s.mem) && s.cr3 == Directory(TaskSpace(t)) && UserStep(s, e, r)
    ensures OwnWords(r.mem, t) ==
      if e.Store? && Private(t, e.va) then OwnWords(s.mem, t)[(e.va - OwnBase(t)) / 4 := e.value] else OwnWords(s.mem, t)
    ensures OwnWords(r.mem, 1 - t) == OwnWords(s.mem, 1 - t)
    ensures e.Load? || e.Store? ==> Private(t, e.va) || Shared(t, e.va)
    ensures e.Load? && Private(t, e.va) ==> e.value == OwnWords(s.mem, t)[(e.va - OwnBase(t)) / 4]
  {
    hide TablesOk, Walk, Mark;
    UserStepMemory(TaskSpace(t), s, e, r);
    match e
    case Compute(c) =>
    case Load(va, v, c) =>
      UserAddress(s.mem, t, va, false);
      if Private(t, va) { OwnWordAt(s.mem, t, va); }
      MemoryAbove(s.mem, r.mem);
      OwnWordsSame(s.mem, r.mem, t);
      OwnWordsSame(s.mem, r.mem, 1 - t);
    case Store(va, v, c) =>
      UserAddress(s.mem, t, va, true);
      if Private(t, va) {
        OwnWordsStore(s.mem, r.mem, t, va, v);
      } else {
        OwnWordsShared(s.mem, r.mem, t, (va - WindowBase(t) + 0xe0_0000) / 4, v);
        OwnWordsShared(s.mem, r.mem, 1 - t, (va - WindowBase(t) + 0xe0_0000) / 4, v);
      }
  }

  lemma MemoryAbove(m: Mem, n: Mem)
    requires SameButAD(m, n, TABLES_LO, TABLES_HI)
    ensures forall i :: 0x10_0000 <= i < PHYS_WORDS ==> n[i] == m[i]
  {
  }

  // The registers of the two tasks after a step of the running one.
  lemma UserStepCpu(k: Layout, n: nat, s: State, r: State)
    requires Inv(k, n, s) && Inv(k, n, r) && SameImage(k, s.mem, r.mem) && Ring3(s.cpu.cs) && Ring3(r.cpu.cs)
    ensures Valid(k) && n > 0 && SameTasks(k, (n - 1) % 2, s, r)
  {
    hide Inv, SameImage, IsSaved, SavedCpu, SavedInRing3, SavedOk;
    InvInRing3(k, n, s);
    InvRuns(k, n, s);
    SameImageSameTasks(k, s.mem, r.mem);
    assert SameTask(k, s.mem, r.mem, 0) && SameTask(k, s.mem, r.mem, 1);
  }

  // The running task takes a step of its own, the other one none.
  ghost predicate Simulates(k: Layout, code: Code, t: int, s: State, e: Event, r: State)
    requires 0 <= t < 2 && k.tasks + 160 <= IMAGE_HI && k.current < IMAGE_HI
  {
    && TaskCpu(k, s, t).Some? && TaskCpu(k, r, t).Some?
    && SoloLegal(t, code, ViewOf(k, s, t), e) && ViewOf(k, r, t) == SoloApply(t, ViewOf(k, s, t), e)
    && Unchanged(k, 1 - t, s, r)
  }

  ghost predicate Unchanged(k: Layout, t: int, s: State, r: State)
    requires 0 <= t < 2 && k.tasks + 160 <= IMAGE_HI && k.current < IMAGE_HI
  {
    && OwnWords(r.mem, t) == OwnWords(s.mem, t)
    && (TaskCpu(k, s, t).Some? ==> TaskCpu(k, r, t) == TaskCpu(k, s, t))
  }

  // Registers: the running task has those of the processor, the other one its own.
  ghost predicate SameTasks(k: Layout, t: int, s: State, r: State)
    requires 0 <= t < 2 && k.tasks + 160 <= IMAGE_HI && k.current < IMAGE_HI
  {
    && TaskCpu(k, s, t) == Some(s.cpu) && TaskCpu(k, r, t) == Some(r.cpu)
    && TaskCpu(k, r, 1 - t) == TaskCpu(k, s, 1 - t)
  }

  lemma InstructionSimulates(k: Layout, code: Code, t: int, s: State, e: Event, r: State)
    requires 0 <= t < 2 && k.tasks + 160 <= IMAGE_HI && k.current < IMAGE_HI
    requires TablesOk(s.mem) && s.cr3 == Directory(TaskSpace(t)) && UserStep(s, e, r) && code(t, s.cpu, e)
    requires SameTasks(k, t, s, r)
    ensures Simulates(k, code, t, s, e, r)
  {
    hide TablesOk, TaskCpu, Walk, Mark, OwnWords, SameRights;
    UserStepOwn(t, s, e, r);
  }

  lemma InstructionSeen(k: Layout, code: Code, n: nat, s: State, e: Event, r: State)
    requires n > 0 && Inv(k, n, s) && Inv(k, n, r) && UserStep(s, e, r) && code((n - 1) % 2, s.cpu, e)
    ensures Valid(k) && Simulates(k, code, (n - 1) % 2, s, e, r)
  {
    InstructionInRing3(k, n, s, e, r);
    hide Inv, TablesOk, TaskCpu, UserStep, Simulates;
    RunningSpace(k, n, s);
    UserStepKeepsImage(TaskSpace((n - 1) % 2), s, e, r);
    UserStepCpu(k, n, s, r);
    InstructionSimulates(k, code, (n - 1) % 2, s, e, r);
  }

  lemma InstructionInRing3(k: Layout, n: nat, s: State, e: Event, r: State)
    requires UserStep(s, e, r)
    ensures Ring3(s.cpu.cs) && Ring3(r.cpu.cs)
  {
    hide Walk, Mark;
  }

  lemma RunningSpace(k: Layout, n: nat, s: State)
    requires n > 0 && Inv(k, n, s)
    ensures Valid(k) && s.mem[Cur(k)] == (n - 1) % 2
    ensures TablesOk(s.mem) && s.cr3 == Directory(TaskSpace((n - 1) % 2))
  {
    hide TablesOk, TasksOk, IsSaved, SavedOk, UserView, KernelRoom, IF, IOPL;
  }

  lemma SyscallSimulates(k: Layout, code: Code, t: int, s: State, eip: Word, r: State)
    requires 0 <= t < 2 && k.tasks + 160 <= IMAGE_HI && k.current < IMAGE_HI
    requires code(t, s.cpu, Int80(eip)) && r.cpu == Trapped(s, eip).cpu && SameTasks(k, t, s, r)
    requires var p := s.cpu.g.eax; p % 4 == 0 && (Private(t, p) || Shared(t, p))
    requires forall i :: 0x10_0000 <= i < PHYS_WORDS ==> r.mem[i] == s.mem[i]
    ensures Simulates(k, code, t, s, Int80(eip), r)
  {
    hide TaskCpu, OwnWords;
    OwnWordsSame(s.mem, r.mem, t);
    OwnWordsSame(s.mem, r.mem, 1 - t);
  }

  lemma SyscallSeen(k: Layout, code: Code, n: nat, s: State, eip: Word, r: State)
    requires n > 0 && Inv(k, n, s) && Inv(k, n, r) && code((n - 1) % 2, s.cpu, Int80(eip))
    requires SyscallReady(k, Trapped(s, eip)) && SameState(Syscall(k, Trapped(s, eip)), r)
    ensures Valid(k) && Simulates(k, code, (n - 1) % 2, s, Int80(eip), r)
  {
    hide Inv, TablesOk, TaskCpu, SyscallReady, Simulates, Entered, SameButAD, SameImage;
    RunningSpace(k, n, s);
    SyscallInRing3(k, s, eip);
    SyscallPointer(k, (n - 1) % 2, s, eip);
    SyscallKeepsImage(k, n, s, eip, r);
    UserStepCpu(k, n, s, r);
    SyscallSimulates(k, code, (n - 1) % 2, s, eip, r);
  }

  lemma SyscallPointer(k: Layout, t: int, s: State, eip: Word)
    requires 0 <= t < 2 && s.cr3 == Directory(TaskSpace(t)) && SyscallReady(k, Trapped(s, eip))
    ensures var p := s.cpu.g.eax; p % 4 == 0 && (Private(t, p) || Shared(t, p))
  {
    hide Walk, TablesOk, StackRoom;
    UserAddress(s.mem, t, s.cpu.g.eax, false);
  }

  // A switch changes neither task, if the launch that it resumes can complete.
  lemma TickUnchanged(k: Layout, n: nat, s: State, j: Leftover, r: State, t: int)
    requires Inv(k, n, s) && IOPL(j.flags) == 0 && TickReady(k, s) && SameState(Tick(k, s, j), r) && 0 <= t < 2
    requires Valid(k) && Sound(k, s) && Completes(k, s)
    ensures Unchanged(k, t, s, r)
  {
    hide Inv, Tick, TickReady, SameState, Fresh, TaskCpu, OwnWords, Sound, Completes, UserView;
    TickFidelity(k, n, s, j, r);
    TickKeepsUserMemory(k, s, j, r);
    OwnWordsSame(s.mem, r.mem, t);
  }

  // `int $32`: an instruction that only goes on, and then a switch.
  lemma YieldSeen(k: Layout, code: Code, n: nat, s: State, eip: Word, j: Leftover, r: State)
    requires n > 0 && Valid(k) && Ring3(s.cpu.cs) && code((n - 1) % 2, s.cpu, Int32(eip, j)) && IOPL(j.flags) == 0
    requires Inv(k, n, s) && Inv(k, n, Trapped(s, eip)) && TickReady(k, Trapped(s, eip))
    requires SameState(Tick(k, Trapped(s, eip), j), r) && Completes(k, Trapped(s, eip))
    ensures Simulates(k, code, (n - 1) % 2, s, Int32(eip, j), r)
  {
    hide Inv, Tick, TickReady, SameState, OwnWords, Completes, Sound, TaskCpu;
    var c, x := (n - 1) % 2, Trapped(s, eip);
    TrappedTasks(k, n, s, eip);
    TickUnchanged(k, n, x, j, r, c);
    TickUnchanged(k, n, x, j, r, 1 - c);
  }

  lemma TrappedTasks(k: Layout, n: nat, s: State, eip: Word)
    requires n > 0 && Inv(k, n, s) && Ring3(s.cpu.cs)
    ensures Valid(k) && Sound(k, Trapped(s, eip))
    ensures var c, x := (n - 1) % 2, Trapped(s, eip);
      TaskCpu(k, s, c) == Some(s.cpu) && TaskCpu(k, x, c) == Some(x.cpu) && TaskCpu(k, x, 1 - c) == TaskCpu(k, s, 1 - c)
  {
    hide Inv, IsSaved, SavedCpu, UserCode;
    InvInRing3(k, n, s);
    InvRuns(k, n, s);
  }

  lemma FinishUnchanged(k: Layout, s: State, r: State, t: int)
    requires 0 <= t < 2 && Valid(k) && Preserved(k, s, r)
    requires forall i :: 0x10_0000 <= i < PHYS_WORDS ==> r.mem[i] == s.mem[i]
    ensures Unchanged(k, t, s, r)
  {
    hide TaskCpu, OwnWords;
    OwnWordsSame(s.mem, r.mem, t);
  }

  lemma IdleUnchanged(k: Layout, s: State, eip: Word, t: int)
    requires 0 <= t < 2 && Valid(k) && !Ring3(s.cpu.cs) && s.cpu.g.esp < 0x40_0000
    ensures Unchanged(k, t, s, Trapped(s, eip))
  {
    hide IsSaved, SavedCpu, OwnWords;
  }

  lemma KernelStack(k: Layout, n: nat, s: State)
    requires Inv(k, n, s) && !Ring3(s.cpu.cs)
    ensures s.cpu.g.esp < 0x40_0000
  {
    hide TablesOk, TasksOk, IsSaved, SavedOk, UserView, IF, IOPL;
  }

  // Every launch that this event resumes can complete.
  ghost predicate Smooth(k: Layout, s: State, e: Event)
    requires Valid(k)
  {
    IsSwitch(e) ==> Completes(k, From(s, e))
  }

  // One step of the whole system, seen from task t.
  lemma StepSeen(k: Layout, code: Code, n: nat, s: State, e: Event, r: State, t: int)
    requires Inv(k, n, s) && Step(k, code, s, e, r) && 0 <= t < 2 && Valid(k) && Sound(k, s) && Smooth(k, s, e)
    ensures if IsOwn(e) && Running(n) == t then Simulates(k, code, t, s, e, r) else Unchanged(k, t, s, r)
  {
    hide Inv, TickReady, Tick, Syscall, SyscallReady, UserStep, SameState, IF, IOPL, Simulates, Unchanged, Completes, Sound,
      Trapped, Pending, FinishReady, Finished;
    StepKeepsInv(k, code, n, s, e, r);
    if n == 0 { BootOnlyTicks(k, code, s, e, r); } else { RunningSpace(k, n, s); }
    InvIsPreemptible(k, n, s);
    match e
    case ClockTick(j) => TickUnchanged(k, n, s, j, r, t);
    case Int32(eip, j) =>
      TrappedInv(k, n, s, eip);
      YieldSeen(k, code, n, s, eip, j, r);
      OthersUnchanged(k, code, (n - 1) % 2, s, e, r);
    case Int80(eip) =>
      SyscallSeen(k, code, n, s, eip, r);
      OthersUnchanged(k, code, (n - 1) % 2, s, e, r);
    case FinishLaunch =>
      FinishInRing0(k, n, s);
      FinishKeepsInv(k, n, s, r);
      FinishUnchanged(k, s, r, t);
    case Idle(eip) =>
      KernelStack(k, n, s);
      IdleUnchanged(k, s, eip, t);
    case _ =>
      InstructionSeen(k, code, n, s, e, r);
      OthersUnchanged(k, code, (n - 1) % 2, s, e, r);
  }

  // A launch is pending with a wrong SS only after a switch that could not complete one.
  lemma StepSound(k: Layout, code: Code, n: nat, s: State, e: Event, r: State)
    requires Inv(k, n, s) && Step(k, code, s, e, r) && Valid(k)
    ensures IsSwitch(e) ==> (Sound(k, r) <==> Completes(k, From(s, e)))
    ensures !IsSwitch(e) && Sound(k, s) ==> Sound(k, r)
  {
    hide Inv, TickReady, Tick, Syscall, SyscallReady, UserStep, SameState, IF, IOPL, Completes, Trapped, Pending,
      FinishReady, Finished, Sound;
    StepKeepsInv(k, code, n, s, e, r);
    if IsSwitch(e) {
      SwitchSource(k, code, n, s, e, r);
      TickFidelity(k, n, From(s, e), e.left, r);
    } else {
      match e
      case FinishLaunch =>
        FinishInRing0(k, n, s);
        FinishKeepsInv(k, n, s, r);
      case Idle(eip) => IdleSound(k, s, eip);
      case Int80(eip) =>
        SyscallKeepsRing(k, s, eip, r);
        Ring3IsSound(k, n, r);
      case _ =>
        InstructionInRing3(k, n, s, e, r);
        Ring3IsSound(k, n, r);
    }
  }

  lemma IdleSound(k: Layout, s: State, eip: Word)
    requires Valid(k) && !Ring3(s.cpu.cs)
    ensures Sound(k, s) <==> Sound(k, Trapped(s, eip))
  {
  }

  lemma SyscallKeepsRing(k: Layout, s: State, eip: Word, r: State)
    requires SyscallReady(k, Trapped(s, eip)) && SameState(Syscall(k, Trapped(s, eip)), r)
    ensures Ring3(r.cpu.cs)
  {
    hide TablesOk, StackRoom, Walk, Entered, CounterRead, CounterLine;
  }

  lemma Ring3IsSound(k: Layout, n: nat, s: State)
    requires Inv(k, n, s) && Ring3(s.cpu.cs)
    ensures Valid(k) && Sound(k, s)
  {
    InvTables(k, n, s);
    hide Inv;
    InvInRing3(k, n, s);
  }

  lemma OthersUnchanged(k: Layout, code: Code, t: int, s: State, e: Event, r: State)
    requires 0 <= t < 2 && k.tasks + 160 <= IMAGE_HI && k.current < IMAGE_HI
    ensures Simulates(k, code, t, s, e, r) ==> Unchanged(k, 1 - t, s, r)
  {
    hide Unchanged, TaskCpu, SoloLegal, SoloApply;
  }

  // ---- Whole runs -----------------------------------------------------------------------------------------------

  // All switches among the events from i to j resume launches that can complete.
  ghost predicate SmoothRun(k: Layout, ss: seq<State>, es: seq<Event>, i: int, j: int)
    requires Valid(k) && 0 <= i <= j <= |es| < |ss|
  {
    forall x :: i <= x < j ==> Smooth(k, ss[x], es[x])
  }

  lemma {:induction false} RunSound(k: Layout, code: Code, ss: seq<State>, es: seq<Event>, i: int, j: int)
    requires Run(k, code, ss, es) && 0 <= i <= j <= |es| && Sound(k, ss[i]) && SmoothRun(k, ss, es, i, j)
    ensures Sound(k, ss[j])
    decreases j
  {
    hide Inv, Step, BootState, Sound, Completes;
    if i < j {
      RunSound(k, code, ss, es, i, j - 1);
      RunInv(k, code, ss, es, j - 1);
      assert Step(k, code, ss[j - 1], es[j - 1], ss[j - 1 + 1]);
      assert Smooth(k, ss[j - 1], es[j - 1]);
      StepSound(k, code, Switches(es[..j - 1]), ss[j - 1], es[j - 1], ss[j]);
    }
  }

  // Main theorem: between any two states of a run whose resumed launches can complete, a task that has
  // been chosen has made exactly a legal run of its own, instruction by instruction, and nothing else
  // happened to it, wherever the ticks came.
  lemma {:induction false} PreemptionIsInvisible(k: Layout, code: Code, ss: seq<State>, es: seq<Event>, i: int, j: int,
                                                 t: int)
    requires Run(k, code, ss, es) && 0 <= i <= j <= |es| && 0 <= t < 2
    requires Sound(k, ss[i]) && SmoothRun(k, ss, es, i, j)
    requires TaskCpu(k, ss[i], t).Some?
    ensures TaskCpu(k, ss[j], t).Some?
    ensures var p, u := Project(Switches(es[..i]), es[i..j], t), ViewOf(k, ss[i], t);
      SoloRun(t, code, u, p) && ViewOf(k, ss[j], t) == SoloExec(t, u, p)
    decreases j
  {
    hide Inv, Step, TaskCpu, ViewOf, BootState, SoloLegal, SoloApply, Sound, Smooth;
    if i < j {
      assert SmoothRun(k, ss, es, i, j - 1);
      PreemptionIsInvisible(k, code, ss, es, i, j - 1, t);
      RunSound(k, code, ss, es, i, j - 1);
      assert Smooth(k, ss[j - 1], es[j - 1]);
      var n, e := Switches(es[..j - 1]), es[j - 1];
      RunInv(k, code, ss, es, j - 1);
      assert Step(k, code, ss[j - 1], es[j - 1], ss[j - 1 + 1]);
      StepSeen(k, code, n, ss[j - 1], e, ss[j], t);
      SwitchesSplit(es, i, j - 1);
      ProjectLast(es, i, j, t);
      ExtendRun(k, code, ss[i], ss[j - 1], ss[j], Project(Switches(es[..i]), es[i..j - 1], t), e,
                IsOwn(e) && Running(n) == t, t);
    }
  }

  lemma {:induction false} SwitchesSplit(es: seq<Event>, i: int, j: int)
    requires 0 <= i <= j <= |es|
    ensures Switches(es[..j]) == Switches(es[..i]) + Switches(es[i..j])
    decreases j
  {
    if i < j {
      SwitchesSplit(es, i, j - 1);
      assert es[..j][..j - 1] == es[..j - 1] && es[i..j][..j - 1 - i] == es[i..j - 1];
    }
  }

  lemma ProjectLast(es: seq<Event>, i: int, j: int, t: int)
    requires 0 <= i < j <= |es|
    ensures var n, e := Switches(es[..i]), es[j - 1];
      Project(n, es[i..j], t) == Project(n, es[i..j - 1], t)
        + if IsOwn(e) && Running(Switches(es[..j - 1])) == t then [e] else []
  {
    SwitchesSplit(es, i, j - 1);
    assert es[i..j][..j - 1 - i] == es[i..j - 1];
  }

  lemma ExtendRun(k: Layout, code: Code, a: State, s: State, r: State, p: seq<Event>, e: Event, mine: bool, t: int)
    requires 0 <= t < 2 && k.tasks + 160 <= IMAGE_HI && k.current < IMAGE_HI
    requires TaskCpu(k, a, t).Some? && TaskCpu(k, s, t).Some?
    requires SoloRun(t, code, ViewOf(k, a, t), p) && ViewOf(k, s, t) == SoloExec(t, ViewOf(k, a, t), p)
    requires if mine then Simulates(k, code, t, s, e, r) else Unchanged(k, t, s, r)
    ensures TaskCpu(k, r, t).Some?
    ensures var q := p + if mine then [e] else [];
      SoloRun(t, code, ViewOf(k, a, t), q) && ViewOf(k, r, t) == SoloExec(t, ViewOf(k, a, t), q)
  {
    hide TaskCpu, OwnWords, SoloLegal, SoloApply;
    if mine { assert (p + [e])[..|p + [e]| - 1] == p; } else { assert p + [] == p; }
  }

  lemma StartedAfter(k: Layout, n: nat, s: State, t: int)
    requires Inv(k, n, s) && 0 <= t < 2
    ensures Valid(k) && (TaskCpu(k, s, t).Some? <==> n > t)
  {
    hide TablesOk, TasksOk, IsSaved, SavedCpu, SavedOk, KernelRoom, UserView, UserCode, KernelCode;
  }

  // Task t, once started, is where a solo run p from its entry point and its first memory leads.
  ghost predicate History(k: Layout, code: Code, t: int, own: seq<Word>, p: seq<Event>, s: State)
    requires 0 <= t < 2 && k.tasks + 160 <= IMAGE_HI && k.current < IMAGE_HI && |own| == OWN_WORDS
  {
    if TaskCpu(k, s, t).None? then p == [] && OwnWords(s.mem, t) == own
    else exists c :: Fresh(k, t, c) && Reached(k, code, t, Solo(c, own), p, s)
  }

  ghost predicate Reached(k: Layout, code: Code, t: int, u: Solo, p: seq<Event>, s: State)
    requires 0 <= t < 2 && k.tasks + 160 <= IMAGE_HI && k.current < IMAGE_HI && |u.own| == OWN_WORDS
  {
    && SoloRun(t, code, u, p)
    && TaskCpu(k, s, t) == Some(SoloExec(t, u, p).cpu) && OwnWords(s.mem, t) == SoloExec(t, u, p).own
  }

  lemma ExtendReached(k: Layout, code: Code, t: int, u: Solo, p: seq<Event>, s: State, e: Event, r: State, mine: bool)
    requires 0 <= t < 2 && k.tasks + 160 <= IMAGE_HI && k.current < IMAGE_HI && |u.own| == OWN_WORDS
    requires Reached(k, code, t, u, p, s)
    requires if mine then Simulates(k, code, t, s, e, r) else Unchanged(k, t, s, r)
    ensures Reached(k, code, t, u, p + if mine then [e] else [], r)
  {
    hide TaskCpu, OwnWords, SoloLegal, SoloApply;
    if mine { assert (p + [e])[..|p + [e]| - 1] == p; } else { assert p + [] == p; }
  }

  lemma ExtendHistory(k: Layout, code: Code, t: int, own: seq<Word>, p: seq<Event>, s: State, e: Event, r: State,
                      mine: bool)
    requires 0 <= t < 2 && k.tasks + 160 <= IMAGE_HI && k.current < IMAGE_HI && |own| == OWN_WORDS
    requires History(k, code, t, own, p, s)
    requires if mine then Simulates(k, code, t, s, e, r) else Unchanged(k, t, s, r)
    requires TaskCpu(k, s, t).None? && TaskCpu(k, r, t).Some? ==> Fresh(k, t, TaskCpu(k, r, t).value)
    ensures History(k, code, t, own, p + if mine then [e] else [], r)
  {
    hide TaskCpu, OwnWords, SoloLegal, SoloApply, Reached, Fresh;
    if TaskCpu(k, s, t).Some? {
      var c :| Fresh(k, t, c) && Reached(k, code, t, Solo(c, own), p, s);
      ExtendReached(k, code, t, Solo(c, own), p, s, e, r, mine);
      ReachedIsStarted(k, code, t, Solo(c, own), p + if mine then [e] else [], r);
    } else if TaskCpu(k, r, t).Some? {
      JustReached(k, code, t, TaskCpu(k, r, t).value, r);
    }
  }

  lemma ReachedIsStarted(k: Layout, code: Code, t: int, u: Solo, p: seq<Event>, s: State)
    requires 0 <= t < 2 && k.tasks + 160 <= IMAGE_HI && k.current < IMAGE_HI && |u.own| == OWN_WORDS
    requires Reached(k, code, t, u, p, s)
    ensures TaskCpu(k, s, t).Some?
  {
    hide TaskCpu, OwnWords, SoloRun, SoloExec;
  }

  lemma JustReached(k: Layout, code: Code, t: int, c: Cpu, r: State)
    requires 0 <= t < 2 && k.tasks + 160 <= IMAGE_HI && k.current < IMAGE_HI && TaskCpu(k, r, t) == Some(c)
    ensures Reached(k, code, t, Solo(c, OwnWords(r.mem, t)), [], r)
  {
  }

  // A task that is chosen for the first time is at its entry point.
  lemma StartsFresh(k: Layout, code: Code, n: nat, s: State, e: Event, r: State, t: int)
    requires Inv(k, n, s) && Step(k, code, s, e, r) && 0 <= t < 2
    ensures Valid(k)
    ensures TaskCpu(k, s, t).None? && TaskCpu(k, r, t).Some? ==> Fresh(k, t, TaskCpu(k, r, t).value)
  {
    hide Inv, Tick, TickReady, Syscall, SyscallReady, UserStep, SameState, TaskCpu, IF, IOPL, Fresh, UserView, Trapped;
    StepKeepsInv(k, code, n, s, e, r);
    StartedAfter(k, n, s, t);
    StartedAfter(k, n + SwitchOf(e), r, t);
    if n == t && IsSwitch(e) {
      SwitchSource(k, code, n, s, e, r);
      TickLaunches(k, n, From(s, e), e.left, r);
    }
  }

  ghost predicate HistoryAt(k: Layout, code: Code, ss: seq<State>, es: seq<Event>, j: int, t: int)
    requires Valid(k) && 0 <= j <= |es| < |ss| && 0 <= t < 2
  {
    History(k, code, t, OwnWords(ss[0].mem, t), Project(0, es[..j], t), ss[j])
  }

  // Main theorem, from the start: whatever the interleaving, the whole history of a task is a
  // legal run of that task alone, from its entry point and the memory it had at boot.
  lemma {:induction false} WholeHistory(k: Layout, code: Code, ss: seq<State>, es: seq<Event>, j: int, t: int)
    requires Run(k, code, ss, es) && 0 <= j <= |es| && 0 <= t < 2 && SmoothRun(k, ss, es, 0, j)
    ensures HistoryAt(k, code, ss, es, j, t)
    decreases j
  {
    hide Inv, Step, TaskCpu, BootState, History, OwnWords, Sound, Smooth;
    RunInv(k, code, ss, es, 0);
    BootSound(k, ss[0]);
    if j == 0 {
      BootHistory(k, code, ss[0], t);
    } else {
      assert SmoothRun(k, ss, es, 0, j - 1);
      WholeHistory(k, code, ss, es, j - 1, t);
      RunSound(k, code, ss, es, 0, j - 1);
      assert Smooth(k, ss[j - 1], es[j - 1]);
      var n, e := Switches(es[..j - 1]), es[j - 1];
      RunInv(k, code, ss, es, j - 1);
      assert Step(k, code, ss[j - 1], es[j - 1], ss[j - 1 + 1]);
      StepSeen(k, code, n, ss[j - 1], e, ss[j], t);
      StartsFresh(k, code, n, ss[j - 1], e, ss[j], t);
      assert es[..j][..j - 1] == es[..j - 1];
      ExtendHistory(k, code, t, OwnWords(ss[0].mem, t), Project(0, es[..j - 1], t), ss[j - 1], e, ss[j],
                    IsOwn(e) && Running(n) == t);
    }
  }

  lemma BootSound(k: Layout, s: State)
    requires Inv(k, 0, s)
    ensures Valid(k) && Sound(k, s)
  {
    hide TablesOk, TasksOk, IsSaved, KernelRoom, UserView;
  }

  // No legal run of a task changes its stack segment.
  lemma {:induction false} SoloKeepsSs(t: int, code: Code, u: Solo, p: seq<Event>)
    requires |u.own| == OWN_WORDS && SoloRun(t, code, u, p)
    ensures SoloExec(t, u, p).cpu.ss == u.cpu.ss
  {
    if p != [] { SoloKeepsSs(t, code, u, p[..|p| - 1]); }
  }

  // After a switch that resumes a launch with a wrong SS above it, the task is nowhere that it could
  // have come to on its own.
  lemma RoughBreaksHistory(k: Layout, code: Code, ss: seq<State>, es: seq<Event>, x: int)
    requires Run(k, code, ss, es) && 0 <= x < |es| && !Smooth(k, ss[x], es[x])
    ensures var t := Switches(es[..x]) % 2; !HistoryAt(k, code, ss, es, x + 1, t)
  {
    hide Inv, Step, BootState, SoloRun, SoloExec, Completes, OwnWords, UserView;
    var n, r := Switches(es[..x]), ss[x + 1];
    RunInv(k, code, ss, es, x);
    RunInv(k, code, ss, es, x + 1);
    SwitchesOfPrefix(es, x);
    assert Step(k, code, ss[x], es[x], ss[x + 1]);
    StepSound(k, code, n, ss[x], es[x], r);
    ChosenTask(k, n + 1, r);
    WrongSsHasNoHistory(k, code, n % 2, OwnWords(ss[0].mem, n % 2), Project(0, es[..x + 1], n % 2), r);
  }

  lemma WrongSsHasNoHistory(k: Layout, code: Code, t: int, own: seq<Word>, p: seq<Event>, s: State)
    requires 0 <= t < 2 && Valid(k) && |own| == OWN_WORDS
    requires TaskCpu(k, s, t).Some? && TaskCpu(k, s, t).value.ss != D3_SEL
    ensures !History(k, code, t, own, p, s)
  {
    hide TaskCpu, SoloRun, SoloExec, OwnWords;
    if History(k, code, t, own, p, s) {
      var c :| Fresh(k, t, c) && Reached(k, code, t, Solo(c, own), p, s);
      SoloKeepsSs(t, code, Solo(c, own), p);
    }
  }

  // The exact condition, for every run: the tasks have histories of their own throughout if and only if
  // no switch resumes an interrupted launch below a word that is not its SS.
  lemma WholeHistoryIff(k: Layout, code: Code, ss: seq<State>, es: seq<Event>)
    requires Run(k, code, ss, es)
    ensures SmoothRun(k, ss, es, 0, |es|) <==>
      forall j, t :: 0 <= j <= |es| && 0 <= t < 2 ==> HistoryAt(k, code, ss, es, j, t)
  {
    hide Step, BootState, Smooth, HistoryAt;
    if SmoothRun(k, ss, es, 0, |es|) {
      forall j, t | 0 <= j <= |es| && 0 <= t < 2 ensures HistoryAt(k, code, ss, es, j, t) {
        assert SmoothRun(k, ss, es, 0, j);
        WholeHistory(k, code, ss, es, j, t);
      }
    } else {
      var x :| 0 <= x < |es| && !Smooth(k, ss[x], es[x]);
      RoughBreaksHistory(k, code, ss, es, x);
    }
  }

  lemma BootHistory(k: Layout, code: Code, s: State, t: int)
    requires Inv(k, 0, s) && 0 <= t < 2
    ensures Valid(k) && History(k, code, t, OwnWords(s.mem, t), [], s)
  {
    hide Inv, TaskCpu, OwnWords;
    StartedAfter(k, 0, s, t);
  }
}
