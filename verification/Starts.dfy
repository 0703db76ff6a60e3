// What runs show from outside: where each task starts, that it can run there, and what the console says.
module Starts {
  import opened Words
  import opened Paging
  import opened AddressSpaces
  import opened Machine
  import opened Kernel
  import opened Scheduling
  import opened Runs
  import opened Projection
  import opened Numbers
  import Digits

  // ---- The start of a task --------------------------------------------------------------------------------

  // Task t has been launched and has not had its `iret` yet.
  predicate InLaunch(k: Layout, s: State, t: int)
    requires 0 <= t < 2 && k.tasks + 160 <= IMAGE_HI && k.current < IMAGE_HI
  {
    if s.mem[Cur(k)] == t then !Ring3(s.cpu.cs) else IsSaved(k, s.mem, t) && !SavedInRing3(k, s.mem, t)
  }

  predicate AtEntry(k: Layout, t: int, c: Cpu) {
    && c.eip == (if t == 0 then k.function1 else k.function2)
    && c.g.esp == (if t == 0 then 0x40_3ffc else 0x80_3ffc)
  }

  // Its registers are still those it was launched with.
  ghost predicate EntryInv(k: Layout, s: State, t: int)
    requires 0 <= t < 2 && k.tasks + 160 <= IMAGE_HI && k.current < IMAGE_HI
  {
    InLaunch(k, s, t) ==> TaskCpu(k, s, t).Some? && AtEntry(k, t, TaskCpu(k, s, t).value)
  }

  // The first push of a task that starts goes to its own memory.
  lemma FreshIsAtEntry(k: Layout, t: int, c: Cpu)
    requires 0 <= t < 2 && Fresh(k, t, c)
    ensures AtEntry(k, t, c) && c.g.esp >= 4 && Private(t, c.g.esp - 4)
  {
  }

  lemma SwitchKeepsEntry(k: Layout, n: nat, s: State, j: Leftover, r: State, t: int)
    requires Inv(k, n, s) && IOPL(j.flags) == 0 && TickReady(k, s) && SameState(Tick(k, s, j), r) && Valid(k)
    requires 0 <= t < 2 && EntryInv(k, s, t)
    ensures EntryInv(k, r, t)
  {
    hide TickReady, Tick, SameState, TablesOk, TasksOk, IsSaved, SavedCpu, SavedOk, SavedInRing3, KernelRoom, OnDuty, BootState,
      Pending, UserCode, Fresh, CtxAt, EntryTop, IF, IOPL;
    InvIsTickReady(k, n, s);
    if n == 0 {
      FirstTick(k, s, j, r);
      FreshIsAtEntry(k, 0, UserView(r));
      RunsCurrent(k, 0, r);
    } else {
      var c := (n - 1) % 2;
      InvRuns(k, n, s);
      LaterInv(k, n, c, s, j, r);
      if !IsSaved(k, s.mem, 1 - c) { FreshIsAtEntry(k, 1 - c, UserView(r)); }
    }
  }

  lemma SameTaskKeepsEntry(k: Layout, n: nat, s: State, r: State, t: int)
    requires n > 0 && Inv(k, n, s) && Inv(k, n, r) && Ring3(r.cpu.cs) && SameImage(k, s.mem, r.mem) && Valid(k)
    requires 0 <= t < 2 && EntryInv(k, s, t)
    ensures EntryInv(k, r, t)
  {
    hide Inv, IsSaved, SavedCpu, SavedInRing3, SavedOk, SameImage;
    InvRuns(k, n, s);
    SameImageSameTasks(k, s.mem, r.mem);
    assert SameTask(k, s.mem, r.mem, t);
  }

  lemma IdleKeepsEntry(k: Layout, s: State, eip: Word, t: int)
    requires Valid(k) && 0 <= t < 2 && EntryInv(k, s, t) && !Ring3(s.cpu.cs) && s.cpu.g.esp < 0x40_0000
    ensures EntryInv(k, Trapped(s, eip), t)
  {
    hide IsSaved, SavedCpu, SavedInRing3;
  }

  lemma TrapKeepsEntry(k: Layout, s: State, eip: Word, t: int)
    requires Valid(k) && 0 <= t < 2 && EntryInv(k, s, t) && Ring3(s.cpu.cs)
    ensures EntryInv(k, Trapped(s, eip), t)
  {
    hide IsSaved, SavedCpu, SavedInRing3;
  }

  lemma StepKeepsEntry(k: Layout, code: Code, n: nat, s: State, e: Event, r: State, t: int)
    requires Inv(k, n, s) && Valid(k) && Step(k, code, s, e, r) && 0 <= t < 2 && EntryInv(k, s, t)
    ensures EntryInv(k, r, t)
  {
    hide Inv, TickReady, Tick, Syscall, SyscallReady, UserStep, SameState, IF, IOPL, Trapped, Pending, FinishReady, Finished,
      EntryInv, SameImage, TablesOk;
    StepKeepsInv(k, code, n, s, e, r);
    if n == 0 { BootOnlyTicks(k, code, s, e, r); }
    InvIsPreemptible(k, n, s);
    InvTables(k, n, s);
    match e
    case ClockTick(j) => SwitchKeepsEntry(k, n, s, j, r, t);
    case Int32(eip, j) =>
      TrappedInv(k, n, s, eip);
      TrapKeepsEntry(k, s, eip, t);
      SwitchKeepsEntry(k, n, Trapped(s, eip), j, r, t);
    case Int80(eip) =>
      SyscallKeepsImage(k, n, s, eip, r);
      SyscallKeepsRing(k, s, eip, r);
      SameTaskKeepsEntry(k, n, s, r, t);
    case FinishLaunch =>
      FinishInRing0(k, n, s);
      FinishKeepsInv(k, n, s, r);
      FinishImage(k, n, s, r);
      SameTaskKeepsEntry(k, n, s, r, t);
    case Idle(eip) =>
      KernelStack(k, n, s);
      IdleKeepsEntry(k, s, eip, t);
    case _ =>
      InstructionInRing3(k, n, s, e, r);
      UserStepKeepsImage(TaskSpace((n - 1) % 2), s, e, r);
      SameTaskKeepsEntry(k, n, s, r, t);
  }

  lemma FinishImage(k: Layout, n: nat, s: State, r: State)
    requires Inv(k, n, s) && SameState(Finished(s), r)
    ensures SameImage(k, s.mem, r.mem)
  {
    hide TablesOk, TasksOk, OnDuty, IsSaved, SameImage, BootState, KernelRoom;
    PendingImage(k, s, r);
  }

  lemma {:induction false} RunEntry(k: Layout, code: Code, ss: seq<State>, es: seq<Event>, i: nat, t: int)
    requires Run(k, code, ss, es) && i <= |es| && 0 <= t < 2
    ensures EntryInv(k, ss[i], t)
  {
    hide Inv, Step, BootState, EntryInv;
    if i == 0 {
      RunInv(k, code, ss, es, 0);
      BootEntry(k, ss[0], t);
    } else {
      RunEntry(k, code, ss, es, i - 1, t);
      RunInv(k, code, ss, es, i - 1);
      assert Step(k, code, ss[i - 1], es[i - 1], ss[i - 1 + 1]);
      StepKeepsEntry(k, code, Switches(es[..i - 1]), ss[i - 1], es[i - 1], ss[i], t);
    }
  }

  lemma BootEntry(k: Layout, s: State, t: int)
    requires Inv(k, 0, s) && 0 <= t < 2
    ensures Valid(k) && EntryInv(k, s, t)
  {
    hide TablesOk, TasksOk, IsSaved, KernelRoom;
  }

  // A push of the value v by the task that runs.
  function PushOf(s: State, v: Word): Event
    requires s.cpu.g.esp >= 4
  {
    Store(s.cpu.g.esp - 4, v, s.cpu.(g := s.cpu.g.(esp := s.cpu.g.esp - 4)))
  }

  // Main theorem: when a launch ends, however often it was interrupted, the task is at its entry point, in ring 3,
  // on its own stack below 0x404000 or 0x804000; and it can push there.
  lemma StartedTaskCanPush(k: Layout, code: Code, ss: seq<State>, es: seq<Event>, i: nat, v: Word)
    requires Run(k, code, ss, es) && i < |es| && es[i].FinishLaunch?
    ensures var s := ss[i + 1]; var t := s.mem[k.current / 4];
      && t in {0, 1} && s.cpu.cs == 0x1b && s.cpu.ss == 0x23
      && s.cpu.eip == (if t == 0 then k.function1 else k.function2)
      && s.cpu.g.esp == (if t == 0 then 0x40_3ffc else 0x80_3ffc)
      && exists r :: UserStep(s, PushOf(s, v), r) && r.mem[s.cpu.g.esp / 4 - 1] == v
  {
    hide Inv, BootState, Step, EntryInv, TablesOk, FinishReady, Pending, SameState, UserView, UserStep;
    var n, s := Switches(es[..i]), ss[i + 1];
    RunInv(k, code, ss, es, i);
    assert Step(k, code, ss[i], es[i], ss[i + 1]);
    StepIsFinish(k, code, ss[i], s);
    FinishInRing0(k, n, ss[i]);
    FinishKeepsInv(k, n, ss[i], s);
    RunningSpace(k, n, ss[i]);
    RunningSpace(k, n, s);
    InvInRing3(k, n, s);
    RunEntry(k, code, ss, es, i, (n - 1) % 2);
    PendingIsEntry(k, ss[i], (n - 1) % 2);
    UserIs(s.cpu);
    PushWorks(k, s, (n - 1) % 2, v);
  }

  lemma StepIsFinish(k: Layout, code: Code, s: State, r: State)
    requires k.current < IMAGE_HI && Step(k, code, s, FinishLaunch, r)
    ensures s.mem[Cur(k)] != NO_TASK && FinishReady(s) && Pending(s).ss == D3_SEL && SameState(Finished(s), r)
  {
    hide FinishReady, Pending, SameState;
  }

  lemma PendingIsEntry(k: Layout, s: State, t: int)
    requires 0 <= t < 2 && Valid(k) && EntryInv(k, s, t) && s.mem[Cur(k)] == t && !Ring3(s.cpu.cs)
    ensures AtEntry(k, t, Pending(s))
  {
    hide Pending;
  }

  lemma UserIs(c: Cpu)
    requires UserCpu(c)
    ensures c.cs == 0x1b && c.ss == 0x23 && SameRights(c, c)
  {
  }

  lemma PushWorks(k: Layout, s: State, t: int, v: Word)
    requires 0 <= t < 2 && TablesOk(s.mem) && s.cr3 == Directory(TaskSpace(t)) && Ring3(s.cpu.cs)
    requires s.cpu.g.esp == if t == 0 then 0x40_3ffc else 0x80_3ffc
    ensures exists r :: UserStep(s, PushOf(s, v), r) && r.mem[s.cpu.g.esp / 4 - 1] == v
  {
    hide TablesOk, Walk, Mark;
    var va: Word := s.cpu.g.esp - 4;
    UserAddress(s.mem, t, va, true);
    var r := s.(mem := Mark(s.mem, s.cr3, va, WRITE)[va / 4 := v], cpu := PushOf(s, v).cpu);
    assert UserStep(s, PushOf(s, v), r);
    assert r.mem[s.cpu.g.esp / 4 - 1] == v;
  }

  // ---- The console ------------------------------------------------------------------------------------------

  // What step i prints.
  function Printed(k: Layout, s: State, e: Event): string
    requires k.current < IMAGE_HI
  {
    if IsSwitch(e) then
      if s.mem[k.current / 4] == 0 then "Printing Counter... \n" else "Increasing Counter... \n"
    else if e.Int80? && Walk(s.mem, s.cr3, s.cpu.g.eax, READ).Some? then
      "Counter value: " + Digits.Numeral(s.mem[Walk(s.mem, s.cr3, s.cpu.g.eax, READ).value / 4], 10) + "\n"
    else ""
  }

  lemma StepPrints(k: Layout, code: Code, s: State, e: Event, r: State)
    requires k.current < IMAGE_HI && Step(k, code, s, e, r)
    ensures r.console == s.console + Printed(k, s, e)
  {
    hide TickReady, Tick, SyscallReady, Entered, SyscallText, CounterLine, CounterRead, Walk, Mark, SameButAD,
      FinishReady, Pending;
    if IsSwitch(e) {
      TickNumbers(k, From(s, e), e.left);
    } else if e.Int80? {
      SyscallWalks(k, Trapped(s, e.eip));
    }
  }

  lemma SyscallWalks(k: Layout, s: State)
    requires SyscallReady(k, s)
    ensures Walk(s.mem, s.cr3, s.cpu.g.eax, READ).Some?
    ensures CounterLine(CounterRead(s)) ==
      "Counter value: " + Digits.Numeral(s.mem[Walk(s.mem, s.cr3, s.cpu.g.eax, READ).value / 4], 10) + "\n"
  {
    hide Walk, TablesOk, StackRoom;
  }

  function Transcript(k: Layout, ss: seq<State>, es: seq<Event>, i: nat): string
    requires k.current < IMAGE_HI && i <= |es| < |ss|
  {
    if i == 0 then "" else Transcript(k, ss, es, i - 1) + Printed(k, ss[i - 1], es[i - 1])
  }

  // The console of a run is the announcements of its switches and the counters of its system calls, in order, and
  // nothing else.
  lemma {:induction false} RunPrints(k: Layout, code: Code, ss: seq<State>, es: seq<Event>, i: nat)
    requires Run(k, code, ss, es) && i <= |es|
    ensures k.current < IMAGE_HI && ss[i].console == ss[0].console + Transcript(k, ss, es, i)
  {
    hide Step, BootState, Printed;
    if i == 0 {
      assert ss[0].console + "" == ss[0].console;
    } else {
      RunPrints(k, code, ss, es, i - 1);
      assert Step(k, code, ss[i - 1], es[i - 1], ss[i - 1 + 1]);
      StepPrints(k, code, ss[i - 1], es[i - 1], ss[i]);
      var a, b, c := ss[0].console, Transcript(k, ss, es, i - 1), Printed(k, ss[i - 1], es[i - 1]);
      assert a + b + c == a + (b + c);
    }
  }
}
