// A proof rule for task programs: what is proved of a task alone, on its private machine, holds in every run of
// the preempted system.
module Refinement {
  import opened Words
  import opened Paging
  import opened AddressSpaces
  import opened Machine
  import opened Kernel
  import opened Scheduling
  import opened Runs
  import opened Projection

  // A property of the registers and the private memory of a task.
  type Assertion = (Cpu, seq<Word>) -> bool

  ghost predicate HoldsAtStart(k: Layout, t: int, p: Assertion) {
    forall c: Cpu, own: seq<Word> :: |own| == OWN_WORDS && Fresh(k, t, c) ==> p(c, own)
  }

  ghost predicate HoldsThrough(t: int, code: Code, p: Assertion) {
    forall u: Solo, e: Event :: |u.own| == OWN_WORDS && p(u.cpu, u.own) && SoloLegal(t, code, u, e) ==>
      p(SoloApply(t, u, e).cpu, SoloApply(t, u, e).own)
  }

  // A task in ring 3 cannot look at the SS that an interrupted launch was resumed with.
  ghost predicate IgnoresSs(p: Assertion) {
    forall c: Cpu, d: Cpu, own: seq<Word> :: p(c, own) && SameButSs(c, d) ==> p(d, own)
  }

  // An invariant of the task on its private machine.
  ghost predicate SoloInvariant(k: Layout, t: int, code: Code, p: Assertion) {
    HoldsAtStart(k, t, p) && HoldsThrough(t, code, p) && IgnoresSs(p)
  }

  // The same property in a state of the whole machine.
  ghost predicate Satisfied(k: Layout, t: int, p: Assertion, s: State)
    requires 0 <= t < 2 && k.tasks + 160 <= IMAGE_HI && k.current < IMAGE_HI
  {
    TaskCpu(k, s, t).Some? ==> p(TaskCpu(k, s, t).value, OwnWords(s.mem, t))
  }

  // ---- One step -----------------------------------------------------------------------------------------------

  lemma OwnStepKeeps(k: Layout, t: int, code: Code, p: Assertion, s: State, e: Event, r: State)
    requires 0 <= t < 2 && k.tasks + 160 <= IMAGE_HI && k.current < IMAGE_HI
    requires HoldsThrough(t, code, p) && Satisfied(k, t, p, s) && Simulates(k, code, t, s, e, r)
    ensures Satisfied(k, t, p, r)
  {
    hide TaskCpu, OwnWords, SoloLegal, SoloApply;
    assert p(ViewOf(k, s, t).cpu, ViewOf(k, s, t).own);
  }

  lemma UnchangedKeeps(k: Layout, t: int, p: Assertion, s: State, r: State)
    requires 0 <= t < 2 && k.tasks + 160 <= IMAGE_HI && k.current < IMAGE_HI
    requires Satisfied(k, t, p, s) && Unchanged(k, t, s, r) && (TaskCpu(k, r, t).Some? ==> TaskCpu(k, s, t).Some?)
    ensures Satisfied(k, t, p, r)
  {
    hide TaskCpu, OwnWords;
  }

  // A switch may change SS at most, and launches at the entry point.
  lemma SwitchKeeps(k: Layout, t: int, code: Code, p: Assertion, n: nat, s: State, j: Leftover, r: State)
    requires Inv(k, n, s) && IOPL(j.flags) == 0 && TickReady(k, s) && SameState(Tick(k, s, j), r) && Valid(k)
    requires 0 <= t < 2 && SoloInvariant(k, t, code, p) && Satisfied(k, t, p, s)
    ensures Satisfied(k, t, p, r)
  {
    hide Inv, Tick, TickReady, SameState, TaskCpu, UserView, Preserved, Sound, Completes, Fresh, OwnWords, HoldsThrough;
    TickFidelity(k, n, s, j, r);
    TickKeepsUserMemory(k, s, j, r);
    OwnWordsSame(s.mem, r.mem, t);
    TickLaunches(k, n, s, j, r);
    StartedAfter(k, n, s, t);
    StartedAfter(k, n + 1, r, t);
    if TaskCpu(k, s, t).Some? {
      assert SameButSs(TaskCpu(k, s, t).value, TaskCpu(k, r, t).value);
    } else if n == t {
      assert |OwnWords(r.mem, t)| == OWN_WORDS && Fresh(k, t, TaskCpu(k, r, t).value);
    }
  }

  // `int $32` goes on to the next instruction before it switches.
  lemma TrapKeeps(k: Layout, t: int, code: Code, p: Assertion, n: nat, s: State, eip: Word, j: Leftover)
    requires n > 0 && Inv(k, n, s) && Ring3(s.cpu.cs) && Valid(k) && 0 <= t < 2 && HoldsThrough(t, code, p)
    requires code(s.mem[Cur(k)], s.cpu, Int32(eip, j)) && Satisfied(k, t, p, s)
    ensures Satisfied(k, t, p, Trapped(s, eip))
  {
    hide Inv, TaskCpu, OwnWords;
    RunningSpace(k, n, s);
    TrappedTasks(k, n, s, eip);
    if (n - 1) % 2 == t {
      var u := ViewOf(k, s, t);
      assert p(u.cpu, u.own) && SoloLegal(t, code, u, Int32(eip, j));
    } else {
      assert (n - 1) % 2 == 1 - t;
    }
  }

  // An instruction or a system call of either task.
  lemma SeenKeeps(k: Layout, t: int, code: Code, p: Assertion, n: nat, s: State, e: Event, r: State)
    requires n > 0 && Inv(k, n, s) && Inv(k, n, r) && Valid(k) && 0 <= t < 2
    requires HoldsThrough(t, code, p) && Satisfied(k, t, p, s) && Simulates(k, code, (n - 1) % 2, s, e, r)
    ensures Satisfied(k, t, p, r)
  {
    hide Inv, TaskCpu, Satisfied, Simulates, Unchanged, HoldsThrough;
    if (n - 1) % 2 == t {
      OwnStepKeeps(k, t, code, p, s, e, r);
    } else {
      assert 1 - (n - 1) % 2 == t;
      OthersUnchanged(k, code, (n - 1) % 2, s, e, r);
      StillStarted(k, n, s, r, t);
      UnchangedKeeps(k, t, p, s, r);
    }
  }

  lemma StillStarted(k: Layout, n: nat, s: State, r: State, t: int)
    requires Inv(k, n, s) && Inv(k, n, r) && 0 <= t < 2
    ensures Valid(k) && (TaskCpu(k, r, t).Some? ==> TaskCpu(k, s, t).Some?)
  {
    hide *;
    StartedAfter(k, n, s, t);
    StartedAfter(k, n, r, t);
  }

  lemma StepKeeps(k: Layout, t: int, code: Code, p: Assertion, n: nat, s: State, e: Event, r: State)
    requires Inv(k, n, s) && Valid(k) && Step(k, code, s, e, r) && 0 <= t < 2
    requires SoloInvariant(k, t, code, p) && Satisfied(k, t, p, s)
    ensures Satisfied(k, t, p, r)
  {
    hide Inv, TickReady, Tick, Syscall, SyscallReady, UserStep, SameState, IF, IOPL, Simulates, Unchanged, Trapped, Pending,
      FinishReady, Finished, Satisfied, TaskCpu, HoldsAtStart, HoldsThrough, IgnoresSs;
    StepKeepsInv(k, code, n, s, e, r);
    if n == 0 { BootOnlyTicks(k, code, s, e, r); } else { RunningSpace(k, n, s); }
    InvIsPreemptible(k, n, s);
    match e
    case ClockTick(j) => SwitchKeeps(k, t, code, p, n, s, j, r);
    case Int32(eip, j) =>
      TrappedInv(k, n, s, eip);
      TrapKeeps(k, t, code, p, n, s, eip, j);
      SwitchKeeps(k, t, code, p, n, Trapped(s, eip), j, r);
    case Int80(eip) =>
      SyscallSeen(k, code, n, s, eip, r);
      SeenKeeps(k, t, code, p, n, s, e, r);
    case FinishLaunch =>
      FinishInRing0(k, n, s);
      FinishKeepsInv(k, n, s, r);
      FinishUnchanged(k, s, r, t);
      StillStarted(k, n, s, r, t);
      UnchangedKeeps(k, t, p, s, r);
    case Idle(eip) =>
      KernelStack(k, n, s);
      IdleUnchanged(k, s, eip, t);
      StillStarted(k, n, s, r, t);
      UnchangedKeeps(k, t, p, s, r);
    case _ =>
      InstructionSeen(k, code, n, s, e, r);
      SeenKeeps(k, t, code, p, n, s, e, r);
  }

  // ---- Whole runs -----------------------------------------------------------------------------------------------

  // Main theorem: an invariant of a task on its private machine holds in every state of every run, wherever the
  // ticks come, and also in those runs in which a launch cannot be completed.
  lemma {:induction false} InvariantHolds(k: Layout, t: int, code: Code, p: Assertion, ss: seq<State>, es: seq<Event>, i: nat)
    requires Run(k, code, ss, es) && i <= |es| && 0 <= t < 2 && SoloInvariant(k, t, code, p)
    ensures Satisfied(k, t, p, ss[i])
  {
    hide Inv, Step, BootState, TaskCpu, SoloInvariant, Satisfied;
    if i == 0 {
      RunInv(k, code, ss, es, 0);
      BootSatisfies(k, t, p, ss[0]);
    } else {
      InvariantHolds(k, t, code, p, ss, es, i - 1);
      RunInv(k, code, ss, es, i - 1);
      assert Step(k, code, ss[i - 1], es[i - 1], ss[i - 1 + 1]);
      StepKeeps(k, t, code, p, Switches(es[..i - 1]), ss[i - 1], es[i - 1], ss[i]);
    }
  }

  lemma BootSatisfies(k: Layout, t: int, p: Assertion, s: State)
    requires Inv(k, 0, s) && 0 <= t < 2
    ensures Valid(k) && Satisfied(k, t, p, s)
  {
    hide Inv, TaskCpu;
    StartedAfter(k, 0, s, t);
  }

  // Where p holds, whatever the code of task t does, the other code may do too.
  ghost predicate Allows(t: int, p: Assertion, code: Code, other: Code) {
    forall c: Cpu, own: seq<Word>, e: Event :: |own| == OWN_WORDS && p(c, own) && code(t, c, e) ==> other(t, c, e)
  }

  // Programs p and q of the tasks, with an invariant each, refine other programs.
  ghost predicate CodeRefines(k: Layout, code: Code, other: Code, p: Assertion, q: Assertion) {
    && SoloInvariant(k, 0, code, p) && Allows(0, p, code, other)
    && SoloInvariant(k, 1, code, q) && Allows(1, q, code, other)
  }

  lemma StepRefines(k: Layout, code: Code, other: Code, p: Assertion, q: Assertion, n: nat, s: State, e: Event, r: State)
    requires Inv(k, n, s) && Valid(k) && Step(k, code, s, e, r) && CodeRefines(k, code, other, p, q)
    requires Satisfied(k, 0, p, s) && Satisfied(k, 1, q, s)
    ensures Step(k, other, s, e, r)
  {
    hide Inv, TickReady, Tick, Syscall, SyscallReady, SameState, IF, IOPL, Trapped, Pending, FinishReady, Finished, Satisfied,
      TaskCpu, Walk, Mark, CodeRefines;
    if IsOwn(e) {
      assert Ring3(s.cpu.cs) by { if e.Int80? { SyscallInRing3(k, s, e.eip); } }
      InvInRing3(k, n, s);
      RunningSpace(k, n, s);
      EventRefines(k, code, other, p, q, s, e);
    }
  }

  lemma EventRefines(k: Layout, code: Code, other: Code, p: Assertion, q: Assertion, s: State, e: Event)
    requires Valid(k) && s.mem[Cur(k)] in {0, 1} && Ring3(s.cpu.cs) && code(s.mem[Cur(k)], s.cpu, e)
    requires CodeRefines(k, code, other, p, q) && Satisfied(k, 0, p, s) && Satisfied(k, 1, q, s)
    ensures other(s.mem[Cur(k)], s.cpu, e)
  {
    hide SoloInvariant, OwnWords;
    var t := s.mem[Cur(k)];
    assert TaskCpu(k, s, t) == Some(s.cpu) && |OwnWords(s.mem, t)| == OWN_WORDS;
  }

  // Main theorem: if the programs refine others on private machines, every run of the whole machine with them is
  // a run with the others, and what is proved of all those runs holds of it.
  lemma RunRefines(k: Layout, code: Code, other: Code, p: Assertion, q: Assertion, ss: seq<State>, es: seq<Event>)
    requires Run(k, code, ss, es) && CodeRefines(k, code, other, p, q)
    ensures Run(k, other, ss, es)
  {
    hide Inv, Step, BootState, Satisfied, SoloInvariant, Allows;
    forall i | 0 <= i < |es| ensures Step(k, other, ss[i], es[i], ss[i + 1]) {
      RunInv(k, code, ss, es, i);
      InvariantHolds(k, 0, code, p, ss, es, i);
      InvariantHolds(k, 1, code, q, ss, es, i);
      StepRefines(k, code, other, p, q, Switches(es[..i]), ss[i], es[i], ss[i + 1]);
    }
  }
}
