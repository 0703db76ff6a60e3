// Which machines let every interrupted launch complete: two words of boot memory decide it.
module Launches {
  import opened Words
  import opened Paging
  import opened AddressSpaces
  import opened Machine
  import opened Kernel
  import opened Scheduling
  import opened Runs
  import opened Projection

  // ---- The words above the raw copies --------------------------------------------------------------------

  // A context at the top of the interrupt stack of task c reaches two words beyond the stack; the SS
  // that a resumed launch pops there is the third.
  function SpareAt(c: int): int
    requires 0 <= c < 2
  {
    InterruptStack(c) / 4 + 2
  }

  predicate Spare(m: Mem) {
    Sel(m[SpareAt(0)]) == D3_SEL && Sel(m[SpareAt(1)]) == D3_SEL
  }

  ghost predicate SameSpare(m: Mem, n: Mem) {
    n[SpareAt(0)] == m[SpareAt(0)] && n[SpareAt(1)] == m[SpareAt(1)]
  }

  lemma TickKeepsSpare(k: Layout, n: nat, s: State, j: Leftover, r: State)
    requires Inv(k, n, s) && TickReady(k, s) && SameState(Tick(k, s, j), r)
    ensures SameSpare(s.mem, r.mem)
  {
    SpareIsRest(k, n, s);
    hide Inv, TickReady, Switched, Dispatched, Tick, Rest, EntryTop, CtxAt;
    InvTables(k, n, s);
    SwitchedKeepsRest(k, s);
    TickIs(k, s, j, Next(s.mem[Cur(k)]));
    SpareDispatched(k, s, Next(s.mem[Cur(k)]), j);
    SameStackWords(Tick(k, s, j).mem, r.mem, SpareAt(0));
    SameStackWords(Tick(k, s, j).mem, r.mem, SpareAt(1));
  }

  // Those words lie above everything that a tick writes.
  lemma SpareIsRest(k: Layout, n: nat, s: State)
    requires Inv(k, n, s)
    ensures Valid(k) && Rest(k, s, SpareAt(0)) && Rest(k, s, SpareAt(1))
    ensures forall c :: 0 <= c < 2 ==> !(CtxAt(k, s) - k.depth - 5 <= SpareAt(c) < CtxAt(k, s) + CTX_WORDS)
  {
    InvTables(k, n, s);
    EntryIs(k, n, s);
    hide Inv;
  }

  // Where the processor's stack is when a tick comes.
  lemma EntryIs(k: Layout, n: nat, s: State)
    requires Inv(k, n, s)
    ensures Valid(k)
    ensures if Ring3(s.cpu.cs) then n > 0 && EntryTop(k, s) == InterruptStack((n - 1) % 2)
            else KernelRoom(k, EntryTop(k, s), Launches(n))
  {
    hide TablesOk, TasksOk, IsSaved, SavedOk, UserView, KernelRoom, IF, IOPL;
  }

  lemma SpareDispatched(k: Layout, s: State, t: int, j: Leftover)
    requires TickReady(k, s) && 0 <= t < 2 && Rest(k, s, SpareAt(0)) && Rest(k, s, SpareAt(1))
    requires forall c :: 0 <= c < 2 ==> !(CtxAt(k, s) - k.depth - 5 <= SpareAt(c) < CtxAt(k, s) + CTX_WORDS)
    ensures 0 <= CtxAt(k, s) <= PHYS_WORDS - CTX_WORDS
    ensures SameSpare(Switched(k, s), Dispatched(k, Switched(k, s), CtxAt(k, s), t, j))
  {
    SwitchedUnfolds(k, s);
    hide TickReady, Switched, Rest, EntryTop, CtxAt, Blit, IsSaved, LaunchFrame, SpareAt;
    var m, c := Switched(k, s), CtxAt(k, s);
    if IsSaved(k, m, t) {
      BlitElsewhere(m, c, m[Rec(k, t) + CONTEXT..Rec(k, t) + CONTEXT + CTX_WORDS], SpareAt(0));
      BlitElsewhere(m, c, m[Rec(k, t) + CONTEXT..Rec(k, t) + CONTEXT + CTX_WORDS], SpareAt(1));
    } else {
      LaunchFrameSize(k, m, t, j);
      BlitElsewhere(m, c - k.depth - 5, LaunchFrame(k, m, t, j), SpareAt(0));
      BlitElsewhere(m, c - k.depth - 5, LaunchFrame(k, m, t, j), SpareAt(1));
    }
  }

  lemma BlitElsewhere(m: Mem, p: int, ws: seq<Word>, i: int)
    requires 0 <= i < PHYS_WORDS && !(p <= i < p + |ws|)
    ensures Blit(m, p, ws)[i] == m[i]
  {
  }

  lemma LaunchFrameSize(k: Layout, m: Mem, t: int, j: Leftover)
    requires 0 <= t < 2 && k.tasks + 160 <= IMAGE_HI
    ensures |LaunchFrame(k, m, t, j)| == 5
  {
  }

  lemma StepKeepsSpare(k: Layout, code: Code, n: nat, s: State, e: Event, r: State)
    requires Inv(k, n, s) && Step(k, code, s, e, r)
    ensures SameSpare(s.mem, r.mem)
  {
    hide Inv, TickReady, Tick, Syscall, SyscallReady, UserStep, SameState, IF, IOPL, Pending, FinishReady, SameSpare;
    InvTables(k, n, s);
    if IsSwitch(e) {
      SwitchSource(k, code, n, s, e, r);
      TickKeepsSpare(k, n, From(s, e), e.left, r);
    } else {
      match e
      case FinishLaunch => FinishKeepsSpare(s, r);
      case Idle(eip) => SameSpareReflexive(s.mem);
      case Int80(eip) => SyscallKeepsSpare(k, n, s, eip, r);
      case _ =>
        InstructionKeepsKernel(k, code, n, s, e, r);
        SameKernelSameSpare(s.mem, r.mem);
    }
  }

  lemma FinishKeepsSpare(s: State, r: State)
    requires SameState(Finished(s), r)
    ensures SameSpare(s.mem, r.mem)
  {
  }

  lemma SameSpareReflexive(m: Mem)
    ensures SameSpare(m, m)
  {
  }

  lemma SameKernelSameSpare(m: Mem, n: Mem)
    requires SameKernel(m, n)
    ensures SameSpare(m, n)
  {
  }

  lemma SyscallKeepsSpare(k: Layout, n: nat, s: State, eip: Word, r: State)
    requires Inv(k, n, s) && SyscallReady(k, Trapped(s, eip)) && SameState(Syscall(k, Trapped(s, eip)), r)
    ensures SameSpare(s.mem, r.mem)
  {
    hide Inv, TickReady, SyscallReady, Entered, Rest, EntryTop, CtxAt, CounterRead, CounterLine;
    var x := Trapped(s, eip);
    TrappedInv(k, n, s, eip);
    InvTables(k, n, x);
    InvIsTickReady(k, n, x);
    SpareIsRest(k, n, x);
    EnteredKeepsRest(k, x, SyscallText(k, x));
    SameStackWords(Entered(k, x, SyscallText(k, x)), r.mem, SpareAt(0));
    SameStackWords(Entered(k, x, SyscallText(k, x)), r.mem, SpareAt(1));
  }

  // With those words in place, any launch completes that a sound state resumes.
  lemma SpareCompletes(k: Layout, n: nat, s: State)
    requires Inv(k, n, s) && Valid(k) && Sound(k, s) && Spare(s.mem)
    ensures Completes(k, s)
  {
    EntryIs(k, n, s);
    WordAboveIs(k, n, s);
    if n == 0 { BootCompletes(k, s); } else { InvCurrent(k, n, s); }
    hide Inv, EntryTop, CtxAt, IsSaved, SavedInRing3, Pending;
  }

  // The word above the context is a spare word, or the SS of the interrupted launch.
  lemma WordAboveIs(k: Layout, n: nat, s: State)
    requires Inv(k, n, s) && Valid(k)
    ensures 0 <= CtxAt(k, s) + 15 < PHYS_WORDS
    ensures Ring3(s.cpu.cs) ==> n > 0 && CtxAt(k, s) + 15 == SpareAt((n - 1) % 2)
    ensures !Ring3(s.cpu.cs) ==> Pending(s).ss == Sel(s.mem[CtxAt(k, s) + 15])
  {
    EntryIs(k, n, s);
    hide Inv;
  }

  lemma BootCompletes(k: Layout, s: State)
    requires Inv(k, 0, s) && Valid(k)
    ensures Completes(k, s)
  {
    hide TablesOk, TasksOk, KernelRoom, CtxAt, SavedInRing3;
    assert Next(NO_TASK) == 0;
  }

  lemma InvCurrent(k: Layout, n: nat, s: State)
    requires n > 0 && Inv(k, n, s)
    ensures Valid(k) && s.mem[Cur(k)] != NO_TASK
  {
    hide Inv;
    InvRuns(k, n, s);
  }

  lemma TrappedSound(k: Layout, n: nat, s: State, e: Event)
    requires Inv(k, n, s) && Valid(k) && Sound(k, s) && Spare(s.mem) && (e.Int32? ==> Ring3(s.cpu.cs))
    ensures Inv(k, n, From(s, e)) && Completes(k, From(s, e))
  {
    if e.Int32? {
      TrappedInv(k, n, s, e.eip);
      hide Inv, Completes;
      SpareCompletes(k, n, Trapped(s, e.eip));
    } else {
      SpareCompletes(k, n, s);
    }
  }

  // In every run of a machine whose boot memory has them in place, every launch completes.
  lemma {:induction false} SpareIsSmooth(k: Layout, code: Code, ss: seq<State>, es: seq<Event>, i: int)
    requires Run(k, code, ss, es) && 0 <= i <= |es| && Spare(ss[0].mem)
    ensures Sound(k, ss[i]) && Spare(ss[i].mem) && SmoothRun(k, ss, es, 0, i)
    decreases i
  {
    hide Inv, Step, BootState, Sound, Completes;
    RunInv(k, code, ss, es, 0);
    if i == 0 {
      BootSound(k, ss[0]);
    } else {
      SpareIsSmooth(k, code, ss, es, i - 1);
      var n, s, e := Switches(es[..i - 1]), ss[i - 1], es[i - 1];
      RunInv(k, code, ss, es, i - 1);
      assert Step(k, code, ss[i - 1], es[i - 1], ss[i - 1 + 1]);
      StepKeepsSpare(k, code, n, s, e, ss[i]);
      YieldInRing3(k, code, s, e, ss[i]);
      TrappedSound(k, n, s, e);
      StepSound(k, code, n, s, e, ss[i]);
    }
  }

  lemma YieldInRing3(k: Layout, code: Code, s: State, e: Event, r: State)
    requires k.current < IMAGE_HI && Step(k, code, s, e, r)
    ensures e.Int32? ==> Ring3(s.cpu.cs)
  {
    hide TickReady, Tick, SameState, Syscall, SyscallReady, UserStep;
  }

  // ---- A run that fails ------------------------------------------------------------------------------------

  // A run from s0 that has come to s after n switches.
  ghost predicate At(k: Layout, code: Code, s0: State, ss: seq<State>, es: seq<Event>, s: State, n: nat) {
    Run(k, code, ss, es) && ss[0] == s0 && ss[|es|] == s && Switches(es) == n
  }

  lemma Extend(k: Layout, code: Code, s0: State, ss: seq<State>, es: seq<Event>, s: State, n: nat, e: Event, r: State)
    requires Valid(k) && At(k, code, s0, ss, es, s, n) && Step(k, code, s, e, r)
    ensures At(k, code, s0, ss + [r], es + [e], r, n + SwitchOf(e))
  {
    hide Step, BootState;
    var ss2, es2 := ss + [r], es + [e];
    assert es2[..|es2| - 1] == es;
    forall i | 0 <= i < |es2| ensures Step(k, code, ss2[i], es2[i], ss2[i + 1]) {
      if i < |es| { assert Step(k, code, ss[i], es[i], ss[i + 1]); }
    }
  }

  lemma AtInv(k: Layout, code: Code, s0: State, ss: seq<State>, es: seq<Event>, s: State, n: nat)
    requires At(k, code, s0, ss, es, s, n)
    ensures Valid(k) && Inv(k, n, s)
  {
    hide Inv, Step, BootState;
    RunInv(k, code, ss, es, |es|);
    assert es[..|es|] == es;
  }

  const DULL := Leftover(Gprs(0, 0, 0, 0, 0, 0, 0, 0), 0, 0)

  // In which ring a tick leaves the processor, and the task that it suspends.
  ghost predicate Rings(k: Layout, n: nat, s: State, r: State)
    requires Valid(k)
  {
    if n == 0 then !Ring3(r.cpu.cs)
    else
      var c := (n - 1) % 2;
      && (SavedInRing3(k, r.mem, c) <==> Ring3(s.cpu.cs))
      && (Ring3(r.cpu.cs) <==> IsSaved(k, s.mem, 1 - c) && SavedInRing3(k, s.mem, 1 - c))
      && (IsSaved(k, s.mem, 1 - c) <==> n >= 2)
  }

  lemma TickRings(k: Layout, n: nat, s: State, r: State)
    requires Inv(k, n, s) && TickReady(k, s) && SameState(Tick(k, s, DULL), r)
    ensures Valid(k) && Rings(k, n, s, r)
  {
    hide Inv, TickReady, Tick, SameState, Switched, SavedCpu, UserView, Interrupted, SavedInRing3, Fresh, IsSaved;
    InvTables(k, n, s);
    assert IOPL(DULL.flags) == 0;
    if n == 0 {
      FirstTick(k, s, DULL, r);
    } else {
      LaterInv(k, n, (n - 1) % 2, s, DULL, r);
      SavedAfter(k, n, s);
    }
  }

  lemma SavedAfter(k: Layout, n: nat, s: State)
    requires n > 0 && Inv(k, n, s)
    ensures Valid(k) && (IsSaved(k, s.mem, 1 - (n - 1) % 2) <==> n >= 2)
  {
    hide TablesOk, TasksOk, IsSaved, OnDuty, KernelRoom;
  }

  lemma DoTick(k: Layout, code: Code, s0: State, ss: seq<State>, es: seq<Event>, s: State, n: nat)
    returns (ss2: seq<State>, es2: seq<Event>, r: State)
    requires At(k, code, s0, ss, es, s, n)
    ensures Valid(k) && At(k, code, s0, ss2, es2, r, n + 1) && Rings(k, n, s, r) && SameSpare(s.mem, r.mem)
    ensures Sound(k, r) <==> Completes(k, s)
    ensures es2 == es + [ClockTick(DULL)] && ss2 == ss + [r]
  {
    hide Inv, TickReady, Tick, IF, IOPL, Step, Rings, SameSpare, Sound, Completes;
    AtInv(k, code, s0, ss, es, s, n);
    InvIsPreemptible(k, n, s);
    DullFlags();
    r := Tick(k, s, DULL);
    SameStateReflexive(r);
    TickIsStep(k, code, s, DULL);
    TickRings(k, n, s, r);
    TickKeepsSpare(k, n, s, DULL, r);
    TickFidelity(k, n, s, DULL, r);
    Extend(k, code, s0, ss, es, s, n, ClockTick(DULL), r);
    ss2, es2 := ss + [r], es + [ClockTick(DULL)];
  }

  lemma DullFlags()
    ensures IOPL(DULL.flags) == 0
  {
  }

  lemma SameStateReflexive(s: State)
    ensures SameState(s, s)
  {
  }

  lemma DoFinish(k: Layout, code: Code, s0: State, ss: seq<State>, es: seq<Event>, s: State, n: nat)
    returns (ss2: seq<State>, es2: seq<Event>, r: State)
    requires At(k, code, s0, ss, es, s, n) && n > 0 && !Ring3(s.cpu.cs) && Valid(k) && Sound(k, s)
    ensures At(k, code, s0, ss2, es2, r, n) && Ring3(r.cpu.cs) && SameSpare(s.mem, r.mem)
    ensures forall t :: 0 <= t < 2 ==> (SavedInRing3(k, r.mem, t) <==> SavedInRing3(k, s.mem, t))
  {
    AtInv(k, code, s0, ss, es, s, n);
    InvCurrent(k, n, s);
    PendingIsReady(k, n, s);
    r := Finished(s);
    SameStateReflexive(r);
    FinishKeepsInv(k, n, s, r);
    FinishIsStep(k, code, s);
    hide Inv, Step, Sound, SavedInRing3;
    Extend(k, code, s0, ss, es, s, n, FinishLaunch, r);
    ss2, es2 := ss + [r], es + [FinishLaunch];
  }

  lemma FinishIsStep(k: Layout, code: Code, s: State)
    requires k.current < IMAGE_HI && s.mem[Cur(k)] != NO_TASK && FinishReady(s) && !Ring3(s.cpu.cs) && Sound(k, s)
    ensures Step(k, code, s, FinishLaunch, Finished(s))
  {
    SameStateReflexive(Finished(s));
    hide FinishReady, Pending, SameState;
  }

  lemma Start(k: Layout, code: Code, s0: State)
    requires BootState(k, s0) && s0.acks == 0
    ensures Valid(k)
    ensures At(k, code, s0, [s0], [], s0, 0)
  {
    hide Step, TablesOk, TasksOk, KernelRoom;
  }

  // A tick from ring 3 under task c, when the other one waits in the middle of its launch.
  lemma RoughTick(k: Layout, n: nat, s: State, c: int)
    requires n >= 2 && Inv(k, n, s) && Valid(k) && c == (n - 1) % 2 && Ring3(s.cpu.cs)
    requires !SavedInRing3(k, s.mem, 1 - c) && Sel(s.mem[SpareAt(c)]) != D3_SEL
    ensures !Completes(k, s)
  {
    WordAboveIs(k, n, s);
    SavedAfter(k, n, s);
    hide Inv, CtxAt, EntryTop, IsSaved, SavedInRing3;
    InvRuns(k, n, s);
    NextIs(c);
  }

  // A tick in the launch of task 1: it waits, and task 2 is in its launch.
  lemma InFirstLaunch(k: Layout, code: Code, s0: State) returns (ss: seq<State>, es: seq<Event>, s: State)
    requires BootState(k, s0) && s0.acks == 0
    ensures Valid(k) && At(k, code, s0, ss, es, s, 2) && SameSpare(s0.mem, s.mem)
    ensures !Ring3(s.cpu.cs) && Sound(k, s) && !SavedInRing3(k, s.mem, 0)
  {
    hide BootState, Step, Sound, Completes, SavedInRing3, IsSaved, Inv, At, SameSpare;
    Start(k, code, s0);
    AtInv(k, code, s0, [s0], [], s0, 0);
    var s1;
    ss, es, s1 := DoTick(k, code, s0, [s0], [], s0, 0);
    AtInv(k, code, s0, ss, es, s1, 1);
    FirstLaunchCompletes(k, s1);
    ss, es, s := DoTick(k, code, s0, ss, es, s1, 1);
    SpareComposes(s0.mem, s1.mem, s.mem);
  }

  lemma SpareComposes(m: Mem, n: Mem, o: Mem)
    requires SameSpare(m, n) && SameSpare(n, o)
    ensures SameSpare(m, o)
  {
  }

  // Without the word above the stack of task 2: a tick in the launch of task 1, which then waits on
  // the boot stack while task 2 is launched; the next tick resumes it on the stack of task 2.
  lemma FailsForTask1(k: Layout, code: Code, s0: State) returns (ss: seq<State>, es: seq<Event>)
    requires BootState(k, s0) && s0.acks == 0 && Sel(s0.mem[SpareAt(1)]) != D3_SEL
    ensures Valid(k) && Fails(k, code, s0, ss, es)
  {
    hide BootState, Step, Sound, Completes, SavedInRing3, IsSaved, Inv, At, Rings, Fails, SpareAt;
    var s2, s3, s4;
    ss, es, s2 := InFirstLaunch(k, code, s0);
    ss, es, s3 := DoFinish(k, code, s0, ss, es, s2, 2);
    AtInv(k, code, s0, ss, es, s3, 2);
    RoughTick(k, 2, s3, 1);
    AtLast(k, code, s0, ss, es, s3, 2);
    ss, es, s4 := DoTick(k, code, s0, ss, es, s3, 2);
    Failed(k, code, s0, ss, es, s3, s4, 3);
  }

  lemma AtLast(k: Layout, code: Code, s0: State, ss: seq<State>, es: seq<Event>, s: State, n: nat)
    requires At(k, code, s0, ss, es, s, n)
    ensures |ss| == |es| + 1 && ss[|es|] == s
  {
    hide Step, BootState;
  }

  // No launch is resumed before both tasks have been chosen.
  lemma FirstLaunchCompletes(k: Layout, s: State)
    requires Inv(k, 1, s) && Valid(k)
    ensures Completes(k, s)
  {
    InvRuns(k, 1, s);
    SavedAfter(k, 1, s);
    hide Inv, CtxAt, IsSaved, SavedInRing3;
    NextIs(0);
  }

  // Without the word above the stack of task 1: task 1 runs, a tick comes in the launch of task 2, and
  // the next tick resumes that launch on the stack of task 1.
  lemma FailsForTask2(k: Layout, code: Code, s0: State) returns (ss: seq<State>, es: seq<Event>)
    requires BootState(k, s0) && s0.acks == 0 && Sel(s0.mem[SpareAt(0)]) != D3_SEL
    ensures Valid(k) && Fails(k, code, s0, ss, es)
  {
    hide BootState, Step, Sound, Completes, SavedInRing3, IsSaved, Inv, At, Rings, Fails, SpareAt;
    var s4, s5;
    ss, es, s4 := InSecondLaunch(k, code, s0);
    AtInv(k, code, s0, ss, es, s4, 3);
    RoughTick(k, 3, s4, 0);
    AtLast(k, code, s0, ss, es, s4, 3);
    ss, es, s5 := DoTick(k, code, s0, ss, es, s4, 3);
    Failed(k, code, s0, ss, es, s4, s5, 4);
  }

  // Task 1 runs, and task 2 waits in the middle of its launch.
  lemma InSecondLaunch(k: Layout, code: Code, s0: State) returns (ss: seq<State>, es: seq<Event>, s: State)
    requires BootState(k, s0) && s0.acks == 0
    ensures Valid(k) && At(k, code, s0, ss, es, s, 3) && SameSpare(s0.mem, s.mem)
    ensures Ring3(s.cpu.cs) && !SavedInRing3(k, s.mem, 1)
  {
    hide BootState, Step, Sound, Completes, SavedInRing3, IsSaved, Inv, At, SameSpare;
    var s2, s3;
    ss, es, s2 := InTask1(k, code, s0);
    ss, es, s3 := DoTick(k, code, s0, ss, es, s2, 1);
    ss, es, s := DoTick(k, code, s0, ss, es, s3, 2);
    SpareComposes(s0.mem, s2.mem, s3.mem);
    SpareComposes(s0.mem, s3.mem, s.mem);
  }

  lemma InTask1(k: Layout, code: Code, s0: State) returns (ss: seq<State>, es: seq<Event>, s: State)
    requires BootState(k, s0) && s0.acks == 0
    ensures Valid(k) && At(k, code, s0, ss, es, s, 1) && SameSpare(s0.mem, s.mem) && Ring3(s.cpu.cs)
  {
    hide BootState, Step, Sound, Completes, SavedInRing3, IsSaved, Inv, At, SameSpare;
    Start(k, code, s0);
    AtInv(k, code, s0, [s0], [], s0, 0);
    BootCompletes(k, s0);
    var s1;
    ss, es, s1 := DoTick(k, code, s0, [s0], [], s0, 0);
    ss, es, s := DoFinish(k, code, s0, ss, es, s1, 1);
    SpareComposes(s0.mem, s1.mem, s.mem);
  }

  // The run ends with a tick after which the task that was chosen cannot go on: the `iret` of its launch
  // faults.
  ghost predicate Fails(k: Layout, code: Code, s0: State, ss: seq<State>, es: seq<Event>)
    requires Valid(k)
  {
    && Run(k, code, ss, es) && ss[0] == s0 && |es| > 0 && es[|es| - 1].ClockTick?
    && !Completes(k, ss[|es| - 1]) && !Sound(k, ss[|es|])
    && forall r :: !Step(k, code, ss[|es|], FinishLaunch, r)
  }

  lemma Failed(k: Layout, code: Code, s0: State, ss: seq<State>, es: seq<Event>, s: State, r: State, n: nat)
    requires At(k, code, s0, ss, es, r, n) && Valid(k) && |es| > 0 && es[|es| - 1] == ClockTick(DULL)
    requires ss[|es| - 1] == s && !Completes(k, s) && !Sound(k, r)
    ensures Fails(k, code, s0, ss, es)
  {
    hide BootState, Completes, TickReady, Tick, FinishReady, SameState, Pending;
    AtInv(k, code, s0, ss, es, r, n);
    forall x ensures !Step(k, code, r, FinishLaunch, x) {
      UnsoundIsStuck(k, code, r, x);
    }
  }

  lemma UnsoundIsStuck(k: Layout, code: Code, s: State, r: State)
    requires k.current < IMAGE_HI && !Sound(k, s)
    ensures !Step(k, code, s, FinishLaunch, r)
  {
    hide TablesOk, SameState, Pending;
  }

  // ---- The boot memory decides --------------------------------------------------------------------------------

  ghost predicate AlwaysSmooth(k: Layout, code: Code, s0: State)
    requires Valid(k)
  {
    forall ss: seq<State>, es: seq<Event> :: Run(k, code, ss, es) && ss[0] == s0 ==> SmoothRun(k, ss, es, 0, |es|)
  }

  // Main theorem: whatever programs the tasks run, no run from s0 ever resumes a launch that cannot
  // complete (and so, by WholeHistoryIff, preemption is invisible in all of them) if and only if the two
  // words above the interrupt stacks hold the selector of the tasks' stack segment.
  lemma BootMemoryDecides(k: Layout, code: Code, s0: State)
    requires BootState(k, s0) && s0.acks == 0
    ensures Valid(k) && (AlwaysSmooth(k, code, s0) <==> Spare(s0.mem))
  {
    hide BootState, Step, Completes, Sound;
    Start(k, code, s0);
    AtInv(k, code, s0, [s0], [], s0, 0);
    if Spare(s0.mem) {
      forall ss: seq<State>, es: seq<Event> | Run(k, code, ss, es) && ss[0] == s0
        ensures SmoothRun(k, ss, es, 0, |es|)
      {
        SpareIsSmooth(k, code, ss, es, |es|);
      }
    } else {
      var ss, es;
      if Sel(s0.mem[SpareAt(1)]) != D3_SEL {
        ss, es := FailsForTask1(k, code, s0);
      } else {
        ss, es := FailsForTask2(k, code, s0);
      }
      assert !Smooth(k, ss[|es| - 1], es[|es| - 1]);
      assert !SmoothRun(k, ss, es, 0, |es|);
    }
  }
}