// Clock ticks and the two tasks, as seen from the tasks.
module Scheduling {
  import opened Words
  import opened Bytes
  import opened Paging
  import opened AddressSpaces
  import opened Machine
  import opened Kernel

  // ---- The tasks in a machine state ----------------------------------------------------------------

  // A launch that was interrupted before its `iret`: the registers of the context at p, and above
  // its three ring-0 words the first four words of the frame that `iret` was to pop. The fifth,
  // SS, is not part of the copy.
  function Suspended(m: Mem, p: int, ss: Selector): Cpu
    requires 0 <= p && p + CTX_WORDS <= PHYS_WORDS
  {
    Cpu(Gprs(m[p + 7], m[p + 6], m[p + 5], m[p + 4], m[p + 14], m[p + 2], m[p + 1], m[p]),
        m[p + 11], Sel(m[p + 12]), m[p + 13], ss)
  }

  // The registers of the task in a context at word p: those it was interrupted with, or those its
  // interrupted launch was about to give it.
  function ContextCpu(m: Mem, p: int): Cpu
    requires 0 <= p < 0x10_0000
  {
    if Ring3(Sel(m[p + 9])) then Restored(m, p, D0_SEL) else Suspended(m, p, D3_SEL)
  }

  predicate SavedInRing3(k: Layout, m: Mem, t: int)
    requires 0 <= t < 2 && k.tasks + 160 <= IMAGE_HI
  {
    Ring3(Sel(m[Rec(k, t) + CONTEXT + 9]))
  }

  function SavedCpu(k: Layout, m: Mem, t: int): Cpu
    requires 0 <= t < 2 && k.tasks + 160 <= IMAGE_HI
  {
    ContextCpu(m, Rec(k, t) + CONTEXT)
  }

  // The registers of the running task: those of the processor, or those that the pending `iret` of
  // a launch pops.
  function UserView(s: State): Cpu {
    if Ring3(s.cpu.cs) then s.cpu else Pending(s)
  }

  // The registers of task t; None as long as it has not been chosen.
  function TaskCpu(k: Layout, s: State, t: int): Option<Cpu>
    requires 0 <= t < 2 && k.tasks + 160 <= IMAGE_HI && k.current < IMAGE_HI
  {
    if s.mem[Cur(k)] == t then Some(UserView(s))
    else if IsSaved(k, s.mem, t) then Some(SavedCpu(k, s.mem, t))
    else None
  }

  // Code segment of ring 3, interruptible, without I/O privilege; and with the stack segment of ring 3.
  predicate UserCode(c: Cpu) {
    c.cs == C3_SEL && IF(c.eflags) && IOPL(c.eflags) == 0
  }

  predicate UserCpu(c: Cpu) {
    UserCode(c) && c.ss == D3_SEL
  }

  predicate KernelCode(cs: Selector, eflags: Word) {
    cs == C0_SEL && IF(eflags) && IOPL(eflags) == 0
  }

  ghost predicate Quiet(k: Layout, s: State) {
    Valid(k) && TablesOk(s.mem) && TasksOk(k, s.mem) && !s.inService
  }

  ghost predicate SavedOk(k: Layout, m: Mem, t: int)
    requires 0 <= t < 2 && Valid(k)
  {
    && UserCpu(SavedCpu(k, m, t))
    && (!SavedInRing3(k, m, t) ==> KernelCode(Sel(m[Rec(k, t) + CONTEXT + 9]), m[Rec(k, t) + CONTEXT + 10]))
  }

  // Task c runs in ring 3, or in ring 0 lacks only the `iret` of its launch; the other one is saved
  // in either state, or has not been chosen.
  ghost predicate OnDuty(k: Layout, c: int, s: State)
    requires 0 <= c < 2 && Valid(k)
  {
    && s.mem[Cur(k)] == c && s.cr3 == Directory(TaskSpace(c)) && s.mem[Esp0(k)] == InterruptStack(c)
    && UserCode(UserView(s))
    && (if Ring3(s.cpu.cs) then s.cpu.ss == D3_SEL else KernelCode(s.cpu.cs, s.cpu.eflags))
    && (IsSaved(k, s.mem, 1 - c) ==> SavedOk(k, s.mem, 1 - c))
  }

  // Launches to come after n switches.
  function Launches(n: nat): nat { if n == 0 then 2 else if n == 1 then 1 else 0 }

  // What holds after n switches, whatever the tasks did in between.
  ghost predicate Inv(k: Layout, n: nat, s: State) {
    && Quiet(k, s) && s.acks == n
    && (n == 0 ==> BootState(k, s))
    && (n > 0 ==>
      && OnDuty(k, (n - 1) % 2, s)
      && (!Ring3(s.cpu.cs) ==> KernelRoom(k, s.cpu.g.esp, Launches(n)))
      && (IsSaved(k, s.mem, 0) <==> n >= 2) && (IsSaved(k, s.mem, 1) <==> n >= 3))
  }

  lemma RunsIsTickReady(k: Layout, c: int, s: State, l: nat)
    requires 0 <= c < 2 && Quiet(k, s) && OnDuty(k, c, s)
    requires !Ring3(s.cpu.cs) ==> KernelRoom(k, s.cpu.g.esp, l)
    ensures TickReady(k, s)
  {
    hide TablesOk, TasksOk, UserView, SavedOk, IsSaved;
  }

  lemma InvIsTickReady(k: Layout, n: nat, s: State)
    requires Inv(k, n, s)
    ensures TickReady(k, s)
  {
    if n > 0 { RunsIsTickReady(k, (n - 1) % 2, s, Launches(n)); }
  }

  // ---- Contexts as words ----------------------------------------------------------------------------------

  // A context is its words.
  lemma SameWordsSameCpu(m: Mem, p: int, n: Mem, q: int, ss: Selector, tt: Selector)
    requires 0 <= p && 0 <= q && 4 * p + 64 < 0x1_0000_0000 && 4 * q + 64 < 0x1_0000_0000
    requires m[p..p + CTX_WORDS] == n[q..q + CTX_WORDS]
    ensures Ring3(Sel(m[p + 9])) ==> Restored(m, p, ss) == Restored(n, q, tt)
    ensures Suspended(m, p, ss) == Suspended(n, q, ss)
    ensures m[p + 9] == n[q + 9] && m[p + 10] == n[q + 10]
  {
    var x, y := m[p..p + CTX_WORDS], n[q..q + CTX_WORDS];
    assert x[0] == y[0] && x[1] == y[1] && x[2] == y[2] && x[4] == y[4] && x[5] == y[5] && x[6] == y[6] && x[7] == y[7];
    assert x[8] == y[8] && x[9] == y[9] && x[10] == y[10] && x[11] == y[11] && x[12] == y[12];
    assert x[13] == y[13] && x[14] == y[14];
  }

  // Back in ring 0 from the context at q, the pending `iret` pops what was saved, and as SS
  // whatever follows the context.
  lemma ResumedLaunch(n: Mem, q: int, ss: Selector)
    requires 0 <= q && 4 * q + 64 < 0x1_0000_0000 && !Ring3(Sel(n[q + 9]))
    ensures var c := Restored(n, q, ss);
      && c.g.esp == 4 * q + 44 && c.cs == Sel(n[q + 9]) && c.eflags == n[q + 10] && c.eip == n[q + 8]
      && Popped(n, q + 11, c.g) == Suspended(n, q, Sel(n[q + 15]))
  {
  }

  // The words of the context that the handler receives from ring 0.
  lemma PushedRing0(k: Layout, s: State)
    requires Valid(k) && StackRoom(k, EntryTop(k, s)) && !Ring3(s.cpu.cs)
    ensures 0x1000 <= EntryTop(k, s) < 0x40_0000 && s.cpu.g.esp / 4 == CtxAt(k, s) + 11
    ensures 0 <= CtxAt(k, s) < 0x10_0000 - CTX_WORDS - 1
    ensures Suspended(Pushed(k, s), CtxAt(k, s), D3_SEL) == Pending(s).(ss := D3_SEL)
    ensures Pushed(k, s)[CtxAt(k, s) + 9] == s.cpu.cs && Pushed(k, s)[CtxAt(k, s) + 10] == s.cpu.eflags
  {
    assert s.cpu.g.esp % 4 == 0;
  }

  lemma PushedRing3(k: Layout, s: State)
    requires Valid(k) && StackRoom(k, EntryTop(k, s)) && Ring3(s.cpu.cs)
    ensures 0x1000 <= EntryTop(k, s) < 0x40_0000 && 0 <= CtxAt(k, s) < 0x10_0000 - CTX_WORDS - 1
    ensures Pushed(k, s)[CtxAt(k, s) + 9] == s.cpu.cs && Pushed(k, s)[CtxAt(k, s) + 10] == s.cpu.eflags
  {
  }

  // The interrupted task as its context holds it: all but the SS of a pending frame.
  function Interrupted(s: State): Cpu {
    if Ring3(s.cpu.cs) then s.cpu else Pending(s).(ss := D3_SEL)
  }

  lemma PushedIsInterrupted(k: Layout, s: State)
    requires Valid(k) && StackRoom(k, EntryTop(k, s))
    ensures 0x1000 <= EntryTop(k, s) < 0x40_0000 && 0 <= CtxAt(k, s) < 0x10_0000 - CTX_WORDS - 1
    ensures var m, c := Pushed(k, s), CtxAt(k, s);
      ContextCpu(m, c) == Interrupted(s) && m[c + 9] == s.cpu.cs && m[c + 10] == s.cpu.eflags
  {
    hide Pushed, EntryTop, CtxAt, Restored, Suspended, Pending, StackRoom, FrameWords;
    if Ring3(s.cpu.cs) {
      PushedRing3(k, s);
      PushedRestores(k, s);
    } else {
      PushedRing0(k, s);
    }
  }

  lemma SameContext(m: Mem, p: int, n: Mem, q: int)
    requires 0 <= p < 0x10_0000 && 0 <= q < 0x10_0000 && m[p..p + CTX_WORDS] == n[q..q + CTX_WORDS]
    ensures ContextCpu(m, p) == ContextCpu(n, q) && m[p + 9] == n[q + 9] && m[p + 10] == n[q + 10]
  {
    hide Restored, Suspended;
    SameWordsSameCpu(m, p, n, q, D0_SEL, D0_SEL);
    SameWordsSameCpu(m, p, n, q, D3_SEL, D3_SEL);
  }

  lemma SavedIsInterrupted(k: Layout, s: State, t: int, text: BufferText)
    requires TickReady(k, s) && 0 <= t < 2
    ensures 0x1000 <= EntryTop(k, s) && 0 <= CtxAt(k, s) <= PHYS_WORDS - CTX_WORDS
    ensures var m := SaveContext(k, Entered(k, s, text), CtxAt(k, s), t);
      && SavedCpu(k, m, t) == Interrupted(s) && IsSaved(k, m, t)
      && m[Rec(k, t) + CONTEXT + 9] == s.cpu.cs && m[Rec(k, t) + CONTEXT + 10] == s.cpu.eflags
  {
    hide TickReady, Pushed, Entered, EntryTop, CtxAt, Restored, Suspended, StackRoom, FrameWords, SaveContext, Interrupted,
      IsSaved;
    ReadyIs(k, s);
    PushedIsInterrupted(k, s);
    EnteredContext(k, s, text);
    var c, r, m0, m1 := CtxAt(k, s), Rec(k, t) + CONTEXT, Pushed(k, s), Entered(k, s, text);
    assert m1[c..c + CTX_WORDS] == m0[c..c + CTX_WORDS];
    SavedWords(k, m1, c, t);
    var m := SaveContext(k, m1, c, t);
    SameContext(m0, c, m, r);
  }

  lemma SavedWords(k: Layout, m: Mem, c: int, t: int)
    requires Valid(k) && 0 <= t < 2 && 0 <= c <= PHYS_WORDS - CTX_WORDS
    ensures var n, r := SaveContext(k, m, c, t), Rec(k, t) + CONTEXT;
      n[r..r + CTX_WORDS] == m[c..c + CTX_WORDS] && IsSaved(k, n, t)
  {
    hide WithByte;
    var r := Rec(k, t) + CONTEXT;
    WithByteReads(Blit(m, r, m[c..c + CTX_WORDS])[Rec(k, t) + SAVED]);
  }

  lemma WithByteReads(w: Word)
    ensures WithByte(w, 0, 1) % 256 == 1
  {
    WithByteGives(w, 0, 1, 0);
  }

  // ---- Memory through a tick ------------------------------------------------------------------------------

  // Saving one task leaves the record of the other, and the other variables, alone.
  lemma SaveKeepsOthers(k: Layout, m: Mem, ctx: int, t: int)
    requires Valid(k) && 0 <= t < 2 && 0 <= ctx <= PHYS_WORDS - CTX_WORDS
    ensures var n := SaveContext(k, m, ctx, t);
      forall i :: 0 <= i < PHYS_WORDS && !(Rec(k, t) + CONTEXT <= i <= Rec(k, t) + SAVED) ==> n[i] == m[i]
  {
  }

  // Frames and contexts on the stack are apart from the image and from user memory.
  lemma DispatchKeepsImage(k: Layout, s: State, t: int, m: Mem, j: Leftover)
    requires Valid(k) && StackRoom(k, EntryTop(k, s)) && 0 <= t < 2
    ensures var n := Dispatched(k, m, CtxAt(k, s), t, j);
      forall i :: 0 <= i < PHYS_WORDS && (InImage(i) || i >= 0x10_0000 || TABLES_LO <= i < TABLES_HI) ==> n[i] == m[i]
  {
    StackData(k, EntryTop(k, s));
  }

  ghost predicate SameImage(k: Layout, m: Mem, n: Mem) {
    forall i :: Variable(k, i) ==> n[i] == m[i]
  }

  // Two memories with the same kernel variables hold the same tasks.
  lemma SameImageSameTasks(k: Layout, m: Mem, n: Mem)
    requires Valid(k) && SameImage(k, m, n)
    ensures n[Cur(k)] == m[Cur(k)] && n[Esp0(k)] == m[Esp0(k)]
    ensures TasksOk(k, m) ==> TasksOk(k, n)
    ensures forall t :: 0 <= t < 2 ==> SameTask(k, m, n, t)
  {
    RecordData(k, 0);
    RecordData(k, 1);
    VariablesApart(k);
    assert forall i :: RecordWord(k, i) ==> n[i] == m[i];
    forall t | 0 <= t < 2 ensures SameTask(k, m, n, t) {
      SameRecord(k, m, n, t);
    }
  }

  // The saved state of task t is the same in both memories.
  ghost predicate SameTask(k: Layout, m: Mem, n: Mem, t: int)
    requires 0 <= t < 2 && Valid(k)
  {
    && IsSaved(k, n, t) == IsSaved(k, m, t) && SavedCpu(k, n, t) == SavedCpu(k, m, t)
    && SavedInRing3(k, n, t) == SavedInRing3(k, m, t) && SavedOk(k, n, t) == SavedOk(k, m, t)
  }

  lemma SameRecord(k: Layout, m: Mem, n: Mem, t: int)
    requires Valid(k) && 0 <= t < 2
    requires forall i :: Rec(k, t) <= i < Rec(k, t) + TASK_WORDS ==> n[i] == m[i]
    ensures SameTask(k, m, n, t)
  {
    var r := Rec(k, t) + CONTEXT;
    assert n[r..r + CTX_WORDS] == m[r..r + CTX_WORDS];
    SameContext(m, r, n, r);
    hide ContextCpu, UserCpu, KernelCode;
    assert n[Rec(k, t) + SAVED] == m[Rec(k, t) + SAVED];
  }

  // The two records are apart, and apart from the other variables that a switch writes.
  lemma SwitchKeepsRecord(k: Layout, m: Mem, t: int, u: int)
    requires Valid(k) && 0 <= t < 2 && 0 <= u < 2
    ensures var n := SwitchTo(k, m, t);
      SameTask(k, m, n, u) && (TasksOk(k, m) ==> TasksOk(k, n) && n[Esp0(k)] == InterruptStack(t)) && n[Cur(k)] == t
  {
    hide SwitchTo, SameTask, TasksOk, RecordWord;
    var n := SwitchTo(k, m, t);
    SwitchKeepsRecords(k, m, t);
    RecordsKeepTasks(k, m, n, t);
    RecordData(k, u);
    SameRecord(k, m, n, u);
  }

  lemma RecordsKeepTasks(k: Layout, m: Mem, n: Mem, t: int)
    requires Valid(k) && 0 <= t < 2 && forall i :: RecordWord(k, i) ==> n[i] == m[i]
    ensures TasksOk(k, m) ==> TasksOk(k, n) && m[Rec(k, t) + INTERRUPT_STACK] == InterruptStack(t)
  {
    RecordData(k, 0);
    RecordData(k, 1);
    hide RecordWord;
  }

  lemma SwitchKeepsRecords(k: Layout, m: Mem, t: int)
    requires Valid(k) && 0 <= t < 2
    ensures var n := SwitchTo(k, m, t);
      && n[Cur(k)] == t && n[Esp0(k)] == m[Rec(k, t) + INTERRUPT_STACK]
      && forall i :: RecordWord(k, i) ==> n[i] == m[i]
  {
    RecordData(k, t);
    VariablesApart(k);
  }

  lemma EnteredSameTasks(k: Layout, s: State, text: BufferText)
    requires TickReady(k, s)
    ensures Valid(k) && 0x1000 <= EntryTop(k, s) < 0x40_0000
    ensures var m := Entered(k, s, text);
      m[Cur(k)] == s.mem[Cur(k)] && TasksOk(k, m) && SameTask(k, s.mem, m, 0) && SameTask(k, s.mem, m, 1)
  {
    EnteredKeepsImage(k, s, text);
    hide TasksOk, Entered, SameTask;
    SameImageSameTasks(k, s.mem, Entered(k, s, text));
  }

  lemma ReadyIs(k: Layout, s: State)
    requires TickReady(k, s)
    ensures Valid(k) && TasksOk(k, s.mem) && StackRoom(k, EntryTop(k, s)) && 0x1000 <= EntryTop(k, s) < 0x40_0000
  {
  }

  // The first tick saves nothing.
  lemma FirstSwitch(k: Layout, s: State)
    requires TickReady(k, s) && s.mem[Cur(k)] == NO_TASK
    ensures Valid(k)
    ensures var m := Switched(k, s);
      && m[Cur(k)] == 0 && m[Esp0(k)] == InterruptStack(0) && TasksOk(k, m)
      && SameTask(k, s.mem, m, 0) && SameTask(k, s.mem, m, 1)
  {
    hide TickReady, Switched, Entered, SwitchTo, TasksOk, EntryTop, CtxAt, IsSaved, SavedCpu, SavedOk, SavedInRing3;
    EnteredSameTasks(k, s, TickText(k, s));
    FirstSwitchedIs(k, s);
    var m1 := Entered(k, s, TickText(k, s));
    SwitchKeepsRecord(k, m1, 0, 0);
    SwitchKeepsRecord(k, m1, 0, 1);
  }

  lemma SwitchedUnfolds(k: Layout, s: State)
    requires TickReady(k, s)
    ensures Valid(k) && 0x1000 <= EntryTop(k, s) < 0x40_0000 && 0 <= CtxAt(k, s) <= PHYS_WORDS - CTX_WORDS
    ensures s.mem[Cur(k)] in {0, 1, NO_TASK}
    ensures var c, m := s.mem[Cur(k)], Entered(k, s, TickText(k, s));
      Switched(k, s) ==
        SwitchTo(k, if c == NO_TASK then m else SaveContext(k, m, CtxAt(k, s), c), Next(c))
  {
    ReadyIs(k, s);
    CtxHasRoom(k, s);
    ReadyTasks(k, s);
    EnteredKeepsImage(k, s, TickText(k, s));
    hide Entered, SaveContext, SwitchTo, TickReady, TasksOk, EntryTop, CtxAt;
  }

  lemma ReadyTasks(k: Layout, s: State)
    requires TickReady(k, s)
    ensures s.mem[Cur(k)] in {0, 1, NO_TASK}
  {
  }

  lemma FirstSwitchedIs(k: Layout, s: State)
    requires TickReady(k, s) && s.mem[Cur(k)] == NO_TASK
    ensures Valid(k) && 0x1000 <= EntryTop(k, s) < 0x40_0000
    ensures Switched(k, s) == SwitchTo(k, Entered(k, s, TickText(k, s)), 0)
  {
    hide Entered, SaveContext, SwitchTo, TickReady, TasksOk, EntryTop, CtxAt, Switched, TickText;
    SwitchedUnfolds(k, s);
    assert Next(NO_TASK) == 0;
  }

  lemma SwitchedIs(k: Layout, s: State, c: int)
    requires TickReady(k, s) && 0 <= c < 2 && s.mem[Cur(k)] == c
    ensures Valid(k) && 0x1000 <= EntryTop(k, s) < 0x40_0000 && 0 <= CtxAt(k, s) <= PHYS_WORDS - CTX_WORDS
    ensures Switched(k, s) == SwitchTo(k, SaveContext(k, Entered(k, s, TickText(k, s)), CtxAt(k, s), c), 1 - c)
  {
    hide Entered, SaveContext, SwitchTo, TickReady, TasksOk, EntryTop, CtxAt, Switched, Next, TickText;
    SwitchedUnfolds(k, s);
    NextIs(c);
  }

  // A later tick saves the interrupted task c as it was, and leaves the other one as it was.
  lemma LaterSwitch(k: Layout, s: State, c: int)
    requires TickReady(k, s) && 0 <= c < 2 && s.mem[Cur(k)] == c
    ensures Valid(k)
    ensures var m, t := Switched(k, s), 1 - c;
      && m[Cur(k)] == t && m[Esp0(k)] == InterruptStack(t) && TasksOk(k, m)
      && IsSaved(k, m, c) && SavedCpu(k, m, c) == Interrupted(s)
      && m[Rec(k, c) + CONTEXT + 9] == s.cpu.cs && m[Rec(k, c) + CONTEXT + 10] == s.cpu.eflags
      && SameTask(k, s.mem, m, t)
  {
    hide TickReady, Switched, Entered, SaveContext, SwitchTo, TasksOk, SavedCpu, IsSaved, SavedOk, SavedInRing3, CtxAt,
      EntryTop, Interrupted, TickText;
    ReadyIs(k, s);
    EnteredSameTasks(k, s, TickText(k, s));
    SavedIsInterrupted(k, s, c, TickText(k, s));
    SwitchedIs(k, s, c);
    SaveAndSwitch(k, Entered(k, s, TickText(k, s)), CtxAt(k, s), c);
  }

  lemma SaveAndSwitch(k: Layout, m: Mem, ctx: int, c: int)
    requires Valid(k) && TasksOk(k, m) && 0 <= c < 2 && 0 <= ctx <= PHYS_WORDS - CTX_WORDS
    ensures var t, saved := 1 - c, SaveContext(k, m, ctx, c);
      var n := SwitchTo(k, saved, t);
      && n[Cur(k)] == t && n[Esp0(k)] == InterruptStack(t) && TasksOk(k, n)
      && SameTask(k, saved, n, c) && SameTask(k, m, n, t)
      && n[Rec(k, c) + CONTEXT + 9] == saved[Rec(k, c) + CONTEXT + 9]
      && n[Rec(k, c) + CONTEXT + 10] == saved[Rec(k, c) + CONTEXT + 10]
  {
    OtherRecordKept(k, m, ctx, c);
    SaveKeepsTasks(k, m, ctx, c);
    RecordData(k, c);
    hide SaveContext, SwitchTo, TasksOk, IsSaved, SavedCpu, SavedOk, SavedInRing3;
    var saved := SaveContext(k, m, ctx, c);
    SwitchKeepsRecord(k, saved, 1 - c, c);
    SwitchKeepsRecord(k, saved, 1 - c, 1 - c);
    SwitchKeepsRecords(k, saved, 1 - c);
    assert RecordWord(k, Rec(k, c) + CONTEXT + 9) && RecordWord(k, Rec(k, c) + CONTEXT + 10);
  }

  lemma OtherRecordKept(k: Layout, m: Mem, ctx: int, c: int)
    requires Valid(k) && 0 <= c < 2 && 0 <= ctx <= PHYS_WORDS - CTX_WORDS
    ensures SameTask(k, m, SaveContext(k, m, ctx, c), 1 - c)
  {
    SaveKeepsOthers(k, m, ctx, c);
    hide SaveContext, SameTask;
    SameRecord(k, m, SaveContext(k, m, ctx, c), 1 - c);
  }

  // Outside the image, a tick writes the context and what lies below it, and nothing above.
  lemma SwitchedKeepsRest(k: Layout, s: State)
    requires TickReady(k, s)
    ensures forall i :: Rest(k, s, i) ==> Switched(k, s)[i] == s.mem[i]
  {
    var c, m := s.mem[Cur(k)], Entered(k, s, TickText(k, s));
    EnteredKeepsRest(k, s, TickText(k, s));
    if c == NO_TASK {
      FirstSwitchedIs(k, s);
      SwitchKeepsImageOut(k, m, 0);
    } else {
      SwitchedIs(k, s, c);
      SaveKeepsImageOut(k, m, CtxAt(k, s), c);
      SwitchKeepsImageOut(k, SaveContext(k, m, CtxAt(k, s), c), 1 - c);
    }
  }

  // Neither a kernel variable, nor a word of the frame and the registers that an interrupt pushes.
  predicate Rest(k: Layout, s: State, i: int)
    requires k.tss + TSS_SIZE <= IMAGE_HI
  {
    0 <= i < PHYS_WORDS && !InImage(i) && !(CtxAt(k, s) <= i < EntryTop(k, s) / 4)
  }

  lemma EnteredKeepsRest(k: Layout, s: State, text: BufferText)
    requires TickReady(k, s)
    ensures 0x1000 <= EntryTop(k, s) < 0x40_0000
    ensures forall i :: Rest(k, s, i) ==> Entered(k, s, text)[i] == s.mem[i]
  {
    ReadyIs(k, s);
    BufferData(k);
    hide TickReady, StackRoom;
  }

  lemma SwitchKeepsImageOut(k: Layout, m: Mem, t: int)
    requires Valid(k) && 0 <= t < 2
    ensures forall i :: 0 <= i < PHYS_WORDS && !InImage(i) ==> SwitchTo(k, m, t)[i] == m[i]
  {
    VariablesApart(k);
  }

  lemma SaveKeepsImageOut(k: Layout, m: Mem, ctx: int, t: int)
    requires Valid(k) && 0 <= t < 2 && 0 <= ctx <= PHYS_WORDS - CTX_WORDS
    ensures forall i :: 0 <= i < PHYS_WORDS && !InImage(i) ==> SaveContext(k, m, ctx, t)[i] == m[i]
  {
    SaveKeepsOthers(k, m, ctx, t);
  }

  // Page tables and user memory.
  predicate Elsewhere(i: int) {
    0 <= i < PHYS_WORDS && (TABLES_LO <= i < TABLES_HI || i >= 0x10_0000)
  }

  // A tick changes no word of user memory, and no page table.
  lemma TickKeepsElsewhere(k: Layout, s: State, j: Leftover)
    requires TickReady(k, s)
    ensures forall i :: Elsewhere(i) ==> Tick(k, s, j).mem[i] == s.mem[i]
    ensures SameImage(k, Switched(k, s), Tick(k, s, j).mem)
  {
    ReadyIs(k, s);
    SwitchedKeepsRest(k, s);
    StackData(k, EntryTop(k, s));
    assert forall i :: Elsewhere(i) ==> Rest(k, s, i) by { hide TickReady, StackRoom; }
    DispatchKeepsImage(k, s, Next(s.mem[Cur(k)]), Switched(k, s), j);
    hide TickReady, Switched, Dispatched, StackRoom, EntryTop, Rest;
  }

  // ---- The tick as the tasks see it -----------------------------------------------------------------------

  // Registers of a task at its start, apart from what the launch leaves unspecified.
  predicate Fresh(k: Layout, t: int, c: Cpu) {
    c.eip == TaskFunction(k, t) && c.g.esp == StackBase(t) && UserCpu(c)
  }

  // What carries over from the switched memory to the state after the tick.
  lemma AfterTick(k: Layout, s: State, j: Leftover, r: State)
    requires TickReady(k, s) && SameState(Tick(k, s, j), r)
    ensures Valid(k) && TablesOk(r.mem)
    ensures forall i :: 0x10_0000 <= i < PHYS_WORDS ==> r.mem[i] == s.mem[i]
    ensures r.mem[Cur(k)] == Switched(k, s)[Cur(k)] && r.mem[Esp0(k)] == Switched(k, s)[Esp0(k)]
    ensures TasksOk(k, Switched(k, s)) ==> TasksOk(k, r.mem)
    ensures forall t :: 0 <= t < 2 ==> SameTask(k, Switched(k, s), r.mem, t)
  {
    hide TickReady, Switched, TablesOk, TasksOk, Tick, SameTask, EntryTop, StackRoom, TickText, IsSaved;
    ReadyIs(k, s);
    ReadyTables(k, s);
    TickKeepsElsewhere(k, s, j);
    var m := Tick(k, s, j).mem;
    assert forall i :: TABLES_LO <= i < TABLES_HI ==> Elsewhere(i);
    assert forall i :: 0x10_0000 <= i < PHYS_WORDS ==> Elsewhere(i);
    TablesOkSameWords(s.mem, m);
    TablesOkIgnoresAD(m, r.mem);
    assert SameImage(k, Switched(k, s), r.mem);
    SameImageSameTasks(k, Switched(k, s), r.mem);
  }

  lemma ReadyTables(k: Layout, s: State)
    requires TickReady(k, s)
    ensures TablesOk(s.mem) && exists p :: s.cr3 == Directory(p)
  {
  }

  // The state after a tick, by the case of clock_interrupt_handler that applies.
  lemma TickIs(k: Layout, s: State, j: Leftover, t: int)
    requires TickReady(k, s) && t == Next(s.mem[Cur(k)])
    ensures Valid(k) && k.depth + 5 <= CtxAt(k, s) < 0x10_0000 - CTX_WORDS - 1 && CtxRoom(k, CtxAt(k, s))
    ensures var m, r, c := Switched(k, s), Tick(k, s, j), CtxAt(k, s);
      && r.mem == Dispatched(k, m, c, t, j)
      && r.cr3 == Directory(TaskSpace(t)) && !r.inService && r.acks == s.acks + 1
      && r.cpu == if IsSaved(k, m, t) then Restored(r.mem, c, KernelSs(s)) else Launching(k, c, j, KernelSs(s))
  {
    CtxHasRoom(k, s);
    ReadyIs(k, s);
    StackData(k, EntryTop(k, s));
  }

  // Words of the kernel's stacks are not words of page tables.
  lemma SameStackWords(m: Mem, n: Mem, p: int)
    requires SameButAD(m, n, TABLES_LO, TABLES_HI) && 0 <= p && KernelWord(p)
    ensures n[p] == m[p]
  {
  }

  lemma SamePopped(m: Mem, n: Mem, e: int, g: Gprs)
    requires SameButAD(m, n, TABLES_LO, TABLES_HI) && FrameAt(e)
    ensures Popped(n, e, g) == Popped(m, e, g)
  {
    hide SameButAD;
    SameStackWords(m, n, e);
    SameStackWords(m, n, e + 1);
    SameStackWords(m, n, e + 2);
    SameStackWords(m, n, e + 3);
    SameStackWords(m, n, e + 4);
  }

  // The five words from e on are kernel words.
  predicate FrameAt(e: int) {
    0 <= e < 0x10_0000 - 5 && KernelWord(e) && KernelWord(e + 1) && KernelWord(e + 2) && KernelWord(e + 3) && KernelWord(e + 4)
  }

  // The word after the context, which the raw copies do not reach, is that of the state before.
  lemma WordAbove(k: Layout, s: State, t: int, j: Leftover)
    requires TickReady(k, s) && 0 <= t < 2 && IsSaved(k, Switched(k, s), t)
    ensures 0 <= CtxAt(k, s) < 0x10_0000 - CTX_WORDS - 1 && FrameAt(CtxAt(k, s) + 11)
    ensures Dispatched(k, Switched(k, s), CtxAt(k, s), t, j)[CtxAt(k, s) + 15] == s.mem[CtxAt(k, s) + 15]
  {
    hide TickReady, Switched, Dispatched, IsSaved, TickText, CtxAt, EntryTop, Rest, FrameAt;
    ReadyIs(k, s);
    AboveCtx(k, s);
    SwitchedKeepsRest(k, s);
    DispatchedAbove(k, Switched(k, s), CtxAt(k, s), t, j);
  }

  lemma AboveCtx(k: Layout, s: State)
    requires Valid(k) && StackRoom(k, EntryTop(k, s))
    ensures 0 <= CtxAt(k, s) < 0x10_0000 - CTX_WORDS - 1 && FrameAt(CtxAt(k, s) + 11) && Rest(k, s, CtxAt(k, s) + 15)
  {
    StackData(k, EntryTop(k, s));
  }

  lemma DispatchedAbove(k: Layout, m: Mem, c: int, t: int, j: Leftover)
    requires 0 <= t < 2 && k.tasks + 160 <= IMAGE_HI && IsSaved(k, m, t) && 0 <= c < PHYS_WORDS - CTX_WORDS
    ensures Dispatched(k, m, c, t, j)[c + 15] == m[c + 15]
  {
  }

  // Resumption in terms of memory n after the copy back and n2, its like up to marks.
  lemma ResumedCpu(k: Layout, m: Mem, t: int, n: Mem, n2: Mem, c: int, ss: Selector)
    requires Valid(k) && 0 <= t < 2 && 0 <= c < 0x10_0000 - CTX_WORDS - 1 && FrameAt(c + 11)
    requires n[c..c + CTX_WORDS] == m[Rec(k, t) + CONTEXT..Rec(k, t) + CONTEXT + CTX_WORDS]
    requires SameButAD(n, n2, TABLES_LO, TABLES_HI)
    ensures var x, p := Restored(n, c, ss), Rec(k, t) + CONTEXT;
      && (Ring3(x.cs) <==> SavedInRing3(k, m, t))
      && (Ring3(x.cs) ==> x == SavedCpu(k, m, t))
      && (!Ring3(x.cs) ==>
            && x.cs == Sel(m[p + 9]) && x.eflags == m[p + 10] && x.g.esp == 4 * c + 44
            && Popped(n2, c + 11, x.g) == SavedCpu(k, m, t).(ss := Sel(n[c + 15])))
  {
    var p := Rec(k, t) + CONTEXT;
    SameWordsSameCpu(n, c, m, p, ss, D0_SEL);
    SameWordsSameCpu(n, c, m, p, Sel(n[c + 15]), D0_SEL);
    hide SameButAD;
    SamePopped(n, n2, c + 11, Restored(n, c, ss).g);
    if !Ring3(Sel(n[c + 9])) { ResumedLaunch(n, c, ss); }
  }

  // Where the processor is after a tick that resumes task t: in ring 3 as it was suspended, or in
  // ring 0 with the frame of its launch, whose SS is the word above the context.
  lemma TickResumes(k: Layout, s: State, j: Leftover, t: int, r: State)
    requires TickReady(k, s) && t == Next(s.mem[Cur(k)]) && SameState(Tick(k, s, j), r)
    requires IsSaved(k, Switched(k, s), t)
    ensures Valid(k) && 0 <= CtxAt(k, s) < 0x10_0000 - CTX_WORDS - 1
    ensures var m, c, p := Switched(k, s), CtxAt(k, s), Rec(k, t) + CONTEXT;
      && (Ring3(r.cpu.cs) <==> SavedInRing3(k, m, t))
      && (if Ring3(r.cpu.cs) then UserView(r) == SavedCpu(k, m, t)
          else UserView(r) == SavedCpu(k, m, t).(ss := Sel(s.mem[c + 15]))
               && r.cpu.cs == Sel(m[p + 9]) && r.cpu.eflags == m[p + 10] && r.cpu.g.esp == 4 * c + 44)
  {
    hide TickReady, Switched, Tick, Dispatched, CtxAt, EntryTop, Restored, SavedCpu, IsSaved, SameButAD, SavedInRing3, Popped,
      FrameAt, CtxRoom;
    TickIs(k, s, j, t);
    WordAbove(k, s, t, j);
    var m, c := Switched(k, s), CtxAt(k, s);
    var n, p := Tick(k, s, j).mem, Rec(k, t) + CONTEXT;
    CopiedBack(k, m, c, t, j);
    ResumedCpu(k, m, t, n, r.mem, c, KernelSs(s));
  }

  lemma CopiedBack(k: Layout, m: Mem, c: int, t: int, j: Leftover)
    requires Valid(k) && 0 <= t < 2 && IsSaved(k, m, t) && 0 <= c <= PHYS_WORDS - CTX_WORDS
    ensures Dispatched(k, m, c, t, j)[c..c + CTX_WORDS] == m[Rec(k, t) + CONTEXT..Rec(k, t) + CONTEXT + CTX_WORDS]
  {
  }

  // After a tick that launches task t: in ring 0, interruptible, with an acknowledged controller, and
  // with only the `iret` to go that starts the task.
  lemma LaunchIsInterruptible(k: Layout, s: State, j: Leftover, t: int, r: State)
    requires TickReady(k, s) && t == Next(s.mem[Cur(k)]) && SameState(Tick(k, s, j), r)
    requires var m := Switched(k, s); !IsSaved(k, m, t) && TasksOk(k, m)
    requires IOPL(j.flags) == 0
    ensures !Ring3(r.cpu.cs) && KernelCode(r.cpu.cs, r.cpu.eflags) && !r.inService
    ensures Fresh(k, t, Pending(r)) && r.cpu.g.esp == 4 * (CtxAt(k, s) - k.depth - 5)
  {
    hide TickReady, Switched, Tick, CtxAt, EntryTop, Restored, IsSaved, SameButAD, IF, IOPL, TasksOk, Dispatched, FrameAt,
      CtxRoom, Popped, Pending, SetIF, Fresh, KernelCode;
    TickIs(k, s, j, t);
    var m, c, n := Switched(k, s), CtxAt(k, s), Tick(k, s, j).mem;
    var e := c - k.depth - 5;
    FrameRoom(k, c);
    LaunchWords(k, m, c, t, j);
    LaunchFresh(k, t, j);
    PendingAt(r, e);
    SamePopped(n, r.mem, e, r.cpu.g);
  }

  lemma PendingAt(s: State, e: int)
    requires s.cpu.g.esp == 4 * e && FrameAt(e)
    ensures Pending(s) == Popped(s.mem, e, s.cpu.g)
  {
  }

  lemma LaunchFresh(k: Layout, t: int, j: Leftover)
    requires IOPL(j.flags) == 0
    ensures Fresh(k, t, Cpu(j.g.(esp := StackBase(t)), TaskFunction(k, t), C3_SEL, SetIF(j.flags), D3_SEL))
    ensures KernelCode(C0_SEL, SetIF(j.flags)) && !Ring3(C0_SEL)
  {
  }

  lemma FrameRoom(k: Layout, c: int)
    requires CtxRoom(k, c) && k.depth + 5 <= c < 0x10_0000 - CTX_WORDS
    ensures FrameAt(c - k.depth - 5)
  {
    var e := c - k.depth - 5;
    assert KernelWord(e) && KernelWord(e + 1) && KernelWord(e + 2) && KernelWord(e + 3) && KernelWord(e + 4);
  }

  lemma LaunchWords(k: Layout, m: Mem, c: int, t: int, j: Leftover)
    requires Valid(k) && 0 <= t < 2 && !IsSaved(k, m, t) && TasksOk(k, m)
    requires k.depth + 5 <= c < 0x10_0000 - CTX_WORDS
    ensures Popped(Dispatched(k, m, c, t, j), c - k.depth - 5, j.g.(esp := 4 * (c - k.depth - 5)))
      == Cpu(j.g.(esp := StackBase(t)), TaskFunction(k, t), C3_SEL, SetIF(j.flags), D3_SEL)
  {
  }

  // ---- Room on the stacks ------------------------------------------------------------------------------------

  lemma ResumeRoom(k: Layout, c: int, s: State, l: nat)
    requires 0 <= c < 2 && Valid(k) && s.mem[Esp0(k)] == InterruptStack(c) && l <= 1
    requires !Ring3(s.cpu.cs) ==> KernelRoom(k, s.cpu.g.esp, l)
    ensures 0 <= 4 * CtxAt(k, s) + 44 < 0x1_0000_0000 && KernelRoom(k, 4 * CtxAt(k, s) + 44, 0)
  {
  }

  lemma LaunchRoom(k: Layout, s: State, l: nat)
    requires Valid(k) && 1 <= l <= 2
    requires if Ring3(s.cpu.cs) then l == 1 && s.mem[Esp0(k)] in {InterruptStack(0), InterruptStack(1)}
             else KernelRoom(k, s.cpu.g.esp, l)
    ensures var esp := 4 * (CtxAt(k, s) - k.depth - 5); 0 <= esp < 0x1_0000_0000 && KernelRoom(k, esp, l - 1)
  {
  }

  // ---- One tick -------------------------------------------------------------------------------------------------

  // The launch of the task that a tick resumes can be finished: it was saved in ring 3, or the low
  // half of the word above the context is the SS of its frame.
  predicate Completes(k: Layout, s: State)
    requires k.tasks + 160 <= IMAGE_HI && k.current < IMAGE_HI && k.tss + TSS_SIZE <= IMAGE_HI
  {
    var t, i := Next(s.mem[Cur(k)]), CtxAt(k, s) + 15;
    IsSaved(k, s.mem, t) && !SavedInRing3(k, s.mem, t) ==> 0 <= i < PHYS_WORDS && Sel(s.mem[i]) == D3_SEL
  }

  // The processor has task t, as it was suspended or at its start.
  ghost predicate Chosen(k: Layout, t: int, s: State, r: State)
    requires Valid(k) && 0 <= t < 2
  {
    if IsSaved(k, s.mem, t) then
      && UserView(r) == SavedCpu(k, s.mem, t).(ss := UserView(r).ss)
      && (Ring3(r.cpu.cs) <==> SavedInRing3(k, s.mem, t))
      && (SavedInRing3(k, s.mem, t) ==> UserView(r) == SavedCpu(k, s.mem, t))
      && (!SavedInRing3(k, s.mem, t) ==>
            0 <= CtxAt(k, s) < PHYS_WORDS - 15 && UserView(r).ss == Sel(s.mem[CtxAt(k, s) + 15]))
    else Fresh(k, t, UserView(r)) && !Ring3(r.cpu.cs)
  }

  ghost predicate Room(k: Layout, s: State, l: nat) {
    !Ring3(s.cpu.cs) ==> KernelRoom(k, s.cpu.g.esp, l)
  }

  // A tick suspends the running task c as it is and gives the processor to the other one.
  lemma LaterTick(k: Layout, c: int, s: State, j: Leftover, r: State, l: nat)
    requires 0 <= c < 2 && Quiet(k, s) && OnDuty(k, c, s) && Room(k, s, l) && IOPL(j.flags) == 0 && TickReady(k, s)
    requires SameState(Tick(k, s, j), r) && l == if IsSaved(k, s.mem, 1 - c) then 0 else 1
    ensures var t := 1 - c;
      && Quiet(k, r) && OnDuty(k, t, r) && Room(k, r, 0) && r.acks == s.acks + 1
      && IsSaved(k, r.mem, c) && SavedCpu(k, r.mem, c) == Interrupted(s)
      && (SavedInRing3(k, r.mem, c) <==> Ring3(s.cpu.cs))
      && IsSaved(k, r.mem, t) == IsSaved(k, s.mem, t) && Chosen(k, t, s, r)
  {
    hide TickReady, Switched, Tick, TablesOk, TasksOk, SavedCpu, IsSaved, SavedInRing3, UserView, Interrupted, KernelRoom,
      CtxAt, EntryTop, SameButAD, UserCode, KernelCode, OnDuty, Chosen, SavedOk, CtxRoom, Room, Restored, Launching;
    var t, m := 1 - c, Switched(k, s);
    RunsOf(k, c, s);
    NextIs(c);
    LaterSwitch(k, s, c);
    AfterTick(k, s, j, r);
    TickIs(k, s, j, t);
    SwitchedOk(k, c, s, m);
    assert SameTask(k, m, r.mem, c) && SameTask(k, m, r.mem, t);
    TaskChosen(k, c, s, j, r, l);
    RunsNow(k, t, r);
  }

  lemma NextIs(c: int)
    requires 0 <= c < 2
    ensures Next(c) == 1 - c
  {
  }

  // The parts of OnDuty that a tick needs.
  lemma RunsOf(k: Layout, c: int, s: State)
    requires 0 <= c < 2 && Valid(k) && OnDuty(k, c, s)
    ensures s.mem[Cur(k)] == c && s.cr3 == Directory(TaskSpace(c)) && s.mem[Esp0(k)] == InterruptStack(c)
    ensures UserCpu(Interrupted(s)) && (Ring3(s.cpu.cs) || KernelCode(s.cpu.cs, s.cpu.eflags))
    ensures IsSaved(k, s.mem, 1 - c) ==> SavedOk(k, s.mem, 1 - c)
  {
    hide IF, IOPL, SavedOk, IsSaved, Pending;
  }

  lemma RunsNow(k: Layout, t: int, r: State)
    requires 0 <= t < 2 && Valid(k)
    requires r.mem[Cur(k)] == t && r.cr3 == Directory(TaskSpace(t)) && r.mem[Esp0(k)] == InterruptStack(t)
    requires UserCode(UserView(r)) && (if Ring3(r.cpu.cs) then r.cpu.ss == D3_SEL else KernelCode(r.cpu.cs, r.cpu.eflags))
    requires IsSaved(k, r.mem, 1 - t) ==> SavedOk(k, r.mem, 1 - t)
    ensures OnDuty(k, t, r)
  {
  }

  // What was saved is fit to be resumed.
  lemma SwitchedOk(k: Layout, c: int, s: State, m: Mem)
    requires 0 <= c < 2 && Valid(k) && UserCpu(Interrupted(s)) && SavedCpu(k, m, c) == Interrupted(s)
    requires Ring3(s.cpu.cs) || KernelCode(s.cpu.cs, s.cpu.eflags)
    requires m[Rec(k, c) + CONTEXT + 9] == s.cpu.cs && m[Rec(k, c) + CONTEXT + 10] == s.cpu.eflags
    ensures SavedOk(k, m, c) && (SavedInRing3(k, m, c) <==> Ring3(s.cpu.cs))
  {
    hide SavedCpu, Interrupted, UserCpu, KernelCode;
  }

  lemma TaskChosen(k: Layout, c: int, s: State, j: Leftover, r: State, l: nat)
    requires 0 <= c < 2 && Valid(k) && Room(k, s, l) && IOPL(j.flags) == 0 && TickReady(k, s)
    requires s.mem[Cur(k)] == c && s.mem[Esp0(k)] == InterruptStack(c)
    requires SameState(Tick(k, s, j), r) && l == if IsSaved(k, s.mem, 1 - c) then 0 else 1
    requires var m := Switched(k, s); TasksOk(k, m) && SameTask(k, s.mem, m, 1 - c)
    requires IsSaved(k, s.mem, 1 - c) ==> SavedOk(k, s.mem, 1 - c)
    ensures Chosen(k, 1 - c, s, r) && Room(k, r, 0) && UserCode(UserView(r))
    ensures if Ring3(r.cpu.cs) then r.cpu.ss == D3_SEL else KernelCode(r.cpu.cs, r.cpu.eflags)
  {
    hide TickReady, Switched, Tick, CtxAt, EntryTop, IsSaved, SavedCpu, KernelRoom, TasksOk, SameButAD, SavedOk, Chosen,
      UserCode, KernelCode, UserView;
    NextIs(c);
    if IsSaved(k, s.mem, 1 - c) { ResumeChosen(k, c, s, j, r, l); } else { LaunchChosen(k, c, s, j, r, l); }
  }

  lemma ResumeChosen(k: Layout, c: int, s: State, j: Leftover, r: State, l: nat)
    requires 0 <= c < 2 && Valid(k) && Room(k, s, l) && l <= 1 && TickReady(k, s) && Next(s.mem[Cur(k)]) == 1 - c
    requires s.mem[Esp0(k)] == InterruptStack(c) && SameState(Tick(k, s, j), r)
    requires IsSaved(k, s.mem, 1 - c) && SavedOk(k, s.mem, 1 - c)
    requires SameTask(k, s.mem, Switched(k, s), 1 - c)
    ensures Chosen(k, 1 - c, s, r) && Room(k, r, 0) && UserCode(UserView(r))
    ensures if Ring3(r.cpu.cs) then r.cpu.ss == D3_SEL else KernelCode(r.cpu.cs, r.cpu.eflags)
  {
    hide TickReady, Switched, Tick, CtxAt, EntryTop, IsSaved, SavedCpu, KernelRoom, SameButAD, Pending, KernelCode, IF, IOPL;
    var t, m := 1 - c, Switched(k, s);
    TickResumes(k, s, j, t, r);
    ResumeRoom(k, c, s, l);
    SavedWordsOk(k, m, t);
  }

  lemma SavedWordsOk(k: Layout, m: Mem, t: int)
    requires 0 <= t < 2 && Valid(k) && SavedOk(k, m, t)
    ensures UserCpu(SavedCpu(k, m, t))
    ensures !SavedInRing3(k, m, t) ==> KernelCode(Sel(m[Rec(k, t) + CONTEXT + 9]), m[Rec(k, t) + CONTEXT + 10])
  {
  }

  lemma LaunchChosen(k: Layout, c: int, s: State, j: Leftover, r: State, l: nat)
    requires 0 <= c < 2 && Valid(k) && Room(k, s, l) && l == 1 && TickReady(k, s) && Next(s.mem[Cur(k)]) == 1 - c
    requires s.mem[Esp0(k)] == InterruptStack(c) && SameState(Tick(k, s, j), r) && IOPL(j.flags) == 0
    requires !IsSaved(k, s.mem, 1 - c) && TasksOk(k, Switched(k, s))
    requires SameTask(k, s.mem, Switched(k, s), 1 - c)
    ensures Chosen(k, 1 - c, s, r) && Room(k, r, 0) && UserCode(UserView(r))
    ensures !Ring3(r.cpu.cs) && KernelCode(r.cpu.cs, r.cpu.eflags)
  {
    hide TickReady, Switched, Tick, CtxAt, EntryTop, IsSaved, SavedCpu, KernelRoom, SameButAD, Pending, KernelCode, IF, IOPL,
      TasksOk, SavedOk;
    LaunchIsInterruptible(k, s, j, 1 - c, r);
    LaunchRoom(k, s, l);
  }

  // The first tick launches task 0.
  lemma FirstTick(k: Layout, s: State, j: Leftover, r: State)
    requires Inv(k, 0, s) && IOPL(j.flags) == 0 && TickReady(k, s) && SameState(Tick(k, s, j), r)
    ensures Inv(k, 1, r) && Fresh(k, 0, UserView(r)) && !Ring3(r.cpu.cs)
  {
    hide TickReady, Switched, Tick, TablesOk, TasksOk, IsSaved, SavedCpu, SavedOk, SavedInRing3, CtxAt, EntryTop, SameButAD,
      KernelRoom, IF, IOPL, BootState, Pending, CtxRoom, Restored, Launching;
    BootIs(k, s);
    assert Next(NO_TASK) == 0;
    FirstSwitch(k, s);
    AfterTick(k, s, j, r);
    TickIs(k, s, j, 0);
    var m := Switched(k, s);
    assert SameTask(k, m, r.mem, 0) && SameTask(k, m, r.mem, 1);
    LaunchIsInterruptible(k, s, j, 0, r);
    LaunchRoom(k, s, 2);
  }

  lemma BootIs(k: Layout, s: State)
    requires BootState(k, s)
    ensures Valid(k) && s.mem[Cur(k)] == NO_TASK && !Ring3(s.cpu.cs) && KernelRoom(k, s.cpu.g.esp, 2)
    ensures !IsSaved(k, s.mem, 0) && !IsSaved(k, s.mem, 1)
  {
  }

  // ---- Fidelity ---------------------------------------------------------------------------------------------------

  // No launch is pending whose `iret` would load another stack segment than the task's.
  predicate Sound(k: Layout, s: State)
    requires k.current < IMAGE_HI
  {
    s.mem[Cur(k)] != NO_TASK ==> UserView(s).ss == D3_SEL
  }

  predicate SameButSs(c: Cpu, d: Cpu) { d == c.(ss := d.ss) }

  // Every task that had been chosen keeps its registers; and the same up to SS.
  ghost predicate Preserved(k: Layout, s: State, r: State)
    requires k.tasks + 160 <= IMAGE_HI && k.current < IMAGE_HI
  {
    forall t :: 0 <= t < 2 && TaskCpu(k, s, t).Some? ==> TaskCpu(k, r, t) == TaskCpu(k, s, t)
  }

  ghost predicate AlmostPreserved(k: Layout, s: State, r: State)
    requires k.tasks + 160 <= IMAGE_HI && k.current < IMAGE_HI
  {
    forall t :: 0 <= t < 2 && TaskCpu(k, s, t).Some? ==>
      TaskCpu(k, r, t).Some? && SameButSs(TaskCpu(k, s, t).value, TaskCpu(k, r, t).value)
  }

  // What the parts of a later tick say about the tasks.
  lemma LaterFidelity(k: Layout, c: int, s: State, r: State)
    requires 0 <= c < 2 && Valid(k) && s.mem[Cur(k)] == c && r.mem[Cur(k)] == 1 - c
    requires IsSaved(k, r.mem, c) && SavedCpu(k, r.mem, c) == Interrupted(s) && Chosen(k, 1 - c, s, r)
    requires Ring3(s.cpu.cs) ==> s.cpu.ss == D3_SEL
    requires IsSaved(k, s.mem, 1 - c) ==> UserCpu(SavedCpu(k, s.mem, 1 - c))
    ensures AlmostPreserved(k, s, r)
    ensures Sound(k, r) <==> Completes(k, s)
    ensures Sound(k, s) ==> (Preserved(k, s, r) <==> Completes(k, s))
    ensures TaskCpu(k, s, 1 - c).None? ==> Fresh(k, 1 - c, UserView(r))
  {
    NextIs(c);
    hide IsSaved, SavedCpu, SavedInRing3, CtxAt, Pending, UserCode, IF, IOPL;
    var t := 1 - c;
    assert TaskCpu(k, s, c) == Some(UserView(s)) && TaskCpu(k, r, c) == Some(Interrupted(s));
    assert TaskCpu(k, r, t) == Some(UserView(r));
    if Sound(k, s) { assert UserView(s) == Interrupted(s); }
    SsUpdate(UserView(s));
    if IsSaved(k, s.mem, t) { assert TaskCpu(k, s, t) == Some(SavedCpu(k, s.mem, t)); }
  }

  lemma SsUpdate(c: Cpu)
    ensures c.(ss := c.ss) == c
  {
  }

  // One tick, whatever has been running, in ring 3 or in a launch: the invariant advances; every task
  // keeps its registers up to SS; and it keeps them exactly if the resumed launch can complete.
  lemma TickFidelity(k: Layout, n: nat, s: State, j: Leftover, r: State)
    requires Inv(k, n, s) && IOPL(j.flags) == 0
    requires SameState(Tick(k, s, j), r)
    ensures Inv(k, n + 1, r)
    ensures AlmostPreserved(k, s, r)
    ensures Sound(k, r) <==> Completes(k, s)
    ensures Sound(k, s) ==> (Preserved(k, s, r) <==> Completes(k, s))
    ensures TaskCpu(k, s, n % 2).None? ==> Fresh(k, n % 2, UserView(r))
  {
    hide TickReady, Tick, SameState, Quiet, SavedCpu, IsSaved, UserCpu, Fresh, StackRoom, TablesOk, TasksOk, OnDuty, KernelRoom,
      BootState, Chosen, UserView, Sound, Completes, Preserved, AlmostPreserved;
    InvIsTickReady(k, n, s);
    if n == 0 {
      FirstTick(k, s, j, r);
      FirstFidelity(k, s, r);
    } else {
      var c := (n - 1) % 2;
      assert n % 2 == 1 - c;
      LaterInv(k, n, c, s, j, r);
      InvRuns(k, n, s);
      InvRuns(k, n + 1, r);
      RunsOf(k, c, s);
      RunsSaved(k, c, s);
      LaterFidelity(k, c, s, r);
    }
  }

  lemma InvRuns(k: Layout, n: nat, s: State)
    requires n > 0 && Inv(k, n, s)
    ensures Valid(k) && OnDuty(k, (n - 1) % 2, s) && s.mem[Cur(k)] == (n - 1) % 2
  {
    hide IsSaved, SavedOk, UserView, KernelRoom, TablesOk, TasksOk, IF, IOPL;
  }

  lemma RunsSaved(k: Layout, c: int, s: State)
    requires 0 <= c < 2 && Valid(k) && OnDuty(k, c, s)
    ensures Ring3(s.cpu.cs) ==> s.cpu.ss == D3_SEL
    ensures IsSaved(k, s.mem, 1 - c) ==> UserCpu(SavedCpu(k, s.mem, 1 - c))
  {
    hide IsSaved, SavedCpu, UserView, IF, IOPL;
  }

  lemma LaterInv(k: Layout, n: nat, c: int, s: State, j: Leftover, r: State)
    requires n > 0 && Inv(k, n, s) && c == (n - 1) % 2 && IOPL(j.flags) == 0 && TickReady(k, s)
    requires SameState(Tick(k, s, j), r)
    ensures Inv(k, n + 1, r) && r.mem[Cur(k)] == 1 - c
    ensures IsSaved(k, r.mem, c) && SavedCpu(k, r.mem, c) == Interrupted(s) && Chosen(k, 1 - c, s, r)
    ensures SavedInRing3(k, r.mem, c) <==> Ring3(s.cpu.cs)
  {
    hide TickReady, Tick, SameState, TablesOk, TasksOk, SavedCpu, IsSaved, StackRoom, OnDuty, KernelRoom, BootState, Chosen,
      UserView, Interrupted, SavedInRing3;
    assert IsSaved(k, s.mem, 1 - c) <==> n >= 2;
    LaterTick(k, c, s, j, r, Launches(n));
    RunsCurrent(k, 1 - c, r);
    assert n % 2 == 1 - c && (n + 1 - 1) % 2 == 1 - c;
  }

  lemma RunsCurrent(k: Layout, c: int, s: State)
    requires 0 <= c < 2 && Valid(k) && OnDuty(k, c, s)
    ensures s.mem[Cur(k)] == c
  {
  }

  lemma FirstFidelity(k: Layout, s: State, r: State)
    requires Inv(k, 0, s) && Inv(k, 1, r) && Fresh(k, 0, UserView(r))
    ensures AlmostPreserved(k, s, r) && Preserved(k, s, r) && Sound(k, r) && Completes(k, s)
  {
    hide TablesOk, TasksOk, IsSaved, SavedCpu, SavedInRing3, UserView, KernelRoom, CtxAt, IF, IOPL, OnDuty;
    assert Next(NO_TASK) == 0;
  }

  lemma TickKeepsUserMemory(k: Layout, s: State, j: Leftover, r: State)
    requires TickReady(k, s) && SameState(Tick(k, s, j), r)
    ensures forall i :: 0x10_0000 <= i < PHYS_WORDS ==> r.mem[i] == s.mem[i]
  {
    AfterTick(k, s, j, r);
  }

  // ---- The end of a launch ----------------------------------------------------------------------------------------

  // A pending launch is ready for its `iret`, which gives the task its registers and changes nothing else.
  lemma PendingIsReady(k: Layout, n: nat, s: State)
    requires n > 0 && Inv(k, n, s) && !Ring3(s.cpu.cs)
    ensures FinishReady(s)
  {
    hide TasksOk, IsSaved, SavedOk, IF, IOPL;
    RoomIsFrame(k, s.cpu.g.esp, Launches(n));
    hide TablesOk, KernelRoom;
  }

  lemma RoomIsFrame(k: Layout, top: Word, l: nat)
    requires KernelRoom(k, top, l)
    ensures top % 4 == 0 && FrameAt(top / 4)
  {
  }

  lemma FinishKeepsInv(k: Layout, n: nat, s: State, r: State)
    requires n > 0 && Inv(k, n, s) && !Ring3(s.cpu.cs) && Pending(s).ss == D3_SEL && SameState(Finished(s), r)
    ensures Inv(k, n, r) && r.cpu == Pending(s) && Ring3(r.cpu.cs)
    ensures Preserved(k, s, r) && Sound(k, r) && forall i :: 0x10_0000 <= i < PHYS_WORDS ==> r.mem[i] == s.mem[i]
  {
    hide TablesOk, TasksOk, SavedOk, SavedCpu, IsSaved, SavedInRing3, IF, IOPL, KernelRoom, Pending, SameButAD, OnDuty, UserView,
      SameImage, BootState, Preserved, Sound;
    var c := (n - 1) % 2;
    PendingImage(k, s, r);
    FinishKeepsRuns(k, c, s, r);
    InvRuns(k, n, s);
    assert SameTask(k, s.mem, r.mem, 0) && SameTask(k, s.mem, r.mem, 1);
  }

  lemma FinishKeepsRuns(k: Layout, c: int, s: State, r: State)
    requires 0 <= c < 2 && Quiet(k, s) && OnDuty(k, c, s) && !Ring3(s.cpu.cs) && Pending(s).ss == D3_SEL
    requires r.cpu == Pending(s) && r.cr3 == s.cr3 && SameImage(k, s.mem, r.mem)
    ensures OnDuty(k, c, r) && Ring3(r.cpu.cs) && (TasksOk(k, s.mem) ==> TasksOk(k, r.mem))
    ensures Preserved(k, s, r) && Sound(k, r) && SameTask(k, s.mem, r.mem, 0) && SameTask(k, s.mem, r.mem, 1)
  {
    hide TablesOk, TasksOk, SavedOk, SavedCpu, IsSaved, SavedInRing3, IF, IOPL, Pending, SameButAD, SameImage;
    SameImageSameTasks(k, s.mem, r.mem);
    assert SameTask(k, s.mem, r.mem, 0) && SameTask(k, s.mem, r.mem, 1);
  }

  lemma PendingImage(k: Layout, s: State, r: State)
    requires Quiet(k, s) && SameState(Finished(s), r)
    ensures SameImage(k, s.mem, r.mem) && TablesOk(r.mem)
    ensures forall i :: 0x10_0000 <= i < PHYS_WORDS ==> r.mem[i] == s.mem[i]
  {
    TablesOkIgnoresAD(s.mem, r.mem);
    hide TablesOk, TasksOk;
  }

  // ---- Copies of a context ------------------------------------------------------------------------------------------

  // The saved words of the interrupted code, wherever they are copied, restore it exactly if it
  // was in ring 3, or if the copy lies where ring 0 had its stack.
  lemma ResumeRestoresIff(k: Layout, s: State, n: Mem, c: int, ss: Selector)
    requires k.tss + TSS_SIZE <= IMAGE_HI && 0x1000 <= EntryTop(k, s) < 0x40_0000 && EntryTop(k, s) % 4 == 0
    requires 0 <= c < 0x10_0000 - CTX_WORDS
    requires n[c..c + CTX_WORDS] == Pushed(k, s)[CtxAt(k, s)..CtxAt(k, s) + CTX_WORDS]
    ensures Restored(n, c, ss) == s.cpu <==> Ring3(s.cpu.cs) || (s.cpu.g.esp == 4 * c + 44 && s.cpu.ss == ss)
  {
    var p, m := CtxAt(k, s), Pushed(k, s);
    var x, y := n[c..c + CTX_WORDS], m[p..p + CTX_WORDS];
    assert x[0] == y[0] && x[1] == y[1] && x[2] == y[2] && x[4] == y[4] && x[5] == y[5] && x[6] == y[6] && x[7] == y[7];
    assert x[8] == y[8] && x[9] == y[9] && x[10] == y[10] && x[11] == y[11] && x[12] == y[12];
  }

  // The saved words of a launch interrupted in ring 0, wherever they are copied: the code goes on at
  // its `iret`, on top of the copied frame; and that `iret` gives exactly the registers that the
  // launch was to give if and only if the low half of the word above the copy is the SS it was to pop.
  lemma InterruptedLaunchCompletesIff(k: Layout, s: State, n: Mem, c: int, ss: Selector)
    requires Valid(k) && StackRoom(k, EntryTop(k, s)) && !Ring3(s.cpu.cs) && 0 <= c < 0x10_0000 - CTX_WORDS - 1
    ensures 0x1000 <= EntryTop(k, s) && 0 <= CtxAt(k, s) <= PHYS_WORDS - CTX_WORDS
    ensures n[c..c + CTX_WORDS] == Pushed(k, s)[CtxAt(k, s)..CtxAt(k, s) + CTX_WORDS] ==>
      var x := Restored(n, c, ss);
      && x.eip == s.cpu.eip && x.cs == s.cpu.cs && x.eflags == s.cpu.eflags && x.g.esp == 4 * (c + 11)
      && (Popped(n, c + 11, x.g) == Pending(s) <==> Sel(n[c + 15]) == Pending(s).ss)
  {
    PushedRing0(k, s);
    RingZeroEip(k, s);
    hide Pushed, EntryTop, CtxAt, Restored, Suspended, StackRoom, FrameWords, Popped, Pending;
    var p, m := CtxAt(k, s), Pushed(k, s);
    if n[c..c + CTX_WORDS] == m[p..p + CTX_WORDS] {
      assert n[c + 8] == n[c..c + CTX_WORDS][8] == m[p..p + CTX_WORDS][8] == m[p + 8];
      SameWordsSameCpu(m, p, n, c, D3_SEL, D3_SEL);
      ResumedLaunch(n, c, ss);
      SuspendedSs(n, c, D3_SEL, Sel(n[c + 15]));
      assert Popped(n, c + 11, Restored(n, c, ss).g) == Pending(s).(ss := Sel(n[c + 15]));
      SsUpdate(Pending(s));
    }
  }

  lemma RingZeroEip(k: Layout, s: State)
    requires Valid(k) && StackRoom(k, EntryTop(k, s)) && !Ring3(s.cpu.cs)
    ensures 0x1000 <= EntryTop(k, s) && 0 <= CtxAt(k, s) < 0x10_0000 - CTX_WORDS - 1
    ensures Pushed(k, s)[CtxAt(k, s) + 8] == s.cpu.eip
  {
  }

  lemma SuspendedSs(m: Mem, p: int, a: Selector, b: Selector)
    requires 0 <= p && p + CTX_WORDS <= PHYS_WORDS
    ensures Suspended(m, p, b) == Suspended(m, p, a).(ss := b)
  {
  }
}
