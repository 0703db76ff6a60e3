// task1_function of tp_exam/tp.c as a compiler without optimisation lays it out, instruction by instruction.
module TaskCode {
  import opened Words
  import opened Paging
  import opened AddressSpaces
  import opened Machine
  import opened Kernel
  import opened Scheduling
  import opened Runs
  import opened Projection
  import opened Refinement
  import opened Counter

  // ---- The instructions ------------------------------------------------------------------------------------

  // The value of the first store, and whether the loop ends in `int $32`: Build(0, false) for tp_exam/tp.c,
  // and Build(1, true) for the older source behind tp_exam/kernel.elf.
  datatype Build = Build(start: Word, yielding: bool)

  // .task1_code lies behind the stack of task 1, in its own 4 MB (utils/linker.lds).
  ghost predicate Linked(k: Layout) {
    0x40_4000 <= k.function1 <= 0x80_0000 - 0x28
  }

  // The registers d that an instruction leaves when it changes c to g and goes on at eip.
  predicate Goes(c: Cpu, d: Cpu, g: Gprs, eip: int) {
    d == c.(g := g, eip := d.eip) && d.eip == eip
  }

  // By offset, the address in `counter` being at -4(%ebp).
  predicate Instruction(b: Build, k: Layout, c: Cpu, e: Event) {
    var at, g, slot := k.function1, c.g, Add32(c.g.ebp, -4);
    if c.eip - at == 0x23 && b.yielding then e.Int32? && e.eip == at + 0x25
    else if !IsInstruction(e) then false
    else
      var d, down := e.cpu, Add32(g.esp, -4);
      match c.eip - at
      case 0x00 => // push %ebp
        e.Store? && e.va == down && e.value == g.ebp && Goes(c, d, g.(esp := down), at + 0x01)
      case 0x01 => // mov %esp,%ebp
        e.Compute? && Goes(c, d, g.(ebp := g.esp), at + 0x03)
      case 0x03 => // sub $0x10,%esp
        e.Compute? && Goes(c.(eflags := d.eflags), d, g.(esp := Add32(g.esp, -0x10)), at + 0x06)
      case 0x06 => // movl $0x800000,-4(%ebp)
        e.Store? && e.va == slot && e.value == COUNTER_1 && Goes(c, d, g, at + 0x0d)
      case 0x0d => // mov -4(%ebp),%eax
        e.Load? && e.va == slot && Goes(c, d, g.(eax := e.value), at + 0x10)
      case 0x10 => // movl $start,(%eax)
        e.Store? && e.va == g.eax && e.value == b.start && Goes(c, d, g, at + 0x16)
      case 0x16 => // mov -4(%ebp),%eax
        e.Load? && e.va == slot && Goes(c, d, g.(eax := e.value), at + 0x19)
      case 0x19 => // mov (%eax),%eax
        e.Load? && e.va == g.eax && Goes(c, d, g.(eax := e.value), at + 0x1b)
      case 0x1b => // lea 1(%eax),%edx
        e.Compute? && Goes(c, d, g.(edx := Add32(g.eax, 1)), at + 0x1e)
      case 0x1e => // mov -4(%ebp),%eax
        e.Load? && e.va == slot && Goes(c, d, g.(eax := e.value), at + 0x21)
      case 0x21 => // mov %edx,(%eax)
        e.Store? && e.va == g.eax && e.value == g.edx && Goes(c, d, g, at + 0x23)
      case 0x23 => // jmp
        e.Compute? && Goes(c, d, g, at + 0x16)
      case 0x25 => // nop
        b.yielding && e.Compute? && Goes(c, d, g, at + 0x26)
      case 0x26 => // jmp
        b.yielding && e.Compute? && Goes(c, d, g, at + 0x16)
      case _ => false
  }

  function PhaseAt(offset: int): Phase {
    if 0 <= offset < 0x16 then Reset else if offset == 0x1b then Add else if 0x1e <= offset < 0x23 then Put else Fetch
  }

  // The value in flight is in EAX between load and addition, and in EDX from there on.
  function HeldAt(offset: int, g: Gprs): Word {
    if offset == 0x1b then g.eax else g.edx
  }

  function Unoptimised(b: Build, k: Layout, trap: Word -> bool): Listing {
    Listing(b.start, (eip: Word) => PhaseAt(eip - k.function1),
            (eip: Word, g: Gprs) => HeldAt(eip - k.function1, g), trap)
  }

  // Task 1 is this code, task 2 any other.
  function BuildCode(b: Build, k: Layout, two: (Cpu, Event) -> bool): Code {
    (t: int, c: Cpu, e: Event) => if t == 0 then Instruction(b, k, c, e) else two(c, e)
  }

  // ---- The frame of task1_function ---------------------------------------------------------------------------

  // The variable `counter`, at 0x403ff4.
  const SLOT := 0xffd

  // What the registers and the variable `counter` hold at each instruction.
  predicate Framed(b: Build, k: Layout, c: Cpu, slot: Word) {
    var o := c.eip - k.function1;
    && (o in {0x00, 0x01, 0x03, 0x06, 0x0d, 0x10, 0x16, 0x19, 0x1b, 0x1e, 0x21, 0x23}
        || (b.yielding && o in {0x25, 0x26}))
    && (o == 0x00 ==> c.g.esp == 0x40_3ffc) && (o in {0x01, 0x03} ==> c.g.esp == 0x40_3ff8)
    && (o >= 0x03 ==> c.g.ebp == 0x40_3ff8) && (o >= 0x0d ==> slot == COUNTER_1)
    && (o in {0x10, 0x19, 0x21} ==> c.g.eax == COUNTER_1)
  }

  // In such a frame each instruction is a step of the abstract program.
  lemma InstructionIsListed(b: Build, k: Layout, trap: Word -> bool, c: Cpu, e: Event, slot: Word)
    requires Linked(k) && Framed(b, k, c, slot) && Instruction(b, k, c, e)
    ensures Code1(Unoptimised(b, k, trap), c, e)
  {
    var l, o := Unoptimised(b, k, trap), c.eip - k.function1;
    assert l.phase(c.eip) == PhaseAt(o) && l.held(c.eip, c.g) == HeldAt(o, c.g);
    if IsInstruction(e) {
      var d := e.cpu;
      assert l.phase(d.eip) == PhaseAt(d.eip - k.function1) && l.held(d.eip, d.g) == HeldAt(d.eip - k.function1, d.g);
    } else {
      assert l.phase(e.eip) == PhaseAt(e.eip - k.function1);
    }
  }

  lemma FreshIsFramed(b: Build, k: Layout, c: Cpu, slot: Word)
    requires Fresh(k, 0, c)
    ensures Framed(b, k, c, slot)
  {
  }

  // The same as a property of the private machine of task 1.
  function FrameOf(b: Build, k: Layout): Assertion {
    (c: Cpu, own: seq<Word>) => |own| == OWN_WORDS && Framed(b, k, c, own[SLOT])
  }

  lemma FrameStep(b: Build, k: Layout, two: (Cpu, Event) -> bool, u: Solo, e: Event)
    requires Linked(k) && |u.own| == OWN_WORDS && Framed(b, k, u.cpu, u.own[SLOT])
    requires SoloLegal(0, BuildCode(b, k, two), u, e)
    ensures var w := SoloApply(0, u, e); Framed(b, k, w.cpu, w.own[SLOT])
  {
    assert Instruction(b, k, u.cpu, e);
  }

  lemma SsIsNotFramed(b: Build, k: Layout, c: Cpu, d: Cpu, slot: Word)
    requires Framed(b, k, c, slot) && SameButSs(c, d)
    ensures Framed(b, k, d, slot)
  {
  }

  // The frame is an invariant of the code.
  lemma FrameIsInvariant(b: Build, k: Layout, two: (Cpu, Event) -> bool)
    requires Linked(k)
    ensures SoloInvariant(k, 0, BuildCode(b, k, two), FrameOf(b, k))
  {
    hide Framed, Fresh, SoloLegal, SoloApply, BuildCode, SameButSs;
    var p, code := FrameOf(b, k), BuildCode(b, k, two);
    forall c: Cpu, own: seq<Word> | |own| == OWN_WORDS && Fresh(k, 0, c) ensures p(c, own) {
      FreshIsFramed(b, k, c, own[SLOT]);
    }
    forall u: Solo, e: Event | |u.own| == OWN_WORDS && p(u.cpu, u.own) && SoloLegal(0, code, u, e)
      ensures p(SoloApply(0, u, e).cpu, SoloApply(0, u, e).own)
    {
      FrameStep(b, k, two, u, e);
    }
    forall c: Cpu, d: Cpu, own: seq<Word> | p(c, own) && SameButSs(c, d) ensures p(d, own) {
      SsIsNotFramed(b, k, c, d, own[SLOT]);
    }
  }

  // ---- Refinement ------------------------------------------------------------------------------------------------

  // The code of task 2 keeps some invariant under which it calls only with the pointer to its window.
  ghost predicate CallsOnly(b: Build, k: Layout, trap: Word -> bool, two: (Cpu, Event) -> bool, q: Assertion) {
    && SoloInvariant(k, 1, BuildCode(b, k, two), q)
    && Allows(1, q, BuildCode(b, k, two), Programs(Unoptimised(b, k, trap)))
  }

  // Code2 itself needs no invariant.
  function AnyCaller(l: Listing): (Cpu, Event) -> bool { (c: Cpu, e: Event) => Code2(l, c, e) }

  function Always(): Assertion { (c: Cpu, own: seq<Word>) => true }

  lemma AnyCallerCallsOnly(b: Build, k: Layout, trap: Word -> bool)
    ensures CallsOnly(b, k, trap, AnyCaller(Unoptimised(b, k, trap)), Always())
  {
    hide Code2, Unoptimised, SoloLegal, SoloApply, Fresh;
    var two := AnyCaller(Unoptimised(b, k, trap));
    forall c: Cpu, e: Event | BuildCode(b, k, two)(1, c, e)
      ensures Programs(Unoptimised(b, k, trap))(1, c, e)
    {
      assert two(c, e);
    }
  }

  // Main theorem: every run of the machine with the compiled task 1 is a run with the abstract one, so
  // all that is proved of the counter holds of this code.
  lemma CompiledRunRefines(b: Build, k: Layout, trap: Word -> bool, two: (Cpu, Event) -> bool, q: Assertion, ss: seq<State>,
                           es: seq<Event>)
    requires Run(k, BuildCode(b, k, two), ss, es) && Linked(k) && CallsOnly(b, k, trap, two, q)
    ensures Run(k, Programs(Unoptimised(b, k, trap)), ss, es)
  {
    hide Run, SoloInvariant;
    FrameIsInvariant(b, k, two);
    CompiledIsAllowed(b, k, trap, two);
    RunRefines(k, BuildCode(b, k, two), Programs(Unoptimised(b, k, trap)), FrameOf(b, k), q, ss, es);
  }

  lemma CompiledIsAllowed(b: Build, k: Layout, trap: Word -> bool, two: (Cpu, Event) -> bool)
    requires Linked(k)
    ensures Allows(0, FrameOf(b, k), BuildCode(b, k, two), Programs(Unoptimised(b, k, trap)))
  {
    hide Framed, Instruction, Unoptimised, Code1;
    forall c: Cpu, own: seq<Word>, e: Event
      | |own| == OWN_WORDS && FrameOf(b, k)(c, own) && BuildCode(b, k, two)(0, c, e)
      ensures Programs(Unoptimised(b, k, trap))(0, c, e)
    {
      InstructionIsListed(b, k, trap, c, e, own[SLOT]);
    }
  }

  // In every state of every run task 1 has its frame, also in the middle of a launch.
  lemma RunFramed(b: Build, k: Layout, two: (Cpu, Event) -> bool, ss: seq<State>, es: seq<Event>, i: nat)
    requires Run(k, BuildCode(b, k, two), ss, es) && Linked(k) && i <= |es|
    ensures Satisfied(k, 0, FrameOf(b, k), ss[i])
  {
    hide Run, SoloInvariant, Satisfied;
    FrameIsInvariant(b, k, two);
    InvariantHolds(k, 0, BuildCode(b, k, two), FrameOf(b, k), ss, es, i);
  }

  // While it has the processor in ring 3.
  lemma RunningFramed(b: Build, k: Layout, two: (Cpu, Event) -> bool, ss: seq<State>, es: seq<Event>, i: nat)
      returns (slot: Word)
    requires Run(k, BuildCode(b, k, two), ss, es) && Linked(k) && i <= |es|
    requires ss[i].mem[Cur(k)] == 0 && Ring3(ss[i].cpu.cs)
    ensures Framed(b, k, ss[i].cpu, slot)
  {
    hide Framed, BootState, Step, OwnWords;
    RunFramed(b, k, two, ss, es, i);
    slot := OwnWords(ss[i].mem, 0)[SLOT];
    assert TaskCpu(k, ss[i], 0) == Some(ss[i].cpu);
  }

  // ---- Progress --------------------------------------------------------------------------------------------------

  // What a load of the running task gives.
  function Loaded(s: State, va: Word): Word {
    if Walk(s.mem, s.cr3, va, READ).Some? then Mark(s.mem, s.cr3, va, READ)[Walk(s.mem, s.cr3, va, READ).value / 4] else 0
  }

  // The next instruction of task 1.
  function NextOf(b: Build, k: Layout, s: State): Event {
    var c, at, g, slot, down := s.cpu, k.function1, s.cpu.g, Add32(s.cpu.g.ebp, -4), Add32(s.cpu.g.esp, -4);
    match c.eip - at
    case 0x00 => Store(down, g.ebp, c.(g := g.(esp := down), eip := Add32(at, 0x01)))
    case 0x01 => Compute(c.(g := g.(ebp := g.esp), eip := Add32(at, 0x03)))
    case 0x03 => Compute(c.(g := g.(esp := Add32(g.esp, -0x10)), eip := Add32(at, 0x06)))
    case 0x06 => Store(slot, COUNTER_1, c.(eip := Add32(at, 0x0d)))
    case 0x0d => Load(slot, Loaded(s, slot), c.(g := g.(eax := Loaded(s, slot)), eip := Add32(at, 0x10)))
    case 0x10 => Store(g.eax, b.start, c.(eip := Add32(at, 0x16)))
    case 0x16 => Load(slot, Loaded(s, slot), c.(g := g.(eax := Loaded(s, slot)), eip := Add32(at, 0x19)))
    case 0x19 => Load(g.eax, Loaded(s, g.eax), c.(g := g.(eax := Loaded(s, g.eax)), eip := Add32(at, 0x1b)))
    case 0x1b => Compute(c.(g := g.(edx := Add32(g.eax, 1)), eip := Add32(at, 0x1e)))
    case 0x1e => Load(slot, Loaded(s, slot), c.(g := g.(eax := Loaded(s, slot)), eip := Add32(at, 0x21)))
    case 0x21 => Store(g.eax, g.edx, c.(eip := Add32(at, 0x23)))
    case 0x25 => Compute(c.(eip := Add32(at, 0x26)))
    case 0x26 => Compute(c.(eip := Add32(at, 0x16)))
    case _ => if b.yielding then Int32(Add32(at, 0x25), Leftover(g, 0, 0)) else Compute(c.(eip := Add32(at, 0x16)))
  }

  lemma NextIsInstruction(b: Build, k: Layout, s: State, slot: Word)
    requires Linked(k) && Framed(b, k, s.cpu, slot)
    ensures var e := NextOf(b, k, s); Instruction(b, k, s.cpu, e)
  {
    hide Loaded;
    assert forall o :: 0 <= o < 0x28 ==> Add32(k.function1, o) == k.function1 + o;
  }

  // Its accesses lie in the task's own memory or at the base of its window.
  lemma NextIsAllowed(b: Build, k: Layout, s: State, slot: Word)
    requires Framed(b, k, s.cpu, slot)
    ensures var e := NextOf(b, k, s);
      && (IsInstruction(e) || e == Int32(e.eip, Leftover(s.cpu.g, 0, 0)))
      && (IsInstruction(e) ==> SameRights(s.cpu, e.cpu))
      && (e.Load? || e.Store? ==> e.va % 4 == 0 && (Private(0, e.va) || e.va == COUNTER_1))
      && (e.Load? ==> e.value == Loaded(s, e.va))
  {
    hide Loaded;
  }

  // Its accesses do not fault.
  lemma NextExecutes(s: State, e: Event) returns (r: State)
    requires TablesOk(s.mem) && s.cr3 == PGD_TASK_1 && Ring3(s.cpu.cs) && IsInstruction(e) && SameRights(s.cpu, e.cpu)
    requires e.Load? || e.Store? ==> e.va % 4 == 0 && (Private(0, e.va) || e.va == COUNTER_1)
    requires e.Load? ==> e.value == Loaded(s, e.va)
    ensures UserStep(s, e, r)
  {
    hide TablesOk, Walk, Mark, SameRights;
    match e
    case Compute(c) => r := s.(cpu := c);
    case Load(va, v, c) =>
      UserAddress(s.mem, 0, va, false);
      r := s.(mem := Mark(s.mem, s.cr3, va, READ), cpu := c);
    case Store(va, v, c) =>
      UserAddress(s.mem, 0, va, true);
      r := s.(mem := Mark(s.mem, s.cr3, va, WRITE)[Walk(s.mem, s.cr3, va, WRITE).value / 4 := v], cpu := c);
  }

  // Task 1 never faults and never gets lost: whenever it has the processor in ring 3, it has a next step.
  lemma Task1NeverFaults(b: Build, k: Layout, two: (Cpu, Event) -> bool, ss: seq<State>, es: seq<Event>, i: nat)
    requires Run(k, BuildCode(b, k, two), ss, es) && Linked(k) && i <= |es|
    requires ss[i].mem[Cur(k)] == 0 && Ring3(ss[i].cpu.cs)
    ensures exists r :: Step(k, BuildCode(b, k, two), ss[i], NextOf(b, k, ss[i]), r)
  {
    hide Inv, BootState, TaskCpu, TickReady, Tick, IF, IOPL, Framed, Instruction, NextOf, Loaded;
    var s, n, code := ss[i], Switches(es[..i]), BuildCode(b, k, two);
    RunInv(k, code, ss, es, i);
    var slot := RunningFramed(b, k, two, ss, es, i);
    InvInRing3(k, n, s);
    RunningSpace(k, n, s);
    NextIsInstruction(b, k, s, slot);
    NextIsAllowed(b, k, s, slot);
    var e := NextOf(b, k, s);
    if IsInstruction(e) {
      var r := NextExecutes(s, e);
      assert Step(k, code, s, e, r);
    } else {
      TrappedInv(k, n, s, e.eip);
      InvIsPreemptible(k, n, s);
      InvIsTickReady(k, n, Trapped(s, e.eip));
      SameStateRefl(Tick(k, Trapped(s, e.eip), e.left));
      assert IOPL(e.left.flags) == 0 by { NoPrivilege(); }
      assert Step(k, code, s, e, Tick(k, Trapped(s, e.eip), e.left));
    }
  }

  lemma NoPrivilege()
    ensures IOPL(0) == 0
  {
  }

  lemma SameStateRefl(s: State)
    ensures SameState(s, s)
  {
  }

  // ---- The counter -----------------------------------------------------------------------------------------------

  // Task 1 executes the store at the given offset.
  predicate StoreAt(k: Layout, s: State, e: Event, offset: int)
    requires k.current < IMAGE_HI
  {
    s.mem[Cur(k)] == 0 && e.Store? && s.cpu.eip == k.function1 + offset
  }

  // How often it does among the first i events.
  function StoresAt(k: Layout, ss: seq<State>, es: seq<Event>, offset: int, i: nat): nat
    requires k.current < IMAGE_HI && i <= |es| < |ss|
  {
    if i == 0 then 0
    else StoresAt(k, ss, es, offset, i - 1) + if StoreAt(k, ss[i - 1], es[i - 1], offset) then 1 else 0
  }

  const RESET_AT := 0x10
  const STORE_AT := 0x21

  // The two stores to the counter are the instructions at these offsets.
  lemma StoreIsStep(b: Build, k: Layout, trap: Word -> bool, two: (Cpu, Event) -> bool, ss: seq<State>, es: seq<Event>,
                    i: nat)
    requires Run(k, BuildCode(b, k, two), ss, es) && Linked(k) && i < |es|
    ensures k.current < IMAGE_HI
    ensures var l, s, e := Unoptimised(b, k, trap), ss[i], es[i];
      (IsReset(k, l, s, e) <==> StoreAt(k, s, e, RESET_AT)) && (IsIncrement(k, l, s, e) <==> StoreAt(k, s, e, STORE_AT))
  {
    hide Framed, Instruction, BootState, Walk, Mark;
    var s, e := ss[i], es[i];
    if e.Store? && s.mem[Cur(k)] == 0 {
      assert Step(k, BuildCode(b, k, two), ss[i], es[i], ss[i + 1]);
      var slot := RunningFramed(b, k, two, ss, es, i);
      FramedStore(b, k, s.cpu, e, slot);
    }
  }

  lemma FramedStore(b: Build, k: Layout, c: Cpu, e: Event, slot: Word)
    requires Framed(b, k, c, slot) && Instruction(b, k, c, e) && e.Store?
    ensures var o := c.eip - k.function1;
      && (e.va == COUNTER_1 && PhaseAt(o) == Reset <==> o == RESET_AT)
      && (e.va == COUNTER_1 && PhaseAt(o) == Put <==> o == STORE_AT)
  {
  }

  lemma {:induction false} StoresAreSteps(b: Build, k: Layout, trap: Word -> bool, two: (Cpu, Event) -> bool, ss: seq<State>,
                                          es: seq<Event>, i: nat)
    requires Run(k, BuildCode(b, k, two), ss, es) && Linked(k) && i <= |es|
    ensures k.current < IMAGE_HI
    ensures var l := Unoptimised(b, k, trap);
      && Increments(k, l, ss, es, i) == StoresAt(k, ss, es, STORE_AT, i)
      && (Started(k, l, ss, es, i) <==> StoresAt(k, ss, es, RESET_AT, i) > 0)
  {
    hide Step, BootState, Unoptimised, IsReset, IsIncrement, StoreAt;
    if i > 0 {
      StoresAreSteps(b, k, trap, two, ss, es, i - 1);
      StoreIsStep(b, k, trap, two, ss, es, i - 1);
      StartedNext(k, Unoptimised(b, k, trap), ss, es, i - 1);
    }
  }

  lemma StartedNext(k: Layout, l: Listing, ss: seq<State>, es: seq<Event>, i: nat)
    requires k.current < IMAGE_HI && i < |es| < |ss|
    ensures Started(k, l, ss, es, i + 1) <==> Started(k, l, ss, es, i) || IsReset(k, l, ss[i], es[i])
  {
  }

  lemma ListingIsCompiled(b: Build, k: Layout, trap: Word -> bool)
    requires !trap(k.function2)
    ensures var l := Unoptimised(b, k, trap); Compiled(k, l) && l.start == b.start
  {
    var l := Unoptimised(b, k, trap);
    assert l.phase(k.function1) == PhaseAt(0);
  }

  // The counter, instruction by instruction: with the code of tp_exam/tp.c, each system call after the first
  // store prints how many times the store at offset 0x21 has been executed.
  lemma CompiledCounterIsExact(b: Build, k: Layout, trap: Word -> bool, two: (Cpu, Event) -> bool, q: Assertion,
                               ss: seq<State>, es: seq<Event>, i: nat)
    requires Run(k, BuildCode(b, k, two), ss, es) && Linked(k) && CallsOnly(b, k, trap, two, q) && !trap(k.function2)
    requires i < |es| && es[i].Int80? && StoresAt(k, ss, es, RESET_AT, i) > 0
    ensures ss[i + 1].console == ss[i].console + CounterLine(Add32(b.start, StoresAt(k, ss, es, STORE_AT, i)))
  {
    var l := Unoptimised(b, k, trap);
    ListingIsCompiled(b, k, trap);
    hide Run, Started, Increments, CounterLine, BuildCode, Unoptimised, Compiled, StoresAt, CallsOnly;
    CompiledRunRefines(b, k, trap, two, q, ss, es);
    StoresAreSteps(b, k, trap, two, ss, es, i);
    CounterIsExact(k, l, ss, es, i);
  }
}
