// Interrupt entry and exit: kernel/core/idt.s as programs of a small stack machine.
module Trampolines {
  import opened Words
  import opened Machine

  // ---- The machine ------------------------------------------------------------------------------------------

  datatype Label = Stub(vector: nat) | AckPic2 | AckPic1 | EoiPic1 | IdtCommon | ResumeFromIntr

  datatype Instr =
    | PushImm(v: Word)
    | PushEax
    | PopEax
    | MovAl(b: Word)
    | OutAl(port: int)
    | Pusha
    | MovEspToEax
    | CallIntrHdlr
    | Popa
    | AddEsp(words: nat)
    | Iret
    | Jmp(target: Label)

  // Registers, the stack pointer as a dword number, memory, and the bytes sent to ports. `seen`
  // is the int_ctx_t that intr_hdlr finds at its argument, EAX; `ret` is where iret goes.
  datatype Core = Core(g: Gprs, sp: int, mem: Mem, outs: seq<(int, Word)>, seen: seq<Word>, ret: seq<Word>)

  // What intr_hdlr leaves behind: the caller-saved registers and memory below its frame.
  datatype Trace = Trace(eax: Word, ecx: Word, edx: Word, mem: Mem)

  // The deepest stack a stub needs: return address, pusha, vector, error code, and a saved EAX.
  const DEPTH := 12

  function Push(c: Core, v: Word): Core {
    if 1 <= c.sp <= PHYS_WORDS then c.(sp := c.sp - 1, mem := c.mem[c.sp - 1 := v]) else c
  }

  function Top(c: Core, i: int): Word {
    if 0 <= c.sp + i < PHYS_WORDS then c.mem[c.sp + i] else 0
  }

  function PushAll(c: Core, ws: seq<Word>): Core
  {
    if ws == [] then c else Push(PushAll(c, ws[1..]), ws[0])
  }

  function Address(sp: int): Word { sp * 4 % 0x1_0000_0000 }

  lemma AddressBack(sp: int)
    requires 0 <= sp < PHYS_WORDS
    ensures Address(sp) == 4 * sp && Address(sp) / 4 == sp
  {
  }

  // One instruction other than a jump. `call` runs the handler, which leaves `left`.
  function Step(i: Instr, c: Core, left: Trace): Core
    requires !i.Jmp?
  {
    match i
    case PushImm(v) => Push(c, v)
    case PushEax => Push(c, c.g.eax)
    case PopEax => c.(g := c.g.(eax := Top(c, 0)), sp := c.sp + 1)
    case MovAl(b) => c.(g := c.g.(eax := c.g.eax - c.g.eax % 256 + b % 256))
    case OutAl(port) => c.(outs := c.outs + [(port, c.g.eax % 256)])
    case Pusha => PushAll(c, GprWords(c.g, Address(c.sp)))
    case MovEspToEax => c.(g := c.g.(eax := Address(c.sp)))
    case CallIntrHdlr =>
      c.(g := c.g.(eax := left.eax, ecx := left.ecx, edx := left.edx), mem := left.mem,
         seen := if c.g.eax / 4 <= PHYS_WORDS - CTX_WORDS then c.mem[c.g.eax / 4..c.g.eax / 4 + CTX_WORDS] else [])
    case Popa =>
      c.(g := Gprs(Top(c, 7), Top(c, 6), Top(c, 5), Top(c, 4), c.g.esp, Top(c, 2), Top(c, 1), Top(c, 0)), sp := c.sp + 8)
    case AddEsp(n) => c.(sp := c.sp + n)
    case Iret =>
      var n := if Ring3(Top(c, 1)) then 5 else 3;
      c.(ret := if 0 <= c.sp <= PHYS_WORDS - n then c.mem[c.sp..c.sp + n] else [], sp := c.sp + n)
  }

  // ---- The program --------------------------------------------------------------------------------------------

  const MINUS_ONE: Word := 0xffff_ffff

  // The stubs that push no -1 before their vector: double fault, TSS, segment, stack, protection, page fault and
  // alignment.
  const SHORT_STUBS: set<nat> := {8, 10, 11, 12, 13, 14, 17}

  // The stubs of the vectors that Intel reserves.
  predicate Reserved(v: nat) { 20 <= v < 32 }

  function Code(l: Label): seq<Instr>
    requires l.Stub? ==> l.vector < 256
  {
    match l
    case Stub(v) =>
      if Reserved(v) then [Iret]
      else if v in SHORT_STUBS then [PushImm(v), Jmp(IdtCommon)]
      else if v < 32 || v >= 48 then [PushImm(MINUS_ONE), PushImm(v), Jmp(IdtCommon)]
      else [PushImm(MINUS_ONE), PushImm(v), Jmp(if v < 40 then AckPic1 else AckPic2)]
    case AckPic2 => [PushEax, MovAl(0x20), OutAl(0xa0), Jmp(EoiPic1)]
    case AckPic1 => [PushEax, MovAl(0x20), Jmp(EoiPic1)]
    case EoiPic1 => [OutAl(0x20), PopEax, Jmp(IdtCommon)]
    case IdtCommon => [Pusha, MovEspToEax, CallIntrHdlr, Jmp(ResumeFromIntr)]
    case ResumeFromIntr => [Popa, AddEsp(2), Iret]
  }

  function Rank(l: Label): nat {
    match l
    case Stub(v) => 5
    case AckPic2 => 4
    case AckPic1 => 3
    case EoiPic1 => 2
    case IdtCommon => 1
    case ResumeFromIntr => 0
  }

  // Runs code until it ends in iret; in idt.s jumps only go to labels of lower rank.
  function Execute(code: seq<Instr>, rank: nat, c: Core, left: Trace): Core
    decreases rank, |code|
  {
    if code == [] then c
    else match code[0]
      case Jmp(l) => if Rank(l) < rank && !l.Stub? then Execute(Code(l), Rank(l), c, left) else c
      case _ => Execute(code[1..], rank, Step(code[0], c, left), left)
  }

  function Trampoline(v: nat, c: Core, left: Trace): Core
    requires v < 256
  {
    Execute(Code(Stub(v)), 5, c, left)
  }

  // The machine itself, instruction by instruction.
  class StackMachine {
    var core: Core

    constructor (c: Core)
      ensures core == c
    {
      core := c;
    }

    method Interrupt(v: nat, left: Trace)
      requires v < 256
      modifies this
      ensures core == Trampoline(v, old(core), left)
    {
      hide Code, Step;
      var code: seq<Instr>, rank: nat := Code(Stub(v)), 5;
      while code != []
        invariant Execute(code, rank, core, left) == Trampoline(v, old(core), left)
        decreases rank, |code|
      {
        match code[0]
        case Jmp(l) =>
          if Rank(l) < rank && !l.Stub? {
            code, rank := Code(l), Rank(l);
          } else {
            code := [];
          }
        case _ =>
          core := Step(code[0], core, left);
          code := code[1..];
      }
    }
  }

  // ---- Straight-line runs -----------------------------------------------------------------------------------------

  lemma {:induction false} PushAllIs(c: Core, ws: seq<Word>)
    requires |ws| <= c.sp <= PHYS_WORDS
    ensures PushAll(c, ws) == c.(sp := c.sp - |ws|, mem := Blit(c.mem, c.sp - |ws|, ws))
  {
    if ws == [] {
      BlitNothing(c.mem, c.sp);
    } else {
      PushAllIs(c, ws[1..]);
      BlitFront(c.mem, c.sp - |ws|, ws);
    }
  }

  lemma BlitFront(m: Mem, q: int, ws: seq<Word>)
    requires |ws| > 0 && 0 <= q < PHYS_WORDS
    ensures Blit(m, q + 1, ws[1..])[q := ws[0]] == Blit(m, q, ws)
  {
  }

  lemma Straight(code: seq<Instr>, rank: nat, c: Core, left: Trace)
    requires code != [] && !code[0].Jmp?
    ensures Execute(code, rank, c, left) == Execute(code[1..], rank, Step(code[0], c, left), left)
  {
  }

  // ---- idt_common ----------------------------------------------------------------------------------------------------

  // The machine at `call intr_hdlr`, coming from idt_common in state c.
  function Called(c: Core): Core
    requires 8 <= c.sp <= PHYS_WORDS
  {
    c.(sp := c.sp - 8, mem := Blit(c.mem, c.sp - 8, GprWords(c.g, Address(c.sp))),
       g := c.g.(eax := Address(c.sp - 8)))
  }

  // The handler leaves the int_ctx_t of its argument alone; what it does to other memory is its
  // own affair.
  ghost predicate FrameKept(c: Core, left: Trace) {
    forall i :: c.sp <= i < c.sp + CTX_WORDS && 0 <= i < PHYS_WORDS ==> left.mem[i] == c.mem[i]
  }

  lemma CommonCalls(c: Core, left: Trace)
    requires 8 <= c.sp <= PHYS_WORDS - 7
    ensures Execute(Code(IdtCommon), 1, c, left) ==
      Execute(Code(ResumeFromIntr), 0, Step(CallIntrHdlr, Called(c), left), left)
  {
    hide Blit, Execute, Address;
    var code := Code(IdtCommon);
    PushAllIs(c, GprWords(c.g, Address(c.sp)));
    var c1 := Step(Pusha, c, left);
    var c2 := Step(MovEspToEax, c1, left);
    var c3 := Step(CallIntrHdlr, c2, left);
    assert c2 == Called(c);
    assert code[1..] == [MovEspToEax, CallIntrHdlr, Jmp(ResumeFromIntr)];
    assert code[1..][1..] == [CallIntrHdlr, Jmp(ResumeFromIntr)];
    assert code[1..][1..][1..] == [Jmp(ResumeFromIntr)];
    hide Step, Execute, Address, GprWords, PushAll;
    Straight(code, 1, c, left);
    Straight(code[1..], 1, c1, left);
    Straight(code[1..][1..], 1, c2, left);
    JumpsTo(ResumeFromIntr, 1, c3, left);
  }

  lemma JumpsTo(l: Label, rank: nat, c: Core, left: Trace)
    requires Rank(l) < rank && !l.Stub?
    ensures Execute([Jmp(l)], rank, c, left) == Execute(Code(l), Rank(l), c, left)
  {
    hide Code;
  }

  lemma Resumes(c: Core, left: Trace)
    ensures Execute(Code(ResumeFromIntr), 0, c, left) == Step(Iret, Step(AddEsp(2), Step(Popa, c, left), left), left)
  {
    var code := Code(ResumeFromIntr);
    assert code[1..] == [AddEsp(2), Iret] && code[1..][1..] == [Iret] && code[1..][1..][1..] == [];
    hide Step;
  }

  // What the handler finds at its argument.
  lemma SeenWords(c: Core, left: Trace)
    requires 8 <= c.sp <= PHYS_WORDS - 7
    ensures Step(CallIntrHdlr, Called(c), left).seen == GprWords(c.g, Address(c.sp)) + c.mem[c.sp..c.sp + 7]
  {
    AddressBack(c.sp - 8);
    hide Address;
    var d := Called(c);
    assert d.g.eax / 4 == d.sp;
    assert d.mem[d.sp..d.sp + CTX_WORDS] == GprWords(c.g, Address(c.sp)) + c.mem[c.sp..c.sp + 7];
  }

  lemma PopsBack(c: Core, left: Trace)
    requires 8 <= c.sp <= PHYS_WORDS - 7 && FrameKept(Called(c), left)
    ensures Step(Popa, Step(CallIntrHdlr, Called(c), left), left).g == c.g
  {
    hide Blit, GprWords, FrameKept, Address, Called;
    CalledIs(c);
    CalledWords(c);
    KeptBelow(c, left);
    PopaReads(Step(CallIntrHdlr, Called(c), left), left);
  }

  lemma CalledIs(c: Core)
    requires 8 <= c.sp <= PHYS_WORDS
    ensures Called(c).sp == c.sp - 8 && Called(c).g.esp == c.g.esp
  {
  }

  lemma PopaReads(d: Core, left: Trace)
    requires 0 <= d.sp <= PHYS_WORDS - 8
    ensures var m, p := d.mem, d.sp;
      Step(Popa, d, left).g == Gprs(m[p + 7], m[p + 6], m[p + 5], m[p + 4], d.g.esp, m[p + 2], m[p + 1], m[p])
  {
  }

  lemma KeptBelow(c: Core, left: Trace)
    requires 8 <= c.sp <= PHYS_WORDS - 7 && FrameKept(Called(c), left)
    ensures forall i :: c.sp - 8 <= i < c.sp ==> left.mem[i] == Called(c).mem[i]
  {
    hide Blit, GprWords, Address;
  }

  // From idt_common on: registers as they were, the words above the vector and the error code
  // are the return frame, and the handler has seen all of them.
  lemma CommonIsTransparent(c: Core, left: Trace)
    requires 8 <= c.sp <= PHYS_WORDS - 7 && FrameKept(Called(c), left)
    ensures var r, n := Execute(Code(IdtCommon), 1, c, left), if Ring3(c.mem[c.sp + 3]) then 5 else 3;
      && r.g == c.g && r.sp == c.sp + 2 + n && r.outs == c.outs && r.ret == c.mem[c.sp + 2..c.sp + 2 + n]
      && r.seen == GprWords(c.g, Address(c.sp)) + c.mem[c.sp..c.sp + 7] && r.mem == left.mem
  {
    hide Execute, Code, Blit, GprWords, Address, FrameKept;
    CommonCalls(c, left);
    SeenWords(c, left);
    PopsBack(c, left);
    KeptAbove(c, left);
    var d1 := Step(CallIntrHdlr, Called(c), left);
    Resumes(d1, left);
    assert Top(Step(AddEsp(2), Step(Popa, d1, left), left), 1) == c.mem[c.sp + 3];
  }

  lemma CalledWords(c: Core)
    requires 8 <= c.sp <= PHYS_WORDS - 7
    ensures var m, p := Called(c).mem, c.sp - 8;
      && m[p] == c.g.edi && m[p + 1] == c.g.esi && m[p + 2] == c.g.ebp && m[p + 4] == c.g.ebx
      && m[p + 5] == c.g.edx && m[p + 6] == c.g.ecx && m[p + 7] == c.g.eax
  {
  }

  lemma KeptAbove(c: Core, left: Trace)
    requires 8 <= c.sp <= PHYS_WORDS - 7 && FrameKept(Called(c), left)
    ensures forall i :: c.sp <= i < c.sp + 7 ==> left.mem[i] == c.mem[i]
    ensures left.mem[c.sp + 2..c.sp + 5] == c.mem[c.sp + 2..c.sp + 5]
    ensures left.mem[c.sp + 2..c.sp + 7] == c.mem[c.sp + 2..c.sp + 7]
  {
  }

  // ---- The acknowledgements --------------------------------------------------------------------------------

  // The bytes that reach the controllers: one EOI each, the slave's first.
  function Eois(v: nat): seq<(int, Word)> {
    if 32 <= v < 40 then [(0x20, 0x20)]
    else if 40 <= v < 48 then [(0xa0, 0x20), (0x20, 0x20)]
    else []
  }

  // %al on its own.
  lemma LowByte(eax: Word)
    ensures (eax - eax % 256 + 0x20) % 256 == 0x20
  {
    DivIs(eax - eax % 256 + 0x20, 256, eax / 256, 0x20);
  }

  lemma EoiPath(c: Core, left: Trace)
    ensures Execute(Code(EoiPic1), 2, c, left) ==
      Execute(Code(IdtCommon), 1, Step(PopEax, Step(OutAl(0x20), c, left), left), left)
  {
    var code := Code(EoiPic1);
    assert code[1..] == [PopEax, Jmp(IdtCommon)] && code[1..][1..] == [Jmp(IdtCommon)];
    var c1 := Step(OutAl(0x20), c, left);
    hide Execute, Step;
    Straight(code, 2, c, left);
    Straight(code[1..], 2, c1, left);
    JumpsTo(IdtCommon, 2, Step(PopEax, c1, left), left);
  }

  lemma Ack1Path(c: Core, left: Trace)
    ensures Execute(Code(AckPic1), 3, c, left) ==
      Execute(Code(EoiPic1), 2, Step(MovAl(0x20), Step(PushEax, c, left), left), left)
  {
    var code := Code(AckPic1);
    assert code[1..] == [MovAl(0x20), Jmp(EoiPic1)] && code[1..][1..] == [Jmp(EoiPic1)];
    var c1 := Step(PushEax, c, left);
    hide Execute, Step;
    Straight(code, 3, c, left);
    Straight(code[1..], 3, c1, left);
    JumpsTo(EoiPic1, 3, Step(MovAl(0x20), c1, left), left);
  }

  lemma Ack2Path(c: Core, left: Trace)
    ensures Execute(Code(AckPic2), 4, c, left) ==
      Execute(Code(EoiPic1), 2, Step(OutAl(0xa0), Step(MovAl(0x20), Step(PushEax, c, left), left), left), left)
  {
    var code := Code(AckPic2);
    assert code[1..] == [MovAl(0x20), OutAl(0xa0), Jmp(EoiPic1)];
    assert code[1..][1..] == [OutAl(0xa0), Jmp(EoiPic1)] && code[1..][1..][1..] == [Jmp(EoiPic1)];
    var c1 := Step(PushEax, c, left);
    var c2 := Step(MovAl(0x20), c1, left);
    hide Execute, Step;
    Straight(code, 4, c, left);
    Straight(code[1..], 4, c1, left);
    Straight(code[1..][1..], 4, c2, left);
    JumpsTo(EoiPic1, 4, Step(OutAl(0xa0), c2, left), left);
  }

  // Acknowledging costs the word below the stack pointer and nothing else.
  function Acked(c: Core, outs: seq<(int, Word)>): Core
    requires 1 <= c.sp <= PHYS_WORDS
  {
    c.(mem := c.mem[c.sp - 1 := c.g.eax], outs := c.outs + outs)
  }

  lemma AcksAre(v: nat, c: Core, left: Trace)
    requires 32 <= v < 48 && 1 <= c.sp <= PHYS_WORDS
    ensures Execute([Jmp(if v < 40 then AckPic1 else AckPic2)], 5, c, left)
      == Execute(Code(IdtCommon), 1, Acked(c, Eois(v)), left)
  {
    LowByte(c.g.eax);
    var c1 := Step(MovAl(0x20), Step(PushEax, c, left), left);
    if v < 40 {
      assert Step(PopEax, Step(OutAl(0x20), c1, left), left) == Acked(c, Eois(v));
      hide Execute, Code, Step, Acked, Eois;
      JumpsTo(AckPic1, 5, c, left);
      Ack1Path(c, left);
      EoiPath(c1, left);
    } else {
      var c2 := Step(OutAl(0xa0), c1, left);
      assert Step(PopEax, Step(OutAl(0x20), c2, left), left) == Acked(c, Eois(v));
      hide Execute, Code, Step, Acked, Eois;
      JumpsTo(AckPic2, 5, c, left);
      Ack2Path(c, left);
      EoiPath(c2, left);
    }
  }

  // ---- Whole trampolines ------------------------------------------------------------------------------------

  // The exceptions for which the processor pushes an error code (Intel SDM, volume 3A, section 6.3, table 6-1).
  predicate HasErrorCode(v: nat) {
    match v
    case 8 => true
    case 10 => true
    case 11 => true
    case 12 => true
    case 13 => true
    case 14 => true
    case 17 => true
    case _ => false
  }

  // Dwords of the error code that the processor itself pushed.
  function ErrorWords(v: nat): nat { if HasErrorCode(v) then 1 else 0 }

  // Both hardware frames become one: error code and vector on top of the return frame.
  function Normalised(v: nat, c: Core): Core
    requires 2 <= c.sp <= PHYS_WORDS && v < 256
  {
    if HasErrorCode(v) then Push(c, v) else Push(Push(c, MINUS_ONE), v)
  }

  // The machine where the stub has reached idt_common, and at the call of intr_hdlr.
  function AtCommon(v: nat, c: Core): Core
    requires 3 <= c.sp <= PHYS_WORDS && v < 256
  {
    if 32 <= v < 48 then Acked(Normalised(v, c), Eois(v)) else Normalised(v, c)
  }

  function AtCall(v: nat, c: Core): Core
    requires 11 <= c.sp <= PHYS_WORDS && v < 256
  {
    Called(AtCommon(v, c))
  }

  lemma ReachesCommon(v: nat, c: Core, left: Trace)
    requires v < 256 && !Reserved(v) && 3 <= c.sp <= PHYS_WORDS
    ensures Trampoline(v, c, left) == Execute(Code(IdtCommon), 1, AtCommon(v, c), left)
  {
    var code := Code(Stub(v));
    var c1 := Step(code[0], c, left);
    Straight(code, 5, c, left);
    if HasErrorCode(v) {
      assert code[1..] == [Jmp(IdtCommon)] && c1 == Normalised(v, c);
      hide Execute, Code;
      JumpsTo(IdtCommon, 5, c1, left);
    } else {
      var c2 := Step(code[1], c1, left);
      assert code[1..][0] == code[1] && c2 == Normalised(v, c);
      Straight(code[1..], 5, c1, left);
      assert code[1..][1..] == [code[2]];
      hide Execute, Step;
      if 32 <= v < 48 {
        AcksAre(v, c2, left);
      } else {
        JumpsTo(IdtCommon, 5, c2, left);
      }
    }
  }

  // What the word list above the stack pointer of idt_common is.
  lemma CommonWords(v: nat, c: Core)
    requires v < 256 && !Reserved(v) && DEPTH <= c.sp <= PHYS_WORDS - 6
    ensures var b, e := AtCommon(v, c), ErrorWords(v);
      && b.sp == c.sp + e - 2 && b.g == c.g && b.outs == c.outs + Eois(v)
      && b.mem[b.sp..b.sp + 7] == [v, if HasErrorCode(v) then c.mem[c.sp] else MINUS_ONE] + c.mem[c.sp + e..c.sp + e + 5]
      && b.mem[b.sp + 3] == c.mem[c.sp + e + 1]
      && (forall i :: c.sp <= i < PHYS_WORDS ==> b.mem[i] == c.mem[i])
  {
    hide Eois;
    assert !(32 <= v < 48) ==> Eois(v) == [] by { EoisNone(v); }
    assert c.outs + [] == c.outs;
  }

  lemma EoisNone(v: nat)
    ensures !(32 <= v < 48) ==> Eois(v) == []
  {
  }

  // Main theorem. For every vector that reaches idt_common, either hardware frame, and any handler
  // that keeps its argument's frame: all registers come back, iret takes the frame the processor
  // pushed, the handler has seen the vector and the error code (or -1) in their places, and the
  // controllers have got their EOIs.
  lemma InterruptIsTransparent(v: nat, c: Core, left: Trace)
    requires v < 256 && !Reserved(v) && DEPTH <= c.sp <= PHYS_WORDS - 6
    requires FrameKept(AtCall(v, c), left)
    ensures var r, e := Trampoline(v, c, left), ErrorWords(v);
      var n := if Ring3(c.mem[c.sp + e + 1]) then 5 else 3;
      && r.g == c.g && r.sp == c.sp + e + n && r.ret == c.mem[c.sp + e..c.sp + e + n]
      && r.outs == c.outs + Eois(v)
      && r.seen == GprWords(c.g, Address(c.sp + e - 2))
                   + [v, if HasErrorCode(v) then c.mem[c.sp] else MINUS_ONE] + c.mem[c.sp + e..c.sp + e + 5]
  {
    hide Trampoline, Execute, Code, GprWords, Eois, Called, Blit, AtCommon, FrameKept, Address;
    ReachesCommon(v, c, left);
    CommonWords(v, c);
    var b, e := AtCommon(v, c), ErrorWords(v);
    CommonIsTransparent(b, left);
    KeptAbove(b, left);
    var n := if Ring3(c.mem[c.sp + e + 1]) then 5 else 3;
    SameSlice(b.mem, c.mem, c.sp + e, n);
    var w := [v, if HasErrorCode(v) then c.mem[c.sp] else MINUS_ONE];
    Associative(GprWords(c.g, Address(b.sp)), w, c.mem[c.sp + e..c.sp + e + 5]);
  }

  // The EOIs precede the handler, so they are sent whatever it does to memory.
  lemma EoisAreSent(v: nat, c: Core, left: Trace)
    requires v < 256 && !Reserved(v) && DEPTH <= c.sp <= PHYS_WORDS - 6
    ensures Trampoline(v, c, left).outs == c.outs + Eois(v)
  {
    hide Trampoline, Execute, Code, Called, Blit, AtCommon, Eois;
    ReachesCommon(v, c, left);
    CommonWords(v, c);
    var b := AtCommon(v, c);
    CommonCalls(b, left);
    CalledOuts(b);
    Resumes(Step(CallIntrHdlr, Called(b), left), left);
  }

  lemma CalledOuts(c: Core)
    requires 8 <= c.sp <= PHYS_WORDS
    ensures Called(c).outs == c.outs
  {
  }

  lemma SameSlice(m: Mem, n: Mem, p: int, k: nat)
    requires 0 <= p <= PHYS_WORDS - k && forall i :: p <= i < p + k ==> m[i] == n[i]
    ensures m[p..p + k] == n[p..p + k]
  {
  }

  lemma Associative(a: seq<Word>, b: seq<Word>, c: seq<Word>)
    ensures a + (b + c) == a + b + c
  {
  }

  // The words of int_ctx_t: registers 0-7, `nr` 8, `err` 9, then the processor's frame. `err` is the processor's code
  // for the seven exceptions that have one, the page fault among them, and -1 for everything else.
  lemma HandlerSees(v: nat, c: Core, left: Trace)
    requires v < 256 && !(20 <= v < 32) && DEPTH <= c.sp <= PHYS_WORDS - 6
    requires FrameKept(AtCall(v, c), left)
    ensures var s, g := Trampoline(v, c, left).seen, c.g;
      var coded := v == 8 || v == 10 || v == 11 || v == 12 || v == 13 || v == 14 || v == 17;
      && |s| == 15 && s[8] == v && s[9] == (if coded then c.mem[c.sp] else 0xffff_ffff)
      && s[0] == g.edi && s[1] == g.esi && s[2] == g.ebp && s[4] == g.ebx && s[5] == g.edx && s[6] == g.ecx && s[7] == g.eax
      && s[10..] == (if coded then c.mem[c.sp + 1..c.sp + 6] else c.mem[c.sp..c.sp + 5])
  {
    hide Trampoline, AtCall, FrameKept;
    InterruptIsTransparent(v, c, left);
  }

  const NR_EXCP := 32
  const NMI_EXCP := 2

  // intr_hdlr: exceptions other than NMI end in panic, everything else returns.
  datatype Fate = Returns | Halts

  function IntrHdlr(nr: Word): Fate {
    var vector := nr % 256;
    if vector < NR_EXCP && vector != NMI_EXCP then Halts else Returns
  }

  // By the vector its stub pushed, every IRQ and every software interrupt comes back.
  lemma WhatReturns(v: nat, c: Core, left: Trace)
    requires v < 256 && !(20 <= v < 32) && DEPTH <= c.sp <= PHYS_WORDS - 6
    requires FrameKept(AtCall(v, c), left)
    ensures |Trampoline(v, c, left).seen| == CTX_WORDS
    ensures IntrHdlr(Trampoline(v, c, left).seen[8]).Returns? <==> v == 2 || v >= 32
  {
    hide Trampoline, AtCall, FrameKept;
    HandlerSees(v, c, left);
  }

  // ---- The processor's side ---------------------------------------------------------------------------------

  // The state in which a stub starts when `cpu` is interrupted with its stack top at dword `top`.
  function Accepted(cpu: Cpu, m: Mem, top: int, v: nat, error: Word, outs: seq<(int, Word)>): Core
    requires 6 <= top <= PHYS_WORDS
  {
    var frame := HardwareFrame(cpu, v, error);
    FrameShape(cpu, v, error);
    Core(cpu.g, top - |frame|, Blit(m, top - |frame|, frame), outs, [], [])
  }

  // Main theorem, end to end: whatever was interrupted, iret returns to it.
  lemma InterruptedCodeResumes(cpu: Cpu, m: Mem, top: int, v: nat, error: Word, outs: seq<(int, Word)>, left: Trace)
    requires v < 256 && !(20 <= v < 32) && DEPTH + 6 <= top <= PHYS_WORDS - 6
    requires FrameKept(AtCall(v, Accepted(cpu, m, top, v, error, outs)), left)
    ensures var r := Trampoline(v, Accepted(cpu, m, top, v, error, outs), left);
      && r.g == cpu.g && r.sp == top
      && r.ret == (if cpu.cs % 4 == 3 then [cpu.eip, cpu.cs, cpu.eflags, cpu.g.esp, cpu.ss] else [cpu.eip, cpu.cs, cpu.eflags])
      && r.outs == outs + (if 32 <= v < 40 then [(0x20, 0x20)] else if 40 <= v < 48 then [(0xa0, 0x20), (0x20, 0x20)] else [])
      && |r.seen| == 15 && r.seen[8] == v
      && r.seen[9] == (if v in {8, 10, 11, 12, 13, 14, 17} then error else 0xffff_ffff)
      && r.seen[10..13] == [cpu.eip, cpu.cs, cpu.eflags]
  {
    EoisAre(v);
    FrameIs(cpu);
    hide Trampoline, AtCall, FrameKept, Eois, Accepted, FrameWords, GprWords, ErrorWords;
    AcceptedWords(cpu, m, top, v, error, outs);
    var c, e, f := Accepted(cpu, m, top, v, error, outs), ErrorWords(v), FrameWords(cpu);
    InterruptIsTransparent(v, c, left);
    HandlerSees(v, c, left);
    var s := Trampoline(v, c, left).seen;
    assert s[10..13] == s[10..][..3] == c.mem[c.sp + e..c.sp + e + 5][..3] == c.mem[c.sp + e..c.sp + e + |f|][..3];
  }

  lemma EoisAre(v: nat)
    ensures Eois(v) == if 32 <= v < 40 then [(0x20, 0x20)] else if 40 <= v < 48 then [(0xa0, 0x20), (0x20, 0x20)] else []
  {
  }

  lemma FrameIs(cpu: Cpu)
    ensures FrameWords(cpu) ==
      if cpu.cs % 4 == 3 then [cpu.eip, cpu.cs, cpu.eflags, cpu.g.esp, cpu.ss] else [cpu.eip, cpu.cs, cpu.eflags]
  {
  }

  lemma AcceptedWords(cpu: Cpu, m: Mem, top: int, v: nat, error: Word, outs: seq<(int, Word)>)
    requires v < 256 && DEPTH + 6 <= top <= PHYS_WORDS - 6
    ensures var c, e, f := Accepted(cpu, m, top, v, error, outs), ErrorWords(v), FrameWords(cpu);
      && c.g == cpu.g && c.outs == outs && c.sp == top - |f| - e && |f| == (if Ring3(cpu.cs) then 5 else 3)
      && 0 <= e <= 1 && (HasErrorCode(v) <==> e == 1)
      && c.mem[c.sp + e..c.sp + e + |f|] == f && c.mem[c.sp + e + 1] == cpu.cs && (e == 1 ==> c.mem[c.sp] == error)
      && f[..3] == [cpu.eip, cpu.cs, cpu.eflags]
  {
    hide Blit, FrameWords, HardwareFrame, ErrorWords, HasErrorCode;
    var e, frame := ErrorWords(v), HardwareFrame(cpu, v, error);
    FrameShape(cpu, v, error);
    BlitReads(m, top - |frame|, frame, e);
  }

  // What the processor pushes, lowest word first.
  function HardwareFrame(cpu: Cpu, v: nat, error: Word): seq<Word> {
    (if HasErrorCode(v) then [error] else []) + FrameWords(cpu)
  }

  // The stubs agree with the processor: exactly those leave out the -1 for whose vectors it pushes an error code.
  lemma StubsMatchHardware(v: nat)
    ensures v in SHORT_STUBS <==> HasErrorCode(v)
  {
  }

  lemma FrameShape(cpu: Cpu, v: nat, error: Word)
    ensures var f, e, frame := FrameWords(cpu), ErrorWords(v), HardwareFrame(cpu, v, error);
      && |f| == (if Ring3(cpu.cs) then 5 else 3) && |frame| == e + |f| && f[..3] == [cpu.eip, cpu.cs, cpu.eflags]
      && frame[e..] == f && frame[e + 1] == cpu.cs && (e == 1 ==> frame[0] == error)
      && 0 <= e <= 1 && (HasErrorCode(v) <==> e == 1)
  {
  }

  lemma BlitReads(m: Mem, p: int, ws: seq<Word>, e: nat)
    requires 0 <= p <= PHYS_WORDS - |ws| && e + 1 < |ws|
    ensures var n := Blit(m, p, ws); n[p + e..p + |ws|] == ws[e..] && n[p + e + 1] == ws[e + 1] && n[p] == ws[0]
  {
  }

  // The vectors that Intel reserves do nothing: the interrupted code goes on with its registers, its
  // stack pointer and all of its stack, no handler has run and no controller has been written to.
  lemma ReservedReturns(cpu: Cpu, m: Mem, top: int, v: nat, error: Word, outs: seq<(int, Word)>, left: Trace)
    requires 20 <= v < 32 && DEPTH + 6 <= top <= PHYS_WORDS - 6
    ensures var r := Trampoline(v, Accepted(cpu, m, top, v, error, outs), left);
      && r.g == cpu.g && r.sp == top && r.ret == FrameWords(cpu) && r.outs == outs && r.seen == []
      && forall i :: top <= i < PHYS_WORDS ==> r.mem[i] == m[i]
  {
    AcceptedWords(cpu, m, top, v, error, outs);
    var c, code := Accepted(cpu, m, top, v, error, outs), Code(Stub(v));
    assert code == [Iret] && code[1..] == [];
    hide Accepted, FrameWords;
    Straight(code, 5, c, left);
  }

  // ---- Where the stubs lie ----------------------------------------------------------------------------------

  // Bytes of a stub: `pushl` of a sign-extended byte takes two, of a dword five; `jmp` up to five.
  function PushSize(v: nat): nat { if v < 128 then 2 else 5 }

  function StubSize(v: nat): (n: nat)
    ensures 1 <= n <= 16
  {
    if Reserved(v) then 1 else (if v in SHORT_STUBS then 0 else 2) + PushSize(v) + 5
  }

  function AlignUp(a: nat): (r: nat)
    ensures r % 16 == 0 && a <= r < a + 16
  {
    (a + 15) / 16 * 16
  }

  // `.align 16` before every stub.
  function StubAddress(base: nat, v: nat): nat {
    if v == 0 then AlignUp(base) else AlignUp(StubAddress(base, v - 1) + StubSize(v - 1))
  }

  lemma {:induction false} StubsAreEvenlySpaced(base: nat, v: nat)
    requires base % 16 == 0
    ensures StubAddress(base, v) == base + 16 * v
  {
    if v > 0 {
      StubsAreEvenlySpaced(base, v - 1);
      AlignNext(base + 16 * (v - 1), StubSize(v - 1));
    } else {
      AlignNext(base, 0);
    }
  }

  lemma AlignNext(a: nat, n: nat)
    requires a % 16 == 0 && n <= 16
    ensures AlignUp(a + n) == if n == 0 then a else a + 16
  {
    var k := a / 16;
    assert a == 16 * k;
  }
}
