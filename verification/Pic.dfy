// The two 8259A controllers: the initialisation sequence of kernel/core/pic.c, and the way of an
// IRQ from its line to the end of its stub.
module Pic {
  import opened Words
  import opened BitFields
  import opened Descriptors
  import opened Trampolines

  // ---- The controller ---------------------------------------------------------------------------------------

  // The command word expected next, from the Intel 8259A data sheet: after ICW1, writes with A0 set
  // are ICW2, ICW3 (unless single) and ICW4 (if announced); otherwise they set the mask.
  datatype Stage = Fresh | Icw2 | Icw3 | Icw4 | Ready

  datatype Controller = Controller(stage: Stage, single: bool, needs4: bool, base: nat, link: nat, x86: bool,
                                   autoEoi: bool, imr: nat, eois: nat)

  const UNSET := Controller(Fresh, false, false, 0, 0, false, false, 0, 0)

  const EOI := 0x20

  // A write with A0 clear: ICW1 if bit 4 is set, else OCW2 or OCW3.
  function Command(c: Controller, v: nat): Controller {
    if v / 16 % 2 == 1 then
      Controller(Icw2, v / 2 % 2 == 1, v % 2 == 1, c.base, c.link, false, false, 0, c.eois)
    else if v == EOI then c.(eois := c.eois + 1)
    else c
  }

  function AfterIcw3(c: Controller): Stage { if c.needs4 then Icw4 else Ready }

  // A write with A0 set.
  function Data(c: Controller, v: nat): Controller {
    match c.stage
    case Icw2 => c.(base := v / 8 * 8, stage := if c.single then AfterIcw3(c) else Icw3)
    case Icw3 => c.(link := v, stage := AfterIcw3(c))
    case Icw4 => c.(x86 := v % 2 == 1, autoEoi := v / 2 % 2 == 1, stage := Ready)
    case _ => c.(imr := v)
  }

  const PIC1 := 0x20
  const PIC2 := 0xa0

  // The controller at ports `at` and `at + 1` after a write to a port.
  function Written(c: Controller, at: nat, v: nat, port: nat): Controller {
    if port == at then Command(c, v) else if port == at + 1 then Data(c, v) else c
  }

  // The pair of controllers behind their ports.
  class Pics {
    var pic1: Controller
    var pic2: Controller

    constructor ()
      ensures pic1 == UNSET && pic2 == UNSET
    {
      pic1, pic2 := UNSET, UNSET;
    }

    method Out(v: nat, port: nat)
      modifies this
      ensures pic1 == Written(old(pic1), PIC1, v, port)
      ensures pic2 == Written(old(pic2), PIC2, v, port)
    {
      if port == PIC1 { pic1 := Command(pic1, v); }
      else if port == PIC1 + 1 { pic1 := Data(pic1, v); }
      else if port == PIC2 { pic2 := Command(pic2, v); }
      else if port == PIC2 + 1 { pic2 := Data(pic2, v); }
    }

    // pic_init, from any state of the controllers.
    method PicInit()
      modifies this
      ensures Remapped(pic1, pic2)
      ensures pic1.eois == old(pic1.eois) && pic2.eois == old(pic2.eois)
    {
      hide Pack, Command, Data;
      ghost var a, b := pic1, pic2;
      var icw1 := 0x11;
      Out(icw1, PIC1);
      Out(icw1, PIC2);

      var icw2 := 32;
      Out(icw2, PIC1 + 1);
      icw2 := 32 + 8;
      Out(icw2, PIC2 + 1);

      IcwFields();
      var master := Pack([1, 1, 1, 1, 1, 1, 1, 1], [0, 0, 1, 0, 0, 0, 0, 0]);
      Out(master, PIC1 + 1);
      var slave := Pack([3, 5], [2, 0]);
      Out(slave, PIC2 + 1);

      var icw4 := 1;
      Out(icw4, PIC1 + 1);
      Out(icw4, PIC2 + 1);
      Initialised(a, 32, 4);
      Initialised(b, 40, 2);
    }
  }

  // ICW1 to ICW4 as one controller gets them.
  lemma Initialised(c: Controller, base: nat, link: nat)
    requires base % 8 == 0
    ensures Data(Data(Data(Command(c, 0x11), base), link), 1) ==
      Controller(Ready, false, true, base, link, true, false, 0, c.eois)
  {
  }

  lemma IcwFields()
    ensures Pack([1, 1, 1, 1, 1, 1, 1, 1], [0, 0, 1, 0, 0, 0, 0, 0]) == 4
    ensures Pack([3, 5], [2, 0]) == 2
  {
    Powers();
    hide Pow2;
    var ws: seq<nat>, vs: seq<nat> := [1, 1, 1, 1, 1, 1, 1, 1], [0, 0, 1, 0, 0, 0, 0, 0];
    assert vs[3..] == Zeros(5) && |ws[3..]| == 5;
    PackZeros(ws[3..]);
    assert ws[1..][1..][1..] == ws[3..] && vs[1..][1..][1..] == vs[3..];
    assert Pack(ws[1..][1..], vs[1..][1..]) == 1;
    assert Pack(ws[1..], vs[1..]) == 2;
    var us: seq<nat>, xs: seq<nat> := [3, 5], [2, 0];
    assert xs[1..] == Zeros(1) && |us[1..]| == 1;
    PackZeros(us[1..]);
  }

  // ---- Delivery -------------------------------------------------------------------------------------------------

  predicate Operational(c: Controller) { c.stage == Ready && c.x86 && !c.autoEoi && !c.single }

  predicate Remapped(p1: Controller, p2: Controller) {
    && Operational(p1) && Operational(p2) && p1.base == 32 && p2.base == 40 && p1.link == 4 && p2.link == 2
    && p1.imr == 0 && p2.imr == 0
  }

  // Bit `line` of a mask.
  predicate HasLine(mask: nat, line: nat) { mask / Pow2(line) % 2 == 1 }

  // The vector that the processor gets for IRQ n: the master's own line, or one of the slave, if
  // the slave answers to the master's line it is wired to.
  function VectorOf(p1: Controller, p2: Controller, n: nat): Option<nat> {
    if !Operational(p1) then None
    else if n < 8 then if HasLine(p1.imr, n) then None else Some(p1.base + n)
    else if n < 16 && Operational(p2) && p2.link < 8 && HasLine(p1.link, p2.link) && !HasLine(p1.imr, p2.link)
            && !HasLine(p2.imr, n - 8)
      then Some(p2.base + n - 8)
    else None
  }

  lemma NoLine(n: nat)
    ensures !HasLine(0, n)
  {
    DivIs(0, Pow2(n), 0, 0);
  }

  lemma IrqVector(p1: Controller, p2: Controller, n: nat)
    requires Remapped(p1, p2) && n < 16
    ensures VectorOf(p1, p2, n) == Some(32 + n)
  {
    NoLine(n);
    NoLine(2);
    NoLine(if n >= 8 then n - 8 else 0);
    assert Pow2(2) == 4 && HasLine(4, 2);
  }

  // Bytes that reach a controller's command port among those sent.
  function EoisTo(outs: seq<(int, Word)>, port: int): nat {
    if outs == [] then 0
    else EoisTo(outs[..|outs| - 1], port) + if outs[|outs| - 1] == (port, EOI) then 1 else 0
  }

  lemma {:induction false} EoisAppend(a: seq<(int, Word)>, b: seq<(int, Word)>, port: int)
    ensures EoisTo(a + b, port) == EoisTo(a, port) + EoisTo(b, port)
  {
    if b == [] {
      assert a + b == a;
    } else {
      assert (a + b)[..|a + b| - 1] == a + b[..|b| - 1];
      EoisAppend(a, b[..|b| - 1], port);
    }
  }

  lemma StubEois(v: nat)
    requires 32 <= v < 48
    ensures EoisTo(Eois(v), PIC1) == 1 && EoisTo(Eois(v), PIC2) == if v >= 40 then 1 else 0
  {
    var one: seq<(int, Word)> := [(0x20, 0x20)];
    var two: seq<(int, Word)> := [(0xa0, 0x20), (0x20, 0x20)];
    assert one[..0] == [] && two[..1] == [(0xa0, 0x20)] && two[..1][..0] == [];
    assert EoisTo(one, PIC1) == 1 && EoisTo(one, PIC2) == 0;
    assert EoisTo(two[..1], PIC1) == 0 && EoisTo(two[..1], PIC2) == 1;
  }

  // Main theorem: after pic_init and intr_init every IRQ n arrives as vector 32 + n, its gate leads
  // to the stub that the assembler placed for that vector, and running the stub acknowledges
  // the master once, and the slave once exactly for its own lines, whatever the handler does.
  lemma IrqRouting(p1: Controller, p2: Controller, idt: seq<Quad>, base: Word, n: nat, c: Core, left: Trace)
    requires Remapped(p1, p2) && n < 16
    requires Installed(idt, IDT_NR_DESC, base) && base % 16 == 0 && base + 16 * IDT_NR_DESC <= 0x1_0000_0000
    requires DEPTH <= c.sp <= Words.PHYS_WORDS - 6
    ensures VectorOf(p1, p2, n) == Some(32 + n)
    ensures GateOffset(ReadGate(idt[32 + n])) == StubAddress(base, 32 + n)
    ensures var r := Trampoline(32 + n, c, left);
      && EoisTo(r.outs, PIC1) == EoisTo(c.outs, PIC1) + 1
      && EoisTo(r.outs, PIC2) == EoisTo(c.outs, PIC2) + if n >= 8 then 1 else 0
  {
    hide Trampoline, ReadGate, VectorOf, EoisTo, Eois, StubAddress;
    IrqVector(p1, p2, n);
    assert Serves(ReadGate(idt[32 + n]), Add32(base, IDT_ISR_ALGN * (32 + n)), KERNEL_CODE, 0);
    DivIs(base + 16 * (32 + n), 0x1_0000_0000, 0, base + 16 * (32 + n));
    StubsAreEvenlySpaced(base, 32 + n);
    EoisAreSent(32 + n, c, left);
    StubEois(32 + n);
    EoisAppend(c.outs, Eois(32 + n), PIC1);
    EoisAppend(c.outs, Eois(32 + n), PIC2);
  }
}
