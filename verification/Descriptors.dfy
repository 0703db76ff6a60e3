// Gates and segment descriptors: kernel/include/intr.h, kernel/include/segmem.h, the loops of
// kernel/core/intr.c and tp1/tp.c, and the gates that tp_exam/tp.c patches.
module Descriptors {
  import opened Words
  import opened BitFields
  import opened Machine

  // ---- Raw values -------------------------------------------------------------------------------------------

  function Zeros(n: nat): (r: seq<nat>)
    ensures |r| == n
  {
    seq(n, _ => 0)
  }

  lemma {:induction false} PackZeros(ws: seq<nat>)
    ensures Pack(ws, Zeros(|ws|)) == 0 && Fits(ws, Zeros(|ws|))
  {
    if ws != [] {
      assert Zeros(|ws|)[1..] == Zeros(|ws[1..]|);
      PackZeros(ws[1..]);
    }
  }

  // Assigning a small integer to `raw` sets the first field and clears the others.
  lemma SmallRaw(ws: seq<nat>, x: nat)
    requires ws != [] && x < Pow2(ws[0])
    ensures Unpack(ws, x) == [x] + Zeros(|ws| - 1)
  {
    var vs := [x] + Zeros(|ws| - 1);
    assert vs[1..] == Zeros(|ws[1..]|);
    PackZeros(ws[1..]);
    UnpackPack(ws, vs);
  }

  lemma Sixteen()
    ensures Pow2(16) == 0x1_0000
  {
    SixtyFourBits();
  }

  // ---- Interrupt gates ---------------------------------------------------------------------------------------

  // int_desc_t, low field first.
  datatype Gate = Gate(offset1: nat, selector: nat, ist: nat, zero1: nat, kind: nat, zero2: nat, dpl: nat, p: nat,
                       offset2: nat)

  const GATE: seq<nat> := [16, 16, 3, 5, 4, 1, 2, 1, 16]

  function GateFields(g: Gate): seq<nat> {
    [g.offset1, g.selector, g.ist, g.zero1, g.kind, g.zero2, g.dpl, g.p, g.offset2]
  }

  function GateRaw(g: Gate): nat { Pack(GATE, GateFields(g)) }

  function ReadGate(raw: nat): Gate {
    var f := Unpack(GATE, raw);
    Gate(f[0], f[1], f[2], f[3], f[4], f[5], f[6], f[7], f[8])
  }

  predicate GateFits(g: Gate) {
    && g.offset1 < 0x1_0000 && g.selector < 0x1_0000 && g.ist < 8 && g.zero1 < 32 && g.kind < 16 && g.zero2 < 2
    && g.dpl < 4 && g.p < 2 && g.offset2 < 0x1_0000
  }

  // A gate is a quadword in memory, which reads back as the gate.
  lemma GateRoundTrip(g: Gate)
    requires GateFits(g)
    ensures GateRaw(g) < 0x1_0000_0000_0000_0000 && ReadGate(GateRaw(g)) == g
  {
    hide Pow2, Pack, Unpack, Width, Fits;
    GateWidths(GateFields(g));
    QuadsAreStructs(GATE, GateFields(g), 0);
  }

  // Every quadword is a gate.
  lemma QuadIsGate(raw: Quad)
    ensures GateFits(ReadGate(raw)) && GateRaw(ReadGate(raw)) == raw
  {
    hide Pow2, Pack, Unpack, Width, Fits;
    var f := Unpack(GATE, raw);
    GateWidths(f);
    QuadsAreStructs(GATE, f, raw);
    assert GateFields(ReadGate(raw)) == f;
  }

  // The quadword of a gate, by the places of its fields.
  lemma GateNumber(g: Gate)
    ensures GateRaw(g) == g.offset1 + g.selector * 0x1_0000 + g.ist * 0x1_0000_0000 + g.zero1 * 0x8_0000_0000
                          + g.kind * 0x100_0000_0000 + g.zero2 * 0x1000_0000_0000 + g.dpl * 0x2000_0000_0000
                          + g.p * 0x8000_0000_0000 + g.offset2 * 0x1_0000_0000_0000
  {
    hide Pow2, Pack;
    Powers();
    var f := GateFields(g);
    PackLastField(GATE, f);
    PackFrom(GATE, f, 7);
    PackFrom(GATE, f, 6);
    PackFrom(GATE, f, 5);
    PackFrom(GATE, f, 4);
    PackFrom(GATE, f, 3);
    PackFrom(GATE, f, 2);
    PackFrom(GATE, f, 1);
    PackFrom(GATE, f, 0);
    assert GATE[0..] == GATE && f[0..] == f;
  }

  lemma PackLastField(ws: seq<nat>, vs: seq<nat>)
    requires |vs| == |ws| > 0
    ensures Pack(ws[|ws| - 1..], vs[|vs| - 1..]) == vs[|vs| - 1]
  {
    PackFrom(ws, vs, |ws| - 1);
    assert ws[|ws|..] == [] && vs[|vs|..] == [];
  }

  // So a gate that serves `isr` is one number.
  lemma ServesNumber(q: Quad, isr: Word, dpl: nat)
    requires Serves(ReadGate(q), isr, KERNEL_CODE, dpl)
    ensures q == isr / 0x1_0000 * 0x1_0000_0000_0000 + (0x8e00 + 0x2000 * dpl) * 0x1_0000_0000 + 0x0008_0000 + isr % 0x1_0000
  {
    hide ReadGate, GateRaw;
    QuadIsGate(q);
    var g := ReadGate(q);
    GateNumber(g);
    DivIs(isr, 0x1_0000, g.offset2, g.offset1);
  }

  lemma GateWidths(f: seq<nat>)
    requires |f| == 9
    ensures Width(GATE) == 64
    ensures Fits(GATE, f) <==>
      && f[0] < 0x1_0000 && f[1] < 0x1_0000 && f[2] < 8 && f[3] < 32 && f[4] < 16 && f[5] < 2 && f[6] < 4 && f[7] < 2
      && f[8] < 0x1_0000
  {
    hide Pow2;
    Powers();
    assert Width(GATE) == 64;
    if Fits(GATE, f) {
      assert f[0] < Pow2(GATE[0]) && f[1] < Pow2(GATE[1]) && f[2] < Pow2(GATE[2]) && f[3] < Pow2(GATE[3]);
      assert f[4] < Pow2(GATE[4]) && f[5] < Pow2(GATE[5]) && f[6] < Pow2(GATE[6]) && f[7] < Pow2(GATE[7]);
      assert f[8] < Pow2(GATE[8]);
    }
  }

  lemma Powers()
    ensures Pow2(1) == 2 && Pow2(2) == 4 && Pow2(3) == 8 && Pow2(4) == 16 && Pow2(5) == 32 && Pow2(8) == 0x100
    ensures Pow2(16) == 0x1_0000
  {
    Sixteen();
  }

  const INTR_GATE_32 := 0xe
  const KERNEL_CODE := 0x08

  // Where the processor goes through a gate.
  function GateOffset(g: Gate): nat { g.offset2 * 0x1_0000 + g.offset1 }

  // A present 32-bit interrupt gate: the processor clears IF, and software may use it from ring dpl.
  predicate Serves(g: Gate, isr: Word, selector: nat, dpl: nat) {
    && GateOffset(g) == isr && g.selector == selector && g.kind == INTR_GATE_32 && g.p == 1 && g.dpl == dpl
    && g.ist == 0 && g.zero1 == 0 && g.zero2 == 0
  }

  lemma SmallGate(x: nat)
    requires x < 0x1_0000
    ensures ReadGate(x) == Gate(x, 0, 0, 0, 0, 0, 0, 0, 0)
  {
    Sixteen();
    SmallRaw(GATE, x);
  }

  // build_int_desc: the fields are assigned one after the other.
  method BuildIntDesc(cs: nat, isr: Word) returns (g: Gate)
    requires cs < 0x1_0000
    ensures GateFits(g) && Serves(g, isr, cs, 0)
  {
    SmallGate(isr % 0x1_0000);
    g := ReadGate(isr % 0x1_0000);
    g := g.(selector := cs);
    g := g.(kind := INTR_GATE_32);
    g := g.(offset2 := isr / 0x1_0000);
    g := g.(p := 1);
  }

  const IDT_NR_DESC := 256
  const IDT_ISR_ALGN := 16

  // Gate i of a table leads to slot i of the trampolines.
  ghost predicate Installed(idt: seq<Quad>, n: nat, trampoline: Word) {
    n <= |idt| && forall i :: 0 <= i < n ==> Serves(ReadGate(idt[i]), Add32(trampoline, IDT_ISR_ALGN * i), KERNEL_CODE, 0)
  }

  // The loop of intr_init.
  method IntrInit(idt: array<Quad>, trampoline: Word)
    requires idt.Length == IDT_NR_DESC
    modifies idt
    ensures Installed(idt[..], IDT_NR_DESC, trampoline)
    ensures forall i :: 0 <= i < 256 ==>
      var isr := (trampoline + 16 * i) % 0x1_0000_0000;
      idt[i] == isr / 0x1_0000 * 0x1_0000_0000_0000 + 0x8e00_0008_0000 + isr % 0x1_0000
  {
    hide ReadGate, GateRaw, Serves;
    var isr := trampoline;
    for i := 0 to IDT_NR_DESC
      invariant isr == Add32(trampoline, IDT_ISR_ALGN * i) && Installed(idt[..], i, trampoline)
    {
      var g := BuildIntDesc(KERNEL_CODE, isr);
      GateRoundTrip(g);
      idt[i] := GateRaw(g);
      NextIsr(trampoline, i);
      isr := Add32(isr, IDT_ISR_ALGN);
    }
    forall i | 0 <= i < 256
      ensures var isr := (trampoline + 16 * i) % 0x1_0000_0000;
        idt[i] == isr / 0x1_0000 * 0x1_0000_0000_0000 + 0x8e00_0008_0000 + isr % 0x1_0000
    {
      ServesNumber(idt[i], Add32(trampoline, IDT_ISR_ALGN * i), 0);
    }
  }

  lemma NextIsr(base: Word, i: nat)
    ensures Add32(Add32(base, IDT_ISR_ALGN * i), IDT_ISR_ALGN) == Add32(base, IDT_ISR_ALGN * (i + 1))
  {
    var x, m := base + IDT_ISR_ALGN * i, 0x1_0000_0000;
    assert x == x / m * m + x % m;
    assert (x + 16) % m == (x % m + 16) % m;
  }

  // One gate of config_interrupt: a new handler, open to ring 3.
  method PatchGate(idt: array<Quad>, v: nat, isr: Word)
    requires idt.Length == IDT_NR_DESC && v < IDT_NR_DESC
    modifies idt
    ensures var was := ReadGate(old(idt[v]));
      && idt[..] == old(idt[..])[v := idt[v]]
      && ReadGate(idt[v]) == was.(offset1 := isr % 0x1_0000, offset2 := isr / 0x1_0000, dpl := 3)
  {
    hide ReadGate, GateRaw;
    QuadIsGate(idt[v]);
    var g := ReadGate(idt[v]);
    g := g.(offset1 := isr % 0x1_0000);
    g := g.(offset2 := isr / 0x1_0000);
    g := g.(dpl := 3);
    GateRoundTrip(g);
    idt[v] := GateRaw(g);
  }

  // config_interrupt after intr_init: ring 3 can raise 32 and 0x80, which go to their own handlers;
  // every other vector still has its trampoline, closed to ring 3.
  method ConfigInterrupt(idt: array<Quad>, trampoline: Word, clock: Word, syscall: Word)
    requires idt.Length == IDT_NR_DESC && Installed(idt[..], IDT_NR_DESC, trampoline)
    modifies idt
    ensures Serves(ReadGate(idt[32]), clock, KERNEL_CODE, 3) && Serves(ReadGate(idt[0x80]), syscall, KERNEL_CODE, 3)
    ensures forall i :: 0 <= i < IDT_NR_DESC && i != 32 && i != 0x80 ==>
      Serves(ReadGate(idt[i]), Add32(trampoline, IDT_ISR_ALGN * i), KERNEL_CODE, 0)
    ensures idt[32] == clock / 0x1_0000 * 0x1_0000_0000_0000 + 0xee00_0008_0000 + clock % 0x1_0000
    ensures idt[0x80] == syscall / 0x1_0000 * 0x1_0000_0000_0000 + 0xee00_0008_0000 + syscall % 0x1_0000
    ensures forall i :: 0 <= i < 256 && i != 32 && i != 0x80 ==> idt[i] == old(idt[i])
  {
    ghost var before := idt[..];
    assert Serves(ReadGate(before[32]), Add32(trampoline, IDT_ISR_ALGN * 32), KERNEL_CODE, 0);
    assert Serves(ReadGate(before[0x80]), Add32(trampoline, IDT_ISR_ALGN * 0x80), KERNEL_CODE, 0);
    hide ReadGate;
    PatchGate(idt, 32, clock);
    assert idt[0x80] == before[0x80];
    PatchGate(idt, 0x80, syscall);
    assert idt[..] == before[32 := idt[32]][0x80 := idt[0x80]];
    forall i | 0 <= i < IDT_NR_DESC && i != 32 && i != 0x80
      ensures Serves(ReadGate(idt[i]), Add32(trampoline, IDT_ISR_ALGN * i), KERNEL_CODE, 0)
    {
      assert idt[i] == before[i];
    }
    ServesNumber(idt[32], clock, 3);
    ServesNumber(idt[0x80], syscall, 3);
  }

  // ---- Segment descriptors -------------------------------------------------------------------------------------

  // seg_desc_t, low field first.
  datatype Segment = Segment(limit1: nat, base1: nat, base2: nat, kind: nat, s: nat, dpl: nat, p: nat, limit2: nat,
                             avl: nat, l: nat, d: nat, g: nat, base3: nat)

  const SEGMENT: seq<nat> := [16, 16, 8, 4, 1, 2, 1, 4, 1, 1, 1, 1, 8]

  function SegmentFields(x: Segment): seq<nat> {
    [x.limit1, x.base1, x.base2, x.kind, x.s, x.dpl, x.p, x.limit2, x.avl, x.l, x.d, x.g, x.base3]
  }

  function SegmentRaw(x: Segment): nat { Pack(SEGMENT, SegmentFields(x)) }

  function ReadSegment(raw: nat): Segment {
    var f := Unpack(SEGMENT, raw);
    Segment(f[0], f[1], f[2], f[3], f[4], f[5], f[6], f[7], f[8], f[9], f[10], f[11], f[12])
  }

  predicate SegmentFits(x: Segment) {
    && x.limit1 < 0x1_0000 && x.base1 < 0x1_0000 && x.base2 < 0x100 && x.kind < 16 && x.s < 2 && x.dpl < 4 && x.p < 2
    && x.limit2 < 16 && x.avl < 2 && x.l < 2 && x.d < 2 && x.g < 2 && x.base3 < 0x100
  }

  lemma SegmentRoundTrip(x: Segment)
    requires SegmentFits(x)
    ensures SegmentRaw(x) < 0x1_0000_0000_0000_0000 && ReadSegment(SegmentRaw(x)) == x
  {
    hide Pow2, Pack, Unpack, Width, Fits;
    SegmentWidths(SegmentFields(x));
    QuadsAreStructs(SEGMENT, SegmentFields(x), 0);
  }

  // Every quadword of a table is a segment descriptor.
  lemma QuadIsSegment(raw: Quad)
    ensures SegmentFits(ReadSegment(raw)) && SegmentRaw(ReadSegment(raw)) == raw
  {
    hide Pow2, Pack, Unpack, Width, Fits;
    var f := Unpack(SEGMENT, raw);
    SegmentWidths(f);
    QuadsAreStructs(SEGMENT, f, raw);
    assert SegmentFields(ReadSegment(raw)) == f;
  }

  predicate SegmentBounds(f: seq<nat>)
    requires |f| == 13
  {
    && f[0] < 0x1_0000 && f[1] < 0x1_0000 && f[2] < 0x100 && f[3] < 16 && f[4] < 2 && f[5] < 4 && f[6] < 2 && f[7] < 16
    && f[8] < 2 && f[9] < 2 && f[10] < 2 && f[11] < 2 && f[12] < 0x100
  }

  predicate SegmentLayout(ws: seq<nat>) {
    |ws| == 13 && ws[..7] == [16, 16, 8, 4, 1, 2, 1] && ws[7..] == [4, 1, 1, 1, 1, 8]
  }

  lemma SegmentWidths(f: seq<nat>)
    requires |f| == 13
    ensures Width(SEGMENT) == 64 && (Fits(SEGMENT, f) <==> SegmentBounds(f))
  {
    assert Width(SEGMENT) == 64 && SegmentLayout(SEGMENT);
    if SegmentBounds(f) { BoundedFits(SEGMENT, f); }
    if Fits(SEGMENT, f) { FitsBounded(SEGMENT, f); }
  }

  lemma BoundedFits(ws: seq<nat>, f: seq<nat>)
    requires |f| == 13 && SegmentLayout(ws) && SegmentBounds(f)
    ensures Fits(ws, f)
  {
    hide Pow2;
    Powers();
    forall i | 0 <= i < 13 ensures f[i] < Pow2(ws[i]) {
      if i < 7 { assert ws[i] == ws[..7][i]; } else { assert ws[i] == ws[7..][i - 7]; }
    }
  }

  lemma FitsBounded(ws: seq<nat>, f: seq<nat>)
    requires |f| == 13 && SegmentLayout(ws) && Fits(ws, f)
    ensures SegmentBounds(f)
  {
    hide Pow2;
    Powers();
    var a, b := ws[..7], ws[7..];
    assert f[0] < Pow2(a[0]) && f[1] < Pow2(a[1]) && f[2] < Pow2(a[2]) && f[3] < Pow2(a[3]);
    assert f[4] < Pow2(a[4]) && f[5] < Pow2(a[5]) && f[6] < Pow2(a[6]);
    assert f[7] < Pow2(b[0]) && f[8] < Pow2(b[1]) && f[9] < Pow2(b[2]) && f[10] < Pow2(b[3]) && f[11] < Pow2(b[4]);
    assert f[12] < Pow2(b[5]);
  }

  // The quadword of a descriptor, by the places of its fields.
  lemma SegmentNumber(x: Segment)
    ensures SegmentRaw(x) == x.limit1 + x.base1 * 0x1_0000 + x.base2 * 0x1_0000_0000 + x.kind * 0x100_0000_0000
                             + x.s * 0x1000_0000_0000 + x.dpl * 0x2000_0000_0000 + x.p * 0x8000_0000_0000
                             + x.limit2 * 0x1_0000_0000_0000 + x.avl * 0x10_0000_0000_0000 + x.l * 0x20_0000_0000_0000
                             + x.d * 0x40_0000_0000_0000 + x.g * 0x80_0000_0000_0000 + x.base3 * 0x100_0000_0000_0000
  {
    hide Pow2, Pack;
    Powers();
    var f := SegmentFields(x);
    PackLastField(SEGMENT, f);
    PackFrom(SEGMENT, f, 11);
    PackFrom(SEGMENT, f, 10);
    PackFrom(SEGMENT, f, 9);
    PackFrom(SEGMENT, f, 8);
    PackFrom(SEGMENT, f, 7);
    PackFrom(SEGMENT, f, 6);
    PackFrom(SEGMENT, f, 5);
    PackFrom(SEGMENT, f, 4);
    PackFrom(SEGMENT, f, 3);
    PackFrom(SEGMENT, f, 2);
    PackFrom(SEGMENT, f, 1);
    PackFrom(SEGMENT, f, 0);
    assert SEGMENT[0..] == SEGMENT && f[0..] == f;
  }

  // And the fields of a quadword, as its bits.
  lemma SegmentBits(q: Quad)
    ensures var x := ReadSegment(q); var n: int := q;
      && x.limit1 == n % 0x1_0000 && x.base1 == n / 0x1_0000 % 0x1_0000 && x.base2 == n / 0x1_0000_0000 % 0x100
      && x.kind == n / 0x100_0000_0000 % 16 && x.s == n / 0x1000_0000_0000 % 2 && x.dpl == n / 0x2000_0000_0000 % 4
      && x.p == n / 0x8000_0000_0000 % 2 && x.limit2 == n / 0x1_0000_0000_0000 % 16
      && x.avl == n / 0x10_0000_0000_0000 % 2 && x.l == n / 0x20_0000_0000_0000 % 2
      && x.d == n / 0x40_0000_0000_0000 % 2 && x.g == n / 0x80_0000_0000_0000 % 2
      && x.base3 == n / 0x100_0000_0000_0000 % 0x100
  {
    hide Pow2, Unpack, Width;
    Powers();
    HighPowers();
    SegmentOffsets(SEGMENT);
    UnpackAt(SEGMENT, q, 0);
    UnpackAt(SEGMENT, q, 1);
    UnpackAt(SEGMENT, q, 2);
    UnpackAt(SEGMENT, q, 3);
    UnpackAt(SEGMENT, q, 4);
    UnpackAt(SEGMENT, q, 5);
    UnpackAt(SEGMENT, q, 6);
    UnpackAt(SEGMENT, q, 7);
    UnpackAt(SEGMENT, q, 8);
    UnpackAt(SEGMENT, q, 9);
    UnpackAt(SEGMENT, q, 10);
    UnpackAt(SEGMENT, q, 11);
    UnpackAt(SEGMENT, q, 12);
  }

  lemma HighPowers()
    ensures Pow2(0) == 1 && Pow2(32) == 0x1_0000_0000 && Pow2(40) == 0x100_0000_0000 && Pow2(44) == 0x1000_0000_0000
    ensures Pow2(45) == 0x2000_0000_0000 && Pow2(47) == 0x8000_0000_0000 && Pow2(48) == 0x1_0000_0000_0000
    ensures Pow2(52) == 0x10_0000_0000_0000 && Pow2(53) == 0x20_0000_0000_0000 && Pow2(54) == 0x40_0000_0000_0000
    ensures Pow2(55) == 0x80_0000_0000_0000 && Pow2(56) == 0x100_0000_0000_0000
  {
    Powers();
    PowNothing();
    hide Pow2;
    Pow2Adds(16, 16);
    Pow2Adds(32, 8);
    Pow2Adds(40, 4);
    Pow2Adds(44, 1);
    Pow2Adds(45, 2);
    Pow2Adds(32, 16);
    Pow2Adds(48, 4);
    Pow2Adds(52, 1);
    Pow2Adds(53, 1);
    Pow2Adds(54, 1);
    Pow2Adds(55, 1);
  }

  lemma PowNothing()
    ensures Pow2(0) == 1
  {
  }

  // Where the fields begin.
  lemma SegmentOffsets(ws: seq<nat>)
    requires ws == SEGMENT
    ensures Width(ws[..0]) == 0 && Width(ws[..1]) == 16 && Width(ws[..2]) == 32 && Width(ws[..3]) == 40
    ensures Width(ws[..4]) == 44 && Width(ws[..5]) == 45 && Width(ws[..6]) == 47 && Width(ws[..7]) == 48
    ensures Width(ws[..8]) == 52 && Width(ws[..9]) == 53 && Width(ws[..10]) == 54 && Width(ws[..11]) == 55
    ensures Width(ws[..12]) == 56
  {
    hide Width;
    WidthNothing();
    WidthNext(ws, 0);
    WidthNext(ws, 1);
    WidthNext(ws, 2);
    WidthNext(ws, 3);
    WidthNext(ws, 4);
    WidthNext(ws, 5);
    WidthNext(ws, 6);
    WidthNext(ws, 7);
    WidthNext(ws, 8);
    WidthNext(ws, 9);
    WidthNext(ws, 10);
    WidthNext(ws, 11);
  }

  lemma WidthNothing()
    ensures Width([]) == 0
  {
  }

  lemma {:induction false} WidthNext(ws: seq<nat>, i: nat)
    requires i < |ws|
    ensures Width(ws[..i + 1]) == Width(ws[..i]) + ws[i]
  {
    if i == 0 {
      assert ws[..1][1..] == [] && ws[..0] == [];
    } else {
      WidthNext(ws[1..], i - 1);
      assert ws[..i + 1][1..] == ws[1..][..i] && ws[..i][1..] == ws[1..][..i - 1];
    }
  }

  lemma SmallSegment(x: nat)
    requires x < 0x1_0000
    ensures ReadSegment(x) == Segment(x, 0, 0, 0, 0, 0, 0, 0, 0, 0, 0, 0, 0)
  {
    Sixteen();
    SmallRaw(SEGMENT, x);
  }

  // What print_gdt_content prints of a descriptor.
  datatype Line = Line(index: nat, start: Word, end: Word, kind: nat, s: nat, dpl: nat, p: nat, avl: nat, l: nat, d: nat,
                       g: nat)

  function SegmentBase(x: Segment): nat { x.base3 * 0x100_0000 + x.base2 * 0x1_0000 + x.base1 }
  function SegmentLimit(x: Segment): nat { x.limit2 * 0x1_0000 + x.limit1 }

  function Describe(i: nat, x: Segment): Line {
    var start := SegmentBase(x) % 0x1_0000_0000;
    var end := if x.g != 0 then (start + SegmentLimit(x) * 4096 + 4095) % 0x1_0000_0000
               else (start + SegmentLimit(x)) % 0x1_0000_0000;
    Line(i, start, end, x.kind, x.s, x.dpl, x.p, x.avl, x.l, x.d, x.g)
  }

  // gdt_flat_dsc: all 4 GB, for any privilege level and type.
  method GdtFlatDsc(pvl: nat, typ: nat) returns (x: Segment)
    requires pvl < 4 && typ < 16
    ensures SegmentFits(x)
    ensures forall i :: Describe(i, x) == Line(i, 0, 0xffff_ffff, typ, 1, pvl, 1, 0, 0, 1, 1)
    ensures SegmentRaw(x) == 0x00cf_9000_0000_ffff + pvl * 0x2000_0000_0000 + typ * 0x100_0000_0000
  {
    hide ReadSegment, Describe, SegmentRaw;
    SmallSegment(0);
    x := ReadSegment(0);
    x := x.(limit1 := 0xffff);
    x := x.(limit2 := 0xf);
    x := x.(kind := typ);
    x := x.(dpl := pvl);
    x := x.(d := 1);
    x := x.(g := 1);
    x := x.(s := 1);
    x := x.(p := 1);
    FlatDescription(pvl, typ);
    SegmentNumber(x);
  }

  lemma FlatDescription(pvl: nat, typ: nat)
    ensures var x := Segment(0xffff, 0, 0, typ, 1, pvl, 1, 0xf, 0, 0, 1, 1, 0);
      forall i :: Describe(i, x) == Line(i, 0, 0xffff_ffff, typ, 1, pvl, 1, 0, 0, 1, 1)
  {
    DivIs(0xffff_ffff, 0x1_0000_0000, 0, 0xffff_ffff);
    assert 0xf_ffff * 4096 + 4095 == 0xffff_ffff;
  }

  const TSS_AVL_32 := 9

  // create_tss_dsc: the base of the TSS and, as its limit, its size; the last byte it covers is
  // the one after the TSS.
  method CreateTssDsc(tss: Word) returns (x: Segment)
    ensures SegmentFits(x) && SegmentBase(x) == tss && SegmentLimit(x) == TSS_SIZE
    ensures forall i :: Describe(i, x) == Line(i, tss, Add32(tss, TSS_SIZE), TSS_AVL_32, 0, 0, 1, 0, 0, 0, 0)
    ensures var base: int := tss;
      SegmentRaw(x) == base / 0x100_0000 * 0x100_0000_0000_0000 + 0x8900_0000_0000 + base % 0x100_0000 * 0x1_0000 + 8329
  {
    hide ReadSegment, Describe, SegmentRaw;
    SmallSegment(TSS_SIZE);
    x := ReadSegment(TSS_SIZE);
    var low, high := tss % 0x1_0000, tss / 0x1_0000;
    x := x.(base1 := low);
    x := x.(base2 := high % 0x100);
    x := x.(base3 := high / 0x100);
    x := x.(kind := TSS_AVL_32);
    x := x.(p := 1);
    TssBase(tss);
    TssDescription(tss, x);
    SegmentNumber(x);
  }

  lemma TssBase(tss: Word)
    ensures var low, high := tss % 0x1_0000, tss / 0x1_0000;
      high / 0x100 * 0x100_0000 + high % 0x100 * 0x1_0000 + low == tss && high / 0x100 < 0x100
      && tss / 0x100_0000 == high / 0x100 && tss % 0x100_0000 == high % 0x100 * 0x1_0000 + low
  {
    DivIs(tss, 0x100_0000, tss / 0x1_0000 / 0x100, tss / 0x1_0000 % 0x100 * 0x1_0000 + tss % 0x1_0000);
    var high := tss / 0x1_0000;
    assert tss == high * 0x1_0000 + tss % 0x1_0000;
    assert high == high / 0x100 * 0x100 + high % 0x100;
  }

  lemma TssDescription(tss: Word, x: Segment)
    requires SegmentBase(x) == tss && SegmentLimit(x) == TSS_SIZE
    requires x.kind == TSS_AVL_32 && x.s == 0 && x.dpl == 0 && x.p == 1 && x.avl == 0 && x.l == 0 && x.d == 0 && x.g == 0
    ensures forall i :: Describe(i, x) == Line(i, tss, Add32(tss, TSS_SIZE), TSS_AVL_32, 0, 0, 1, 0, 0, 0, 0)
  {
    DivIs(tss, 0x1_0000_0000, 0, tss);
  }

  // Written to a table as raw quadwords and read back, they are described alike.
  lemma StoredDescription(i: nat, x: Segment)
    requires SegmentFits(x)
    ensures Describe(i, ReadSegment(SegmentRaw(x))) == Describe(i, x)
  {
    SegmentRoundTrip(x);
  }

  // ---- The walk of print_gdt_content ------------------------------------------------------------------------------

  // gdt_ptr after i rounds, and the bound it is compared with, both in 32 bits.
  function Pointer(addr: Word, i: nat): Word { Add32(addr, 8 * i) }
  function Bound(addr: Word, limit: nat): Word { Add32(addr, limit) }

  // The loop stops after exactly n rounds.
  ghost predicate Stops(addr: Word, limit: nat, n: nat) {
    (forall i :: 0 <= i < n ==> Pointer(addr, i) < Bound(addr, limit)) && Pointer(addr, n) >= Bound(addr, limit)
  }

  // Descriptors that begin before the limit.
  function Entries(limit: nat): nat { (limit + 7) / 8 }

  lemma PointerBelow(addr: Word, i: nat)
    ensures addr + 8 * i < 0x1_0000_0000 ==> Pointer(addr, i) == addr + 8 * i
    ensures Pointer(addr, i) % 8 == addr % 8
  {
    var x, m := addr + 8 * i, 0x1_0000_0000;
    if x < m { DivIs(x, m, 0, x); }
    var q := x / m;
    assert x == q * m + x % m;
    assert x % m == addr + 8 * (i - q * 0x2000_0000);
  }

  // A table inside the address space is walked to its end, and no further.
  lemma WalkStops(addr: Word, limit: nat)
    requires addr + limit < 0x1_0000_0000 && addr + 8 * Entries(limit) < 0x1_0000_0000
    ensures Stops(addr, limit, Entries(limit))
  {
    var n := Entries(limit);
    DivIs(addr + limit, 0x1_0000_0000, 0, addr + limit);
    forall i | 0 <= i < n ensures Pointer(addr, i) < Bound(addr, limit) { PointerBelow(addr, i); }
    PointerBelow(addr, n);
  }

  // If its last descriptor touches the top of the address space, the pointer wraps and the walk never ends.
  lemma WalkRunsOn(addr: Word, limit: nat, n: nat)
    requires addr + limit < 0x1_0000_0000 <= addr + 8 * Entries(limit)
    ensures Pointer(addr, n) < Bound(addr, limit)
  {
    var e, r := Entries(limit), addr % 8;
    DivIs(addr + limit, 0x1_0000_0000, 0, addr + limit);
    PointerBelow(addr, n);
    assert 8 * e <= limit + 7;
    var p := Pointer(addr, n);
    assert p == 8 * (p / 8) + r && addr == 8 * (addr / 8) + r;
    assert addr / 8 + e >= 0x2000_0000 && addr / 8 + e - 1 < 0x2000_0000;
    assert p / 8 <= 0x1fff_ffff;
    assert addr + 8 * (e - 1) < addr + limit;
  }

  // If the bound wraps, the walk is over before it begins.
  lemma WalkStartsBeyond(addr: Word, limit: nat)
    requires limit < 0x1_0000 && addr + limit >= 0x1_0000_0000
    ensures Stops(addr, limit, 0)
  {
    DivIs(addr + limit, 0x1_0000_0000, 1, addr + limit - 0x1_0000_0000);
    PointerBelow(addr, 0);
  }

  // The walk ends exactly if the table and the pointer past it stay below 2^32, or the bound itself wraps.
  lemma WalkEndsIff(addr: Word, limit: nat)
    requires limit < 0x1_0000
    ensures (exists n :: Stops(addr, limit, n)) <==>
      addr + limit >= 0x1_0000_0000 || addr + 8 * Entries(limit) < 0x1_0000_0000
  {
    if addr + limit >= 0x1_0000_0000 {
      WalkStartsBeyond(addr, limit);
    } else if addr + 8 * Entries(limit) < 0x1_0000_0000 {
      WalkStops(addr, limit);
    } else {
      forall n: nat ensures !Stops(addr, limit, n) { WalkRunsOn(addr, limit, n); }
    }
  }

  // print_gdt_content: one line for each descriptor of the table, none if the bound wraps.
  method PrintGdtContent(table: Word -> Quad, addr: Word, limit: nat) returns (lines: seq<Line>)
    requires limit < 0x1_0000 && (addr + limit >= 0x1_0000_0000 || addr + 8 * Entries(limit) < 0x1_0000_0000)
    ensures |lines| == if addr + limit < 0x1_0000_0000 then Entries(limit) else 0
    ensures forall i :: 0 <= i < |lines| ==>
      var q: int := table((addr + 8 * i) % 0x1_0000_0000);
      var base, limit := q / 0x1_0000 % 0x100_0000 + q / 0x100_0000_0000_0000 * 0x100_0000,
                         q % 0x1_0000 + q / 0x1_0000_0000_0000 % 16 * 0x1_0000;
      var end := if q / 0x80_0000_0000_0000 % 2 == 1 then base + limit * 4096 + 4095 else base + limit;
      && lines[i].index == i && lines[i].start == base && lines[i].end == end % 0x1_0000_0000
      && lines[i].kind == q / 0x100_0000_0000 % 16 && lines[i].s == q / 0x1000_0000_0000 % 2
      && lines[i].dpl == q / 0x2000_0000_0000 % 4 && lines[i].p == q / 0x8000_0000_0000 % 2
      && lines[i].avl == q / 0x10_0000_0000_0000 % 2 && lines[i].l == q / 0x20_0000_0000_0000 % 2
      && lines[i].d == q / 0x40_0000_0000_0000 % 2 && lines[i].g == q / 0x80_0000_0000_0000 % 2
  {
    hide ReadSegment, Describe;
    ghost var n := if addr + limit < 0x1_0000_0000 then Entries(limit) else 0;
    if addr + limit < 0x1_0000_0000 { WalkStops(addr, limit); } else { WalkStartsBeyond(addr, limit); }
    var ptr, i := addr, 0;
    lines := [];
    PointerBelow(addr, 0);
    while ptr < Add32(addr, limit)
      invariant i == |lines| <= n && ptr == Pointer(addr, i)
      invariant forall j :: 0 <= j < i ==> lines[j] == Describe(j, ReadSegment(table(Add32(addr, 8 * j))))
      decreases n - i
    {
      lines := lines + [Describe(i, ReadSegment(table(ptr)))];
      PointerBelow(addr, i);
      PointerBelow(addr, i + 1);
      ptr := Add32(ptr, 8);
      i := i + 1;
    }
    LinesAreBits(table, addr, lines);
  }

  lemma LinesAreBits(table: Word -> Quad, addr: Word, lines: seq<Line>)
    requires forall i :: 0 <= i < |lines| ==> lines[i] == Describe(i, ReadSegment(table(Add32(addr, 8 * i))))
    ensures forall i :: 0 <= i < |lines| ==>
      var q: int := table((addr + 8 * i) % 0x1_0000_0000);
      var base, limit := q / 0x1_0000 % 0x100_0000 + q / 0x100_0000_0000_0000 * 0x100_0000,
                         q % 0x1_0000 + q / 0x1_0000_0000_0000 % 16 * 0x1_0000;
      var end := if q / 0x80_0000_0000_0000 % 2 == 1 then base + limit * 4096 + 4095 else base + limit;
      && lines[i].index == i && lines[i].start == base && lines[i].end == end % 0x1_0000_0000
      && lines[i].kind == q / 0x100_0000_0000 % 16 && lines[i].s == q / 0x1000_0000_0000 % 2
      && lines[i].dpl == q / 0x2000_0000_0000 % 4 && lines[i].p == q / 0x8000_0000_0000 % 2
      && lines[i].avl == q / 0x10_0000_0000_0000 % 2 && lines[i].l == q / 0x20_0000_0000_0000 % 2
      && lines[i].d == q / 0x40_0000_0000_0000 % 2 && lines[i].g == q / 0x80_0000_0000_0000 % 2
  {
    hide ReadSegment, Describe;
    forall i | 0 <= i < |lines| ensures lines[i] == Numbered(i, table(Add32(addr, 8 * i))) {
      DescribedByBits(i, table(Add32(addr, 8 * i)));
    }
  }

  // The line of a quadword, from its bits.
  function Numbered(i: nat, q: Quad): Line {
    var n: int := q;
    var base, limit := n / 0x1_0000 % 0x100_0000 + n / 0x100_0000_0000_0000 * 0x100_0000,
                       n % 0x1_0000 + n / 0x1_0000_0000_0000 % 16 * 0x1_0000;
    var end := if n / 0x80_0000_0000_0000 % 2 == 1 then base + limit * 4096 + 4095 else base + limit;
    Line(i, base, end % 0x1_0000_0000, n / 0x100_0000_0000 % 16, n / 0x1000_0000_0000 % 2, n / 0x2000_0000_0000 % 4,
         n / 0x8000_0000_0000 % 2, n / 0x10_0000_0000_0000 % 2, n / 0x20_0000_0000_0000 % 2, n / 0x40_0000_0000_0000 % 2,
         n / 0x80_0000_0000_0000 % 2)
  }

  lemma DescribedByBits(i: nat, q: Quad)
    ensures Describe(i, ReadSegment(q)) == Numbered(i, q)
  {
    hide ReadSegment, Describe;
    SegmentBits(q);
    BaseBits(q);
    DescribedAs(i, ReadSegment(q));
  }

  lemma DescribedAs(i: nat, x: Segment)
    requires x.base3 * 0x100_0000 + x.base2 * 0x1_0000 + x.base1 < 0x1_0000_0000
    ensures var base, limit := x.base3 * 0x100_0000 + x.base2 * 0x1_0000 + x.base1, x.limit2 * 0x1_0000 + x.limit1;
      var end := if x.g != 0 then base + limit * 4096 + 4095 else base + limit;
      Describe(i, x) == Line(i, base, end % 0x1_0000_0000, x.kind, x.s, x.dpl, x.p, x.avl, x.l, x.d, x.g)
  {
    DivIs(SegmentBase(x), 0x1_0000_0000, 0, SegmentBase(x));
  }

  lemma BaseBits(q: Quad)
    ensures var n: int := q;
      && n / 0x1_0000 % 0x100_0000 == n / 0x1_0000_0000 % 0x100 * 0x1_0000 + n / 0x1_0000 % 0x1_0000
      && n / 0x100_0000_0000_0000 % 0x100 == n / 0x100_0000_0000_0000
      && n / 0x1_0000 % 0x100_0000 + n / 0x100_0000_0000_0000 * 0x100_0000 < 0x1_0000_0000
  {
    var n: int := q;
    var a, r := n / 0x1_0000, n % 0x1_0000;
    var b, s := a / 0x1_0000, a % 0x1_0000;
    DivIs(n, 0x1_0000_0000, b, s * 0x1_0000 + r);
    var c, t := b / 0x100, b % 0x100;
    DivIs(a, 0x100_0000, c, t * 0x1_0000 + s);
  }

  // For whole descriptors the count is (limit + 1) / 8.
  lemma WholeDescriptors(limit: nat)
    requires (limit + 1) % 8 == 0
    ensures Entries(limit) == (limit + 1) / 8
  {
  }

  // ---- Selectors ------------------------------------------------------------------------------------------------------

  // dt_seg_sel
  function SegSel(idx: nat, ti: nat, rpl: nat): nat { idx * 8 + ti * 4 + rpl }

  // seg_sel_t reads back what the macros build, and tp_exam's selectors are among them.
  lemma SelectorDecodes(idx: nat, ti: nat, rpl: nat)
    requires idx < 0x2000 && ti < 2 && rpl < 4
    ensures Unpack([2, 1, 13], SegSel(idx, ti, rpl)) == [rpl, ti, idx]
    ensures C0_SEL == SegSel(1, 0, 0) && D0_SEL == SegSel(2, 0, 0)
    ensures C3_SEL == SegSel(3, 0, 3) && D3_SEL == SegSel(4, 0, 3)
  {
    var ws: seq<nat>, vs: seq<nat> := [2, 1, 13], [rpl, ti, idx];
    Powers();
    ThirteenBits();
    hide Pow2;
    assert Fits(ws, vs);
    assert ws[1..] == [1, 13] && vs[1..] == [ti, idx];
    PackLast(13, idx);
    PackTwo(1, ti, 13, idx);
    assert Pack(ws, vs) == rpl + 4 * (ti + 2 * idx);
    UnpackPack(ws, vs);
  }

  lemma ThirteenBits()
    ensures Pow2(13) == 0x2000
  {
    assert Pow2(5) == 32;
    assert Pow2(9) == 512;
  }

  lemma PackLast(w: nat, v: nat)
    ensures Pack([w], [v]) == v
  {
    assert [w][1..] == [] && [v][1..] == [];
  }

  lemma PackTwo(w: nat, v: nat, x: nat, y: nat)
    requires Pack([x], [y]) == y
    ensures Pack([w, x], [v, y]) == v + Pow2(w) * y
  {
    assert [w, x][1..] == [x] && [v, y][1..] == [y];
  }
}
