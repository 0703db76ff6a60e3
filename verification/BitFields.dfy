// Packed bit-field structs, low field first, as GCC lays them out on x86.
module BitFields {
  import opened Words

  function Pow2(n: nat): (r: nat)
    ensures r >= 1
  {
    if n == 0 then 1 else 2 * Pow2(n - 1)
  }

  function Width(ws: seq<nat>): nat {
    if ws == [] then 0 else ws[0] + Width(ws[1..])
  }

  // Every value fits its field.
  predicate Fits(ws: seq<nat>, vs: seq<nat>) {
    |vs| == |ws| && forall i :: 0 <= i < |ws| ==> vs[i] < Pow2(ws[i])
  }

  // The raw integer of a struct, and the fields of a raw integer.
  function Pack(ws: seq<nat>, vs: seq<nat>): nat
    requires |vs| == |ws|
  {
    if ws == [] then 0 else vs[0] + Pow2(ws[0]) * Pack(ws[1..], vs[1..])
  }

  // The low n bits of an integer, and the rest.
  function Low(raw: nat, n: nat): (r: nat)
    ensures r < Pow2(n)
  {
    raw % Pow2(n)
  }

  function High(raw: nat, n: nat): (q: nat) {
    var p := Pow2(n);
    NonNegative(raw, p);
    raw / p
  }

  lemma NonNegative(a: nat, p: nat)
    requires p >= 1
    ensures a / p >= 0
  {
  }

  lemma Split(raw: nat, n: nat)
    ensures raw == High(raw, n) * Pow2(n) + Low(raw, n)
  {
    Divided(raw, Pow2(n));
  }

  lemma Divided(a: nat, p: nat)
    requires p >= 1
    ensures a == a / p * p + a % p
  {
  }

  function Unpack(ws: seq<nat>, raw: nat): (vs: seq<nat>)
    ensures |vs| == |ws|
  {
    if ws == [] then [] else [Low(raw, ws[0])] + Unpack(ws[1..], High(raw, ws[0]))
  }

  // Writing fields and reading them back.
  lemma {:induction false} UnpackPack(ws: seq<nat>, vs: seq<nat>)
    requires Fits(ws, vs)
    ensures Unpack(ws, Pack(ws, vs)) == vs
  {
    if ws != [] {
      var p, rest := Pow2(ws[0]), Pack(ws[1..], vs[1..]);
      assert Pack(ws, vs) == rest * p + vs[0];
      DivIs(Pack(ws, vs), p, rest, vs[0]);
      assert Low(Pack(ws, vs), ws[0]) == vs[0] && High(Pack(ws, vs), ws[0]) == rest;
      UnpackPack(ws[1..], vs[1..]);
      assert [vs[0]] + vs[1..] == vs;
    }
  }

  // Reading fields and writing them back.
  lemma {:induction false} PackUnpack(ws: seq<nat>, raw: nat)
    requires raw < Pow2(Width(ws))
    ensures Fits(ws, Unpack(ws, raw)) && Pack(ws, Unpack(ws, raw)) == raw
  {
    if ws != [] {
      var q, r := High(raw, ws[0]), Low(raw, ws[0]);
      Split(raw, ws[0]);
      Pow2Adds(ws[0], Width(ws[1..]));
      QuotientBelow(raw, q, r, Pow2(ws[0]), Pow2(Width(ws[1..])));
      hide High, Low, Pow2;
      PackUnpack(ws[1..], q);
      var vs := Unpack(ws, raw);
      assert vs[0] == r && vs[1..] == Unpack(ws[1..], q);
      assert Pack(ws, vs) == r + Pow2(ws[0]) * q;
    }
  }

  lemma {:induction false} Pow2Adds(a: nat, b: nat)
    ensures Pow2(a + b) == Pow2(a) * Pow2(b)
  {
    if a > 0 {
      Pow2Adds(a - 1, b);
      PowStep(a);
      PowStep(a + b);
      hide Pow2;
      TwiceProduct(Pow2(a - 1), Pow2(b));
    }
  }

  lemma PowStep(n: nat)
    requires n > 0
    ensures Pow2(n) == 2 * Pow2(n - 1)
  {
  }

  lemma TwiceProduct(x: nat, y: nat)
    ensures 2 * (x * y) == (2 * x) * y
  {
  }

  lemma QuotientBelow(raw: nat, q: nat, r: nat, p: nat, n: nat)
    requires p >= 1 && raw == q * p + r && raw < p * n
    ensures q < n
  {
    if q >= n { Grows(n, q, p); }
  }

  lemma Grows(x: nat, y: nat, p: nat)
    requires x <= y
    ensures x * p <= y * p && p * x <= p * y
  {
    assert (y - x) * p >= 0;
  }

  // Packing stays within the width of the struct.
  lemma {:induction false} PackBound(ws: seq<nat>, vs: seq<nat>)
    requires Fits(ws, vs)
    ensures Pack(ws, vs) < Pow2(Width(ws))
  {
    if ws != [] {
      var p, v, x, n := Pow2(ws[0]), vs[0], Pack(ws[1..], vs[1..]), Pow2(Width(ws[1..]));
      PackBound(ws[1..], vs[1..]);
      Pow2Adds(ws[0], Width(ws[1..]));
      Below(v, p, x, n);
    }
  }

  // The raw value of a struct of 64 bits.
  type Quad = x: int | 0 <= x < 0x1_0000_0000_0000_0000

  lemma SixtyFourBits()
    ensures Pow2(64) == 0x1_0000_0000_0000_0000 && Pow2(16) == 0x1_0000
  {
    EightBits();
    hide Pow2;
    Pow2Adds(8, 8);
    Pow2Adds(16, 16);
    Pow2Adds(32, 32);
  }

  lemma EightBits()
    ensures Pow2(8) == 0x100
  {
    assert Pow2(4) == 16;
  }

  // Structs of 64 bits and quadwords are in one-to-one correspondence.
  lemma QuadsAreStructs(ws: seq<nat>, vs: seq<nat>, raw: Quad)
    requires Width(ws) == 64
    ensures Fits(ws, vs) ==> Pack(ws, vs) < 0x1_0000_0000_0000_0000 && Unpack(ws, Pack(ws, vs)) == vs
    ensures Fits(ws, Unpack(ws, raw)) && Pack(ws, Unpack(ws, raw)) == raw
  {
    hide Pow2, Fits, Pack, Unpack, Width;
    SixtyFourBits();
    if Fits(ws, vs) {
      PackBound(ws, vs);
      UnpackPack(ws, vs);
    }
    PackUnpack(ws, raw);
  }

  lemma Below(v: nat, p: nat, x: nat, n: nat)
    requires v < p && x < n
    ensures v + p * x < p * n
  {
    Grows(x + 1, n, p);
    assert p * (x + 1) == p * x + p;
  }

  // Field i of a raw value is a stretch of its bits, above those of the fields before it.
  lemma {:induction false} UnpackAt(ws: seq<nat>, raw: nat, i: nat)
    requires i < |ws|
    ensures raw / Pow2(Width(ws[..i])) >= 0
    ensures Unpack(ws, raw)[i] == raw / Pow2(Width(ws[..i])) % Pow2(ws[i])
  {
    if i == 0 {
      assert ws[..0] == [] && Pow2(Width([])) == 1;
      assert raw / 1 == raw;
    } else {
      var q := High(raw, ws[0]);
      UnpackAt(ws[1..], q, i - 1);
      assert ws[..i][0] == ws[0] && ws[..i][1..] == ws[1..][..i - 1];
      var a, c := Pow2(ws[0]), Pow2(Width(ws[1..][..i - 1]));
      Pow2Adds(ws[0], Width(ws[1..][..i - 1]));
      DivTwice(raw, a, c);
    }
  }

  lemma DivTwice(x: nat, a: nat, c: nat)
    requires a >= 1 && c >= 1
    ensures a * c >= 1 && x / a / c == x / (a * c) && x / a >= 0
  {
    var q, r := x / a, x % a;
    Divided(x, a);
    var t, u := q / c, q % c;
    NonNegative(x, a);
    Divided(q, c);
    Below(r, a, u, c);
    Spread(t, c, u, a);
    Grows(1, a, c);
    DivIs(x, a * c, t, r + a * u);
  }

  lemma Spread(t: nat, c: nat, u: nat, a: nat)
    ensures (t * c + u) * a == t * (a * c) + a * u
  {
    var x := t * c;
    assert t * (a * c) == x * a;
  }

  // A struct from its field i on.
  lemma PackFrom(ws: seq<nat>, vs: seq<nat>, i: nat)
    requires |vs| == |ws| && i < |ws|
    ensures Pack(ws[i..], vs[i..]) == vs[i] + Pow2(ws[i]) * Pack(ws[i + 1..], vs[i + 1..])
  {
    assert ws[i..][1..] == ws[i + 1..] && vs[i..][1..] == vs[i + 1..];
  }
}
