// What each directive of kernel/core/print.c prints, in terms of its letter and of the dwords on the stack alone.
module Directives {
  import opened Words
  import opened Digits
  import opened Rendering
  import opened Formats

  // ---- One directive ----------------------------------------------------------------------------------------

  // Any width may stand before a directive, and means nothing.
  predicate Width(w: string) { forall i :: 0 <= i < |w| ==> '0' <= w[i] <= '9' }

  // The whole format "%" + width + modifiers + letter.
  function Directed(w: string, flags: string, c: char): string { "%" + (w + flags) + [c] }

  // A rendering is `text`, for `used` dwords.
  predicate Prints(o: Outcome, text: string, used: nat) { o.Done? && o.text == text && o.used == used }

  lemma {:induction false} WidthMeansNothing(w: string, flags: string)
    requires Width(w)
    ensures Longs(w + flags) == Longs(flags) && SizeOf(w + flags) == SizeOf(flags)
    decreases |w| + |flags|
  {
    if flags != [] {
      assert (w + flags)[..|w + flags| - 1] == w + flags[..|flags| - 1];
      WidthMeansNothing(w, flags[..|flags| - 1]);
    } else if w != [] {
      assert w + [] == w && w[..|w| - 1] + [] == w[..|w| - 1];
      WidthMeansNothing(w[..|w| - 1], []);
    } else {
      assert w + flags == [];
    }
  }

  // What the modifiers ask for.
  lemma Modifiers()
    ensures SizeOf("") == 4 && SizeOf("h") == 2 && SizeOf("hh") == 1 && SizeOf("l") == 4 && SizeOf("ll") == 8
  {
    assert "h"[..0] == "" && "hh"[..1] == "h" && "l"[..0] == "" && "ll"[..1] == "l";
  }

  lemma DirectiveIs(w: string, flags: string, c: char, args: Args, strings: Strings)
    requires Width(w) && (forall i :: 0 <= i < |flags| ==> Flag(flags[i])) && !Flag(c)
    ensures var o := Render(Directed(w, flags, c), args, strings);
      match Convert(c, SizeOf(flags), args, strings)
      case Converted(text, used) => Prints(o, text, used)
      case Unsupported => o == Panicked([], c)
      case Undefined => o == Meaningless
  {
    hide Convert, SizeOf, Longs, RenderTo;
    var p := Directive(w + flags, c);
    WidthMeansNothing(w, flags);
    PieceMeans(p, args, strings, 4);
    assert args[0..] == args;
  }

  // ---- Values -------------------------------------------------------------------------------------------------

  // A text that reads back as n in the given base and has no leading zero: there is only one.
  predicate Denotes(s: string, base: Base, n: nat) {
    s != [] && Parse(s, base) == Some(n) && (|s| > 1 ==> s[0] != '0')
  }

  lemma NumeralDenotes(n: nat, base: Base)
    ensures Denotes(Numeral(n, base), base, n)
  {
    hide Numeral, Parse;
    ParseNumeral(n, base);
    NoLeadingZero(n, base);
    if n == 0 { ZeroNumeral(base); }
  }

  lemma ZeroNumeral(base: Base)
    ensures Numeral(0, base) == ['0']
  {
  }

  lemma DenotesOnce(s: string, t: string, base: Base, n: nat)
    requires Denotes(s, base, n) && Denotes(t, base, n)
    ensures s == t
  {
    NumeralIsUnique(s, base);
    NumeralIsUnique(t, base);
  }

  // The same with a sign, exactly for a negative n.
  predicate IntDenotes(s: string, n: int) {
    && s != [] && ParseInt(s) == Some(n) && (s[0] == '-' <==> n < 0) && (n == 0 ==> s == "0")
    && (n > 0 ==> s[0] != '0') && (n < 0 ==> |s| >= 2 && s[1] != '0')
  }

  lemma IntNumeralDenotes(n: int)
    ensures IntDenotes(IntNumeral(n), n)
  {
    hide Numeral, Parse, ParseInt;
    IntRoundTrip(n);
    if n == 0 { ZeroNumeral(10); }
  }

  // A rendering is the number n, for `used` dwords.
  predicate IsNumber(o: Outcome, base: Base, n: nat, used: nat) {
    o.Done? && o.used == used && Denotes(o.text, base, n)
  }

  // It is the value that v has as a signed integer modulo m.
  predicate IsInt(o: Outcome, v: nat, m: int, used: nat)
    requires m > 0
  {
    && o.Done? && o.used == used && ParseInt(o.text).Some?
    && var n := ParseInt(o.text).value;
      IntDenotes(o.text, n) && -m <= 2 * n < m && (n - v) % m == 0
  }

  lemma SignedIs(v: nat, modulus: int)
    requires v < modulus && modulus % 2 == 0
    ensures var n := Signed(v, modulus); -modulus <= 2 * n < modulus && (n - v) % modulus == 0
  {
    DivIs(0, modulus, 0, 0);
    DivIs(-modulus, modulus, -1, 0);
  }

  lemma LowIs(v: Word, n: int, m: int)
    requires m in {0x100, 0x1_0000} && (n - v % m) % m == 0
    ensures (n - v) % m == 0
  {
    var q, x := v / m, n - v % m;
    assert v == q * m + v % m;
    DivIs(n - v, m, x / m - q, 0);
  }

  // ---- The laws -----------------------------------------------------------------------------------------------

  // %u and %x: 32 bits, or as many as h, hh and ll ask for.
  lemma UnsignedLaw(w: string, args: Args, strings: Strings)
    requires Width(w) && |args| >= 1
    ensures IsNumber(Render("%" + w + "u", args, strings), 10, args[0], 1)
    ensures IsNumber(Render("%" + w + "lu", args, strings), 10, args[0], 1)
    ensures IsNumber(Render("%" + w + "hu", args, strings), 10, args[0] % 0x1_0000, 1)
    ensures IsNumber(Render("%" + w + "hhu", args, strings), 10, args[0] % 0x100, 1)
    ensures |args| >= 2 ==> var a: int, b: int := args[0], args[1];
      IsNumber(Render("%" + w + "llu", args, strings), 10, a + 0x1_0000_0000 * b, 2)
    ensures |args| == 1 ==> Render("%" + w + "llu", args, strings) == Meaningless
  {
    hide Numeral, Denotes, Render, SizeOf;
    Modifiers();
    UnsignedsAre(args, 10);
    Spelled(w, "", 'u', "u");
    Spelled(w, "l", 'u', "lu");
    Spelled(w, "h", 'u', "hu");
    Spelled(w, "hh", 'u', "hhu");
    Spelled(w, "ll", 'u', "llu");
    DirectiveIs(w, "", 'u', args, strings);
    DirectiveIs(w, "l", 'u', args, strings);
    DirectiveIs(w, "h", 'u', args, strings);
    DirectiveIs(w, "hh", 'u', args, strings);
    DirectiveIs(w, "ll", 'u', args, strings);
  }

  lemma HexLaw(w: string, args: Args, strings: Strings)
    requires Width(w) && |args| >= 1
    ensures IsNumber(Render("%" + w + "x", args, strings), 16, args[0], 1)
    ensures IsNumber(Render("%" + w + "lx", args, strings), 16, args[0], 1)
    ensures IsNumber(Render("%" + w + "hx", args, strings), 16, args[0] % 0x1_0000, 1)
    ensures IsNumber(Render("%" + w + "hhx", args, strings), 16, args[0] % 0x100, 1)
    ensures |args| >= 2 ==> var a: int, b: int := args[0], args[1];
      IsNumber(Render("%" + w + "llx", args, strings), 16, a + 0x1_0000_0000 * b, 2)
    ensures |args| == 1 ==> Render("%" + w + "llx", args, strings) == Meaningless
  {
    hide Numeral, Denotes, Render, SizeOf;
    Modifiers();
    UnsignedsAre(args, 16);
    Spelled(w, "", 'x', "x");
    Spelled(w, "l", 'x', "lx");
    Spelled(w, "h", 'x', "hx");
    Spelled(w, "hh", 'x', "hhx");
    Spelled(w, "ll", 'x', "llx");
    DirectiveIs(w, "", 'x', args, strings);
    DirectiveIs(w, "l", 'x', args, strings);
    DirectiveIs(w, "h", 'x', args, strings);
    DirectiveIs(w, "hh", 'x', args, strings);
    DirectiveIs(w, "ll", 'x', args, strings);
  }

  lemma Spelled(w: string, flags: string, c: char, tail: string)
    requires tail == flags + [c]
    ensures "%" + w + tail == Directed(w, flags, c)
  {
  }

  lemma UnsignedsAre(args: Args, base: Base)
    requires |args| >= 1
    ensures forall size :: size in {1, 2, 4} ==>
      Unsigneds(size, args, base).Converted? && Unsigneds(size, args, base).used == 1
      && Denotes(Unsigneds(size, args, base).text, base,
                 if size == 1 then args[0] % 0x100 else if size == 2 then args[0] % 0x1_0000 else args[0])
    ensures |args| >= 2 ==> var c, a: int, b: int := Unsigneds(8, args, base), args[0], args[1];
      c.Converted? && c.used == 2 && Denotes(c.text, base, a + 0x1_0000_0000 * b)
    ensures |args| == 1 ==> Unsigneds(8, args, base) == Undefined
  {
    hide Numeral, Denotes;
    NumeralDenotes(args[0], base);
    NumeralDenotes(args[0] % 0x1_0000, base);
    NumeralDenotes(args[0] % 0x100, base);
    if |args| >= 2 { NumeralDenotes(Long(args), base); }
  }

  // %d and %i: two's complement of the same widths. The minimum of 64 bits has no meaning in C.
  lemma SignedLaw(w: string, c: char, args: Args, strings: Strings)
    requires Width(w) && |args| >= 1 && c in {'d', 'i'}
    ensures IsInt(Render("%" + w + [c], args, strings), args[0], 0x1_0000_0000, 1)
    ensures IsInt(Render("%" + w + "l" + [c], args, strings), args[0], 0x1_0000_0000, 1)
    ensures IsInt(Render("%" + w + "h" + [c], args, strings), args[0], 0x1_0000, 1)
    ensures IsInt(Render("%" + w + "hh" + [c], args, strings), args[0], 0x100, 1)
    ensures |args| >= 2 ==> Is64(Render("%" + w + "ll" + [c], args, strings), args[0], args[1])
    ensures |args| == 1 ==> Render("%" + w + "ll" + [c], args, strings) == Meaningless
  {
    hide IntNumeral, IntDenotes, Render, SizeOf, Signed, ParseInt;
    Modifiers();
    SignedsAre(args);
    Spelt(w, "", c);
    Spelt(w, "l", c);
    Spelt(w, "h", c);
    Spelt(w, "hh", c);
    Spelt(w, "ll", c);
    DirectiveIs(w, "", c, args, strings);
    DirectiveIs(w, "l", c, args, strings);
    DirectiveIs(w, "h", c, args, strings);
    DirectiveIs(w, "hh", c, args, strings);
    DirectiveIs(w, "ll", c, args, strings);
  }

  // The 64-bit integer of two dwords, the low one first.
  predicate Is64(o: Outcome, low: Word, high: Word) {
    if low == 0 && high == 0x8000_0000 then o == Meaningless
    else var a: int, b: int := low, high; IsInt(o, a + 0x1_0000_0000 * b, 0x1_0000_0000_0000_0000, 2)
  }

  lemma Spelt(w: string, flags: string, c: char)
    ensures "%" + w + flags + [c] == Directed(w, flags, c) && (flags == "" ==> "%" + w + [c] == Directed(w, flags, c))
  {
  }

  // A conversion is the value of v modulo m.
  predicate ConvertsTo(c: Conversion, v: nat, m: int, used: nat)
    requires m > 0
  {
    && c.Converted? && c.used == used && ParseInt(c.text).Some?
    && var n := ParseInt(c.text).value;
      IntDenotes(c.text, n) && -m <= 2 * n < m && (n - v) % m == 0
  }

  lemma IntConverts(v: nat, m: int, used: nat)
    requires v < m <= 0x1_0000_0000_0000_0000 && m % 2 == 0 && Signed(v, m) != -0x8000_0000_0000_0000
    ensures ConvertsTo(SignedText(Signed(v, m), used), v, m, used)
  {
    hide IntNumeral, Signed;
    SignedIs(v, m);
    IntNumeralDenotes(Signed(v, m));
  }

  lemma SignedsAre(args: Args)
    requires |args| >= 1
    ensures ConvertsTo(Signeds(4, args), args[0], 0x1_0000_0000, 1)
    ensures ConvertsTo(Signeds(2, args), args[0], 0x1_0000, 1)
    ensures ConvertsTo(Signeds(1, args), args[0], 0x100, 1)
    ensures |args| >= 2 ==>
      if args[0] == 0 && args[1] == 0x8000_0000 then Signeds(8, args) == Undefined
      else ConvertsTo(Signeds(8, args), Long(args), 0x1_0000_0000_0000_0000, 2)
    ensures |args| == 1 ==> Signeds(8, args) == Undefined
  {
    hide ConvertsTo, SignedText, Signed;
    SmallSigned(args[0], 0x1_0000_0000);
    IntConverts(args[0], 0x1_0000_0000, 1);
    NarrowConverts(args[0], 0x1_0000);
    NarrowConverts(args[0], 0x100);
    if |args| >= 2 {
      MinimumIs(args);
      if !(args[0] == 0 && args[1] == 0x8000_0000) { IntConverts(Long(args), 0x1_0000_0000_0000_0000, 2); }
    }
  }

  lemma SmallSigned(v: nat, m: int)
    requires v < m <= 0x1_0000_0000
    ensures Signed(v, m) > -0x8000_0000_0000_0000
  {
  }

  lemma NarrowConverts(v: Word, m: int)
    requires m in {0x100, 0x1_0000}
    ensures ConvertsTo(SignedText(Signed(v % m, m), 1), v, m, 1)
  {
    hide IntDenotes, ParseInt, SignedText, Signed;
    SmallSigned(v % m, m);
    IntConverts(v % m, m, 1);
    LowIs(v, ParseInt(SignedText(Signed(v % m, m), 1).text).value, m);
  }

  lemma MinimumIs(args: Args)
    requires |args| >= 2
    ensures var n := Signed(Long(args), TWO_64);
      && (n == -0x8000_0000_0000_0000 <==> args[0] == 0 && args[1] == 0x8000_0000)
      && (n == -0x8000_0000_0000_0000 ==> SignedText(n, 2) == Undefined)
  {
  }

  // Any modifiers and width: those of %D, %X, %p, %b, %B, %s, %c and %% mean nothing.
  predicate Flags(f: string) { forall i :: 0 <= i < |f| ==> f[i] == 'l' || f[i] == 'h' || '0' <= f[i] <= '9' }

  lemma FlagsAre(f: string, c: char, args: Args, strings: Strings)
    requires Flags(f) && !Flag(c)
    ensures "%" + f + [c] == Directed("", f, c)
    ensures var o := Render("%" + f + [c], args, strings);
      match Convert(c, SizeOf(f), args, strings)
      case Converted(text, used) => Prints(o, text, used)
      case Unsupported => o == Panicked([], c)
      case Undefined => o == Meaningless
  {
    hide Convert, SizeOf, Render, Prints;
    assert "" + f == f;
    DirectiveIs("", f, c, args, strings);
  }

  lemma LongHexLaw(f: string, args: Args, strings: Strings)
    requires Flags(f) && |args| >= 2
    ensures var a: int, b: int := args[0], args[1];
      IsNumber(Render("%" + f + "X", args, strings), 16, a + 0x1_0000_0000 * b, 2)
  {
    hide Numeral, Denotes, Render, SizeOf;
    FlagsAre(f, 'X', args, strings);
    NumeralDenotes(Long(args), 16);
  }

  lemma LongIntLaw(f: string, args: Args, strings: Strings)
    requires Flags(f) && |args| >= 2
    ensures Is64(Render("%" + f + "D", args, strings), args[0], args[1])
  {
    hide IntDenotes, ParseInt, Render, SizeOf, Signed, SignedText;
    FlagsAre(f, 'D', args, strings);
    MinimumIs(args);
    if !(args[0] == 0 && args[1] == 0x8000_0000) { IntConverts(Long(args), 0x1_0000_0000_0000_0000, 2); }
  }

  lemma PointerLaw(f: string, args: Args, strings: Strings)
    requires Flags(f) && |args| >= 1
    ensures var o := Render("%" + f + "p", args, strings);
      o.Done? && o.used == 1 && |o.text| > 2 && o.text[..2] == "0x" && Denotes(o.text[2..], 16, args[0])
  {
    hide Numeral, Parse, Render, SizeOf;
    FlagsAre(f, 'p', args, strings);
    NumeralDenotes(args[0], 16);
    assert ("0x" + Numeral(args[0], 16))[2..] == Numeral(args[0], 16);
  }

  // p binary digits that read back as n.
  predicate IsBinary(o: Outcome, p: nat, n: nat, used: nat) {
    && o.Done? && o.used == used && |o.text| == p && Parse(o.text, 2) == Some(n)
    && forall i :: 0 <= i < p ==> o.text[i] == '0' || o.text[i] == '1'
  }

  lemma BinaryLaw(f: string, args: Args, strings: Strings)
    requires Flags(f) && |args| >= 1
    ensures IsBinary(Render("%" + f + "b", args, strings), 32, args[0], 1)
    ensures |args| >= 2 ==> var a: int, b: int := args[0], args[1];
      IsBinary(Render("%" + f + "B", args, strings), 64, a + 0x1_0000_0000 * b, 2)
  {
    hide FixedNumeral, Parse, Render, SizeOf, Pow;
    FlagsAre(f, 'b', args, strings);
    FlagsAre(f, 'B', args, strings);
    PowersOfTwo();
    ParseFixed(args[0], 2, 32);
    BinaryDigits(FixedNumeral(args[0], 2, 32));
    if |args| >= 2 {
      var v := Long(args);
      ParseFixed(v, 2, 64);
      BinaryDigits(FixedNumeral(v, 2, 64));
    }
  }

  lemma PowersOfTwo()
    ensures Pow(2, 32) == 0x1_0000_0000 && Pow(2, 64) == 0x1_0000_0000_0000_0000
  {
    SixteenIs();
    hide Pow;
    PowTwice(2, 4);
    PowTwice(2, 8);
    PowTwice(2, 16);
    PowTwice(2, 32);
  }

  lemma SixteenIs()
    ensures Pow(2, 4) == 16
  {
  }

  lemma PowTwice(b: Base, e: nat)
    ensures Pow(b, 2 * e) == Pow(b, e) * Pow(b, e)
  {
    PowAdds(b, e, e);
  }

  lemma {:induction false} PowAdds(b: Base, d: nat, e: nat)
    ensures Pow(b, d + e) == Pow(b, d) * Pow(b, e)
  {
    if d > 0 {
      PowAdds(b, d - 1, e);
      Regrouped(b, Pow(b, d - 1), Pow(b, e));
    }
  }

  lemma Regrouped(x: nat, y: nat, z: nat)
    ensures x * (y * z) == (x * y) * z
  {
  }

  lemma {:induction false} BinaryDigits(s: string)
    requires Parse(s, 2).Some?
    ensures forall i :: 0 <= i < |s| ==> s[i] == '0' || s[i] == '1'
  {
    if s != [] {
      BinaryDigits(s[..|s| - 1]);
      assert forall i :: 0 <= i < |s| - 1 ==> s[i] == s[..|s| - 1][i];
    }
  }

  lemma TextLaw(f: string, args: Args, strings: Strings)
    requires Flags(f)
    ensures Prints(Render("%" + f + "%", args, strings), "%", 0)
    ensures |args| >= 1 ==> Prints(Render("%" + f + "s", args, strings), strings(args[0]), 1)
    ensures |args| >= 1 ==> Prints(Render("%" + f + "c", args, strings), [(args[0] % 0x100) as char], 1)
  {
    hide Render, SizeOf;
    FlagsAre(f, '%', args, strings);
    FlagsAre(f, 's', args, strings);
    FlagsAre(f, 'c', args, strings);
  }

  // The other letters end in panic, and they alone.
  lemma UnsupportedLaw(f: string, c: char, args: Args, strings: Strings)
    requires Flags(f) && !Flags([c])
    ensures Render("%" + f + [c], args, strings) == Panicked([], c) <==>
      c !in {'%', 'd', 'i', 'u', 'x', 's', 'c', 'b', 'p', 'B', 'D', 'X'}
  {
    hide Render, SizeOf;
    assert [c][0] == c;
    FlagsAre(f, c, args, strings);
  }
}
