// What the formats of kernel/core/print.c mean: the text of an unbounded printf.
module Rendering {
  import opened Words
  import opened Digits

  // ---- Arguments ---------------------------------------------------------------------------------------

  // A va_list: the dwords on the stack that have not been consumed. A 64-bit argument is two of
  // them, the low one first; a string argument is a pointer, which `strings` resolves.
  type Args = seq<Word>
  type Strings = Word -> string

  const TWO_32 := 0x1_0000_0000
  const TWO_64 := 0x1_0000_0000_0000_0000

  function Long(args: Args): (v: nat)
    requires |args| >= 2
    ensures v < TWO_64
  {
    args[0] + args[1] * TWO_32
  }

  // Two's complement.
  function Signed(v: nat, modulus: int): int
    requires v < modulus
  {
    if v < modulus / 2 then v else v - modulus
  }

  function IntNumeral(v: int): string {
    if v < 0 then "-" + Numeral(-v, 10) else Numeral(v, 10)
  }

  function ParseInt(s: string): Option<int> {
    if s != [] && s[0] == '-' then
      var r := Parse(s[1..], 10);
      if r.Some? then Option<int>.Some(0 - r.value) else None
    else
      var r := Parse(s, 10);
      if r.Some? then Option<int>.Some(r.value) else None
  }

  lemma {:induction false} StartsWithDigit(n: nat)
    ensures |Numeral(n, 10)| >= 1 && Numeral(n, 10)[0] != '-'
  {
    if n >= 10 { StartsWithDigit(n / 10); }
  }

  // Signed decimals read back as what was printed; zero has no sign and nothing has leading zeros.
  lemma IntRoundTrip(v: int)
    ensures ParseInt(IntNumeral(v)) == Some(v)
    ensures var s := IntNumeral(v);
      |s| >= 1 && (s[0] == '-' <==> v < 0) && (s[0] == '0' <==> v == 0) && (v < 0 ==> |s| >= 2 && s[1] != '0')
  {
    hide Numeral, Parse;
    var n := if v < 0 then -v else v;
    ParseNumeral(n, 10);
    NoLeadingZero(n, 10);
    StartsWithDigit(n);
    if v < 0 { assert IntNumeral(v)[1..] == Numeral(n, 10); }
  }

  // ---- Conversions ---------------------------------------------------------------------------------------

  // The text of a conversion and the dwords it consumes; an unsupported letter; or an argument
  // that is missing, or that `value = -value` does not cover.
  datatype Conversion = Converted(text: string, used: nat) | Unsupported | Undefined

  function Signeds(size: nat, args: Args): Conversion {
    if size >= 8 then
      if |args| < 2 then Undefined else SignedText(Signed(Long(args), TWO_64), 2)
    else if |args| < 1 then Undefined
    else if size == 4 then SignedText(Signed(args[0], TWO_32), 1)
    else if size == 2 then SignedText(Signed(args[0] % 0x1_0000, 0x1_0000), 1)
    else SignedText(Signed(args[0] % 0x100, 0x100), 1)
  }

  function SignedText(v: int, used: nat): Conversion {
    if v == -0x8000_0000_0000_0000 then Undefined else Converted(IntNumeral(v), used)
  }

  function Unsigneds(size: nat, args: Args, base: Base): Conversion {
    if size >= 8 then
      if |args| < 2 then Undefined else Converted(Numeral(Long(args), base), 2)
    else if |args| < 1 then Undefined
    else if size == 4 then Converted(Numeral(args[0], base), 1)
    else if size == 2 then Converted(Numeral(args[0] % 0x1_0000, base), 1)
    else Converted(Numeral(args[0] % 0x100, base), 1)
  }

  function Convert(c: char, size: nat, args: Args, strings: Strings): (r: Conversion)
    ensures r.Converted? ==> r.used <= |args|
  {
    if c == '%' then Converted("%", 0)
    else if c == 'd' || c == 'i' then Signeds(size, args)
    else if c == 'u' then Unsigneds(size, args, 10)
    else if c == 'x' then Unsigneds(size, args, 16)
    else if c == 's' then if |args| < 1 then Undefined else Converted(strings(args[0]), 1)
    else if c == 'c' then if |args| < 1 then Undefined else Converted([(args[0] % 0x100) as char], 1)
    else if c == 'b' then if |args| < 1 then Undefined else Converted(FixedNumeral(args[0], 2, 32), 1)
    else if c == 'p' then if |args| < 1 then Undefined else Converted("0x" + Numeral(args[0], 16), 1)
    else if c == 'B' then if |args| < 2 then Undefined else Converted(FixedNumeral(Long(args), 2, 64), 2)
    else if c == 'D' then if |args| < 2 then Undefined else SignedText(Signed(Long(args), TWO_64), 2)
    else if c == 'X' then if |args| < 2 then Undefined else Converted(Numeral(Long(args), 16), 2)
    else Unsupported
  }

  // ---- The format as a state machine ------------------------------------------------------------------------

  // `interp`, `lng` and `size` of __vsnprintf.
  datatype Mode = Mode(interp: bool, lng: bool, size: nat)

  const START := Mode(false, false, 4)

  // What is left after one character of the format.
  datatype Progress =
    | Going(mode: Mode, text: string, used: nat)
    | Stuck(c: char)
    | Wrong

  function Advance(m: Mode, c: char, args: Args, strings: Strings): (r: Progress)
    ensures r.Going? ==> r.used <= |args|
  {
    if !m.interp then
      if c == '%' then Going(m.(interp := true, size := 4), [], 0) else Going(m, [c], 0)
    else if c == 'l' then Going(if m.lng then m.(size := 8) else m.(lng := true), [], 0)
    else if c == 'h' then Going(m.(size := m.size / 2), [], 0)
    else if '0' <= c <= '9' then Going(m, [], 0)
    else match Convert(c, m.size, args, strings)
      case Converted(text, used) => Going(Mode(false, false, m.size), text, used)
      case Unsupported => Stuck(c)
      case Undefined => Wrong
  }

  // The whole text and the dwords consumed; the text before an unsupported letter; or no meaning.
  datatype Outcome =
    | Done(text: string, used: nat, mode: Mode)
    | Panicked(text: string, c: char)
    | Meaningless

  // One more character.
  function Extend(o: Outcome, c: char, args: Args, strings: Strings): (r: Outcome)
    requires o.Done? ==> o.used <= |args|
    ensures r.Done? ==> r.used <= |args|
  {
    if !o.Done? then o
    else match Advance(o.mode, c, args[o.used..], strings)
      case Going(mode, more, count) => Done(o.text + more, o.used + count, mode)
      case Stuck(c) => Panicked(o.text, c)
      case Wrong => Meaningless
  }

  // The rendering of the first n characters of the format.
  function RenderTo(fmt: string, n: nat, args: Args, strings: Strings, start: Mode): (r: Outcome)
    requires n <= |fmt|
    ensures r.Done? ==> r.used <= |args|
  {
    if n == 0 then Done([], 0, start)
    else Extend(RenderTo(fmt, n - 1, args, strings, start), fmt[n - 1], args, strings)
  }

  function Render(fmt: string, args: Args, strings: Strings): Outcome {
    RenderTo(fmt, |fmt|, args, strings, START)
  }

  function Clip(s: string, n: nat): (r: string)
    ensures r <= s && |r| == if |s| <= n then |s| else n
  {
    if |s| <= n then s else s[..n]
  }

  // Clipping as one goes is clipping the whole.
  lemma ClipAppend(s: string, t: string, n: nat)
    ensures Clip(Clip(s, n) + t, n) == Clip(s + t, n)
  {
  }

  // ---- Laws of the format language ---------------------------------------------------------------------------

  // Formats compose: what follows a finished format is rendered with the arguments it left.
  ghost predicate Continues(a: Outcome, b: Outcome, whole: Outcome)
    requires a.Done?
  {
    match b
    case Done(text, used, mode) => whole == Done(a.text + text, a.used + used, mode)
    case Panicked(text, c) => whole == Panicked(a.text + text, c)
    case Meaningless => whole == Meaningless
  }

  lemma ExtendSplit(a: Outcome, b: Outcome, whole: Outcome, c: char, args: Args, strings: Strings)
    requires a.Done? && a.used <= |args| && Continues(a, b, whole)
    requires b.Done? ==> a.used + b.used <= |args|
    ensures Continues(a, Extend(b, c, args[a.used..], strings), Extend(whole, c, args, strings))
  {
    hide Advance;
    if b.Done? {
      assert args[a.used..][b.used..] == args[a.used + b.used..];
      var more := Advance(b.mode, c, args[a.used + b.used..], strings);
      if more.Going? { assert a.text + b.text + more.text == a.text + (b.text + more.text); }
    }
  }

  lemma {:induction false} RenderSplit(f: string, g: string, n: nat, args: Args, strings: Strings, start: Mode)
    requires n <= |g| && RenderTo(f, |f|, args, strings, start).Done?
    ensures var a := RenderTo(f, |f|, args, strings, start);
      Continues(a, RenderTo(g, n, args[a.used..], strings, a.mode), RenderTo(f + g, |f| + n, args, strings, start))
  {
    var a := RenderTo(f, |f|, args, strings, start);
    hide Extend;
    if n == 0 {
      SamePrefix(f, f + g, |f|, args, strings, start);
      assert a.text + [] == a.text;
    } else {
      RenderSplit(f, g, n - 1, args, strings, start);
      assert (f + g)[|f| + n - 1] == g[n - 1];
      ExtendSplit(a, RenderTo(g, n - 1, args[a.used..], strings, a.mode),
                  RenderTo(f + g, |f| + n - 1, args, strings, start), g[n - 1], args, strings);
    }
  }

  lemma {:induction false} SamePrefix(f: string, g: string, n: nat, args: Args, strings: Strings, start: Mode)
    requires n <= |f| && n <= |g| && f[..n] == g[..n]
    ensures RenderTo(f, n, args, strings, start) == RenderTo(g, n, args, strings, start)
  {
    hide Extend;
    if n > 0 {
      assert f[..n - 1] == f[..n][..n - 1] == g[..n - 1];
      assert f[n - 1] == f[..n][n - 1] == g[n - 1];
      SamePrefix(f, g, n - 1, args, strings, start);
    }
  }

  // `size` means nothing outside a directive.
  ghost predicate SameButSize(a: Outcome, b: Outcome) {
    match a
    case Done(text, used, mode) =>
      && b.Done? && b.text == text && b.used == used && b.mode == mode.(size := b.mode.size)
      && (mode.interp ==> b.mode == mode)
    case _ => b == a
  }

  lemma ExtendSameButSize(a: Outcome, b: Outcome, c: char, args: Args, strings: Strings)
    requires SameButSize(a, b) && (a.Done? ==> a.used <= |args|)
    ensures SameButSize(Extend(a, c, args, strings), Extend(b, c, args, strings))
  {
    hide Convert;
  }

  lemma {:induction false} SizeIsLocal(g: string, n: nat, args: Args, strings: Strings, i: nat, j: nat)
    requires n <= |g|
    ensures SameButSize(RenderTo(g, n, args, strings, Mode(false, false, i)),
                        RenderTo(g, n, args, strings, Mode(false, false, j)))
  {
    hide Extend;
    if n > 0 {
      SizeIsLocal(g, n - 1, args, strings, i, j);
      ExtendSameButSize(RenderTo(g, n - 1, args, strings, Mode(false, false, i)),
                        RenderTo(g, n - 1, args, strings, Mode(false, false, j)), g[n - 1], args, strings);
    }
  }
}
