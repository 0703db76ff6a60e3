// The formatter of kernel/core/print.c: a bounded buffer filled in place.
module Print {
  import opened Words
  import opened Digits
  import opened Rendering

  const HEX_TABLE: string := "0123456789abcdef"

  function Reverse(s: string): (r: string)
    ensures |r| == |s|
  {
    seq(|s|, i requires 0 <= i < |s| => s[|s| - 1 - i])
  }

  lemma ReverseSnoc(s: string, c: char)
    ensures Reverse(s + [c]) == [c] + Reverse(s)
  {
  }

  lemma ReverseAt(s: string, i: nat)
    requires i < |s|
    ensures Reverse(s)[|s| - 1 - i] == s[i]
  {
  }

  lemma ClipWithin(s: string, n: nat)
    requires |s| <= n
    ensures Clip(s, n) == s
  {
  }

  // ---- Bounds on scratch arrays ------------------------------------------------------------------------------

  lemma TenToTheTwenty()
    ensures Pow(10, 20) == 1_0000_0000_0000_0000_0000
  {
    assert Pow(10, 4) == 1_0000;
    assert Pow(10, 8) == 1_0000_0000;
    assert Pow(10, 12) == 1_0000_0000_0000;
    assert Pow(10, 16) == 1_0000_0000_0000_0000;
  }

  lemma SixteenToTheSixteen()
    ensures Pow(16, 16) == TWO_64
  {
    assert Pow(16, 4) == 0x1_0000;
    assert Pow(16, 8) == 0x1_0000_0000;
    assert Pow(16, 12) == 0x1_0000_0000_0000;
  }

  lemma DecimalFits(v: nat)
    requires v < TWO_64
    ensures |Numeral(v, 10)| <= 20
  {
    TenToTheTwenty();
    NumeralLength(v, 10, 20);
  }

  lemma HexFits(v: nat)
    requires v < TWO_64
    ensures |Numeral(v, 16)| <= 16
  {
    SixteenToTheSixteen();
    NumeralLength(v, 16, 16);
  }

  // ---- The buffer ------------------------------------------------------------------------------------------------

  class Buffer {
    const data: array<char>
    var sz: nat

    constructor (data: array<char>)
      ensures this.data == data && sz == 0
    {
      this.data := data;
      sz := 0;
    }

    ghost function Text(): string
      reads this, data
      requires sz <= data.Length
    {
      data[..sz]
    }

    // The text so far is within the limit, and the rest of the array is as in d.
    ghost predicate Valid(len: nat, d: seq<char>)
      reads this, data
    {
      && sz <= len <= data.Length && |d| == data.Length
      && data[sz..] == d[sz..]
    }

    // __buf_add
    method Add(len: nat, c: char, ghost d: seq<char>)
      requires Valid(len, d)
      modifies this`sz, data
      ensures Valid(len, d) && Text() == Clip(old(Text()) + [c], len)
    {
      if sz < len {
        data[sz] := c;
        sz := sz + 1;
        assert Text() == old(Text()) + [c];
      } else {
        assert old(Text()) == Clip(old(Text()) + [c], len);
      }
    }

    // __format_add_str
    method AddStr(len: nat, s: string, ghost d: seq<char>)
      requires Valid(len, d)
      modifies this`sz, data
      ensures Valid(len, d) && Text() == Clip(old(Text()) + s, len)
    {
      ghost var t := Text();
      var i := 0;
      assert t + s[..0] == t;
      while i < |s|
        invariant 0 <= i <= |s| && Valid(len, d) && Text() == Clip(t + s[..i], len)
      {
        ClipAppend(t + s[..i], [s[i]], len);
        assert t + s[..i] + [s[i]] == t + s[..i + 1];
        Add(len, s[i], d);
        i := i + 1;
      }
      assert s[..i] == s;
    }

    // The loops that empty a scratch array from its end.
    method AddReversed(len: nat, rep: array<char>, n: nat, ghost d: seq<char>)
      requires Valid(len, d) && n <= rep.Length && rep != data
      modifies this`sz, data
      ensures Valid(len, d) && Text() == Clip(old(Text()) + Reverse(rep[..n]), len)
    {
      hide Clip;
      ghost var t, r := Text(), rep[..n];
      ghost var all := Reverse(r);
      var i := n;
      assert t + all[..0] == t;
      ClipWithin(t, len);
      while i > 0
        invariant 0 <= i <= n && Valid(len, d) && Text() == Clip(t + all[..n - i], len)
        invariant rep[..n] == r
      {
        i := i - 1;
        ReverseAt(r, i);
        var c := rep[i];
        assert c == r[i];
        ClipAppend(t + all[..n - 1 - i], [c], len);
        assert t + all[..n - 1 - i] + [c] == t + all[..n - i];
        Add(len, c, d);
      }
      assert all[..n] == all;
    }

    // __format_add_bin
    method AddBin(len: nat, value: nat, n: nat, ghost d: seq<char>)
      requires Valid(len, d) && 1 <= n <= 64
      modifies this`sz, data
      ensures Valid(len, d) && Text() == Clip(old(Text()) + FixedNumeral(value, 2, n), len)
    {
      ghost var t, all := Text(), FixedNumeral(value, 2, n);
      assert t + all[..0] == t;
      for i := 0 to n
        invariant Valid(len, d) && Text() == Clip(t + all[..i], len)
      {
        var bit := value / Pow(2, n - i - 1) % 2;
        BitIs(value, n, i);
        var c := if bit == 1 then '1' else '0';
        ClipAppend(t + all[..i], [c], len);
        assert t + all[..i] + [c] == t + all[..i + 1];
        Add(len, c, d);
      }
      assert all[..n] == all;
    }
  }

  // ---- Numbers -----------------------------------------------------------------------------------------------------

  // The digits that `while (value)` has written, and those to come.
  lemma NumeralStep(v: nat, base: Base, s: string)
    requires v > 0
    ensures Rest(v / base, base) + Reverse(s + [Digit(v % base)]) == Rest(v, base) + Reverse(s)
    ensures |Rest(v, base)| == |Rest(v / base, base)| + 1
  {
    ReverseSnoc(s, Digit(v % base));
    var q, d := Divide(v, base);
    assert q == 0 ==> v < base && d == v;
    assert Rest(v, base) == Rest(q, base) + [Digit(d)];
    assert (Rest(q, base) + [Digit(d)]) + Reverse(s) == Rest(q, base) + ([Digit(d)] + Reverse(s));
  }

  function Rest(v: nat, base: Base): string {
    if v == 0 then [] else Numeral(v, base)
  }

  // `while (value)` with its scratch array: the digits, the last one first.
  method Digits10(value: nat, rep: array<char>) returns (n: nat)
    requires 0 < value < TWO_64 && rep.Length == 24
    modifies rep
    ensures n <= 20 && Reverse(rep[..n]) == Numeral(value, 10)
  {
    hide Numeral, Digit;
    DecimalFits(value);
    var v: nat := value;
    n := 0;
    assert rep[..0] == [] && Reverse([]) == [];
    assert Rest(v, 10) + [] == Rest(v, 10);
    while v > 0
      invariant v < TWO_64 && n + |Rest(v, 10)| <= 20
      invariant Rest(v, 10) + Reverse(rep[..n]) == Numeral(value, 10)
    {
      NumeralStep(v, 10, rep[..n]);
      ghost var before := rep[..n];
      rep[n] := '0' + (v % 10) as char;
      DecimalDigit(v % 10);
      n := n + 1;
      assert rep[..n] == before + [Digit(v % 10)];
      v := v / 10;
    }
    assert [] + Reverse(rep[..n]) == Reverse(rep[..n]);
  }

  lemma DecimalDigit(d: nat)
    requires d < 10
    ensures Digit(d) == '0' + d as char
  {
  }

  lemma ZeroText()
    ensures Numeral(0, 10) == ['0']
  {
  }

  // __format_add_udec
  method AddUdec(buf: Buffer, len: nat, value: nat, ghost d: seq<char>)
    requires buf.Valid(len, d) && value < TWO_64
    modifies buf`sz, buf.data
    ensures buf.Valid(len, d) && buf.Text() == Clip(old(buf.Text()) + Numeral(value, 10), len)
  {
    hide Numeral, Clip;
    if value == 0 {
      ZeroText();
      buf.Add(len, '0', d);
    } else {
      var rep := new char[24];
      var n := Digits10(value, rep);
      buf.AddReversed(len, rep, n, d);
    }
  }

  // __format_add_idec
  method AddIdec(buf: Buffer, len: nat, value: int, ghost d: seq<char>)
    requires buf.Valid(len, d) && -0x8000_0000_0000_0000 < value < 0x8000_0000_0000_0000
    modifies buf`sz, buf.data
    ensures buf.Valid(len, d) && buf.Text() == Clip(old(buf.Text()) + IntNumeral(value), len)
  {
    hide Numeral, Clip;
    if value == 0 {
      ZeroText();
      assert IntNumeral(0) == ['0'];
      buf.Add(len, '0', d);
    } else {
      ghost var t := buf.Text();
      var v: nat := if value < 0 then -value else value;
      if value < 0 {
        buf.Add(len, '-', d);
        ClipAppend(t + "-", Numeral(v, 10), len);
        assert t + "-" + Numeral(v, 10) == t + IntNumeral(value);
      }
      var rep := new char[24];
      var n := Digits10(v, rep);
      buf.AddReversed(len, rep, n, d);
    }
  }

  const SENTINEL := 0xffff_ffff

  // What uint64_to_hex writes.
  function HexText(value: nat, precision: nat): string {
    if precision == 0 || precision > 16 then Numeral(value, 16) else FixedNumeral(value, 16, precision)
  }

  // The digits still to come, p of them or, past 16, as many as the value has.
  function HexRest(v: nat, p: nat, started: bool): string {
    if p > 16 then if started then Rest(v, 16) else Numeral(v, 16)
    else FixedNumeral(v, 16, p)
  }

  lemma HexStep(v: nat, p: nat, started: bool, s: string)
    requires p > 0 && !(p > 16 && v == 0 && started) && p != 17
    ensures HexRest(v / 16, p - 1, true) + Reverse(s + [Digit(v % 16)]) == HexRest(v, p, started) + Reverse(s)
    ensures |HexRest(v, p, started)| == |HexRest(v / 16, p - 1, true)| + 1
  {
    ReverseSnoc(s, Digit(v % 16));
    var q, d := Divide(v, 16);
    assert HexRest(v, p, started) == HexRest(q, p - 1, true) + [Digit(d)];
  }

  lemma HexDigit(d: nat)
    requires d < 16
    ensures HEX_TABLE[d] == Digit(d)
  {
  }

  // uint64_to_hex, up to the end of its first loop.
  method DigitsHex(value: nat, precision: nat, rep: array<char>) returns (n: nat)
    requires value < TWO_64 && precision <= SENTINEL && rep.Length == 16
    modifies rep
    ensures n <= 16 && Reverse(rep[..n]) == HexText(value, precision)
  {
    hide Numeral, FixedNumeral, Digit, HexRest, HexText;
    var p: nat, v: nat := precision, value;
    if p == 0 || p > 16 { p := SENTINEL; }
    n := 0;
    HexStart(value, precision);
    assert rep[..0] == [] && Reverse([]) == [];
    assert HexRest(v, p, false) + [] == HexRest(v, p, false);
    while p != 0 && !(p > 16 && v == 0 && n > 0)
      invariant p <= 16 || p == SENTINEL - n
      invariant n + |HexRest(v, p, n > 0)| <= 16
      invariant HexRest(v, p, n > 0) + Reverse(rep[..n]) == HexText(value, precision)
      decreases p
    {
      HexStep(v, p, n > 0, rep[..n]);
      HexDigit(v % 16);
      ghost var before := rep[..n];
      rep[n] := HEX_TABLE[v % 16];
      v := v / 16;
      n := n + 1;
      assert rep[..n] == before + [rep[n - 1]];
      p := p - 1;
    }
    HexEnd(v, p, n);
    assert [] + Reverse(rep[..n]) == Reverse(rep[..n]);
  }

  lemma HexStart(value: nat, precision: nat)
    requires value < TWO_64
    ensures var p := if precision == 0 || precision > 16 then SENTINEL else precision;
      HexRest(value, p, false) == HexText(value, precision) && |HexText(value, precision)| <= 16
  {
    HexFits(value);
  }

  lemma HexEnd(v: nat, p: nat, n: nat)
    requires p == 0 || (p > 16 && v == 0 && n > 0)
    ensures HexRest(v, p, n > 0) == []
  {
  }

  // Reading the digits back gives the value, or its last `precision` digits.
  lemma HexTextDenotes(value: nat, precision: nat)
    requires value < TWO_64
    ensures var s := HexText(value, precision);
      && 1 <= |s| <= 16
      && (if precision == 0 || precision > 16 then Parse(s, 16) == Some(value) && (s[0] == '0' <==> value == 0)
          else |s| == precision && Parse(s, 16) == Some(value % Pow(16, precision)))
  {
    HexFits(value);
    ParseNumeral(value, 16);
    NoLeadingZero(value, 16);
    ParseFixed(value, 16, precision);
  }

  // uint64_to_hex: the count of digits of the text, whether or not they fit.
  method Uint64ToHex(buf: Buffer, len: nat, value: nat, precision: nat, ghost d: seq<char>) returns (n: nat)
    requires buf.Valid(len, d) && value < TWO_64 && precision <= SENTINEL
    modifies buf`sz, buf.data
    ensures buf.Valid(len, d) && buf.Text() == Clip(old(buf.Text()) + HexText(value, precision), len)
    ensures n == |HexText(value, precision)|
  {
    var rep := new char[16];
    n := DigitsHex(value, precision, rep);
    buf.AddReversed(len, rep, n, d);
  }

  // Digit i of the binary form is bit n - i - 1 of the value.
  lemma {:induction false} BitIs(value: nat, n: nat, i: nat)
    requires i < n
    ensures FixedNumeral(value, 2, n)[i] == if value / Pow(2, n - i - 1) % 2 == 1 then '1' else '0'
  {
    if i < n - 1 {
      BitIs(value / 2, n - 1, i);
      ShiftTwice(value, Pow(2, n - i - 2));
    }
  }

  lemma ShiftTwice(value: nat, p: nat)
    requires p >= 1
    ensures value / 2 / p == value / (2 * p)
  {
    var q, r := value / 2, value % 2;
    var a, b := Euclid(q, p);
    assert value == 2 * (a * p + b) + r;
    assert 2 * (a * p) == a * (2 * p);
    DivIs(value, 2 * p, a, 2 * b + r);
  }

  // ---- Conversions -------------------------------------------------------------------------------------------------

  // The branch of %d and %i: the length modifiers choose the type that va_arg reads.
  method AddSigned(buf: Buffer, len: nat, size: nat, args: Args, ghost d: seq<char>) returns (used: nat)
    requires buf.Valid(len, d) && Signeds(size, args).Converted?
    modifies buf`sz, buf.data
    ensures buf.Valid(len, d) && used == Signeds(size, args).used
    ensures buf.Text() == Clip(old(buf.Text()) + Signeds(size, args).text, len)
  {
    hide IntNumeral, Clip;
    var value: int;
    used := 1;
    if size >= 8 {
      value := Signed(Long(args), TWO_64);
      used := 2;
    } else if size == 4 {
      value := Signed(args[0], TWO_32);
    } else if size == 2 {
      value := Signed(args[0] % 0x1_0000, 0x1_0000);
    } else {
      value := Signed(args[0] % 0x100, 0x100);
    }
    AddIdec(buf, len, value, d);
  }

  // The branch of %u and %x.
  method AddUnsigned(buf: Buffer, len: nat, size: nat, args: Args, decimal: bool, ghost d: seq<char>) returns (used: nat)
    requires buf.Valid(len, d) && Unsigneds(size, args, if decimal then 10 else 16).Converted?
    modifies buf`sz, buf.data
    ensures buf.Valid(len, d) && used == Unsigneds(size, args, if decimal then 10 else 16).used
    ensures buf.Text() == Clip(old(buf.Text()) + Unsigneds(size, args, if decimal then 10 else 16).text, len)
  {
    hide Numeral, Clip;
    var value: nat;
    used := 1;
    if size >= 8 {
      value := Long(args);
      used := 2;
    } else if size == 4 {
      value := args[0];
    } else if size == 2 {
      value := args[0] % 0x1_0000;
    } else {
      value := args[0] % 0x100;
    }
    if decimal {
      AddUdec(buf, len, value, d);
    } else {
      var n := Uint64ToHex(buf, len, value, 0, d);
    }
  }

  // The conversions that ignore the length modifiers.
  method AddFixed(buf: Buffer, len: nat, c: char, args: Args, strings: Strings, ghost d: seq<char>) returns (used: nat)
    requires buf.Valid(len, d) && c in "scbBDXp" && Convert(c, 4, args, strings).Converted?
    modifies buf`sz, buf.data
    ensures buf.Valid(len, d) && used == Convert(c, 4, args, strings).used
    ensures buf.Text() == Clip(old(buf.Text()) + Convert(c, 4, args, strings).text, len)
  {
    hide Numeral, Clip, FixedNumeral, IntNumeral;
    used := 1;
    if c == 's' {
      buf.AddStr(len, strings(args[0]), d);
    } else if c == 'c' {
      buf.Add(len, (args[0] % 0x100) as char, d);
    } else if c == 'b' {
      buf.AddBin(len, args[0], 32, d);
    } else if c == 'B' {
      buf.AddBin(len, Long(args), 64, d);
      used := 2;
    } else if c == 'D' {
      AddIdec(buf, len, Signed(Long(args), TWO_64), d);
      used := 2;
    } else if c == 'X' {
      var n := Uint64ToHex(buf, len, Long(args), 0, d);
      used := 2;
    } else {
      ghost var t := buf.Text();
      buf.AddStr(len, "0x", d);
      ClipAppend(t + "0x", Numeral(args[0], 16), len);
      assert t + "0x" + Numeral(args[0], 16) == t + ("0x" + Numeral(args[0], 16));
      var n := Uint64ToHex(buf, len, args[0], 0, d);
    }
  }

  // One conversion letter; `known` is false where __vsnprintf calls panic.
  method AddConversion(buf: Buffer, len: nat, c: char, size: nat, args: Args, strings: Strings, ghost d: seq<char>)
      returns (known: bool, used: nat)
    requires buf.Valid(len, d) && !Convert(c, size, args, strings).Undefined?
    modifies buf`sz, buf.data
    ensures buf.Valid(len, d) && known == Convert(c, size, args, strings).Converted?
    ensures known ==> used == Convert(c, size, args, strings).used
    ensures known ==> buf.Text() == Clip(old(buf.Text()) + Convert(c, size, args, strings).text, len)
    ensures !known ==> buf.Text() == old(buf.Text())
  {
    known, used := true, 0;
    if c in "scbBDXp" {
      IgnoresSize(c, size, args, strings);
      used := AddFixed(buf, len, c, args, strings, d);
    } else if c == 'd' || c == 'i' {
      used := AddSigned(buf, len, size, args, d);
    } else if c == 'u' || c == 'x' {
      used := AddUnsigned(buf, len, size, args, c == 'u', d);
    } else if c == '%' {
      buf.Add(len, c, d);
    } else {
      known := false;
    }
  }

  lemma IgnoresSize(c: char, size: nat, args: Args, strings: Strings)
    requires c in "scbBDXp"
    ensures Convert(c, size, args, strings) == Convert(c, 4, args, strings)
  {
  }

  // ---- __vsnprintf -------------------------------------------------------------------------------------------------

  datatype Printed = Returned(count: nat) | Halted(c: char)

  // Once stopped, a rendering stays stopped.
  lemma {:induction false} StopStays(fmt: string, i: nat, n: nat, args: Args, strings: Strings, start: Mode)
    requires i <= n <= |fmt| && !RenderTo(fmt, i, args, strings, start).Done?
    ensures RenderTo(fmt, n, args, strings, start) == RenderTo(fmt, i, args, strings, start)
    decreases n
  {
    hide Advance;
    if i < n { StopStays(fmt, i, n - 1, args, strings, start); }
  }

  // The characters that change the mode of an open directive.
  method Modifier(c: char, lng: bool, size: nat) returns (lng2: bool, size2: nat)
    requires c == 'l' || c == 'h' || '0' <= c <= '9'
    ensures forall args: Args, strings: Strings ::
      Advance(Mode(true, lng, size), c, args, strings) == Going(Mode(true, lng2, size2), [], 0)
  {
    lng2, size2 := lng, size;
    if c == 'l' {
      if lng { size2 := 8; } else { lng2 := true; }
    } else if c == 'h' {
      size2 := size / 2;
    }
  }

  // The buffer in the middle of the loop.
  ghost predicate Written(o: Outcome, buf: Buffer, limit: nat, d: seq<char>)
    reads buf, buf.data
  {
    o.Done? && buf.Valid(limit, d) && buf.Text() == Clip(o.text, limit)
  }

  // One character of the format.
  method Interpret(buf: Buffer, limit: nat, c: char, mode: Mode, args: Args, strings: Strings, ghost o: Outcome,
                   ghost params: Args, ghost d: seq<char>) returns (known: bool, mode2: Mode, args2: Args)
    requires Written(o, buf, limit, d) && o.mode == mode && o.used <= |params| && args == params[o.used..]
    requires !Extend(o, c, params, strings).Meaningless?
    modifies buf`sz, buf.data
    ensures known == Extend(o, c, params, strings).Done?
    ensures known ==> Written(Extend(o, c, params, strings), buf, limit, d)
    ensures known ==> Extend(o, c, params, strings).mode == mode2
    ensures known ==> args2 == params[Extend(o, c, params, strings).used..]
    ensures !known ==> Extend(o, c, params, strings) == Panicked(o.text, c)
    ensures !known ==> buf.Valid(limit, d) && buf.Text() == old(buf.Text())
  {
    hide Convert, Clip;
    known, mode2, args2 := true, mode, args;
    if mode.interp {
      if c == 'l' || c == 'h' || '0' <= c <= '9' {
        var lng, size := Modifier(c, mode.lng, mode.size);
        mode2 := Mode(true, lng, size);
        assert Advance(mode, c, args, strings) == Going(mode2, [], 0);
        assert o.text + [] == o.text;
      } else {
        var used;
        ClipAppend(o.text, Converts(c, mode.size, args, strings), limit);
        known, used := AddConversion(buf, limit, c, mode.size, args, strings, d);
        if known {
          mode2, args2 := Mode(false, false, mode.size), args[used..];
        }
      }
    } else if c == '%' {
      mode2 := mode.(interp := true, size := 4);
      assert o.text + [] == o.text;
    } else {
      ClipAppend(o.text, [c], limit);
      buf.Add(limit, c, d);
    }
  }

  function Converts(c: char, size: nat, args: Args, strings: Strings): string {
    var r := Convert(c, size, args, strings);
    if r.Converted? then r.text else []
  }

  // Main contract. The buffer takes the rendering, cut at len - 1 characters, and a terminator
  // (even for len == 0); what was beyond them stays. The count returned includes the terminator,
  // and the arguments consumed do not depend on len.
  method Vsnprintf(buffer: array<char>, len: nat, format: string, params: Args, strings: Strings)
      returns (r: Printed, rest: Args)
    requires 1 <= buffer.Length && len <= buffer.Length
    requires !Render(format, params, strings).Meaningless?
    modifies buffer
    ensures var text, limit := Render(format, params, strings).text, if len > 0 then len - 1 else 0;
      var kept := Clip(text, limit);
      match Render(format, params, strings)
      case Done(_, used, _) =>
        && r == Returned(|kept| + 1) && rest == params[used..]
        && buffer[..] == kept + ['\0'] + old(buffer[..])[|kept| + 1..]
      case Panicked(_, c) =>
        r == Halted(c) && buffer[..] == kept + old(buffer[..])[|kept|..]
      case Meaningless => true
  {
    hide Clip, Extend;
    ghost var d := buffer[..];
    var buf := new Buffer(buffer);
    var limit := if len > 0 then len - 1 else 0;
    var mode := START;
    rest := params;
    var i := 0;
    ClipWithin([], limit);
    while i < |format|
      invariant i <= |format| && buf.data == buffer
      invariant Written(RenderTo(format, i, params, strings, START), buf, limit, d)
      invariant RenderTo(format, i, params, strings, START).mode == mode
      invariant rest == params[RenderTo(format, i, params, strings, START).used..]
    {
      var c := format[i];
      ghost var o := RenderTo(format, i, params, strings, START);
      i := i + 1;
      assert RenderTo(format, i, params, strings, START) == Extend(o, c, params, strings);
      if !RenderTo(format, i, params, strings, START).Done? {
        StopStays(format, i, |format|, params, strings, START);
      }
      var known;
      known, mode, rest := Interpret(buf, limit, c, mode, rest, strings, o, params, d);
      if !known {
        assert buffer[..] == buf.Text() + d[buf.sz..];
        return Halted(c), rest;
      }
    }
    ghost var kept := buf.Text();
    buffer[buf.sz] := '\0';
    assert buffer[..] == kept + ['\0'] + d[|kept| + 1..];
    r := Returned(buf.sz + 1);
  }
}
