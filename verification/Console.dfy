// printf over the serial console, and the line that the system call of tp_exam/tp.c prints.
module Console {
  import opened Words
  import opened Digits
  import opened Rendering
  import opened Print
  import opened Formats
  import Kernel

  const BUFFER_SIZE := 1024

  // vprint_buffer, and what uart_write has sent.
  class Uart {
    const buffer: array<char>
    var sent: string

    constructor ()
      ensures fresh(buffer) && buffer.Length == BUFFER_SIZE && sent == ""
    {
      buffer := new char[BUFFER_SIZE];
      sent := "";
    }

    // __vprintf: the rendering, cut at 1023 characters, goes out without its terminator.
    method Vprintf(format: string, params: Args, strings: Strings) returns (r: Printed)
      requires buffer.Length == BUFFER_SIZE && !Render(format, params, strings).Meaningless?
      modifies this`sent, buffer
      ensures var o := Render(format, params, strings);
        match o
        case Done(text, _, _) =>
          var out := if |text| <= 1023 then text else text[..1023];
          r == Returned(|out| + 1) && sent == old(sent) + out
        case Panicked(_, c) =>
          r == Halted(c) && sent == old(sent) + "unsupported format arg '" + [(c as int % 0x100) as char] + "'\n"
        case Meaningless => true
    {
      hide Render, Clip, PanicText;
      var rest;
      r, rest := Vsnprintf(buffer, BUFFER_SIZE, format, params, strings);
      match r
      case Returned(count) =>
        assert buffer[..count - 1] == Clip(Render(format, params, strings).text, BUFFER_SIZE - 1);
        sent := sent + buffer[..count - 1];
      case Halted(c) =>
        Panic(c, strings);
    }

    // panic("unsupported format arg '%c'\n", c), up to its halt loop; it prints through the same buffer.
    method Panic(c: char, strings: Strings)
      requires buffer.Length == BUFFER_SIZE
      modifies this`sent, buffer
      ensures sent == old(sent) + "unsupported format arg '" + [(c as int % 0x100) as char] + "'\n"
    {
      PanicIsPrinted(c, strings);
      PanicTextIs(c);
      hide Render, Clip, PanicText;
      var r, rest := Vsnprintf(buffer, BUFFER_SIZE, PANIC_FORMAT, [c as int % 0x100], strings);
      assert buffer[..r.count - 1] == PanicText(c);
      sent := sent + buffer[..r.count - 1];
      assert sent == old(sent) + PanicText(c);
      Grouped(old(sent), "unsupported format arg '", [(c as int % 0x100) as char], "'\n");
    }
  }

  const PANIC_FORMAT: string := "unsupported format arg '" + ("%c" + "'\n")

  // `c` goes through an int and comes out as a byte.
  function PanicText(c: char): string {
    "unsupported format arg '" + ([(c as int % 0x100) as char] + "'\n")
  }

  lemma PanicTextIs(c: char)
    ensures PanicText(c) == "unsupported format arg '" + [(c as int % 0x100) as char] + "'\n"
  {
  }

  lemma Grouped(s: string, t: string, u: string, v: string)
    ensures s + (t + u + v) == s + t + u + v
  {
  }

  lemma CharAlone(v: Word, strings: Strings)
    ensures RenderTo("%c", 2, [v], strings, START) == Done([(v % 0x100) as char], 1, START)
  {
    assert [v][0..] == [v];
    assert RenderTo("%c", 0, [v], strings, START) == Done([], 0, START);
    assert RenderTo("%c", 1, [v], strings, START) == Done([], 0, Mode(true, false, 4));
  }

  lemma PanicIsPrinted(c: char, strings: Strings)
    ensures Render(PANIC_FORMAT, [c as int % 0x100], strings) == Done(PanicText(c), 1, START)
    ensures Clip(PanicText(c), BUFFER_SIZE - 1) == PanicText(c)
  {
    hide Extend;
    var v: Word, f, g := c as int % 0x100, "unsupported format arg '", "'\n";
    assert [v][0..] == [v];
    CharAlone(v, strings);
    RenderSplit("%c", g, |g|, [v], strings, START);
    PlainText(g, |g|, [v][1..], strings, 4);
    PlainText(f, |f|, [v], strings, 4);
    RenderSplit(f, "%c" + g, 2 + |g|, [v], strings, START);
  }

  const COUNTER_FORMAT: string := "Counter value: " + ("%u" + "\n")

  // debug("Counter value: %u\n", v) prints exactly the line that the system call is specified by.
  lemma CounterLineIsPrinted(v: Word, strings: Strings)
    ensures Render(COUNTER_FORMAT, [v], strings).Done?
    ensures Clip(Render(COUNTER_FORMAT, [v], strings).text, BUFFER_SIZE - 1) == Kernel.CounterLine(v)
  {
    hide Numeral, Render;
    ValueBetween("Counter value: ", "\n", v, strings);
    DecimalFits(v);
    assert "Counter value: " + (Numeral(v, 10) + "\n") == Kernel.CounterLine(v);
  }

  // What the console shows of a counter can be read back.
  lemma CounterLineDenotes(v: Word)
    ensures var s := Kernel.CounterLine(v);
      |s| >= 16 && Parse(s[15..|s| - 1], 10) == Some(v)
  {
    hide Numeral, Parse;
    ParseNumeral(v, 10);
    var s := Kernel.CounterLine(v);
    assert s[15..|s| - 1] == Numeral(v, 10);
  }
}
