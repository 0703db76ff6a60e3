// The grammar of the formats that kernel/core/print.c accepts, and what each directive means:
// a description without the state machine, which the state machine is proved to follow.
module Formats {
  import opened Words
  import opened Digits
  import opened Rendering

  datatype Piece = Literal(c: char) | Directive(flags: string, conv: char)

  predicate Flag(c: char) { c == 'l' || c == 'h' || '0' <= c <= '9' }

  predicate WellFormed(p: Piece) {
    match p
    case Literal(c) => c != '%'
    case Directive(flags, conv) => (forall i :: 0 <= i < |flags| ==> Flag(flags[i])) && !Flag(conv)
  }

  function UnparsePiece(p: Piece): string {
    match p
    case Literal(c) => [c]
    case Directive(flags, conv) => "%" + flags + [conv]
  }

  function Unparse(ps: seq<Piece>): string {
    if ps == [] then [] else Unparse(ps[..|ps| - 1]) + UnparsePiece(ps[|ps| - 1])
  }

  // How many bytes the modifiers ask for: four, eight from the second `l` on, and half for each `h`.
  function Longs(flags: string): nat {
    if flags == [] then 0 else Longs(flags[..|flags| - 1]) + if flags[|flags| - 1] == 'l' then 1 else 0
  }

  function SizeOf(flags: string): nat {
    if flags == [] then 4
    else
      var init, c := flags[..|flags| - 1], flags[|flags| - 1];
      if c == 'h' then SizeOf(init) / 2
      else if c == 'l' && Longs(flags) >= 2 then 8
      else SizeOf(init)
  }

  // The meaning of one piece after what has been said before.
  function Say(o: Outcome, p: Piece, args: Args, strings: Strings): (r: Outcome)
    requires o.Done? ==> o.used <= |args|
    ensures r.Done? ==> r.used <= |args|
  {
    if !o.Done? then o
    else match p
      case Literal(c) => Done(o.text + [c], o.used, START)
      case Directive(flags, conv) =>
        match Convert(conv, SizeOf(flags), args[o.used..], strings)
        case Converted(text, used) => Done(o.text + text, o.used + used, START)
        case Unsupported => Panicked(o.text, conv)
        case Undefined => Meaningless
  }

  function Meaning(ps: seq<Piece>, args: Args, strings: Strings): (r: Outcome)
    ensures r.Done? ==> r.used <= |args|
  {
    if ps == [] then Done([], 0, START)
    else Say(Meaning(ps[..|ps| - 1], args, strings), ps[|ps| - 1], args, strings)
  }

  // ---- One piece -------------------------------------------------------------------------------------------

  lemma {:induction false} FlagsMode(flags: string, n: nat, args: Args, strings: Strings, i: nat)
    requires n <= |flags| && forall i :: 0 <= i < |flags| ==> Flag(flags[i])
    ensures RenderTo("%" + flags, n + 1, args, strings, Mode(false, false, i))
      == Done([], 0, Mode(true, Longs(flags[..n]) >= 1, SizeOf(flags[..n])))
  {
    hide Convert;
    if n == 0 {
      assert RenderTo("%" + flags, 0, args, strings, Mode(false, false, i)) == Done([], 0, Mode(false, false, i));
    } else {
      FlagsMode(flags, n - 1, args, strings, i);
      assert ("%" + flags)[n] == flags[n - 1] && Flag(flags[n - 1]);
      assert flags[..n][..n - 1] == flags[..n - 1];
    }
  }

  lemma PieceMeans(p: Piece, args: Args, strings: Strings, i: nat)
    requires WellFormed(p)
    ensures var f := UnparsePiece(p);
      SameButSize(Say(Done([], 0, START), p, args, strings), RenderTo(f, |f|, args, strings, Mode(false, false, i)))
  {
    hide Convert;
    var f := UnparsePiece(p);
    assert args[0..] == args;
    match p
    case Literal(c) =>
      assert RenderTo(f, 0, args, strings, Mode(false, false, i)) == Done([], 0, Mode(false, false, i));
    case Directive(flags, conv) =>
      var g := "%" + flags;
      FlagsMode(flags, |flags|, args, strings, i);
      assert flags[..|flags|] == flags && f[..|g|] == g[..|g|] && f[|f| - 1] == conv;
      SamePrefix(g, f, |g|, args, strings, Mode(false, false, i));
  }

  // ---- Sequences of pieces ------------------------------------------------------------------------------------

  lemma {:induction false} StuckStays(f: string, g: string, n: nat, args: Args, strings: Strings, start: Mode)
    requires n <= |g| && !RenderTo(f, |f|, args, strings, start).Done?
    ensures RenderTo(f + g, |f| + n, args, strings, start) == RenderTo(f, |f|, args, strings, start)
  {
    hide Advance;
    if n == 0 { SamePrefix(f, f + g, |f|, args, strings, start); } else { StuckStays(f, g, n - 1, args, strings, start); }
  }

  // A rendering that has finished a piece goes on with the next one.
  lemma SayNext(o: Outcome, p: Piece, args: Args, strings: Strings, a: Outcome, b: Outcome, whole: Outcome)
    requires o.Done? && o.used <= |args| && SameButSize(o, a)
    requires SameButSize(Say(Done([], 0, START), p, args[o.used..], strings), b) && Continues(a, b, whole)
    ensures o.mode == START ==> SameButSize(Say(o, p, args, strings), whole)
  {
    hide Convert;
    assert args[o.used..][0..] == args[o.used..];
  }

  lemma {:induction false} PiecesMean(ps: seq<Piece>, args: Args, strings: Strings)
    requires forall i :: 0 <= i < |ps| ==> WellFormed(ps[i])
    ensures SameButSize(Meaning(ps, args, strings), Render(Unparse(ps), args, strings))
    ensures Meaning(ps, args, strings).Done? ==> Meaning(ps, args, strings).mode == START
  {
    hide Convert, WellFormed, UnparsePiece, Say;
    if ps != [] {
      var init, p := ps[..|ps| - 1], ps[|ps| - 1];
      PiecesMean(init, args, strings);
      var o, f, g := Meaning(init, args, strings), Unparse(init), UnparsePiece(p);
      var a := RenderTo(f, |f|, args, strings, START);
      if a.Done? {
        RenderSplit(f, g, |g|, args, strings, START);
        PieceMeans(p, args[a.used..], strings, a.mode.size);
        SayNext(o, p, args, strings, a, RenderTo(g, |g|, args[a.used..], strings, a.mode), Render(f + g, args, strings));
        SayModes(o, p, args, strings);
      } else {
        StuckStays(f, g, |g|, args, strings, START);
        SayModes(o, p, args, strings);
      }
    }
  }

  lemma SayModes(o: Outcome, p: Piece, args: Args, strings: Strings)
    requires o.Done? ==> o.used <= |args| && o.mode == START
    ensures Say(o, p, args, strings).Done? ==> Say(o, p, args, strings).mode == START
    ensures !o.Done? ==> Say(o, p, args, strings) == o
  {
  }

  // ---- Every format ----------------------------------------------------------------------------------------------

  function FlagCount(s: string): (n: nat)
    ensures n <= |s| && (forall i :: 0 <= i < n ==> Flag(s[i])) && (n < |s| ==> !Flag(s[n]))
  {
    if s != [] && Flag(s[0]) then 1 + FlagCount(s[1..]) else 0
  }

  // The pieces of a format, and the unfinished directive at its end, if any.
  function Scan(fmt: string): (r: (seq<Piece>, string))
    ensures forall i :: 0 <= i < |r.0| ==> WellFormed(r.0[i])
    ensures r.1 == [] || (r.1[0] == '%' && forall i :: 1 <= i < |r.1| ==> Flag(r.1[i]))
  {
    if fmt == [] then ([], [])
    else if fmt[0] != '%' then
      var (ps, rest) := Scan(fmt[1..]);
      ([Literal(fmt[0])] + ps, rest)
    else
      var n := FlagCount(fmt[1..]);
      if n + 1 == |fmt| then ([], fmt)
      else
        var (ps, rest) := Scan(fmt[n + 2..]);
        ([Directive(fmt[1..n + 1], fmt[n + 1])] + ps, rest)
  }

  lemma {:induction false} UnparseCons(p: Piece, ps: seq<Piece>)
    ensures Unparse([p] + ps) == UnparsePiece(p) + Unparse(ps)
  {
    hide UnparsePiece;
    var all := [p] + ps;
    if ps == [] {
      assert all == [p] && all[..0] == [];
      assert Unparse(all[..0]) == [];
    } else {
      var init, last := ps[..|ps| - 1], ps[|ps| - 1];
      UnparseCons(p, init);
      assert all[..|all| - 1] == [p] + init && all[|all| - 1] == last;
      var x, y, z := UnparsePiece(p), Unparse(init), UnparsePiece(last);
      assert (x + y) + z == x + (y + z);
    }
  }

  lemma {:induction false} ScanUnparses(fmt: string)
    ensures Unparse(Scan(fmt).0) + Scan(fmt).1 == fmt
  {
    hide Unparse, FlagCount;
    if fmt == [] {
      UnparseNothing();
    } else if fmt[0] != '%' {
      ScanUnparses(fmt[1..]);
      Prepend(Literal(fmt[0]), Scan(fmt[1..]).0, Scan(fmt[1..]).1, fmt[1..]);
    } else {
      var n := FlagCount(fmt[1..]);
      if n + 1 < |fmt| {
        var p := Directive(fmt[1..n + 1], fmt[n + 1]);
        ScanUnparses(fmt[n + 2..]);
        Prepend(p, Scan(fmt[n + 2..]).0, Scan(fmt[n + 2..]).1, fmt[n + 2..]);
        assert fmt == UnparsePiece(p) + fmt[n + 2..];
      } else {
        UnparseNothing();
      }
    }
  }

  lemma UnparseNothing()
    ensures Unparse([]) == []
  {
  }

  lemma Prepend(p: Piece, ps: seq<Piece>, rest: string, g: string)
    requires Unparse(ps) + rest == g
    ensures Unparse([p] + ps) + rest == UnparsePiece(p) + g
  {
    hide Unparse, UnparsePiece;
    UnparseCons(p, ps);
  }

  // Same text and arguments, whatever the mode at the end.
  predicate SameText(a: Outcome, b: Outcome) {
    match a
    case Done(text, used, mode) => b.Done? && b.text == text && b.used == used
    case _ => b == a
  }

  // Main theorem: the state machine renders every format as its pieces mean; an unfinished
  // directive at the end says nothing.
  lemma FormatMeans(fmt: string, args: Args, strings: Strings)
    ensures SameText(Meaning(Scan(fmt).0, args, strings), Render(fmt, args, strings))
  {
    hide Convert, Say, Scan, Unparse, RenderTo, Meaning;
    var ps, rest := Scan(fmt).0, Scan(fmt).1;
    ScanUnparses(fmt);
    PiecesMean(ps, args, strings);
    var f := Unparse(ps);
    var a := RenderTo(f, |f|, args, strings, START);
    if a.Done? {
      RenderSplit(f, rest, |rest|, args, strings, START);
      Dangling(rest, args[a.used..], strings, a.mode);
    } else {
      StuckStays(f, rest, |rest|, args, strings, START);
    }
  }

  lemma Dangling(rest: string, args: Args, strings: Strings, m: Mode)
    requires rest == [] || (rest[0] == '%' && forall i :: 1 <= i < |rest| ==> Flag(rest[i]))
    requires !m.interp && !m.lng
    ensures var b := RenderTo(rest, |rest|, args, strings, m); b.Done? && b.text == [] && b.used == 0
  {
    hide Advance;
    if rest != [] {
      assert rest == "%" + rest[1..];
      FlagsMode(rest[1..], |rest| - 1, args, strings, m.size);
    }
  }

  // ---- Plain text --------------------------------------------------------------------------------------------------

  // Text written so that a format says exactly it.
  function Quote(s: string): (ps: seq<Piece>)
    ensures |ps| == |s| && forall i :: 0 <= i < |ps| ==> WellFormed(ps[i])
  {
    seq(|s|, i requires 0 <= i < |s| => Quoted(s[i]))
  }

  function Quoted(c: char): Piece { if c == '%' then Directive([], '%') else Literal(c) }

  lemma SayQuoted(s: string, c: char, args: Args, strings: Strings)
    ensures Say(Done(s, 0, START), Quoted(c), args, strings) == Done(s + [c], 0, START)
  {
  }

  lemma {:induction false} QuoteMeans(s: string, args: Args, strings: Strings)
    ensures Meaning(Quote(s), args, strings) == Done(s, 0, START)
  {
    hide Say, Convert;
    if s != [] {
      var init, c := s[..|s| - 1], s[|s| - 1];
      QuoteMeans(init, args, strings);
      assert Quote(s)[..|s| - 1] == Quote(init) && Quote(s)[|s| - 1] == Quoted(c);
      SayQuoted(init, c, args, strings);
      assert s == init + [c];
    }
  }

  // Every text has a format that prints it, and no text needs arguments.
  lemma QuoteRoundTrip(s: string, args: Args, strings: Strings)
    ensures SameText(Done(s, 0, START), Render(Unparse(Quote(s)), args, strings))
  {
    QuoteMeans(s, args, strings);
    PiecesMean(Quote(s), args, strings);
  }

  lemma {:induction false} PlainText(s: string, n: nat, args: Args, strings: Strings, i: nat)
    requires n <= |s| && forall i :: 0 <= i < |s| ==> s[i] != '%'
    ensures RenderTo(s, n, args, strings, Mode(false, false, i)) == Done(s[..n], 0, Mode(false, false, i))
  {
    if n > 0 {
      PlainText(s, n - 1, args, strings, i);
      assert s[..n] == s[..n - 1] + [s[n - 1]];
    }
  }

  lemma UnsignedAlone(v: Word, strings: Strings)
    ensures RenderTo("%u", 2, [v], strings, START) == Done(Numeral(v, 10), 1, START)
  {
    hide Numeral;
    assert [v][0..] == [v];
    assert RenderTo("%u", 0, [v], strings, START) == Done([], 0, START);
    assert RenderTo("%u", 1, [v], strings, START) == Done([], 0, Mode(true, false, 4));
  }

  lemma UnsignedThen(v: Word, g: string, strings: Strings)
    requires forall i :: 0 <= i < |g| ==> g[i] != '%'
    ensures RenderTo("%u" + g, 2 + |g|, [v], strings, START) == Done(Numeral(v, 10) + g, 1, START)
  {
    hide Numeral, Extend;
    UnsignedAlone(v, strings);
    RenderSplit("%u", g, |g|, [v], strings, START);
    PlainText(g, |g|, [v][1..], strings, 4);
  }

  // One unsigned value between two plain texts.
  lemma ValueBetween(f: string, g: string, v: Word, strings: Strings)
    requires forall i :: 0 <= i < |f| ==> f[i] != '%'
    requires forall i :: 0 <= i < |g| ==> g[i] != '%'
    ensures Render(f + ("%u" + g), [v], strings) == Done(f + (Numeral(v, 10) + g), 1, START)
  {
    hide Numeral, Extend;
    PlainText(f, |f|, [v], strings, 4);
    assert [v][0..] == [v];
    UnsignedThen(v, g, strings);
    RenderSplit(f, "%u" + g, 2 + |g|, [v], strings, START);
  }
}
