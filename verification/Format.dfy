/** vprintfmt of lib/printfmt.c. A format is a C string: At gives its terminating NUL at the end
    and may not be asked for anything beyond. */
module Format {
  import opened Mmu
  import opened Numbers

  function Signed(w: Word): int { if w < 0x8000_0000 then w else w - 0x1_0000_0000 }

  /** va_arg: the next machine word and the rest; words the caller did not pass read as 0. */
  function Next(args: seq<Word>): (Word, seq<Word>) {
    if args == [] then (0, []) else (args[0], args[1..])
  }

  datatype Flags = Flags(padc: char, width: int, precision: int, lflag: nat, alt: bool)

  const NO_FLAGS := Flags(' ', -1, -1, 0, false)

  /** A scanned escape: its conversion character, the position after it, what the flags said,
      and the arguments '*' left. */
  datatype Escape = Escape(conv: char, next: nat, flags: Flags, args: seq<Word>)

  predicate IsNonZero(c: char) { '1' <= c <= '9' }
  predicate IsDecimal(c: char) { '0' <= c <= '9' }

  /** The rest of a number whose first digits gave acc. */
  function Number(fmt: string, i: nat, acc: int): (r: (int, nat))
    requires i <= |fmt|
    ensures i <= r.1 <= |fmt| && forall k :: i <= k < r.1 ==> IsDecimal(fmt[k])
    decreases |fmt| - i
  {
    if IsDecimal(At(fmt, i)) then Number(fmt, i + 1, acc * 10 + (fmt[i] as int - '0' as int)) else (acc, i)
  }

  /** process_precision */
  function WidthFirst(fl: Flags, n: int): Flags {
    if fl.width < 0 then fl.(width := n, precision := -1) else fl.(precision := n)
  }

  /** The switch from position i: flags are collected until a conversion character. */
  function Scan(fmt: string, i: nat, fl: Flags, args: seq<Word>): (e: Escape)
    requires i <= |fmt|
    ensures i < e.next <= |fmt| + 1 && e.conv == At(fmt, e.next - 1)
    ensures forall k :: i <= k < e.next - 1 ==> fmt[k] != '%'
    decreases |fmt| - i
  {
    var c := At(fmt, i);
    if c == '-' then Scan(fmt, i + 1, fl.(padc := '-'), args)
    else if c == '0' then Scan(fmt, i + 1, fl.(padc := '0'), args)
    else if IsNonZero(c) then
      var (n, j) := Number(fmt, i + 1, c as int - '0' as int);
      Scan(fmt, j, WidthFirst(fl, n), args)
    else if c == '*' then
      var (w, rest) := Next(args);
      Scan(fmt, i + 1, WidthFirst(fl, Signed(w)), rest)
    else if c == '.' then Scan(fmt, i + 1, if fl.width < 0 then fl.(width := 0) else fl, args)
    else if c == '#' then Scan(fmt, i + 1, fl.(alt := true), args)
    else if c == 'l' then Scan(fmt, i + 1, fl.(lflag := fl.lflag + 1), args)
    else Escape(c, i + 1, fl, args)
  }

  predicate Known(c: char) { c in "cesduopx%" }

  // The conversions

  /** getuint: one word, or two for long long. */
  function GetUint(args: seq<Word>, lflag: nat): (nat, seq<Word>) {
    var (lo, rest) := Next(args);
    if lflag >= 2 then
      var (hi, rest') := Next(rest);
      (hi * 0x1_0000_0000 + lo, rest')
    else (lo, rest)
  }

  function GetInt(args: seq<Word>, lflag: nat): (int, seq<Word>) {
    var (u, rest) := GetUint(args, lflag);
    if lflag >= 2 then (if u < 0x8000_0000_0000_0000 then u else u - 0x1_0000_0000_0000_0000, rest)
    else (if u < 0x8000_0000 then u else u - 0x1_0000_0000, rest)
  }

  function Decimal(n: int, width: int, padc: char): string {
    if n < 0 then "-" + PrintNum(-n, 10, width, padc) else PrintNum(n, 10, width, padc)
  }

  const ERROR_STRINGS: seq<string> := ["unspecified error", "bad environment", "invalid parameter",
    "out of memory", "out of environments", "segmentation fault"]

  function ErrorText(err: int): string {
    var n := if err < 0 then -err else err;
    if 1 <= n <= 6 then ERROR_STRINGS[n - 1] else "error " + Decimal(n, -1, ' ')
  }

  /** How many characters of p %s shows. */
  function Shown(p: string, precision: int): (n: nat)
    ensures n <= |p|
  {
    if 0 <= precision < |p| then precision else |p|
  }

  function Mask(c: char, alt: bool): char { if alt && (c < ' ' || c > '~') then '?' else c }

  function Masked(p: string, alt: bool): (r: string)
    ensures |r| == |p|
  {
    if p == [] then [] else [Mask(p[0], alt)] + Masked(p[1..], alt)
  }

  /** %s: padding on the left unless '-' was given, the characters, padding on the right. */
  function StringText(p: string, fl: Flags): string {
    var n := Shown(p, fl.precision);
    var left := fl.width > 0 && fl.padc != '-';
    (if left then Pad(fl.width - n, fl.padc) else [])
    + Masked(p[..n], fl.alt)
    + (if left then [] else Pad(fl.width - n, ' '))
  }

  /** A %s escape emits max(width, min(strlen, precision)) characters. */
  lemma StringLength(p: string, fl: Flags)
    ensures var n := if 0 <= fl.precision < |p| then fl.precision else |p|;
      |StringText(p, fl)| == if fl.width > n then fl.width else n
  {
  }

  /** What a known conversion emits and the arguments it leaves; str gives the string at an address. */
  function Convert(e: Escape, str: Word -> string): (string, seq<Word>)
    requires Known(e.conv)
  {
    var (w, rest) := Next(e.args);
    match e.conv
    case 'c' => ([(w % 256) as char], rest)
    case 'e' => (ErrorText(Signed(w)), rest)
    case 's' => (StringText(if w == 0 then "(null)" else str(w), e.flags), rest)
    case 'd' =>
      var (n, rest') := GetInt(e.args, e.flags.lflag);
      (Decimal(n, e.flags.width, e.flags.padc), rest')
    case 'p' => ("0x" + PrintNum(w, 16, e.flags.width, e.flags.padc), rest)
    case '%' => ("%", e.args)
    case _ =>
      var (n, rest') := GetUint(e.args, e.flags.lflag);
      (PrintNum(n, if e.conv == 'u' then 10 else if e.conv == 'o' then 8 else 16, e.flags.width, e.flags.padc), rest')
  }

  /** Everything vprintfmt emits from position i on. After an unknown escape it goes on behind
      the escape's own '%'. */
  function Text(fmt: string, i: nat, args: seq<Word>, str: Word -> string): string
    requires i <= |fmt|
    decreases |fmt| - i
  {
    if i == |fmt| then []
    else if fmt[i] != '%' then [fmt[i]] + Text(fmt, i + 1, args, str)
    else
      var e := Scan(fmt, i + 1, NO_FLAGS, args);
      if Known(e.conv) && e.next <= |fmt| then
        var (out, rest) := Convert(e, str);
        out + Text(fmt, e.next, rest, str)
      else "%" + Text(fmt, i + 1, e.args, str)
  }

  /** Characters other than '%' are copied. */
  lemma {:induction false} PlainRun(fmt: string, i: nat, j: nat, args: seq<Word>, str: Word -> string)
    requires i <= j <= |fmt| && forall k :: i <= k < j ==> fmt[k] != '%'
    ensures Text(fmt, i, args, str) == fmt[i..j] + Text(fmt, j, args, str)
    decreases j - i
  {
    hide *;
    if i < j {
      TextPlain(fmt, i, args, str);
      PlainRun(fmt, i + 1, j, args, str);
      assert fmt[i..j] == [fmt[i]] + fmt[i + 1..j];
    } else {
      assert fmt[i..j] == [];
    }
  }

  lemma TextPlain(fmt: string, i: nat, args: seq<Word>, str: Word -> string)
    requires i < |fmt| && fmt[i] != '%'
    ensures Text(fmt, i, args, str) == [fmt[i]] + Text(fmt, i + 1, args, str)
  {
  }

  /** An unrecognised escape comes out exactly as it was written, up to and including the
      character that is no conversion (or the end of the format). */
  lemma UnknownVerbatim(fmt: string, i: nat, args: seq<Word>, str: Word -> string)
    requires i < |fmt| && fmt[i] == '%'
    requires !Known(Scan(fmt, i + 1, NO_FLAGS, args).conv)
    ensures var e := Scan(fmt, i + 1, NO_FLAGS, args);
      var j := if e.next <= |fmt| then e.next else |fmt|;
      Text(fmt, i, args, str) == fmt[i..j] + Text(fmt, j, e.args, str)
  {
    hide *;
    var e := Scan(fmt, i + 1, NO_FLAGS, args);
    var j := if e.next <= |fmt| then e.next else |fmt|;
    TextUnknown(fmt, i, args, str);
    PlainRun(fmt, i + 1, j, e.args, str);
    assert fmt[i..j] == [fmt[i]] + fmt[i + 1..j];
    assert [fmt[i]] == "%";
  }

  lemma TextUnknown(fmt: string, i: nat, args: seq<Word>, str: Word -> string)
    requires i < |fmt| && fmt[i] == '%'
    requires !Known(Scan(fmt, i + 1, NO_FLAGS, args).conv)
    ensures var e := Scan(fmt, i + 1, NO_FLAGS, args);
      && Text(fmt, i, args, str) == "%" + Text(fmt, i + 1, e.args, str)
      && forall k :: i + 1 <= k < |fmt| && k < e.next ==> fmt[k] != '%'
  {
    hide Scan, Convert;
  }

  // The code

  /** The switch with its gotos: returns at the first character that is no flag, width or
      precision. p is fmt. */
  method ScanEscape(fmt: string, start: nat, args0: seq<Word>) returns (e: Escape)
    requires start <= |fmt|
    ensures e == Scan(fmt, start, NO_FLAGS, args0)
  {
    hide Number;
    var p, args := start, args0;
    var padc, width, precision, lflag, alt := ' ', -1, -1, 0, false;
    while true
      invariant p <= |fmt| && lflag >= 0
      invariant Scan(fmt, p, Flags(padc, width, precision, lflag, alt), args) == Scan(fmt, start, NO_FLAGS, args0)
      decreases |fmt| - p
    {
      var ch := At(fmt, p);
      p := p + 1;
      if ch == '-' {
        padc := '-';
      } else if ch == '0' {
        padc := '0';
      } else if IsNonZero(ch) {
        var n;
        n, p := ReadNumber(fmt, p, ch);
        if width < 0 { width, precision := n, -1; } else { precision := n; }
      } else if ch == '*' {
        var (w, rest) := Next(args);
        args := rest;
        if width < 0 { width, precision := Signed(w), -1; } else { precision := Signed(w); }
      } else if ch == '.' {
        if width < 0 { width := 0; }
      } else if ch == '#' {
        alt := true;
      } else if ch == 'l' {
        lflag := lflag + 1;
      } else {
        return Escape(ch, p, Flags(padc, width, precision, lflag, alt), args);
      }
    }
  }

  /** The width field's loop, entered with its first digit. */
  method ReadNumber(fmt: string, start: nat, first: char) returns (n: int, p: nat)
    requires start <= |fmt|
    ensures (n, p) == Number(fmt, start, first as int - '0' as int)
  {
    n, p := first as int - '0' as int, start;
    while IsDecimal(At(fmt, p))
      invariant p <= |fmt| && Number(fmt, p, n) == Number(fmt, start, first as int - '0' as int)
      decreases |fmt| - p
    {
      n := n * 10 + (fmt[p] as int - '0' as int);
      p := p + 1;
    }
  }

  /** The %s case. p is a C string; strnlen(p, precision) is Shown. */
  method EmitString(putch: Stream, p: string, fl: Flags)
    requires forall k :: 0 <= k < |p| ==> p[k] != '\0'
    modifies putch
    ensures putch.out == old(putch.out) + StringText(p, fl)
  {
    var width := fl.width;
    if width > 0 && fl.padc != '-' {
      var len := Strnlen(p, fl.precision);
      width := EmitPad(putch, width - len, fl.padc);
    }
    StringParts(old(putch.out), p, fl, width);
    hide Pad, StringText, Masked;
    width := EmitMasked(putch, p, fl, width);
    width := EmitPad(putch, width, ' ');
  }

  /** The characters themselves; width goes down with each. */
  method EmitMasked(putch: Stream, p: string, fl: Flags, width0: int) returns (width: int)
    requires forall k :: 0 <= k < |p| ==> p[k] != '\0'
    modifies putch
    ensures putch.out == old(putch.out) + Masked(p[..Shown(p, fl.precision)], fl.alt)
    ensures width == width0 - Shown(p, fl.precision)
  {
    MaskedNone(p, fl.alt);
    hide Masked;
    var precision, i := fl.precision, 0;
    width := width0;
    while At(p, i) != '\0' && (precision < 0 || precision - 1 >= 0)
      invariant 0 <= i <= Shown(p, fl.precision) && width == width0 - i
      invariant if fl.precision < 0 then precision == fl.precision else precision == fl.precision - i
      invariant putch.out == old(putch.out) + Masked(p[..i], fl.alt)
      decreases |p| - i
    {
      MaskedSnoc(p, i, fl.alt);
      if precision >= 0 { precision := precision - 1; }
      if fl.alt && (p[i] < ' ' || p[i] > '~') { putch.Putch('?'); } else { putch.Putch(p[i]); }
      i, width := i + 1, width - 1;
    }
    assert i == Shown(p, fl.precision);
  }

  /** The two paddings around the characters make up StringText; width is what the padding on the
      left has left of fl.width. */
  lemma StringParts(out: string, p: string, fl: Flags, width: int)
    requires var n := Shown(p, fl.precision);
      width == if fl.width <= 0 || fl.padc == '-' then fl.width else if fl.width > n then 0 else fl.width - n
    ensures var n := Shown(p, fl.precision);
      out + (if fl.width > 0 && fl.padc != '-' then Pad(fl.width - n, fl.padc) else [])
      + Masked(p[..n], fl.alt) + Pad(width - n, ' ') == out + StringText(p, fl)
  {
    NoPad(width - Shown(p, fl.precision));
  }

  lemma MaskedNone(p: string, alt: bool)
    ensures Masked(p[..0], alt) == []
  {
  }

  lemma NoPad(n: int)
    ensures n <= 0 ==> Pad(n, ' ') == []
  {
  }

  /** Pads until no width is left. */
  method EmitPad(putch: Stream, width0: int, c: char) returns (width: int)
    modifies putch
    ensures putch.out == old(putch.out) + Pad(width0, c)
    ensures width == if width0 > 0 then 0 else width0
  {
    width := width0;
    while width > 0
      invariant if width0 > 0 then width >= 0 else width == width0
      invariant width <= width0 && putch.out + Pad(width, c) == old(putch.out) + Pad(width0, c)
    {
      assert Pad(width, c) == [c] + Pad(width - 1, c);
      putch.Putch(c);
      width := width - 1;
    }
    assert putch.out + Pad(width, c) == putch.out;
  }

  lemma {:induction false} MaskedSnoc(p: string, i: nat, alt: bool)
    requires i < |p|
    ensures Masked(p[..i + 1], alt) == Masked(p[..i], alt) + [Mask(p[i], alt)]
    decreases i
  {
    if i == 0 {
      assert p[..1] == [p[0]] && p[..1][1..] == [] && p[..0] == [];
    } else {
      assert p[..i + 1][1..] == p[1..][..i] && p[..i][1..] == p[1..][..i - 1] && p[1..][i - 1] == p[i];
      MaskedSnoc(p[1..], i - 1, alt);
    }
  }

  /** strnlen of lib/string.c; a negative size is a huge one. */
  method Strnlen(s: string, size: int) returns (n: nat)
    requires forall k :: 0 <= k < |s| ==> s[k] != '\0'
    ensures n == Shown(s, size)
  {
    n := 0;
    while (size < 0 || size - n > 0) && At(s, n) != '\0'
      invariant n <= |s| && (size >= 0 ==> n <= size)
      decreases |s| - n
    {
      n := n + 1;
    }
  }

  /** The known conversions except %s. */
  method EmitNumber(putch: Stream, n0: int, base: nat, width: int, padc: char)
    requires 2 <= base <= 16 && (n0 < 0 ==> base == 10)
    modifies putch
    ensures putch.out == old(putch.out) + if n0 < 0 then Decimal(n0, width, padc) else PrintNum(n0, base, width, padc)
  {
    var num := n0;
    if num < 0 {
      putch.Putch('-');
      num := -num;
    }
    EmitNum(putch, num, base, width, padc);
  }

  method EmitAll(putch: Stream, text: string)
    modifies putch
    ensures putch.out == old(putch.out) + text
  {
    for k := 0 to |text|
      invariant putch.out == old(putch.out) + text[..k]
    {
      putch.Putch(text[k]);
    }
    assert text[..|text|] == text;
  }

  method EmitConversion(putch: Stream, e: Escape, str: Word -> string) returns (args: seq<Word>)
    requires Known(e.conv) && forall w, k :: 0 <= k < |str(w)| ==> str(w)[k] != '\0'
    modifies putch
    ensures putch.out == old(putch.out) + Convert(e, str).0 && args == Convert(e, str).1
  {
    var (w, rest) := Next(e.args);
    args := rest;
    match e.conv
    case 'c' => putch.Putch((w % 256) as char);
    case 'e' => EmitAll(putch, ErrorText(Signed(w)));
    case 's' => EmitString(putch, if w == 0 then "(null)" else str(w), e.flags);
    case 'd' =>
      var (n, rest') := GetInt(e.args, e.flags.lflag);
      args := rest';
      EmitNumber(putch, n, 10, e.flags.width, e.flags.padc);
    case 'p' =>
      putch.Putch('0');
      putch.Putch('x');
      EmitNumber(putch, w, 16, e.flags.width, e.flags.padc);
    case '%' =>
      args := e.args;
      putch.Putch('%');
    case _ =>
      var (n, rest') := GetUint(e.args, e.flags.lflag);
      args := rest';
      EmitNumber(putch, n, if e.conv == 'u' then 10 else if e.conv == 'o' then 8 else 16, e.flags.width, e.flags.padc);
  }

  /** One step of Text, as additions to what has been emitted. */
  lemma TextStep(fmt: string, p: nat, args: seq<Word>, str: Word -> string)
    requires p <= |fmt|
    ensures p == |fmt| ==> forall out: string :: out + Text(fmt, p, args, str) == out
    ensures p < |fmt| && fmt[p] != '%' ==>
      forall out: string :: (out + [fmt[p]]) + Text(fmt, p + 1, args, str) == out + Text(fmt, p, args, str)
    ensures p < |fmt| && fmt[p] == '%' ==>
      var e := Scan(fmt, p + 1, NO_FLAGS, args);
      forall out: string ::
        if Known(e.conv) && e.next <= |fmt| then
          (out + Convert(e, str).0) + Text(fmt, e.next, Convert(e, str).1, str) == out + Text(fmt, p, args, str)
        else (out + "%") + Text(fmt, p + 1, e.args, str) == out + Text(fmt, p, args, str)
  {
  }

  /** vprintfmt ends for every format, reads nothing behind its NUL, and emits Text. */
  method Vprintfmt(putch: Stream, fmt: string, args0: seq<Word>, str: Word -> string)
    requires forall k :: 0 <= k < |fmt| ==> fmt[k] != '\0'
    requires forall w, k :: 0 <= k < |str(w)| ==> str(w)[k] != '\0'
    modifies putch
    ensures putch.out == old(putch.out) + Text(fmt, 0, args0, str)
  {
    hide Text, Scan, Convert, Pad;
    var p, args := 0, args0;
    while true
      invariant p <= |fmt|
      invariant putch.out + Text(fmt, p, args, str) == old(putch.out) + Text(fmt, 0, args0, str)
      decreases |fmt| - p
    {
      while At(fmt, p) != '%'
        invariant p <= |fmt|
        invariant putch.out + Text(fmt, p, args, str) == old(putch.out) + Text(fmt, 0, args0, str)
        decreases |fmt| - p
      {
        TextStep(fmt, p, args, str);
        if At(fmt, p) == '\0' { return; }
        putch.Putch(fmt[p]);
        p := p + 1;
      }
      TextStep(fmt, p, args, str);
      p := p + 1;
      var e := ScanEscape(fmt, p, args);
      if Known(e.conv) {
        args := EmitConversion(putch, e, str);
        p := e.next;
      } else {
        putch.Putch('%');
        p := BackToPercent(fmt, p, e.next);
        args := e.args;
      }
    }
  }

  /** The backward scan of the default case stops behind the escape's own '%'. */
  method BackToPercent(fmt: string, start: nat, next: nat) returns (p: nat)
    requires 0 < start < next <= |fmt| + 1 && fmt[start - 1] == '%'
    requires forall k :: start <= k < next - 1 ==> fmt[k] != '%'
    ensures p == start
  {
    p := next - 1;
    while At(fmt, p - 1) != '%'
      invariant start <= p < next
      decreases p
    {
      p := p - 1;
    }
  }
}
