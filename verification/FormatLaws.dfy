/** What the escapes of vprintfmt (lib/printfmt.c) mean: the pieces an escape is written in and what
    each of them says, and the characters each conversion emits for its argument. */
module FormatLaws {
  import opened Bits
  import opened Mmu
  import opened Numbers
  import opened Format

  // The pieces of an escape

  /** A single character that says something, or a number. */
  datatype Piece = Mark(c: char) | Figure(digits: string)

  function Spelling(t: Piece): string {
    match t
    case Mark(c) => [c]
    case Figure(digits) => digits
  }

  predicate IsMark(c: char) { c == '-' || c == '0' || c == '*' || c == '.' || c == '#' || c == 'l' }

  predicate AllDecimal(ds: string) { forall i :: 0 <= i < |ds| ==> '0' <= ds[i] <= '9' }

  predicate Legal(t: Piece) {
    match t
    case Mark(c) => IsMark(c)
    case Figure(digits) => |digits| >= 1 && digits[0] != '0' && AllDecimal(digits)
  }

  /** From i to j the format is written in the pieces ts, its numbers as long as they can be. */
  ghost predicate Reads(ts: seq<Piece>, fmt: string, i: nat, j: nat)
    requires i <= j <= |fmt|
  {
    if ts == [] then i == j
    else
      var t := ts[|ts| - 1];
      var k := j - |Spelling(t)|;
      && i <= k && Legal(t) && fmt[k..j] == Spelling(t) && (t.Figure? && j < |fmt| ==> !('0' <= fmt[j] <= '9'))
      && Reads(ts[..|ts| - 1], fmt, i, k)
  }

  function NumberOf(ds: string): int {
    if ds == "" then 0 else 10 * NumberOf(ds[..|ds| - 1]) + (ds[|ds| - 1] as int - 48)
  }

  /** The argument word at k; words the caller did not pass read as 0. */
  function Arg(args: seq<Word>, k: nat): Word { if k < |args| then args[k] else 0 }

  function After(args: seq<Word>, n: nat): seq<Word> { if n <= |args| then args[n..] else [] }

  function Count(ts: seq<Piece>, c: char): nat { multiset(ts)[Mark(c)] }

  /** A number or '*' gives a size. */
  predicate Given(t: Piece) { t.Figure? || t.c == '*' }

  predicate Sized(t: Piece) { Given(t) || t.c == '.' }

  /** The size the piece at k stands for: '*' for the next argument, signed, and '.' for 0. */
  function Amount(ts: seq<Piece>, args: seq<Word>, k: nat): int
    requires k < |ts|
  {
    if ts[k].Figure? then NumberOf(ts[k].digits)
    else if ts[k].c == '*' then
      var w := Arg(args, Count(ts[..k], '*'));
      if w < 0x8000_0000 then w else w - 0x1_0000_0000
    else 0
  }

  /** v is the last size given from k on, or -1. */
  ghost predicate LastGiven(ts: seq<Piece>, args: seq<Word>, k: nat, v: int) {
    || (v == -1 && forall m :: k <= m < |ts| ==> !Given(ts[m]))
    || exists m :: k <= m < |ts| && GivenLast(ts, m) && v == Amount(ts, args, m)
  }

  ghost predicate GivenLast(ts: seq<Piece>, m: nat)
    requires m < |ts|
  {
    Given(ts[m]) && forall n :: m < n < |ts| ==> !Given(ts[n])
  }

  ghost predicate Negative(ts: seq<Piece>, args: seq<Word>, k: nat)
    requires k <= |ts|
  {
    forall m :: 0 <= m < k && Sized(ts[m]) ==> Amount(ts, args, m) < 0
  }

  /** The piece at k is the first that stands for a size of 0 or more, which is n. */
  ghost predicate WidthAt(ts: seq<Piece>, args: seq<Word>, k: nat, n: int)
    requires k < |ts|
  {
    Sized(ts[k]) && n == Amount(ts, args, k) >= 0 && Negative(ts, args, k)
  }

  /** The first size of 0 or more is the width and the last one given after it the precision;
      negative ones are no width, though the last of them stays when there is no other. */
  ghost predicate Sizes(ts: seq<Piece>, args: seq<Word>, width: int, precision: int) {
    || (Negative(ts, args, |ts|) && LastGiven(ts, args, 0, width) && precision == -1)
    || exists k :: 0 <= k < |ts| && WidthAt(ts, args, k, width) && LastGiven(ts, args, k + 1, precision)
  }

  /** The last of the flags '-' and '0' says how to pad. */
  ghost predicate Padding(ts: seq<Piece>, padc: char) {
    || (padc == ' ' && forall k :: 0 <= k < |ts| ==> ts[k] != Mark('-') && ts[k] != Mark('0'))
    || exists k :: 0 <= k < |ts| && PadLast(ts, k) && ts[k] == Mark(padc)
  }

  ghost predicate PadLast(ts: seq<Piece>, k: nat)
    requires k < |ts|
  {
    && (ts[k] == Mark('-') || ts[k] == Mark('0'))
    && forall m :: k < m < |ts| ==> ts[m] != Mark('-') && ts[m] != Mark('0')
  }

  /** What the pieces of an escape say. */
  ghost predicate Says(ts: seq<Piece>, args: seq<Word>, fl: Flags) {
    && Padding(ts, fl.padc) && Sizes(ts, args, fl.width, fl.precision)
    && fl.lflag == Count(ts, 'l') && (fl.alt <==> Mark('#') in ts)
  }

  /** One piece more. */
  function Apply(fl: Flags, t: Piece, amount: int): Flags {
    if t.Figure? || t.c == '*' then WidthFirst(fl, amount)
    else if t.c == '.' then if fl.width < 0 then fl.(width := 0) else fl
    else if t.c == '#' then fl.(alt := true)
    else if t.c == 'l' then fl.(lflag := fl.lflag + 1)
    else fl.(padc := t.c)
  }

  lemma CountSnoc(ts: seq<Piece>, t: Piece, c: char)
    ensures Count(ts + [t], c) == Count(ts, c) + if t == Mark(c) then 1 else 0
  {
  }

  lemma AmountKept(ts: seq<Piece>, t: Piece, args: seq<Word>, k: nat)
    requires k < |ts|
    ensures Amount(ts + [t], args, k) == Amount(ts, args, k)
  {
    assert (ts + [t])[..k] == ts[..k];
  }

  lemma PaddingSnoc(ts: seq<Piece>, t: Piece, padc: char)
    requires Padding(ts, padc)
    ensures Padding(ts + [t], if t == Mark('-') then '-' else if t == Mark('0') then '0' else padc)
  {
    var us := ts + [t];
    assert us[|ts|] == t && forall k :: 0 <= k < |ts| ==> us[k] == ts[k];
    if t == Mark('-') || t == Mark('0') {
      assert PadLast(us, |ts|);
    } else if k :| 0 <= k < |ts| && PadLast(ts, k) && ts[k] == Mark(padc) {
      assert PadLast(us, k);
    }
  }

  lemma GivenSnoc(ts: seq<Piece>, t: Piece, args: seq<Word>, k: nat, v: int)
    requires LastGiven(ts, args, k, v) && k <= |ts|
    ensures LastGiven(ts + [t], args, k, if Given(t) then Amount(ts + [t], args, |ts|) else v)
  {
    var us := ts + [t];
    assert us[|ts|] == t && forall k :: 0 <= k < |ts| ==> us[k] == ts[k];
    hide Amount, Given;
    if Given(t) {
      assert GivenLast(us, |ts|);
    } else if m :| k <= m < |ts| && GivenLast(ts, m) && v == Amount(ts, args, m) {
      AmountKept(ts, t, args, m);
      assert GivenLast(us, m);
    }
  }

  lemma NegativeKept(ts: seq<Piece>, t: Piece, args: seq<Word>, k: nat)
    requires k <= |ts| && Negative(ts, args, k)
    ensures Negative(ts + [t], args, k)
  {
    hide Amount, Sized;
    forall m | 0 <= m < k && Sized((ts + [t])[m]) ensures Amount(ts + [t], args, m) < 0 {
      assert (ts + [t])[m] == ts[m];
      AmountKept(ts, t, args, m);
    }
  }

  lemma SizesSnoc(ts: seq<Piece>, t: Piece, args: seq<Word>, fl: Flags)
    requires Sizes(ts, args, fl.width, fl.precision)
    ensures var fl' := Apply(fl, t, Amount(ts + [t], args, |ts|));
      Sizes(ts + [t], args, fl'.width, fl'.precision)
  {
    hide LastGiven, Negative, WidthAt, Amount;
    if Negative(ts, args, |ts|) && LastGiven(ts, args, 0, fl.width) && fl.precision == -1 {
      NoWidthSnoc(ts, t, args, fl);
    } else {
      var k :| 0 <= k < |ts| && WidthAt(ts, args, k, fl.width) && LastGiven(ts, args, k + 1, fl.precision);
      GivenSnoc(ts, t, args, k + 1, fl.precision);
      WidthKept(ts, t, args, k, fl.width);
    }
  }

  lemma WidthKept(ts: seq<Piece>, t: Piece, args: seq<Word>, k: nat, n: int)
    requires k < |ts| && WidthAt(ts, args, k, n)
    ensures n >= 0 && WidthAt(ts + [t], args, k, n)
  {
    assert (ts + [t])[k] == ts[k];
    AmountKept(ts, t, args, k);
    NegativeKept(ts, t, args, k);
    hide Negative, Amount;
  }

  lemma NoWidthSnoc(ts: seq<Piece>, t: Piece, args: seq<Word>, fl: Flags)
    requires Negative(ts, args, |ts|) && LastGiven(ts, args, 0, fl.width) && fl.precision == -1
    ensures var fl' := Apply(fl, t, Amount(ts + [t], args, |ts|));
      Sizes(ts + [t], args, fl'.width, fl'.precision)
  {
    var us, n := ts + [t], Amount(ts + [t], args, |ts|);
    assert us[|ts|] == t;
    assert t.Mark? && t.c == '.' ==> n == 0;
    GivenNegative(ts, args, fl.width);
    hide Amount, LastGiven, Negative;
    NegativeKept(ts, t, args, |ts|);
    GivenSnoc(ts, t, args, 0, fl.width);
    if Sized(t) && n >= 0 {
      NoneGiven(us, args, |us|);
      assert WidthAt(us, args, |ts|, n);
    } else {
      NegativeSnoc(ts, t, args);
    }
  }

  lemma GivenNegative(ts: seq<Piece>, args: seq<Word>, v: int)
    requires Negative(ts, args, |ts|) && LastGiven(ts, args, 0, v)
    ensures v < 0
  {
  }

  lemma NoneGiven(ts: seq<Piece>, args: seq<Word>, k: nat)
    requires k >= |ts|
    ensures LastGiven(ts, args, k, -1)
  {
  }

  lemma NegativeSnoc(ts: seq<Piece>, t: Piece, args: seq<Word>)
    requires Negative(ts + [t], args, |ts|) && (Sized(t) ==> Amount(ts + [t], args, |ts|) < 0)
    ensures Negative(ts + [t], args, |ts + [t]|)
  {
    hide Amount, Sized;
    assert (ts + [t])[|ts|] == t;
  }

  lemma SaysSnoc(ts: seq<Piece>, t: Piece, args: seq<Word>, fl: Flags)
    requires Says(ts, args, fl) && Legal(t)
    ensures Says(ts + [t], args, Apply(fl, t, Amount(ts + [t], args, |ts|)))
  {
    PaddingSnoc(ts, t, fl.padc);
    SizesSnoc(ts, t, args, fl);
    CountSnoc(ts, t, 'l');
    hide Padding, Sizes, Count, Amount;
  }

  // Scan, piece by piece

  /** Number, entered with the digits read so far, goes on to the last. */
  lemma {:induction false} NumberReads(fmt: string, s: nat, i: nat, acc: int)
    requires s <= i <= |fmt| && AllDecimal(fmt[s..i]) && acc == NumberOf(fmt[s..i])
    ensures var (n, j) := Number(fmt, i, acc);
      && AllDecimal(fmt[s..j]) && n == NumberOf(fmt[s..j]) && (j < |fmt| ==> !('0' <= fmt[j] <= '9'))
    decreases |fmt| - i
  {
    if i < |fmt| && '0' <= fmt[i] <= '9' {
      OneMore(fmt, s, i);
      hide AllDecimal, NumberOf;
      NumberReads(fmt, s, i + 1, acc * 10 + (fmt[i] as int - 48));
    }
  }

  lemma OneMore(fmt: string, s: nat, i: nat)
    requires s <= i < |fmt| && AllDecimal(fmt[s..i]) && '0' <= fmt[i] <= '9'
    ensures AllDecimal(fmt[s..i + 1]) && NumberOf(fmt[s..i + 1]) == NumberOf(fmt[s..i]) * 10 + (fmt[i] as int - 48)
  {
    var ds := fmt[s..i + 1];
    assert ds[..|ds| - 1] == fmt[s..i] && ds[|ds| - 1] == fmt[i];
    assert forall k :: 0 <= k < i - s ==> ds[k] == fmt[s..i][k];
  }

  /** The piece at j and how far it goes; the switch applies it. */
  lemma ScanPiece(fmt: string, j: nat, fl: Flags, args: seq<Word>) returns (t: Piece)
    requires j < |fmt| && (IsMark(fmt[j]) || '1' <= fmt[j] <= '9')
    ensures Legal(t) && var k := j + |Spelling(t)|;
      && j < k <= |fmt| && fmt[j..k] == Spelling(t) && (t.Figure? && k < |fmt| ==> !('0' <= fmt[k] <= '9'))
      && Scan(fmt, j, fl, args) == Scan(fmt, k, Apply(fl, t, Size(t, args)), if t == Mark('*') then After(args, 1) else args)
  {
    if IsMark(fmt[j]) {
      t := Mark(fmt[j]);
      assert fmt[j..j + 1] == [fmt[j]];
      ScanMark(fmt, j, fl, args);
      hide Scan;
    } else {
      t := ScanFigure(fmt, j, fl, args);
      hide Scan, AllDecimal;
    }
  }

  lemma ScanMark(fmt: string, j: nat, fl: Flags, args: seq<Word>)
    requires j < |fmt| && IsMark(fmt[j])
    ensures var t := Mark(fmt[j]);
      Scan(fmt, j, fl, args) == Scan(fmt, j + 1, Apply(fl, t, Size(t, args)), if t == Mark('*') then After(args, 1) else args)
  {
  }

  lemma ScanFigure(fmt: string, j: nat, fl: Flags, args: seq<Word>) returns (t: Piece)
    requires j < |fmt| && '1' <= fmt[j] <= '9'
    ensures t.Figure? && Legal(t) && var k := j + |t.digits|;
      && j < k <= |fmt| && fmt[j..k] == t.digits && (k < |fmt| ==> !('0' <= fmt[k] <= '9'))
      && Scan(fmt, j, fl, args) == Scan(fmt, k, WidthFirst(fl, NumberOf(t.digits)), args)
  {
    FirstDigit(fmt, j);
    NumberReads(fmt, j, j + 1, fmt[j] as int - 48);
    ScanNumber(fmt, j, fl, args);
    hide *;
    var (n, k) := Number(fmt, j + 1, fmt[j] as int - 48);
    t := Figure(fmt[j..k]);
    LegalFigure(fmt, j, k);
  }

  lemma FirstDigit(fmt: string, j: nat)
    requires j < |fmt| && '1' <= fmt[j] <= '9'
    ensures AllDecimal(fmt[j..j + 1]) && NumberOf(fmt[j..j + 1]) == fmt[j] as int - 48
  {
    assert fmt[j..j] == "" && AllDecimal("") && NumberOf("") == 0;
    OneMore(fmt, j, j);
  }

  lemma LegalFigure(fmt: string, j: nat, k: nat)
    requires j < k <= |fmt| && '1' <= fmt[j] <= '9' && AllDecimal(fmt[j..k])
    ensures Legal(Figure(fmt[j..k]))
  {
  }

  lemma ScanNumber(fmt: string, j: nat, fl: Flags, args: seq<Word>)
    requires j < |fmt| && '1' <= fmt[j] <= '9'
    ensures var (n, k) := Number(fmt, j + 1, fmt[j] as int - 48);
      j < k <= |fmt| && Scan(fmt, j, fl, args) == Scan(fmt, k, WidthFirst(fl, n), args)
  {
    hide Number, WidthFirst;
  }

  function Size(t: Piece, args: seq<Word>): int {
    if t.Figure? then NumberOf(t.digits)
    else if t.c == '*' then Signed(Arg(args, 0))
    else 0
  }

  lemma ArgAfter(args: seq<Word>, n: nat)
    ensures Arg(After(args, n), 0) == Arg(args, n) && After(After(args, n), 1) == After(args, n + 1)
    ensures After(args, 0) == args
  {
  }

  /** The next piece stands for what it says of the arguments left. */
  lemma SizeAmount(ts: seq<Piece>, t: Piece, args: seq<Word>)
    ensures Size(t, After(args, Count(ts, '*'))) == Amount(ts + [t], args, |ts|)
  {
    assert (ts + [t])[..|ts|] == ts && (ts + [t])[|ts|] == t;
    ArgAfter(args, Count(ts, '*'));
    hide Count, After, Arg, NumberOf;
  }

  lemma ReadsSnoc(ts: seq<Piece>, t: Piece, fmt: string, i: nat, j: nat)
    requires i <= j && j + |Spelling(t)| <= |fmt| && Reads(ts, fmt, i, j) && Legal(t)
    requires var k := j + |Spelling(t)|;
      fmt[j..k] == Spelling(t) && (t.Figure? && k < |fmt| ==> !('0' <= fmt[k] <= '9'))
    ensures Reads(ts + [t], fmt, i, j + |Spelling(t)|)
  {
    assert (ts + [t])[..|ts|] == ts && (ts + [t])[|ts|] == t;
  }

  /** Read from i up to j, the pieces ts have led to these flags and left these arguments. */
  ghost predicate SoFar(ts: seq<Piece>, fmt: string, i: nat, j: nat, fl: Flags, args0: seq<Word>, args: seq<Word>) {
    i <= j <= |fmt| && Reads(ts, fmt, i, j) && Says(ts, args0, fl) && args == After(args0, Count(ts, '*'))
  }

  predicate Goes(fmt: string, j: nat) { j < |fmt| && (IsMark(fmt[j]) || '1' <= fmt[j] <= '9') }

  /** The escape is written in pieces that end at the first character that is none; this is the
      conversion, the flags are what the pieces say, and each '*' has taken an argument. */
  ghost predicate Means(ts: seq<Piece>, fmt: string, i: nat, args: seq<Word>, e: Escape) {
    && e.next >= 1 && !Goes(fmt, e.next - 1) && SoFar(ts, fmt, i, e.next - 1, e.flags, args, e.args)
    && e.conv == if e.next <= |fmt| then fmt[e.next - 1] else '\0'
  }

  lemma ScanMeans(fmt: string, i: nat, args: seq<Word>) returns (ts: seq<Piece>)
    requires i <= |fmt|
    ensures Means(ts, fmt, i, args, Scan(fmt, i, NO_FLAGS, args))
  {
    assert Says([], args, NO_FLAGS);
    ArgAfter(args, 0);
    CountNone();
    hide Says, Scan, Means;
    ts := ScanOn(fmt, i, i, NO_FLAGS, args, args, []);
  }

  lemma CountNone()
    ensures Count([], '*') == 0
  {
  }

  lemma {:induction false} ScanOn(fmt: string, i: nat, j: nat, fl: Flags, args0: seq<Word>, args: seq<Word>, ts0: seq<Piece>)
    returns (ts: seq<Piece>)
    requires j <= |fmt| && SoFar(ts0, fmt, i, j, fl, args0, args)
    ensures Means(ts, fmt, i, args0, Scan(fmt, j, fl, args))
    decreases |fmt| - j
  {
    hide *;
    if Goes(fmt, j) {
      var t, k, fl', args' := ScanStep(fmt, i, j, fl, args0, args, ts0);
      ts := ScanOn(fmt, i, k, fl', args0, args', ts0 + [t]);
    } else {
      ts := ts0;
      ScanEnds(fmt, i, j, fl, args0, args, ts);
    }
  }

  lemma ScanStep(fmt: string, i: nat, j: nat, fl: Flags, args0: seq<Word>, args: seq<Word>, ts: seq<Piece>)
    returns (t: Piece, k: nat, fl': Flags, args': seq<Word>)
    requires j <= |fmt| && SoFar(ts, fmt, i, j, fl, args0, args) && Goes(fmt, j)
    ensures j < k <= |fmt| && SoFar(ts + [t], fmt, i, k, fl', args0, args')
    ensures Scan(fmt, j, fl, args) == Scan(fmt, k, fl', args')
  {
    hide Reads, Says, Count, After, Scan, Apply, Size, Legal, IsMark, Arg, Amount;
    t := ScanPiece(fmt, j, fl, args);
    k := j + |Spelling(t)|;
    fl', args' := Apply(fl, t, Size(t, args)), if t == Mark('*') then After(args, 1) else args;
    ReadsSnoc(ts, t, fmt, i, j);
    SizeAmount(ts, t, args0);
    SaysSnoc(ts, t, args0, fl);
    CountSnoc(ts, t, '*');
    ArgAfter(args0, Count(ts, '*'));
  }

  lemma ScanEnds(fmt: string, i: nat, j: nat, fl: Flags, args0: seq<Word>, args: seq<Word>, ts: seq<Piece>)
    requires j <= |fmt| && SoFar(ts, fmt, i, j, fl, args0, args) && !Goes(fmt, j)
    ensures Means(ts, fmt, i, args0, Scan(fmt, j, fl, args))
  {
    hide SoFar;
  }

  // What the conversions emit

  /** The escape at i, as scanned. */
  predicate EscapeAt(fmt: string, i: nat, args: seq<Word>, e: Escape) {
    i < |fmt| && fmt[i] == '%' && e == Scan(fmt, i + 1, NO_FLAGS, args)
  }

  lemma TextKnown(fmt: string, i: nat, args: seq<Word>, str: Word -> string, e: Escape)
    requires EscapeAt(fmt, i, args, e) && Known(e.conv)
    ensures e.next <= |fmt|
    ensures Text(fmt, i, args, str) == Convert(e, str).0 + Text(fmt, e.next, Convert(e, str).1, str)
  {
    hide Convert, Scan;
  }

  /** The number an argument stands for: one word, or two with ll, the low one first. */
  function Value(args: seq<Word>, lflag: nat): nat {
    if lflag >= 2 then Arg(args, 1) * 0x1_0000_0000 + Arg(args, 0) else Arg(args, 0)
  }

  function Taken(lflag: nat): nat { if lflag >= 2 then 2 else 1 }

  lemma UintValue(args: seq<Word>, lflag: nat)
    ensures GetUint(args, lflag) == (Value(args, lflag), After(args, Taken(lflag)))
  {
    if lflag >= 2 && |args| >= 1 { assert args[1..] == if |args| >= 2 then [args[1]] + args[2..] else []; }
  }

  /** %u, %o and %x write the argument in base 10, 8 and 16. */
  lemma TextUnsigned(fmt: string, i: nat, args: seq<Word>, str: Word -> string, e: Escape) returns (out: string)
    requires EscapeAt(fmt, i, args, e) && (e.conv == 'u' || e.conv == 'o' || e.conv == 'x')
    ensures e.next <= |fmt| && Text(fmt, i, args, str) == out + Text(fmt, e.next, After(e.args, Taken(e.flags.lflag)), str)
    ensures var base := match e.conv case 'u' => 10 case 'o' => 8 case _ => 16;
      ShowsNumber(out, Value(e.args, e.flags.lflag), base, e.flags.width, e.flags.padc)
  {
    hide *;
    ConvertUnsigned(e, str);
    TextKnown(fmt, i, args, str, e);
    var base := match e.conv case 'u' => 10 case 'o' => 8 case _ => 16;
    out := Convert(e, str).0;
    PrintShows(Value(e.args, e.flags.lflag), base, e.flags.width, e.flags.padc);
  }

  lemma ConvertUnsigned(e: Escape, str: Word -> string)
    requires e.conv == 'u' || e.conv == 'o' || e.conv == 'x'
    ensures Known(e.conv)
    ensures var base := match e.conv case 'u' => 10 case 'o' => 8 case _ => 16;
      Convert(e, str) == (PrintNum(Value(e.args, e.flags.lflag), base, e.flags.width, e.flags.padc),
                          After(e.args, Taken(e.flags.lflag)))
  {
    UintValue(e.args, e.flags.lflag);
    hide GetUint, Value, After, PrintNum, Taken;
  }

  /** n is v as a two's complement number of the given modulus. */
  ghost predicate TwosComplement(n: int, v: int, modulus: int)
    requires modulus > 0
  {
    -modulus <= 2 * n && 2 * n < modulus && (n - v) % modulus == 0
  }

  /** %d writes the argument, signed, in base 10; a minus sign comes before all padding and does
      not count towards the width. */
  lemma TextSigned(fmt: string, i: nat, args: seq<Word>, str: Word -> string, e: Escape) returns (n: int, out: string)
    requires EscapeAt(fmt, i, args, e) && e.conv == 'd'
    ensures var fl := e.flags;
      && e.next <= |fmt|
      && TwosComplement(n, Value(e.args, fl.lflag), if fl.lflag >= 2 then 0x1_0000_0000_0000_0000 else 0x1_0000_0000)
      && Text(fmt, i, args, str)
         == (if n < 0 then "-" + out else out) + Text(fmt, e.next, After(e.args, Taken(fl.lflag)), str)
      && ShowsNumber(out, if n < 0 then -n else n, 10, fl.width, fl.padc)
  {
    hide *;
    var fl := e.flags;
    n := ConvertSigned(e, str);
    TextKnown(fmt, i, args, str, e);
    out := PrintNum(if n < 0 then -n else n, 10, fl.width, fl.padc);
    PrintShows(if n < 0 then -n else n, 10, fl.width, fl.padc);
  }

  lemma ConvertSigned(e: Escape, str: Word -> string) returns (n: int)
    requires e.conv == 'd'
    ensures Known(e.conv)
    ensures var fl, args := e.flags, e.args;
      && TwosComplement(n, Value(args, fl.lflag), if fl.lflag >= 2 then 0x1_0000_0000_0000_0000 else 0x1_0000_0000)
      && var out := PrintNum(if n < 0 then -n else n, 10, fl.width, fl.padc);
        Convert(e, str) == (if n < 0 then "-" + out else out, After(args, Taken(fl.lflag)))
  {
    n := IntValue(e.args, e.flags.lflag);
    hide GetInt, Value, After, PrintNum, Taken, TwosComplement;
  }

  lemma IntValue(args: seq<Word>, lflag: nat) returns (n: int)
    ensures GetInt(args, lflag) == (n, After(args, Taken(lflag)))
    ensures TwosComplement(n, Value(args, lflag), if lflag >= 2 then 0x1_0000_0000_0000_0000 else 0x1_0000_0000)
  {
    UintValue(args, lflag);
    n := GetInt(args, lflag).0;
    hide After, GetUint;
  }

  /** %p writes 0x and the argument in base 16. */
  lemma TextPointer(fmt: string, i: nat, args: seq<Word>, str: Word -> string, e: Escape) returns (out: string)
    requires EscapeAt(fmt, i, args, e) && e.conv == 'p'
    ensures e.next <= |fmt| && Text(fmt, i, args, str) == "0x" + out + Text(fmt, e.next, After(e.args, 1), str)
    ensures ShowsNumber(out, Arg(e.args, 0), 16, e.flags.width, e.flags.padc)
  {
    hide *;
    ConvertPointer(e, str);
    TextKnown(fmt, i, args, str, e);
    out := PrintNum(Arg(e.args, 0), 16, e.flags.width, e.flags.padc);
    PrintShows(Arg(e.args, 0), 16, e.flags.width, e.flags.padc);
  }

  lemma ConvertPointer(e: Escape, str: Word -> string)
    requires e.conv == 'p'
    ensures Known(e.conv)
    ensures Convert(e, str) == ("0x" + PrintNum(Arg(e.args, 0), 16, e.flags.width, e.flags.padc), After(e.args, 1))
  {
    hide PrintNum;
  }

  /** %c writes the low byte of the argument, %% a percent sign and no argument. */
  lemma TextChar(fmt: string, i: nat, args: seq<Word>, str: Word -> string, e: Escape)
    requires EscapeAt(fmt, i, args, e) && (e.conv == 'c' || e.conv == '%')
    ensures e.next <= |fmt|
    ensures e.conv == 'c' ==>
      Text(fmt, i, args, str) == [(Arg(e.args, 0) % 256) as char] + Text(fmt, e.next, After(e.args, 1), str)
    ensures e.conv == '%' ==> Text(fmt, i, args, str) == "%" + Text(fmt, e.next, e.args, str)
  {
    hide *;
    ConvertChar(e, str);
    TextKnown(fmt, i, args, str, e);
  }

  lemma ConvertChar(e: Escape, str: Word -> string)
    requires e.conv == 'c' || e.conv == '%'
    ensures Known(e.conv)
    ensures Convert(e, str) == if e.conv == 'c' then ([(Arg(e.args, 0) % 256) as char], After(e.args, 1)) else ("%", e.args)
  {
  }

  /** %e writes the description of the error code, of either sign, or its number. */
  lemma TextError(fmt: string, i: nat, args: seq<Word>, str: Word -> string, e: Escape) returns (n: int, out: string)
    requires EscapeAt(fmt, i, args, e) && e.conv == 'e'
    ensures e.next <= |fmt| && Text(fmt, i, args, str) == out + Text(fmt, e.next, After(e.args, 1), str)
    ensures TwosComplement(n, Arg(e.args, 0), 0x1_0000_0000) && Describes(out, if n < 0 then -n else n)
  {
    hide *;
    n, out := ConvertError(e, str);
    TextKnown(fmt, i, args, str, e);
  }

  ghost predicate Describes(out: string, code: nat) {
    match code
    case 1 => out == "unspecified error"
    case 2 => out == "bad environment"
    case 3 => out == "invalid parameter"
    case 4 => out == "out of memory"
    case 5 => out == "out of environments"
    case 6 => out == "segmentation fault"
    case _ => |out| > 6 && out[..6] == "error " && ShowsNumber(out[6..], code, 10, -1, ' ')
  }

  lemma ConvertError(e: Escape, str: Word -> string) returns (n: int, out: string)
    requires e.conv == 'e'
    ensures Known(e.conv) && Convert(e, str) == (out, After(e.args, 1))
    ensures TwosComplement(n, Arg(e.args, 0), 0x1_0000_0000) && Describes(out, if n < 0 then -n else n)
  {
    hide *;
    ConvertIsError(e, str);
    n := Signed(Arg(e.args, 0));
    out := ErrorText(n);
    SignedForm(Arg(e.args, 0));
    ErrorDescribed(n);
  }

  lemma ConvertIsError(e: Escape, str: Word -> string)
    requires e.conv == 'e'
    ensures Known(e.conv) && Convert(e, str) == (ErrorText(Signed(Arg(e.args, 0))), After(e.args, 1))
  {
    hide ErrorText, Signed;
  }

  lemma SignedForm(w: Word)
    ensures TwosComplement(Signed(w), w, 0x1_0000_0000)
  {
  }

  lemma ErrorDescribed(n: int)
    ensures Describes(ErrorText(n), if n < 0 then -n else n)
  {
    var code: nat := if n < 0 then -n else n;
    if 1 <= code <= 6 {
      hide Decimal, ShowsNumber;
    } else {
      PrintShows(code, 10, -1, ' ');
      var tail := PrintNum(code, 10, -1, ' ');
      PrintNumPads(code, 10, -1, ' ');
      assert ("error " + tail)[..6] == "error " && ("error " + tail)[6..] == tail;
      hide PrintNum, ShowsNumber, Digits;
    }
  }

  /** %s: as many characters as the precision allows, with '#' the unprintable ones as '?', padded
      to the width with the padding character on the left, or with blanks on the right after '-'. */
  ghost predicate Drawn(out: string, p: string, fl: Flags) {
    var n := if fl.precision < 0 || fl.precision > |p| then |p| else fl.precision;
    var gap := if fl.width > n then fl.width - n else 0;
    var left := if fl.padc == '-' then 0 else gap;
    && |out| == n + gap
    && (forall k :: 0 <= k < left ==> out[k] == fl.padc)
    && (forall k :: 0 <= k < n ==> out[left + k] == if fl.alt && !(32 <= p[k] as int <= 126) then '?' else p[k])
    && (forall k :: left + n <= k < n + gap ==> out[k] == ' ')
  }

  lemma TextString(fmt: string, i: nat, args: seq<Word>, str: Word -> string, e: Escape) returns (out: string)
    requires EscapeAt(fmt, i, args, e) && e.conv == 's'
    ensures e.next <= |fmt| && Text(fmt, i, args, str) == out + Text(fmt, e.next, After(e.args, 1), str)
    ensures Drawn(out, if Arg(e.args, 0) == 0 then "(null)" else str(Arg(e.args, 0)), e.flags)
  {
    hide *;
    out := ConvertString(e, str);
    TextKnown(fmt, i, args, str, e);
  }

  lemma ConvertString(e: Escape, str: Word -> string) returns (out: string)
    requires e.conv == 's'
    ensures Known(e.conv) && Convert(e, str) == (out, After(e.args, 1))
    ensures Drawn(out, if Arg(e.args, 0) == 0 then "(null)" else str(Arg(e.args, 0)), e.flags)
  {
    var p := if Arg(e.args, 0) == 0 then "(null)" else str(Arg(e.args, 0));
    out := StringText(p, e.flags);
    StringDrawn(p, e.flags);
    hide StringText, Drawn;
  }

  lemma StringDrawn(p: string, fl: Flags)
    ensures Drawn(StringText(p, fl), p, fl)
  {
    var n := Shown(p, fl.precision);
    forall k | 0 <= k < n ensures Masked(p[..n], fl.alt)[k] == Mask(p[k], fl.alt) {
      MaskedAt(p[..n], fl.alt, k);
    }
    hide Masked, Pad;
  }

  lemma {:induction false} MaskedAt(p: string, alt: bool, k: nat)
    requires k < |p|
    ensures Masked(p, alt)[k] == Mask(p[k], alt)
  {
    if k > 0 { MaskedAt(p[1..], alt, k - 1); }
  }

  // Reading back what was printed

  /** strtol reads what a %d has written as its argument, except where the padding comes between
      the minus sign and the digits or is itself a minus sign. */
  lemma ReadBackExact(fmt: string, args: seq<Word>, str: Word -> string, e: Escape) returns (n: int)
    requires EscapeAt(fmt, 0, args, e) && e.conv == 'd' && e.flags.lflag < 2 && e.next == |fmt|
    ensures TwosComplement(n, Arg(e.args, 0), 0x1_0000_0000)
    ensures var s := Text(fmt, 0, args, str);
      var gap := e.flags.width - |Digits(if n < 0 then -n else n, 10)|;
      Strtol(s, 10) == (n, |s|) <==>
        || gap <= 0 || e.flags.padc == '0'
        || (e.flags.padc == ' ' && n >= 0) || (e.flags.padc == '-' && n == 0 && gap == 1)
  {
    hide *;
    n := Signed(Arg(e.args, 0));
    SignedForm(Arg(e.args, 0));
    SignedRange(Arg(e.args, 0));
    PaddingKinds(fmt, args, e);
    ConvertDecimal(e, str);
    TextKnown(fmt, 0, args, str, e);
    TextEnd(fmt, Convert(e, str).1, str);
    SignedParseExact(n, e.flags.width, e.flags.padc);
  }

  lemma SignedRange(w: Word)
    ensures -0x8000_0000 <= Signed(w) < 0x8000_0000
  {
  }

  lemma PaddingKinds(fmt: string, args: seq<Word>, e: Escape)
    requires EscapeAt(fmt, 0, args, e)
    ensures e.flags.padc == ' ' || e.flags.padc == '0' || e.flags.padc == '-'
  {
    var ts := ScanMeans(fmt, 1, args);
    hide Reads, Sizes, Scan, Count, After;
  }

  lemma ConvertDecimal(e: Escape, str: Word -> string)
    requires e.conv == 'd' && e.flags.lflag < 2
    ensures Known(e.conv) && Convert(e, str).0 == Decimal(Signed(Arg(e.args, 0)), e.flags.width, e.flags.padc)
  {
    hide Decimal;
  }

  lemma TextEnd(fmt: string, args: seq<Word>, str: Word -> string)
    ensures forall out: string :: out + Text(fmt, |fmt|, args, str) == out
  {
  }

  lemma SignedParseExact(n: int, width: int, padc: char)
    requires -0x8000_0000 <= n < 0x8000_0000 && (padc == ' ' || padc == '0' || padc == '-')
    ensures var s := Decimal(n, width, padc);
      var gap := width - |Digits(if n < 0 then -n else n, 10)|;
      Strtol(s, 10) == (n, |s|) <==>
        gap <= 0 || padc == '0' || (padc == ' ' && n >= 0) || (padc == '-' && n == 0 && gap == 1)
  {
    var m := if n < 0 then -n else n;
    var gap := width - |Digits(m, 10)|;
    DecimalParts(n, width, padc);
    hide *;
    if n < 0 {
      MinusParse(m, gap, padc);
    } else if padc == '-' && gap >= 1 {
      PadFirst(gap, Digits(m, 10));
      MinusParse(m, gap - 1, padc);
    } else {
      PlainParse(m, gap, padc);
    }
  }

  lemma DecimalParts(n: int, width: int, padc: char)
    ensures var ds := Digits(if n < 0 then -n else n, 10);
      var t := Pad(width - |ds|, padc) + ds;
      Decimal(n, width, padc) == if n < 0 then "-" + t else t
  {
    PrintNumPads(if n < 0 then -n else n, 10, width, padc);
    hide PrintNum, Digits, Pad;
  }

  lemma PadFirst(gap: int, ds: string)
    requires gap >= 1
    ensures Pad(gap, '-') + ds == "-" + (Pad(gap - 1, '-') + ds)
  {
  }

  lemma PlainParse(num: nat, gap: int, padc: char)
    requires num < 0x8000_0000 && (padc == ' ' || padc == '0' || gap <= 0)
    ensures var s := Pad(gap, padc) + Digits(num, 10); Strtol(s, 10) == (num, |s|)
  {
    assert gap <= 0 ==> Pad(gap, padc) == Pad(gap, ' ');
    DigitsDenote(num, 10);
    WrapFits(num);
    hide *;
    PaddedParse(num, Digits(num, 10), 10, gap, if gap <= 0 then ' ' else padc);
  }

  /** Behind a minus sign: the number, or nothing but the sign where no digit follows. */
  lemma MinusParse(num: nat, gap: int, padc: char)
    requires num <= 0x8000_0000 && (padc == ' ' || padc == '0' || padc == '-')
    ensures var s := "-" + (Pad(gap, padc) + Digits(num, 10));
      && (gap <= 0 || padc == '0' ==> Strtol(s, 10) == (-(num as int), |s|))
      && (gap > 0 && padc != '0' ==> Strtol(s, 10) == (0, 1) && |s| > 1)
  {
    if gap <= 0 || padc == '0' {
      var ds := Pad(gap, '0') + Digits(num, 10);
      assert Pad(gap, padc) + Digits(num, 10) == ds;
      DigitsDenote(num, 10);
      NumeralDigits(Digits(num, 10), 10);
      LeadingZeros(gap, Digits(num, 10), 10);
      hide *;
      MinusReads(ds, num);
    } else {
      var t := Pad(gap, padc) + Digits(num, 10);
      assert t[0] == padc;
      hide *;
      MinusStops(t);
    }
  }

  lemma MinusReads(ds: string, num: nat)
    requires (forall i :: 0 <= i < |ds| ==> IsDigit(ds[i], 10)) && Eval(ds, 0, 10) == num <= 0x8000_0000
    ensures Strtol("-" + ds, 10) == (-(num as int), |"-" + ds|)
  {
    var s := "-" + ds;
    Behind(ds);
    assert forall k :: 1 <= k < |s| ==> s[k] == ds[k - 1];
    WrapNone();
    WrapMinus(num);
    hide Eval, IsDigit, Wrap;
    ReadDigitsTo(s, 1, |s|, 0, 10);
    MinusFrom(s, Wrap(num), |s|);
  }

  lemma Behind(ds: string)
    ensures ("-" + ds)[1..|"-" + ds|] == ds
  {
  }

  lemma WrapMinus(num: nat)
    requires num <= 0x8000_0000
    ensures var w: int := Wrap(num); Wrap(-w) == -(num as int)
  {
  }

  lemma MinusFrom(s: string, val: int, e: nat)
    requires s != "" && s[0] == '-' && ReadDigits(s, 1, 0, 10) == (val, e)
    ensures Strtol(s, 10) == (Wrap(-val), e)
  {
    hide ReadDigits, Wrap;
  }

  lemma MinusStops(t: string)
    requires t != "" && (t[0] == ' ' || t[0] == '-')
    ensures Strtol("-" + t, 10) == (0, 1) && |"-" + t| > 1
  {
    var s := "-" + t;
    assert s[1] == t[0];
    MinusFrom(s, 0, 1);
    WrapNone();
    hide Strtol;
  }
}
