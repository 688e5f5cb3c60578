/** printnum of lib/printfmt.c and strtol of lib/string.c (C99 section 7.20.1.4): printing a
    number and reading it back. */
module Numbers {
  import opened Bits

  function DigitChar(d: nat): char
    requires d < 16
  {
    "0123456789abcdef"[d]
  }

  function Pad(n: int, c: char): (r: string)
    ensures |r| == if n > 0 then n else 0
    ensures forall i :: 0 <= i < |r| ==> r[i] == c
  {
    if n <= 0 then [] else [c] + Pad(n - 1, c)
  }

  /** What printnum sends to putch. */
  function PrintNum(num: nat, base: nat, width: int, padc: char): string
    requires 2 <= base <= 16
    decreases num
  {
    if num >= base then
      Smaller(num, base);
      PrintNum(num / base, base, width - 1, padc) + [DigitChar(num % base)]
    else Pad(width - 1, padc) + [DigitChar(num % base)]
  }

  lemma Smaller(num: nat, base: nat)
    requires num >= base >= 2
    ensures num / base < num
  {
    TwiceAtLeast(num / base, base);
  }

  lemma TwiceAtLeast(q: nat, base: nat)
    requires base >= 2
    ensures q * base >= 2 * q
  {
    assert q * base == q * (base - 2) + q * 2;
  }

  /** The putch callback with its putdat: the stream of characters it has been given. */
  class Stream {
    var out: string
    constructor () ensures out == "" { out := ""; }
    method Putch(c: char)
      modifies this
      ensures out == old(out) + [c]
    {
      out := out + [c];
    }
  }

  method EmitNum(putch: Stream, num: nat, base: nat, width: int, padc: char)
    requires 2 <= base <= 16
    modifies putch
    ensures putch.out == old(putch.out) + PrintNum(num, base, width, padc)
    decreases num
  {
    if num >= base {
      Smaller(num, base);
      EmitNum(putch, num / base, base, width - 1, padc);
    } else {
      var w := width - 1;
      while w > 0
        invariant putch.out + Pad(w, padc) == old(putch.out) + Pad(width - 1, padc)
      {
        assert Pad(w, padc) == [padc] + Pad(w - 1, padc);
        putch.Putch(padc);
        w := w - 1;
      }
      assert putch.out + Pad(w, padc) == putch.out;
    }
    ghost var before := putch.out;
    putch.Putch(DigitChar(num % base));
    assert old(putch.out) + PrintNum(num, base, width, padc) == before + [DigitChar(num % base)];
  }

  /** The digits alone. */
  function Digits(num: nat, base: nat): (r: string)
    requires 2 <= base <= 16
    ensures |r| >= 1
    decreases num
  {
    if num >= base then
      Smaller(num, base);
      Digits(num / base, base) + [DigitChar(num % base)]
    else [DigitChar(num % base)]
  }

  /** printnum pads the digits on the left to the width; a longer number keeps all its digits. */
  lemma {:induction false} PrintNumPads(num: nat, base: nat, width: int, padc: char)
    requires 2 <= base <= 16
    ensures PrintNum(num, base, width, padc) == Pad(width - |Digits(num, base)|, padc) + Digits(num, base)
    ensures |PrintNum(num, base, width, padc)|
         == if width > |Digits(num, base)| then width else |Digits(num, base)|
    decreases num
  {
    if num >= base {
      Smaller(num, base);
      PrintNumPads(num / base, base, width - 1, padc);
    }
  }

  // strtol

  /** The character at i of a C string: its terminating NUL at the end. */
  function At(s: string, i: nat): char
    requires i <= |s|
  {
    if i < |s| then s[i] else '\0'
  }

  function DigitOf(c: char): int {
    if '0' <= c <= '9' then c as int - '0' as int
    else if 'a' <= c <= 'z' then c as int - 'a' as int + 10
    else if 'A' <= c <= 'Z' then c as int - 'A' as int + 10
    else -1
  }

  predicate IsDigit(c: char, base: nat) { 0 <= DigitOf(c) < base }

  function SkipBlanks(s: string, i: nat): (j: nat)
    requires i <= |s|
    ensures i <= j <= |s|
    decreases |s| - i
  {
    if i < |s| && (s[i] == ' ' || s[i] == '\t') then SkipBlanks(s, i + 1) else i
  }

  /** The digit loop from i with val so far: the value and where it stops. */
  function ReadDigits(s: string, i: nat, val: int, base: nat): (r: (int, nat))
    requires i <= |s|
    ensures i <= r.1 <= |s|
    decreases |s| - i
  {
    if i < |s| && IsDigit(s[i], base) then ReadDigits(s, i + 1, Wrap(val * base + DigitOf(s[i])), base)
    else (val, i)
  }

  /** strtol: the value and the offset stored through endptr. */
  function Strtol(s: string, base: nat): (int, nat) {
    var i := SkipBlanks(s, 0);
    var neg := At(s, i) == '-';
    var j := if At(s, i) == '+' || neg then i + 1 else i;
    var hex := (base == 0 || base == 16) && At(s, j) == '0' && At(s, j + 1) == 'x';
    var k := if hex then j + 2 else if base == 0 && At(s, j) == '0' then j + 1 else j;
    var b := if hex then 16 else if base != 0 then base else if At(s, j) == '0' then 8 else 10;
    var (val, e) := ReadDigits(s, k, 0, b);
    (if neg then Wrap(-val) else val, e)
  }

  method StrtolLoop(s: string, base0: nat) returns (r: int, endptr: nat)
    ensures (r, endptr) == Strtol(s, base0)
  {
    var p: nat, neg, base := 0, false, base0;
    var val;
    while At(s, p) == ' ' || At(s, p) == '\t'
      invariant p <= |s| && SkipBlanks(s, p) == SkipBlanks(s, 0)
      decreases |s| - p
    {
      p := p + 1;
    }
    if At(s, p) == '+' {
      p := p + 1;
    } else if At(s, p) == '-' {
      p, neg := p + 1, true;
    }
    if (base == 0 || base == 16) && At(s, p) == '0' && At(s, p + 1) == 'x' {
      p, base := p + 2, 16;
    } else if base == 0 && At(s, p) == '0' {
      p, base := p + 1, 8;
    } else if base == 0 {
      base := 10;
    }
    val, p := DigitLoop(s, p, base);
    return if neg then Wrap(-val) else val, p;
  }

  method DigitLoop(s: string, start: nat, base: nat) returns (val: int, p: nat)
    requires start <= |s|
    ensures (val, p) == ReadDigits(s, start, 0, base)
  {
    val, p := 0, start;
    while true
      invariant start <= p <= |s| && ReadDigits(s, p, val, base) == ReadDigits(s, start, 0, base)
      decreases |s| - p
    {
      var dig := DigitOf(At(s, p));
      if dig < 0 || dig >= base { break; }
      p, val := p + 1, Wrap(val * base + dig);
    }
  }

  // Printing and reading back

  /** val = (val * base) + dig */
  function Push(val: nat, base: nat, c: char): nat
    requires IsDigit(c, base)
  {
    val * base + DigitOf(c)
  }

  /** The value of a string of digits read after val. */
  function Eval(ds: string, val: nat, base: nat): nat
    requires forall i :: 0 <= i < |ds| ==> IsDigit(ds[i], base)
    decreases |ds|
  {
    if ds == [] then val else Eval(ds[1..], Push(val, base, ds[0]), base)
  }

  lemma {:induction false} EvalSnoc(ds: string, c: char, val: nat, base: nat)
    requires (forall i :: 0 <= i < |ds| ==> IsDigit(ds[i], base)) && IsDigit(c, base)
    ensures Eval(ds + [c], val, base) == Eval(ds, val, base) * base + DigitOf(c)
    decreases |ds|
  {
    if ds == [] {
      assert ([c])[1..] == [];
      assert [] + [c] == [c];
    } else {
      assert (ds + [c])[1..] == ds[1..] + [c] && (ds + [c])[0] == ds[0];
      EvalSnoc(ds[1..], c, Push(val, base, ds[0]), base);
    }
  }

  lemma DigitCharDigit(d: nat, base: nat)
    requires d < base <= 16
    ensures IsDigit(DigitChar(d), base) && DigitOf(DigitChar(d)) == d
    ensures DigitChar(d) !in " \t+-x"
  {
  }

  /** Digits of the base, none of them a character strtol would treat otherwise. */
  ghost predicate Numeral(ds: string, base: nat) {
    forall i :: 0 <= i < |ds| ==> IsDigit(ds[i], base) && ds[i] !in " \t+-x"
  }

  lemma NumeralSnoc(ds: string, d: nat, base: nat)
    requires Numeral(ds, base) && d < base <= 16
    ensures Numeral(ds + [DigitChar(d)], base)
  {
    DigitCharDigit(d, base);
    hide IsDigit, DigitChar;
  }

  /** The digits printed for a number denote it. */
  lemma {:induction false} DigitsDenote(num: nat, base: nat)
    requires 2 <= base <= 16
    ensures Numeral(Digits(num, base), base) && Eval(Digits(num, base), 0, base) == num
    decreases num
  {
    hide *;
    DivMod(num, base);
    var c := DigitChar(num % base);
    DigitCharDigit(num % base, base);
    DigitsStep(num, base);
    if num >= base {
      var ds := Digits(num / base, base);
      DigitsDenote(num / base, base);
      NumeralSnoc(ds, num % base, base);
      NumeralDigits(ds, base);
      EvalSnoc(ds, c, 0, base);
    } else {
      NumeralOne(num, base);
      EvalOne(c, base);
    }
  }

  lemma DivMod(num: nat, base: nat)
    requires base >= 2
    ensures num % base < base && num == (num / base) * base + num % base
    ensures num < base ==> num % base == num
    ensures num >= base ==> num / base < num
  {
    if num >= base { Smaller(num, base); }
  }

  lemma NumeralOne(d: nat, base: nat)
    requires d < base <= 16
    ensures Numeral([DigitChar(d)], base)
  {
    NumeralSnoc([], d, base);
    assert [] + [DigitChar(d)] == [DigitChar(d)];
  }

  lemma NumeralDigits(ds: string, base: nat)
    requires Numeral(ds, base)
    ensures forall i :: 0 <= i < |ds| ==> IsDigit(ds[i], base)
  {
  }

  lemma DigitsStep(num: nat, base: nat)
    requires 2 <= base <= 16 && num % base < base
    ensures num >= base ==> Digits(num, base) == Digits(num / base, base) + [DigitChar(num % base)]
    ensures num < base ==> Digits(num, base) == [DigitChar(num % base)]
  {
  }

  lemma EvalOne(c: char, base: nat)
    requires IsDigit(c, base)
    ensures Eval([c], 0, base) == DigitOf(c)
  {
    EvalSnoc([], c, 0, base);
    assert [] + [c] == [c];
  }

  lemma {:induction false} LeadingZeros(n: int, ds: string, base: nat)
    requires base >= 1 && forall i :: 0 <= i < |ds| ==> IsDigit(ds[i], base)
    ensures var s := Pad(n, '0') + ds;
      (forall i :: 0 <= i < |s| ==> IsDigit(s[i], base)) && Eval(s, 0, base) == Eval(ds, 0, base)
    decreases if n > 0 then n else 0
  {
    if n <= 0 {
      assert Pad(n, '0') + ds == ds;
    } else {
      LeadingZeros(n - 1, ds, base);
      var s := Pad(n, '0') + ds;
      assert s[0] == '0' && s[1..] == Pad(n - 1, '0') + ds;
    }
  }

  lemma WrapShift(y: int, m: int)
    ensures Wrap(y - m * 0x1_0000_0000) == Wrap(y)
  {
    assert (y - m * 0x1_0000_0000) % 0x1_0000_0000 == y % 0x1_0000_0000;
  }

  /** Wrapping at each digit or once at the end is the same. */
  lemma WrapPush(x: int, base: nat, d: int)
    ensures Wrap(Wrap(x) * base + d) == Wrap(x * base + d)
  {
    var k := if x % 0x1_0000_0000 < 0x8000_0000 then x / 0x1_0000_0000 else x / 0x1_0000_0000 + 1;
    assert Wrap(x) == x - k * 0x1_0000_0000;
    hide Wrap;
    assert (x - k * 0x1_0000_0000) * base == x * base - (k * base) * 0x1_0000_0000;
    assert Wrap(x) * base + d == (x * base + d) - (k * base) * 0x1_0000_0000;
    WrapShift(x * base + d, k * base);
  }

  /** The digit loop reads digits up to the first character that is none; its value is the whole
      number, wrapped. */
  lemma {:induction false} ReadDigitsTo(s: string, i: nat, e: nat, val: nat, base: nat)
    requires i <= e <= |s| && (forall k :: i <= k < e ==> IsDigit(s[k], base)) && (e < |s| ==> !IsDigit(s[e], base))
    ensures ReadDigits(s, i, Wrap(val), base) == (Wrap(Eval(s[i..e], val, base)), e)
    decreases e - i
  {
    if i < e {
      assert s[i..e][0] == s[i] && s[i..e][1..] == s[i + 1..e];
      WrapPush(val, base, DigitOf(s[i]));
      hide Wrap, DigitOf;
      ReadDigitsTo(s, i + 1, e, Push(val, base, s[i]), base);
    }
  }

  lemma {:induction false} SkipPad(n: int, ds: string, i: nat)
    requires ds != [] && ds[0] != ' ' && ds[0] != '\t' && i <= |Pad(n, ' ')|
    ensures SkipBlanks(Pad(n, ' ') + ds, i) == |Pad(n, ' ')|
    decreases |Pad(n, ' ')| - i
  {
    if i < |Pad(n, ' ')| { SkipPad(n, ds, i + 1); }
  }

  /** Print and parse: reading a printed number with its base stops at the end and gives the number
      as a long, whatever the width and whether the padding is blanks or zeros. */
  lemma PrintParse(num: nat, base: nat, width: int, padc: char)
    requires 2 <= base <= 16 && (padc == ' ' || padc == '0')
    ensures var s := PrintNum(num, base, width, padc); Strtol(s, base) == (Wrap(num), |s|)
  {
    PrintNumPads(num, base, width, padc);
    DigitsDenote(num, base);
    PaddedParse(num, Digits(num, base), base, width - |Digits(num, base)|, padc);
  }

  /** So they are inverse exactly for the numbers that fit a long. */
  lemma PrintParseExact(num: nat, base: nat, width: int, padc: char)
    requires 2 <= base <= 16 && (padc == ' ' || padc == '0')
    ensures var s := PrintNum(num, base, width, padc); Strtol(s, base) == (num, |s|) <==> num < 0x8000_0000
  {
    PrintParse(num, base, width, padc);
    WrapFits(num);
    hide *;
  }

  lemma WrapFits(num: nat)
    ensures Wrap(num) == num <==> num < 0x8000_0000
  {
  }

  lemma PaddedParse(num: nat, ds: string, base: nat, n: int, padc: char)
    requires 2 <= base <= 16 && (padc == ' ' || padc == '0')
    requires ds != [] && Numeral(ds, base) && Eval(ds, 0, base) == num
    ensures var s := Pad(n, padc) + ds; Strtol(s, base) == (Wrap(num), |s|)
  {
    NumeralDigits(ds, base);
    WrapNone();
    hide Wrap;
    if padc == ' ' {
      BlankParse(num, ds, base, n);
    } else {
      ZeroParse(num, ds, base, n);
    }
  }

  lemma WrapNone()
    ensures Wrap(0) == 0
  {
  }

  lemma BlankParse(num: nat, ds: string, base: nat, n: int)
    requires 2 <= base <= 16 && ds != [] && Numeral(ds, base) && Wrap(0) == 0
    requires (forall i :: 0 <= i < |ds| ==> IsDigit(ds[i], base)) && Eval(ds, 0, base) == num
    ensures var s := Pad(n, ' ') + ds; Strtol(s, base) == (Wrap(num), |s|)
  {
    hide Wrap, IsDigit, Eval;
    var s, i := Pad(n, ' ') + ds, |Pad(n, ' ')|;
    SkipPad(n, ds, 0);
    assert s[i..|s|] == ds && s[i] == ds[0] && (i + 1 < |s| ==> s[i + 1] == ds[1]);
    ReadDigitsTo(s, i, |s|, 0, base);
    hide ReadDigits, SkipBlanks, Pad;
  }

  lemma ZeroParse(num: nat, ds: string, base: nat, n: int)
    requires 2 <= base <= 16 && ds != [] && Numeral(ds, base) && Wrap(0) == 0
    requires (forall i :: 0 <= i < |ds| ==> IsDigit(ds[i], base)) && Eval(ds, 0, base) == num
    ensures var s := Pad(n, '0') + ds; Strtol(s, base) == (Wrap(num), |s|)
  {
    LeadingZeros(n, ds, base);
    hide Wrap, IsDigit, Eval;
    var s := Pad(n, '0') + ds;
    assert s[0..|s|] == s && s[0] !in " \t+-" && (1 < |s| ==> s[1] != 'x');
    ReadDigitsTo(s, 0, |s|, 0, base);
    hide ReadDigits, Pad;
  }

  // Numerals, by the values of their digits

  /** Character c stands for value v: '0' to '9', then the letters of either case from 10 to 35. */
  predicate Spells(c: char, v: int) {
    || (0 <= v <= 9 && c as int == '0' as int + v)
    || (10 <= v <= 35 && (c as int == 'a' as int + (v - 10) || c as int == 'A' as int + (v - 10)))
  }

  /** The number with digit values vs, most significant first. */
  function Positional(vs: seq<nat>, base: nat): nat {
    if vs == [] then 0 else Positional(vs[..|vs| - 1], base) * base + vs[|vs| - 1]
  }

  /** ds is written with the digit values vs, each below base. */
  ghost predicate Written(ds: string, vs: seq<nat>, base: nat) {
    |ds| == |vs| && forall i :: 0 <= i < |ds| ==> vs[i] < base && Spells(ds[i], vs[i])
  }

  lemma SpellsDigit(c: char, v: int)
    ensures Spells(c, v) <==> v >= 0 && DigitOf(c) == v
  {
  }

  lemma {:induction false} EvalPositional(ds: string, vs: seq<nat>, base: nat)
    requires Written(ds, vs, base)
    ensures (forall i :: 0 <= i < |ds| ==> IsDigit(ds[i], base)) && Eval(ds, 0, base) == Positional(vs, base)
    decreases |ds|
  {
    forall i | 0 <= i < |ds| ensures IsDigit(ds[i], base) { SpellsDigit(ds[i], vs[i]); }
    if ds != [] {
      var n := |ds| - 1;
      SpellsDigit(ds[n], vs[n]);
      assert ds == ds[..n] + [ds[n]];
      hide DigitOf, Spells;
      EvalPositional(ds[..n], vs[..n], base);
      EvalSnoc(ds[..n], ds[n], 0, base);
    }
  }

  // strtol on every numeral

  /** From i to j there is a sign or nothing. */
  predicate Sign(s: string, i: nat, j: nat)
    requires i <= j <= |s|
  {
    j == i || (j == i + 1 && (s[i] == '+' || s[i] == '-'))
  }

  /** From j to k there is the prefix that makes strtol read digits of base b: 0x for 16, 0 for 8 and
      nothing for 10 where the base is left open, 0x or nothing for base 16, nothing for any other. */
  predicate Prefix(s: string, base: nat, j: nat, k: nat, b: nat)
    requires j <= k <= |s|
  {
    var hex := j + 2 <= |s| && s[j] == '0' && s[j + 1] == 'x';
    if base == 0 then
      if hex then k == j + 2 && b == 16
      else if j < |s| && s[j] == '0' then k == j + 1 && b == 8
      else k == j && b == 10
    else b == base && k == if base == 16 && hex then j + 2 else j
  }

  /** No digit of base b at e nor, when nothing has been read from i on, a blank or a sign. */
  predicate Ends(s: string, i: nat, e: nat, b: nat)
    requires i <= e <= |s|
  {
    e < |s| ==> (forall v :: 0 <= v < b ==> !Spells(s[e], v)) && (i == e ==> s[e] !in " \t+-")
  }

  /** strtol of blanks, a sign or none, a prefix or none, digits and a rest that does not go on with
      one: the signed number, wrapped to 32 bits, and the place of the rest. */
  lemma StrtolReads(s: string, i: nat, j: nat, k: nat, e: nat, vs: seq<nat>, base: nat, b: nat)
    requires i <= j <= k <= e <= |s|
    requires (forall n :: 0 <= n < i ==> s[n] == ' ' || s[n] == '\t') && Sign(s, i, j)
    requires Prefix(s, base, j, k, b) && Written(s[k..e], vs, b) && Ends(s, i, e, b)
    ensures var n: int := Positional(vs, b);
      Strtol(s, base) == (Wrap(if j > i && s[i] == '-' then -n else n), e)
  {
    EvalPositional(s[k..e], vs, b);
    DigitsAt(s, k, e, b);
    RestStops(s, i, e, b);
    NoSignYet(s, i, j, k, e, base, b);
    WrapNone();
    WrapNeg(Positional(vs, b));
    hide *;
    SkipAll(s, i, 0);
    ReadDigitsTo(s, k, e, 0, b);
    StrtolFrom(s, i, j, k, base, b, Wrap(Positional(vs, b)), e);
  }

  lemma DigitsAt(s: string, k: nat, e: nat, b: nat)
    requires k <= e <= |s| && forall i :: 0 <= i < e - k ==> IsDigit(s[k..e][i], b)
    ensures forall i :: k <= i < e ==> IsDigit(s[i], b)
  {
    forall i | k <= i < e ensures IsDigit(s[i], b) {
      assert s[i] == s[k..e][i - k];
    }
  }

  lemma RestStops(s: string, i: nat, e: nat, b: nat)
    requires i <= e <= |s| && Ends(s, i, e, b)
    ensures e < |s| ==> !IsDigit(s[e], b)
  {
    if e < |s| { SpellsDigit(s[e], DigitOf(s[e])); }
  }

  /** Behind the blanks there is the sign, or neither blank nor sign. */
  lemma NoSignYet(s: string, i: nat, j: nat, k: nat, e: nat, base: nat, b: nat)
    requires i <= j <= k <= e <= |s| && Sign(s, i, j) && Prefix(s, base, j, k, b) && Ends(s, i, e, b)
    requires forall n :: k <= n < e ==> IsDigit(s[n], b)
    ensures i < |s| ==> s[i] != ' ' && s[i] != '\t' && (i == j ==> s[i] != '+' && s[i] != '-')
  {
    if i == k < e { assert IsDigit(s[i], b); }
  }

  lemma {:induction false} SkipAll(s: string, i: nat, from: nat)
    requires from <= i <= |s| && forall k :: 0 <= k < i ==> s[k] == ' ' || s[k] == '\t'
    requires i < |s| ==> s[i] != ' ' && s[i] != '\t'
    ensures SkipBlanks(s, from) == i
    decreases i - from
  {
    if from < i { SkipAll(s, i, from + 1); }
  }

  lemma WrapNeg(x: int)
    ensures var y: int := Wrap(x); Wrap(-y) == Wrap(-x)
  {
    var k := if x % 0x1_0000_0000 < 0x8000_0000 then x / 0x1_0000_0000 else x / 0x1_0000_0000 + 1;
    assert Wrap(x) == x - k * 0x1_0000_0000;
    WrapShift(-x, -k);
    hide Wrap;
  }

  /** The sign and prefix part of strtol. */
  lemma StrtolFrom(s: string, i: nat, j: nat, k: nat, base: nat, b: nat, val: int, e: nat)
    requires i <= j <= k <= |s| && Sign(s, i, j) && Prefix(s, base, j, k, b)
    requires SkipBlanks(s, 0) == i && (i < |s| && i == j ==> s[i] != '+' && s[i] != '-')
    requires ReadDigits(s, k, 0, b) == (val, e)
    ensures Strtol(s, base) == (if j > i && s[i] == '-' then Wrap(-val) else val, e)
  {
    hide ReadDigits, SkipBlanks, Wrap;
  }

  /** Every string has these parts, so StrtolReads says what strtol does on all of them. */
  lemma StrtolSplits(s: string, base: nat) returns (i: nat, j: nat, k: nat, e: nat, vs: seq<nat>, b: nat)
    ensures i <= j <= k <= e <= |s|
    ensures (forall n :: 0 <= n < i ==> s[n] == ' ' || s[n] == '\t') && Sign(s, i, j)
    ensures Prefix(s, base, j, k, b) && Written(s[k..e], vs, b) && Ends(s, i, e, b)
  {
    i := SkipBlanks(s, 0);
    SkipBlanksExact(s, 0);
    hide SkipBlanks;
    j := if i < |s| && (s[i] == '+' || s[i] == '-') then i + 1 else i;
    k, b := TakePrefix(s, base, j);
    hide Prefix;
    e, vs := TakeDigits(s, k, b);
    if e < |s| {
      forall v | 0 <= v < b ensures !Spells(s[e], v) { SpellsDigit(s[e], v); }
    }
  }

  lemma TakePrefix(s: string, base: nat, j: nat) returns (k: nat, b: nat)
    requires j <= |s|
    ensures j <= k <= |s| && Prefix(s, base, j, k, b)
  {
    var hex := j + 2 <= |s| && s[j] == '0' && s[j + 1] == 'x';
    k, b := j, if base == 0 then 10 else base;
    if (base == 0 || base == 16) && hex {
      k, b := j + 2, 16;
    } else if base == 0 && j < |s| && s[j] == '0' {
      k, b := j + 1, 8;
    }
  }

  lemma {:induction false} TakeDigits(s: string, k: nat, b: nat) returns (e: nat, vs: seq<nat>)
    requires k <= |s|
    ensures k <= e <= |s| && Written(s[k..e], vs, b) && (e < |s| ==> !IsDigit(s[e], b))
    decreases |s| - k
  {
    if k < |s| && IsDigit(s[k], b) {
      e, vs := TakeDigits(s, k + 1, b);
      SpellsDigit(s[k], DigitOf(s[k]));
      assert s[k..e] == [s[k]] + s[k + 1..e];
      vs := [DigitOf(s[k])] + vs;
    } else {
      e, vs := k, [];
    }
  }

  lemma {:induction false} SkipBlanksExact(s: string, i: nat)
    requires i <= |s|
    ensures var j := SkipBlanks(s, i);
      && (forall k :: i <= k < j ==> s[k] == ' ' || s[k] == '\t') && (j < |s| ==> s[j] != ' ' && s[j] != '\t')
    decreases |s| - i
  {
    if i < |s| && (s[i] == ' ' || s[i] == '\t') { SkipBlanksExact(s, i + 1); }
  }

  // printnum, by digit values

  /** ds is num in base, in small letters and without a leading zero. */
  ghost predicate Numeric(ds: string, num: nat, base: nat) {
    exists vs: seq<nat> :: WrittenSmall(ds, vs, base) && Positional(vs, base) == num && (|vs| == 1 || (|vs| > 1 && vs[0] > 0))
  }

  ghost predicate WrittenSmall(ds: string, vs: seq<nat>, base: nat) {
    |ds| == |vs| && forall i :: 0 <= i < |ds| ==> vs[i] < base && vs[i] < 16 && ds[i] == "0123456789abcdef"[vs[i]]
  }

  /** out is num in base behind just the padding it takes to reach the width. */
  ghost predicate ShowsNumber(out: string, num: nat, base: nat, width: int, padc: char) {
    exists k: nat :: ShowsAt(out, num, base, width, padc, k)
  }

  ghost predicate ShowsAt(out: string, num: nat, base: nat, width: int, padc: char, k: nat) {
    && k <= |out| && (forall i :: 0 <= i < k ==> out[i] == padc) && Numeric(out[k..], num, base)
    && |out| >= width && (k > 0 ==> |out| == width)
  }

  lemma {:induction false} DigitsWritten(num: nat, base: nat) returns (vs: seq<nat>)
    requires 2 <= base <= 16
    ensures WrittenSmall(Digits(num, base), vs, base) && Positional(vs, base) == num
    ensures |vs| >= 1 && (num > 0 ==> vs[0] > 0) && (num < base ==> |vs| == 1)
    decreases num
  {
    DivMod(num, base);
    DigitsStep(num, base);
    if num >= base {
      var us := DigitsWritten(num / base, base);
      vs := us + [num % base];
      assert vs[..|vs| - 1] == us;
      QuotientPositive(num, base);
    } else {
      vs := [num];
      assert vs[..0] == [];
      assert Positional([], base) == 0;
    }
    hide Digits;
  }

  lemma QuotientPositive(num: nat, base: nat)
    requires num >= base >= 1
    ensures num / base > 0
  {
  }

  /** printnum pads on the left, to the width and not beyond, and writes the number. */
  lemma PrintShows(num: nat, base: nat, width: int, padc: char)
    requires 2 <= base <= 16
    ensures ShowsNumber(PrintNum(num, base, width, padc), num, base, width, padc)
  {
    hide *;
    PrintNumPads(num, base, width, padc);
    var vs := DigitsWritten(num, base);
    var ds := Digits(num, base);
    NumericBy(ds, vs, num, base);
    ShowsPadded(ds, num, base, width, padc);
  }

  lemma NumericBy(ds: string, vs: seq<nat>, num: nat, base: nat)
    requires WrittenSmall(ds, vs, base) && Positional(vs, base) == num && |vs| >= 1
    requires (num > 0 ==> vs[0] > 0) && (num < base ==> |vs| == 1) && base >= 1
    ensures Numeric(ds, num, base)
  {
    hide Positional, WrittenSmall;
  }

  lemma ShowsPadded(ds: string, num: nat, base: nat, width: int, padc: char)
    requires Numeric(ds, num, base)
    ensures ShowsNumber(Pad(width - |ds|, padc) + ds, num, base, width, padc)
  {
    var pad := Pad(width - |ds|, padc);
    hide Numeric, Pad;
    assert (pad + ds)[|pad|..] == ds;
    assert ShowsAt(pad + ds, num, base, width, padc, |pad|);
  }
}
