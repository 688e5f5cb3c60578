/** C's bitwise operators on unsigned values, defined on the binary digits of
    naturals, with the arithmetic forms the rest of the model computes with. */
module Bits {

  /** a & b */
  function And(a: nat, b: nat): nat {
    if a == 0 || b == 0 then 0 else 2 * And(a / 2, b / 2) + (a % 2) * (b % 2)
  }

  /** a | b */
  function Or(a: nat, b: nat): nat {
    if a == 0 then b else if b == 0 then a
    else 2 * Or(a / 2, b / 2) + (if a % 2 + b % 2 == 0 then 0 else 1)
  }

  /** a >> k on an unsigned value */
  function Shr(a: nat, k: nat): nat
    decreases a, k
  {
    if k == 0 then a else Shr(a / 2, k - 1)
  }

  /** a << k where no bit leaves the word */
  function Shl(a: nat, k: nat): nat
    decreases k
  {
    if k == 0 then a else 2 * Shl(a, k - 1)
  }

  /** k ones */
  function Ones(k: nat): nat {
    if k == 0 then 0 else 2 * Ones(k - 1) + 1
  }

  type Int32 = i: int | -0x8000_0000 <= i < 0x8000_0000

  /** The 32-bit two's-complement value a result wraps to. */
  function Wrap(x: int): Int32 {
    var m := x % 0x1_0000_0000;
    if m < 0x8000_0000 then m else m - 0x1_0000_0000
  }

  /** Masking with k ones drops everything above the low k digits. */
  lemma {:induction false} AndLow(a: nat, k: nat)
    ensures And(a, Ones(k)) == a - Shl(Shr(a, k), k)
  {
    if k > 0 {
      AndLow(a / 2, k - 1);
      if a == 0 { ShiftZero(k); }
    }
  }

  lemma AndEven(a: nat, m: nat)
    ensures And(a, 2 * m) == 2 * And(a / 2, m)
  {
    var n := 2 * m;
    assert n / 2 == m && n % 2 == 0;
  }

  lemma {:induction false} ShiftZero(k: nat)
    ensures Shr(0, k) == 0 && Shl(0, k) == 0
  {
    if k > 0 { ShiftZero(k - 1); }
  }

  /** Masking an n-digit value with ones in positions k to n-1 clears its low k digits. */
  lemma {:induction false} AndHigh(a: nat, k: nat, n: nat)
    requires k <= n && Shr(a, n) == 0
    ensures And(a, Shl(Ones(n - k), k)) == Shl(Shr(a, k), k)
  {
    if k == 0 {
      AndLow(a, n);
      ShiftZero(n);
    } else if a == 0 {
      ShiftZero(k);
    } else {
      AndHigh(a / 2, k - 1, n - 1);
      AndEven(a, Shl(Ones(n - k), k - 1));
    }
  }

  /** Or with a value that fits below the shift is a sum. */
  lemma {:induction false} OrDisjoint(a: nat, b: nat, k: nat)
    requires Shr(b, k) == 0
    ensures Or(Shl(a, k), b) == Shl(a, k) + b
  {
    if k > 0 { OrDisjoint(a, b / 2, k - 1); }
  }

  lemma {:induction false} OrShift(a: nat, b: nat, k: nat)
    ensures Or(Shl(a, k), Shl(b, k)) == Shl(Or(a, b), k)
  {
    if k > 0 {
      OrShift(a, b, k - 1);
      OrEven(Shl(a, k - 1), Shl(b, k - 1));
    }
  }

  lemma OrEven(x: nat, y: nat)
    ensures Or(2 * x, 2 * y) == 2 * Or(x, y)
  {
    assert (2 * x) / 2 == x && (2 * y) / 2 == y && (2 * x) % 2 == 0 && (2 * y) % 2 == 0;
  }

  lemma OrOne(a: nat)
    ensures Or(a, 1) == if a % 2 == 1 then a else a + 1
  {
  }

  lemma {:induction false} ShiftSum(a: nat, j: nat, k: nat)
    ensures Shr(a, j + k) == Shr(Shr(a, j), k)
    ensures Shl(a, j + k) == Shl(Shl(a, j), k)
    decreases k, j
  {
    if k > 0 {
      ShiftSum(a, j, k - 1);
      ShrLast(a, j + k);
      ShrLast(Shr(a, j), k);
    }
  }

  lemma {:induction false} ShrLast(a: nat, k: nat)
    requires k > 0
    ensures Shr(a, k) == Shr(a, k - 1) / 2
  {
    if k > 1 { ShrLast(a / 2, k - 1); }
  }

  // The shift counts of the headers, as divisions and multiplications.

  lemma ShiftFive(a: nat)
    ensures Shr(a, 5) == a / 32 && Shl(a, 5) == a * 32
  {
    assert Shr(a, 5) == Shr(a / 2, 4) == Shr(a / 4, 3) == Shr(a / 8, 2) == Shr(a / 16, 1);
    assert Shl(a, 5) == 2 * Shl(a, 4) == 4 * Shl(a, 3) == 8 * Shl(a, 2) == 16 * Shl(a, 1);
  }

  lemma ShiftEight(a: nat)
    ensures Shr(a, 8) == a / 256 && Shl(a, 8) == a * 256
  {
    ShiftFive(a);
    ShiftSum(a, 5, 3);
    assert Shr(a / 32, 3) == Shr(a / 64, 2) == Shr(a / 128, 1);
    assert Shl(a * 32, 3) == 2 * Shl(a * 32, 2) == 4 * Shl(a * 32, 1);
  }

  lemma ShiftTen(a: nat)
    ensures Shr(a, 10) == a / 1024 && Shl(a, 10) == a * 1024
  {
    ShiftFive(a);
    ShiftSum(a, 5, 5);
    ShiftFive(a / 32);
    ShiftFive(a * 32);
  }

  lemma ShiftTwelve(a: nat)
    ensures Shr(a, 12) == a / 4096 && Shl(a, 12) == a * 4096
  {
    ShiftTen(a);
    ShiftSum(a, 10, 2);
    assert Shr(a / 1024, 2) == Shr(a / 2048, 1);
    assert Shl(a * 1024, 2) == 2 * Shl(a * 1024, 1);
  }

  lemma ShiftTwentyTwo(a: nat)
    ensures Shr(a, 22) == a / 0x40_0000 && Shl(a, 22) == a * 0x40_0000
  {
    ShiftTen(a);
    ShiftSum(a, 10, 12);
    ShiftTwelve(a / 1024);
    ShiftTwelve(a * 1024);
  }

  lemma ShiftOutWord(a: nat)
    requires a < 0x1_0000_0000
    ensures Shr(a, 32) == 0
  {
    ShiftTwentyTwo(a);
    ShiftSum(a, 22, 10);
    ShiftTen(a / 0x40_0000);
  }

  lemma MaskValues()
    ensures Ones(1) == 1 && Ones(10) == 0x3FF && Ones(12) == 0xFFF
    ensures Shl(Ones(20), 12) == 0xFFFF_F000 && Shl(Ones(22), 10) == 0xFFFF_FC00
  {
    assert Ones(5) == 31;
    assert Ones(10) == 1023;
    assert Ones(15) == 32767;
    assert Ones(20) == 0xF_FFFF;
    assert Ones(22) == 0x3F_FFFF;
    ShiftTwelve(0xF_FFFF);
    ShiftTen(0x3F_FFFF);
  }
}
