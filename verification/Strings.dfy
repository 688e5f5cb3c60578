/** lib/string.c: memset and memmove on a byte-addressed memory, by bytes and by words. The
    string instructions of the assembly versions are loops here. */
module Strings {
  import opened Bits

  type Byte = b: int | 0 <= b < 256

  // memmove

  /** C99 section 7.21.2.2: the n bytes at dst become what the n bytes at src were, as if
      through a temporary, and no other byte changes. */
  ghost predicate Moved(before: seq<Byte>, after: seq<Byte>, dst: nat, src: nat, n: nat) {
    && |after| == |before| && dst + n <= |before| && src + n <= |before|
    && (forall k :: dst <= k < dst + n ==> after[k] == before[src + (k - dst)])
    && (forall k :: 0 <= k < |before| && !(dst <= k < dst + n) ==> after[k] == before[k])
  }

  /** Every way of moving that meets this gives the same memory: the word paths and the byte
      paths, the assembly and the plain C. */
  lemma MovedUnique(before: seq<Byte>, a: seq<Byte>, b: seq<Byte>, dst: nat, src: nat, n: nat)
    requires Moved(before, a, dst, src, n) && Moved(before, b, dst, src, n)
    ensures a == b
  {
    forall k | 0 <= k < |a| ensures a[k] == b[k] {}
  }

  method Memmove(mem: array<Byte>, dst: nat, src: nat, n: nat)
    requires dst + n <= mem.Length && src + n <= mem.Length
    modifies mem
    ensures Moved(old(mem[..]), mem[..], dst, src, n)
  {
    if src < dst && src + n > dst {
      var s, d := src + n, dst + n;
      if s % 4 == 0 && d % 4 == 0 && n % 4 == 0 {
        MovslDown(mem, d, s, n / 4);
      } else {
        MovsbDown(mem, d, s, n);
      }
    } else {
      if src % 4 == 0 && dst % 4 == 0 && n % 4 == 0 {
        MovslUp(mem, dst, src, n / 4);
      } else {
        MovsbUp(mem, dst, src, n);
      }
    }
  }

  /** The plain C version (without ASM). */
  method MemmovePlain(mem: array<Byte>, dst: nat, src: nat, n: nat)
    requires dst + n <= mem.Length && src + n <= mem.Length
    modifies mem
    ensures Moved(old(mem[..]), mem[..], dst, src, n)
  {
    if src < dst && src + n > dst {
      MovsbDown(mem, dst + n, src + n, n);
    } else {
      MovsbUp(mem, dst, src, n);
    }
  }

  /** cld; rep movsb */
  method MovsbUp(mem: array<Byte>, d: nat, s: nat, n: nat)
    requires d + n <= mem.Length && s + n <= mem.Length && (d <= s || s + n <= d)
    modifies mem
    ensures Moved(old(mem[..]), mem[..], d, s, n)
  {
    var i := 0;
    while i < n
      invariant 0 <= i <= n && Moved(old(mem[..]), mem[..], d, s, i)
    {
      mem[d + i] := mem[s + i];
      i := i + 1;
    }
  }

  /** std; rep movsb from the ends d and s downwards. */
  method MovsbDown(mem: array<Byte>, d: nat, s: nat, n: nat)
    requires n <= s < d <= mem.Length
    modifies mem
    ensures Moved(old(mem[..]), mem[..], d - n, s - n, n)
  {
    var i := 0;
    while i < n
      invariant 0 <= i <= n && Moved(old(mem[..]), mem[..], d - i, s - i, i)
    {
      mem[d - i - 1] := mem[s - i - 1];
      i := i + 1;
    }
  }

  /** One movsl: four bytes are read, then written. */
  method Movsl(mem: array<Byte>, d: nat, s: nat)
    requires d + 4 <= mem.Length && s + 4 <= mem.Length
    modifies mem
    ensures Moved(old(mem[..]), mem[..], d, s, 4)
  {
    var b0, b1, b2, b3 := mem[s], mem[s + 1], mem[s + 2], mem[s + 3];
    mem[d], mem[d + 1], mem[d + 2], mem[d + 3] := b0, b1, b2, b3;
  }

  /** cld; rep movsl, m words */
  method MovslUp(mem: array<Byte>, d: nat, s: nat, m: nat)
    requires d + 4 * m <= mem.Length && s + 4 * m <= mem.Length && (d <= s || s + 4 * m <= d)
    modifies mem
    ensures Moved(old(mem[..]), mem[..], d, s, 4 * m)
  {
    var i := 0;
    while i < m
      invariant 0 <= i <= m && Moved(old(mem[..]), mem[..], d, s, 4 * i)
    {
      Movsl(mem, d + 4 * i, s + 4 * i);
      i := i + 1;
    }
  }

  /** std; rep movsl, m words below the ends d and s. */
  method MovslDown(mem: array<Byte>, d: nat, s: nat, m: nat)
    requires 4 * m <= s < d <= mem.Length
    modifies mem
    ensures Moved(old(mem[..]), mem[..], d - 4 * m, s - 4 * m, 4 * m)
  {
    var i := 0;
    while i < m
      invariant 0 <= i <= m && Moved(old(mem[..]), mem[..], d - 4 * i, s - 4 * i, 4 * i)
    {
      Movsl(mem, d - 4 * i - 4, s - 4 * i - 4);
      i := i + 1;
    }
  }

  // memset

  ghost predicate Filled(before: seq<Byte>, after: seq<Byte>, v: nat, c: Byte, n: nat) {
    && |after| == |before| && v + n <= |before|
    && forall k :: 0 <= k < |before| ==> after[k] == if v <= k < v + n then c else before[k]
  }

  /** (c<<24)|(c<<16)|(c<<8)|c as an unsigned word */
  function Replicate(c: Byte): nat {
    Or(Or(Or(Shl(c, 24), Shl(c, 16)), Shl(c, 8)), c)
  }

  /** Byte k of a little-endian word. */
  function ByteOf(w: nat, k: nat): Byte {
    Shr(w, 8 * k) % 256
  }

  /** The word stosl stores carries c in each of its four bytes. */
  lemma ReplicateBytes(c: Byte)
    ensures ByteOf(Replicate(c), 0) == ByteOf(Replicate(c), 1) == c
    ensures ByteOf(Replicate(c), 2) == ByteOf(Replicate(c), 3) == c
  {
    ReplicateValue(c);
    hide Replicate, ByteOf;
    ByteSteps(c * 0x101_0101);
    Repeated(c);
  }

  lemma Repeated(c: Byte)
    ensures var w := c * 0x101_0101;
      w % 256 == w / 256 % 256 == w / 65536 % 256 == w / 0x100_0000 % 256 == c
  {
    LowByte(c * 0x1_0101, c);
    LowByte(c * 0x101, c);
    LowByte(c, c);
    assert c * 0x101_0101 / 65536 == c * 0x1_0101 / 256;
    assert c * 0x101_0101 / 0x100_0000 == c * 0x101 / 256;
  }

  lemma LowByte(a: nat, c: Byte)
    ensures (256 * a + c) % 256 == c && (256 * a + c) / 256 == a
  {
  }

  lemma ByteSteps(w: nat)
    ensures ByteOf(w, 0) == w % 256 && ByteOf(w, 1) == w / 256 % 256
    ensures ByteOf(w, 2) == w / 65536 % 256 && ByteOf(w, 3) == w / 0x100_0000 % 256
  {
    assert Shr(w, 0) == w;
    ShiftEight(w);
    Halfword(w);
    TopByte(w);
    hide Shr;
  }

  lemma Halfword(w: nat)
    ensures Shr(w, 16) == w / 65536
  {
    ShiftEight(w);
    ShiftSum(w, 8, 8);
    hide Shr;
    ShiftEight(w / 256);
  }

  lemma TopByte(w: nat)
    ensures Shr(w, 24) == w / 0x100_0000
  {
    Halfword(w);
    ShiftSum(w, 16, 8);
    hide Shr;
    ShiftEight(w / 65536);
  }

  lemma ReplicateValue(c: Byte)
    ensures Replicate(c) == c * 0x101_0101
  {
    hide *;
    Tower(c, c, 16);
    Tower(257 * c, c, 8);
    Tower(65793 * c, c, 0);
    ShlNone(c);
    ShlNone(256 * (65793 * c) + c);
    ReplicateIs(c);
  }

  lemma ShlNone(x: nat)
    ensures Shl(x, 0) == x
  {
  }

  lemma ReplicateIs(c: Byte)
    ensures Replicate(c) == Or(Or(Or(Shl(c, 16 + 8), Shl(c, 16)), Shl(c, 8)), c)
  {
    hide Or, Shl;
  }

  /** Or-ing a byte in below a value one byte further up. */
  lemma Tower(a: nat, c: Byte, k: nat)
    ensures Or(Shl(a, k + 8), Shl(c, k)) == Shl(256 * a + c, k)
  {
    hide Or, Shr, Shl;
    ShiftSum(a, 8, k);
    OrShift(Shl(a, 8), c, k);
    ShiftEight(a);
    JoinByte(a, c);
  }

  lemma JoinByte(a: nat, c: Byte)
    ensures Or(a * 256, c) == a * 256 + c
  {
    ShiftEight(a);
    ShiftEight(c);
    OrDisjoint(a, c, 8);
  }

  /** cld; rep stosl, m words of value w */
  method Stosl(mem: array<Byte>, v: nat, w: nat, m: nat, ghost c: Byte)
    requires v + 4 * m <= mem.Length
    requires ByteOf(w, 0) == ByteOf(w, 1) == ByteOf(w, 2) == ByteOf(w, 3) == c
    modifies mem
    ensures Filled(old(mem[..]), mem[..], v, c, 4 * m)
  {
    var i := 0;
    while i < m
      invariant 0 <= i <= m && Filled(old(mem[..]), mem[..], v, c, 4 * i)
    {
      var d := v + 4 * i;
      mem[d], mem[d + 1], mem[d + 2], mem[d + 3] := ByteOf(w, 0), ByteOf(w, 1), ByteOf(w, 2), ByteOf(w, 3);
      i := i + 1;
    }
  }

  /** cld; rep stosb, and the loop of the plain C version */
  method Stosb(mem: array<Byte>, v: nat, c: Byte, n: nat)
    requires v + n <= mem.Length
    modifies mem
    ensures Filled(old(mem[..]), mem[..], v, c, n)
  {
    var i := 0;
    while i < n
      invariant 0 <= i <= n && Filled(old(mem[..]), mem[..], v, c, i)
    {
      mem[v + i] := c;
      i := i + 1;
    }
  }

  /** memset with the int argument c as a 32-bit pattern: only its low byte matters. */
  method Memset(mem: array<Byte>, v: nat, c: nat, n: nat)
    requires v + n <= mem.Length
    modifies mem
    ensures Filled(old(mem[..]), mem[..], v, c % 256, n)
  {
    if n == 0 { return; }
    if v % 4 == 0 && n % 4 == 0 {
      var low: Byte := c % 256;
      ReplicateBytes(low);
      Stosl(mem, v, Replicate(low), n / 4, low);
    } else {
      Stosb(mem, v, c % 256, n);
    }
  }
}
