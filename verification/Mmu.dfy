/** inc/mmu.h and kern/pmap.h: the parts of a linear address, the layout of a
    32-bit page-directory or page-table entry (section 4.3 of the Intel SDM
    Volume 3A), and the physical/kernel address conversions. */
module Mmu {
  import opened Bits

  const PTSIZE := 0x40_0000
  const NENTRIES := 1024
  const MAX_PAGES := 65536      // 256 MB, all that KERNBASE leaves room for

  const KERNBASE := 0xF000_0000
  const UPAGES := 0xEF00_0000
  const UTOP := 0xEEC0_0000
  const KSTKSIZE := 0x8000
  const KSTACKBASE := 0xEFFF_8000   // KSTACKTOP - KSTKSIZE
  const IOPHYSMEM := 0xA_0000
  const EXTPHYSMEM := 0x10_0000

  const UTOP_PDX := 955         // PDX(UTOP)
  const UVPT_PDX := 957         // PDX(UVPT)

  const PTE_P := 1
  const PTE_U := 4
  const PTE_PW := 3             // PTE_W|PTE_P
  const PTE_PU := 5             // PTE_U|PTE_P
  const PTE_PWU := 7            // PTE_P|PTE_W|PTE_U, what pgdir_walk gives a new table

  /** memlayout.h goes down from KERNBASE in regions of PTSIZE: memory-mapped I/O twice, the page
      tables, pages[], the environments. */
  lemma Layout()
    ensures KERNBASE == 0xF000_0000 && IOPHYSMEM == 640 * 1024 && EXTPHYSMEM == 1024 * 1024
    ensures var ulim := 0xF000_0000 - 2 * 0x40_0000;
      && PDX(ulim - 0x40_0000) == UVPT_PDX == 957 && UPAGES == ulim - 2 * 0x40_0000
      && UTOP == ulim - 3 * 0x40_0000 && UTOP % 0x40_0000 == 0 && PDX(UTOP) == UTOP_PDX == 955
    ensures KSTACKBASE == 0xF000_0000 - 8 * 4096 == 0xF000_0000 - KSTKSIZE && MAX_PAGES == 0x1000_0000 / 4096
  {
  }

  type Word = w: int | 0 <= w < 0x1_0000_0000
  type Index = i: int | 0 <= i < 1024
  type Perm = p: int | 0 <= p < 4096

  /** A virtual page, named by its two indices. */
  datatype Page = Page(pdx: Index, ptx: Index)

  function PDX(la: Word): Index { la / 0x40_0000 }
  function PTX(la: Word): Index { la / 4096 % 1024 }
  function PGOFF(la: Word): Perm { la % 4096 }
  function PGADDR(d: Index, t: Index, o: Perm): Word { d * 0x40_0000 + t * 4096 + o }
  function PageOf(la: Word): Page { Page(PDX(la), PTX(la)) }

  predicate Present(w: Word) { w % 2 == 1 }
  function Frame(w: Word): nat { w / 4096 }             // PTE_ADDR(w) / PGSIZE
  function PteAddr(w: Word): Word { w - w % 4096 }

  function WithP(perm: Perm): Perm { if perm % 2 == 1 then perm else perm + 1 }

  /** pa|perm|PTE_P for the page-aligned address of frame f */
  function Entry(f: nat, perm: Perm): (w: Word)
    requires f < 0x10_0000
    ensures Present(w) && Frame(w) == f && PGOFF(w) == WithP(perm)
  {
    f * 4096 + WithP(perm)
  }

  /** The macros, written with shifts and masks, are the arithmetic above. */
  lemma IndexMacroForms(la: Word, pdxShift: nat, ptxShift: nat)
    requires pdxShift == 22 && ptxShift == 12
    ensures PDX(la) == And(Shr(la, pdxShift), 0x3FF)
    ensures PTX(la) == And(Shr(la, ptxShift), 0x3FF)
  {
    hide And, Shr;
    var d: nat := la / 0x40_0000;
    ShiftTwentyTwo(la);
    assert Shr(la, pdxShift) == d;
    IndexMask(d);
    var t: nat := la / 4096;
    ShiftTwelve(la);
    assert Shr(la, ptxShift) == t;
    IndexMask(t);
  }

  lemma EntryMacroForms(w: Word)
    ensures PGOFF(w) == And(w, 0xFFF)
    ensures PteAddr(w) == And(w, 0xFFFF_F000)
    ensures Present(w) <==> And(w, PTE_P) != 0
  {
    OffsetMask(w);
    AddressMask(w);
    FlagMask(w);
  }

  /** The write and user bits of an entry. */
  lemma RightsForms(w: Word)
    ensures And(w, 2) != 0 <==> w / 2 % 2 == 1
    ensures And(w, 4) != 0 <==> w / 4 % 2 == 1
  {
    AndEven(w, 1);
    FlagMask(w / 2);
    AndEven(w, 2);
    AndEven(w / 2, 1);
    FlagMask(w / 2 / 2);
    assert w / 2 / 2 == w / 4;
    hide And;
  }

  lemma AddressMask(x: Word)
    ensures And(x, 0xFFFF_F000) == x - x % 4096
  {
    ShiftOutWord(x);
    AndHigh(x, 12, 32);
    ShiftTwelve(x);
    ShiftTwelve(x / 4096);
    MaskValues();
  }

  lemma IndexMask(x: nat)
    ensures And(x, 0x3FF) == x % 1024
  {
    MaskValues();
    AndLow(x, 10);
    ShiftTen(x);
    ShiftTen(x / 1024);
  }

  lemma OffsetMask(x: nat)
    ensures And(x, 0xFFF) == x % 4096
  {
    MaskValues();
    AndLow(x, 12);
    ShiftTwelve(x);
    ShiftTwelve(x / 4096);
  }

  lemma FlagMask(x: nat)
    ensures And(x, 1) == x % 2
  {
    AndLow(x, 1);
  }

  /** PGADDR's or is a sum, because its three fields do not meet. */
  lemma PgaddrForm(d: Index, t: Index, o: Perm)
    ensures PGADDR(d, t, o) == Or(Or(Shl(d, 22), Shl(t, 12)), o)
  {
    PgaddrSum(d, t, o);
    hide *;
    JoinIndices(d, t);
    JoinOffset(d * 1024 + t, o);
  }

  lemma PgaddrSum(d: Index, t: Index, o: Perm)
    ensures PGADDR(d, t, o) == (d * 1024 + t) * 4096 + o && (d * 1024 + t) * 4096 == d * 0x40_0000 + t * 4096
  {
  }

  lemma JoinIndices(d: Index, t: Index)
    ensures Or(Shl(d, 22), Shl(t, 12)) == d * 0x40_0000 + t * 4096
  {
    hide Or;
    ShiftTwentyTwo(d);
    ShiftTwelve(t);
    ShiftTwentyTwo(t * 4096);
    OrDisjoint(d, t * 4096, 22);
  }

  lemma JoinOffset(f: nat, o: Perm)
    ensures Or(f * 4096, o) == f * 4096 + o
  {
    ShiftTwelve(f);
    ShiftTwelve(o);
    OrDisjoint(f, o, 12);
  }

  /** Decomposing and recomposing a linear address are inverse both ways. */
  lemma AddressRoundTrip(la: Word, d: Index, t: Index, o: Perm)
    ensures PGADDR(PDX(la), PTX(la), PGOFF(la)) == la
    ensures PDX(PGADDR(d, t, o)) == d && PTX(PGADDR(d, t, o)) == t && PGOFF(PGADDR(d, t, o)) == o
  {
    var pg := la / 4096;
    assert la / 0x40_0000 == pg / 1024;
    var x := PGADDR(d, t, o);
    assert x / 4096 == d * 1024 + t;
  }

  /** The stored entry of page_insert and boot_map_region, as the code writes it. */
  lemma EntryForm(f: nat, perm: Perm)
    requires f < 0x10_0000
    ensures Entry(f, perm) == Or(Or(Shl(f, 12), perm), PTE_P)
  {
    ShiftTwelve(f);
    JoinOffset(f, perm);
    OrOne(f * 4096 + perm);
  }

  // kern/pmap.h: conversions. None is the panic branch.

  datatype Opt<T> = None | Some(value: T)

  function Kaddr(pa: Word, npages: nat): Opt<Word>
    requires npages <= MAX_PAGES
  {
    if pa / 4096 >= npages then None else Some(pa + KERNBASE)
  }

  function Paddr(kva: Word): Opt<Word> {
    if kva < KERNBASE then None else Some(kva - KERNBASE)
  }

  function Page2Pa(f: nat): Word
    requires f < MAX_PAGES
  {
    f * 4096
  }

  function Pa2Page(pa: Word, npages: nat): Opt<nat> {
    if pa / 4096 >= npages then None else Some(pa / 4096)
  }

  /** KADDR and PADDR, and page2pa and pa2page, are inverse where they do not panic,
      and KADDR panics exactly on addresses beyond physical memory. */
  lemma ConversionsInverse(pa: Word, kva: Word, f: nat, npages: nat)
    requires npages <= MAX_PAGES
    ensures Kaddr(pa, npages).Some? <==> pa < npages * 4096
    ensures Kaddr(pa, npages).Some? ==> Kaddr(pa, npages).value == pa + 0xF000_0000
    ensures Paddr(kva).Some? <==> kva >= 0xF000_0000
    ensures Kaddr(pa, npages).Some? ==> Paddr(Kaddr(pa, npages).value) == Some(pa)
    ensures Paddr(kva).Some? && Kaddr(Paddr(kva).value, npages).Some?
        ==> Kaddr(Paddr(kva).value, npages) == Some(kva)
    ensures f < npages ==> Pa2Page(Page2Pa(f), npages) == Some(f)
    ensures Pa2Page(pa, npages).Some? ==> Page2Pa(Pa2Page(pa, npages).value) == PteAddr(pa)
  {
  }
}
