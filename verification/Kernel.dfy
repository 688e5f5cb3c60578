/** kern/pmap.c and env_free on the structures themselves: arrays updated in place. Every
    method carries out exactly what the function of the same name in VmOps, VmTeardown or Boot
    says of the state; what those functions keep and achieve is proved in those modules. */
module Kernel {
  import opened Mmu
  import opened VmOps
  import opened VmInv
  import opened VmTeardown
  import opened VmTlb
  import opened VmActs
  import opened VmTrack
  import opened Boot

  datatype PtePtr = NullPte | Pte(slot: Slot)

  /** The pointer pgdir_walk returns. */
  function PtrOf(r: Walked): PtePtr { if r.At? then Pte(r.slot) else NullPte }

  /** boot_alloc with its static variable. */
  class BootAllocator {
    const end: Word
    var nextfree: Word

    constructor (e: Word)
      ensures end == e && nextfree == 0
    {
      end, nextfree := e, 0;
    }

    method BootAlloc(n: Word) returns (result: Word)
      modifies this
      ensures (result, nextfree) == Boot.BootAlloc(old(nextfree), end, n)
    {
      if nextfree == 0 { nextfree := RoundUp(end); }
      result := nextfree;
      nextfree := RoundUp((nextfree + n) % 0x1_0000_0000);
    }
  }

  /** Frame f before page_init: cleared, but for the self-map of kern_pgdir in frame kd. */
  function FirstWords(f: int, kd: nat): FrameWords
    requires kd < MAX_PAGES
  {
    if f == kd then ZeroFrame()[UVPT_PDX := Entry(kd, PTE_U)] else ZeroFrame()
  }

  class Pmap {
    const mem: array<FrameWords>       // physical memory, one element a frame
    const ppLink: array<int>           // pages[f].pp_link as a frame number
    const ppRef: array<nat>            // pages[f].pp_ref
    var pageFreeList: int
    var cr3: nat
    var tlb: map<Page, Word>

    // bookkeeping, see VmOps.Vm
    ghost var free: seq<nat>
    ghost var loose: set<nat>
    ghost var dirs: set<nat>
    ghost var tabs: map<nat, Slot>
    ghost var ktabs: map<nat, Index>
    ghost var pins: seq<nat>

    /** The actions carried out so far, in their order. */
    ghost var log: seq<Act>

    ghost function State(): (v: Vm)
      reads this, mem, ppLink, ppRef
      ensures |v.mem| == mem.Length
    {
      Vm(mem[..], ppLink[..], ppRef[..], pageFreeList, cr3, tlb, free, loose, dirs, tabs, ktabs, pins)
    }

    ghost predicate Valid()
      reads this, mem, ppLink, ppRef
    {
      (ppLink as object) != ppRef && (mem as object) != ppLink && (mem as object) != ppRef && Shape(State())
    }

    /** Before page_init: memory and page array cleared, and kern_pgdir in frame kd mapping itself. */
    constructor (npages: nat, kd: nat)
      requires kd < npages <= MAX_PAGES
      ensures Valid() && Boot.Cleared(State(), kd) && mem.Length == npages && log == []
      ensures fresh(mem) && fresh(ppLink) && fresh(ppRef)
    {
      mem := new FrameWords[npages](f => FirstWords(f, kd));
      ppLink := new int[npages](_ => NULL);
      ppRef := new nat[npages](_ => 0);
      pageFreeList, cr3, tlb := NULL, kd, map[];
      free, loose, dirs, tabs, ktabs, pins := [], {}, {kd}, map[], map[], seq(npages, _ => 0);
      log := [];
      new;
      assert mem[..][kd] == FirstWords(kd, kd);
    }

    method PageAlloc(flags: int) returns (f: int)
      requires Valid()
      modifies this, mem, ppLink
      ensures Valid()
      ensures (State(), f) == VmOps.PageAlloc(old(State()), flags)
      ensures log == old(log) + AllocActs(old(State()), flags)
    {
      hide ZeroFrame;
      if pageFreeList == NULL { return NULL; }
      f := pageFreeList;
      pageFreeList := ppLink[f];
      ppLink[f] := NULL;
      if flags != 0 { mem[f] := ZeroFrame(); }
      free := if free == [] then [] else free[1..];
      loose := loose + {f};
      log := log + [Take] + if flags != 0 then [Fill(f, ZeroFrame())] else [];
    }

    method PageFree(f: nat) returns (panic: bool)
      requires Valid() && f < mem.Length
      modifies this, ppLink
      ensures Valid()
      ensures panic <==> VmOps.PageFree(old(State()), f).Panic?
      ensures !panic ==> State() == VmOps.PageFree(old(State()), f).value
      ensures !panic ==> log == old(log) + [Give(f)]
    {
      if ppRef[f] == 0 && ppLink[f] == NULL {
        ppLink[f] := pageFreeList;
        pageFreeList := f;
        free, loose, log := [f] + free, loose - {f}, log + [Give(f)];
        return false;
      }
      return true;
    }

    method PageDecref(f: nat) returns (panic: bool)
      requires Valid() && f < mem.Length
      modifies this, ppLink, ppRef
      ensures Valid()
      ensures panic <==> VmOps.PageDecref(old(State()), f).Panic?
      ensures !panic ==> State() == VmOps.PageDecref(old(State()), f).value
      ensures !panic ==> log == old(log) + DecrefActs(old(State()), f)
    {
      ppRef[f] := Minus1(ppRef[f]);
      log := log + [Lower(f)];
      if ppRef[f] == 0 {
        panic := PageFree(f);
      } else {
        panic := false;
      }
    }

    method IncRef(f: nat)
      requires Valid() && f < mem.Length
      modifies this, ppRef
      ensures Valid() && State() == VmOps.IncRef(old(State()), f) && log == old(log) + [Count(f)]
    {
      ppRef[f] := Plus1(ppRef[f]);
      loose, log := loose - {f}, log + [Count(f)];
    }

    method Store(s: Slot, w: Word)
      requires Valid() && s.frame < mem.Length
      modifies this`log, mem
      ensures Valid() && State() == VmOps.Store(old(State()), s, w) && log == old(log) + [Write(s, w)]
    {
      mem[s.frame] := mem[s.frame][s.idx := w];
      log := log + [Write(s, w)];
    }

    method PgdirWalk(d: nat, va: Word, create: bool) returns (panic: bool, pte: PtePtr)
      requires Valid() && d < mem.Length
      modifies this, mem, ppLink, ppRef
      ensures Valid()
      ensures panic <==> VmOps.PgdirWalk(old(State()), d, va, create).WalkPanic?
      ensures !panic ==> State() == VmOps.PgdirWalk(old(State()), d, va, create).vm
      ensures !panic ==> pte == PtrOf(VmOps.PgdirWalk(old(State()), d, va, create))
      ensures !panic ==> log == old(log) + WalkActs(old(State()), d, va, create)
    {
      var pde := mem[d][PDX(va)];
      if Present(pde) {
        if Frame(pde) >= mem.Length { return true, NullPte; }
        return false, Pte(Slot(Frame(pde), PTX(va)));
      }
      if !create { return false, NullPte; }
      var t := PageAlloc(1);
      if t == NULL { return false, NullPte; }
      InstallTable(d, PDX(va), t);
      return false, Pte(Slot(t, PTX(va)));
    }

    method InstallTable(d: nat, i: Index, t: nat)
      requires Valid() && d < mem.Length && t < mem.Length
      modifies this, mem, ppRef
      ensures Valid() && State() == VmOps.InstallTable(old(State()), d, i, t)
      ensures log == old(log) + InstallActs(old(State()), d, i, t)
    {
      InstallIs(State(), d, i, t);
      InstallBooks(State(), d, i, t);
      hide VmOps.InstallTable, VmOps.IncRef, VmOps.Store, Entry;
      IncRef(t);
      Store(Slot(d, i), Entry(t, PTE_PWU));
      if i < UTOP_PDX {
        tabs := tabs[t := Slot(d, i)];
      } else {
        ktabs, pins := ktabs[t := i], pins[t := pins[t] + 1];
      }
      log := log + [Note(dirs, tabs, ktabs, pins)];
    }

    method PageLookup(d: nat, va: Word) returns (panic: bool, page: int, pte: PtePtr)
      requires Valid() && d < mem.Length
      modifies this, mem, ppLink, ppRef
      ensures Valid() && (!panic ==> State() == old(State()) && log == old(log))
      ensures match VmOps.PageLookup(old(State()), d, va)
              case LookPanic => panic
              case NotMapped => !panic && page == NULL
              case Found(f, s) => !panic && page == f && pte == Pte(s)
    {
      panic, pte := PgdirWalk(d, va, false);
      if panic { return true, NULL, pte; }
      if pte.NullPte? { return false, NULL, pte; }
      var entry := mem[pte.slot.frame][pte.slot.idx];
      match Pa2Page(PteAddr(entry), mem.Length) {
        case None => return true, NULL, pte;
        case Some(f) => return false, f, pte;
      }
    }

    method TlbInvalidate(va: Word)
      requires Valid()
      modifies this
      ensures Valid() && State() == Invlpg(old(State()), va) && log == old(log) + [Flush(va)]
    {
      tlb, log := tlb - {PageOf(va)}, log + [Flush(va)];
    }

    method Lcr3(d: nat)
      requires Valid()
      modifies this
      ensures Valid() && State() == LoadCr3(old(State()), d) && log == old(log) + [Load(d)]
    {
      cr3, tlb, log := d, map[], log + [Load(d)];
    }

    method PageRemove(d: nat, va: Word) returns (panic: bool)
      requires Valid() && d < mem.Length
      modifies this, mem, ppLink, ppRef
      ensures Valid()
      ensures panic <==> VmOps.PageRemove(old(State()), d, va).Panic?
      ensures !panic ==> State() == VmOps.PageRemove(old(State()), d, va).value
      ensures !panic ==> log == old(log) + RemoveActs(old(State()), d, va)
    {
      var page, pte;
      panic, page, pte := PageLookup(d, va);
      if panic || page == NULL { return; }
      panic := PageDecref(page);
      if panic { return; }
      Store(pte.slot, 0);
      TlbInvalidate(va);
    }

    method PageInsert(d: nat, f: nat, va: Word, perm: Perm) returns (panic: bool, ret: int)
      requires Valid() && d < mem.Length && f < mem.Length
      modifies this, mem, ppLink, ppRef
      ensures Valid()
      ensures match VmOps.PageInsert(old(State()), d, f, va, perm)
              case Panic => panic
              case Done((v, r)) =>
                && !panic && State() == v && ret == r
                && (r == 0 ==> log == old(log) + InsertActs(old(State()), d, f, va, perm))
    {
      hide InsertActs, WalkActs, MapActs, VmActs.MapAt, VmOps.PgdirWalk, VmOps.PageInsert, VmOps.Shape;
      ghost var v := State();
      var pte;
      ret := 0;
      panic, pte := PgdirWalk(d, va, true);
      if !panic {
        ghost var v1 := State();
        if pte.NullPte? { ret := -E_NO_MEM; } else { panic := MapAt(pte.slot, d, f, va, perm); }
        InsertAfterWalk(v, v1, d, f, va, perm);
      } else {
        InsertPanics(v, d, f, va, perm);
      }
    }

    /** page_insert behind the walk. */
    method MapAt(pte: Slot, d: nat, f: nat, va: Word, perm: Perm) returns (panic: bool)
      requires Valid() && pte.frame < mem.Length && d < mem.Length && f < mem.Length
      modifies this, mem, ppLink, ppRef
      ensures Valid()
      ensures panic <==> VmActs.MapAt(old(State()), d, f, va, perm, pte).Panic?
      ensures !panic ==> State() == VmActs.MapAt(old(State()), d, f, va, perm, pte).value
      ensures !panic ==> log == old(log) + MapActs(old(State()), d, f, va, perm, pte)
    {
      hide RemoveActs, VmOps.PageRemove, VmOps.IncRef, VmOps.Store, Entry;
      IncRef(f);
      if Present(mem[pte.frame][pte.idx]) {
        panic := PageRemove(d, va);
        if panic { return; }
      }
      Store(pte, Entry(f, perm));
      return false;
    }

    /** The panic is the out-of-memory one, or KADDR's. */
    method BootMapRegion(d: nat, va: Word, size: Word, pa: Word, perm: Perm) returns (panic: bool)
      requires Valid() && d < mem.Length && pa % 4096 == 0
      modifies this, mem, ppLink, ppRef
      ensures Valid()
      ensures panic <==> BootMap(old(State()), d, va, PagesIn(size), pa, perm).Panic?
      ensures !panic ==> State() == BootMap(old(State()), d, va, PagesIn(size), pa, perm).value
    {
      var numpage := size / 4096;
      if size % 4096 != 0 { numpage := numpage + 1; }
      assert numpage == PagesIn(size);
      hide *;
      panic := MapPages(d, va, numpage, pa, perm);
    }

    /** boot_map_region's loop. */
    method MapPages(d: nat, va: Word, numpage: nat, pa: Word, perm: Perm) returns (panic: bool)
      requires Valid() && d < mem.Length && pa % 4096 == 0
      modifies this, mem, ppLink, ppRef
      ensures Valid()
      ensures panic <==> BootMap(old(State()), d, va, numpage, pa, perm).Panic?
      ensures !panic ==> State() == BootMap(old(State()), d, va, numpage, pa, perm).value
    {
      hide BootMap, NextPage, Shape;
      var i, v, p := 0, va, pa;
      while i < numpage
        invariant Valid() && 0 <= i <= numpage && p % 4096 == 0
        invariant BootMap(State(), d, v, numpage - i, p, perm) == BootMap(old(State()), d, va, numpage, pa, perm)
      {
        panic := MapPage(d, v, numpage - i, p, perm);
        if panic { return; }
        p, v := NextPage(p), NextPage(v);
        i := i + 1;
      }
      BootMapNone(State(), d, v, p, perm);
      return false;
    }

    /** One turn of boot_map_region's loop, with n pages to go. */
    method MapPage(d: nat, va: Word, ghost n: nat, pa: Word, perm: Perm) returns (panic: bool)
      requires Valid() && d < mem.Length && pa % 4096 == 0 && n > 0
      modifies this, mem, ppLink, ppRef
      ensures Valid() && NextPage(pa) % 4096 == 0
      ensures panic ==> BootMap(old(State()), d, va, n, pa, perm).Panic?
      ensures !panic ==> BootMap(State(), d, NextPage(va), n - 1, NextPage(pa), perm) == BootMap(old(State()), d, va, n, pa, perm)
    {
      UnfoldBootMap(State(), d, va, n, pa, perm);
      hide BootMap, NextPage, VmOps.PgdirWalk, VmOps.Store, Entry, Shape;
      var pte;
      panic, pte := PgdirWalk(d, va, true);
      if panic || pte.NullPte? { return true; }
      Store(pte.slot, Entry(pa / 4096, perm));
    }

    method PageInit(mark: nat)
      requires Valid()
      modifies this, ppLink, ppRef
      ensures Valid() && State() == Boot.PageInit(old(State()), mark)
    {
      pageFreeList, free := NULL, [];
      var i := 0;
      while i < mem.Length
        invariant Valid() && 0 <= i <= mem.Length
        invariant PageInitFrom(State(), i, mark) == Boot.PageInit(old(State()), mark)
      {
        hide PageInitFrom, InitPage, Reserved;
        UnfoldPageInit(State(), i, mark);
        InitOne(i, mark);
        i := i + 1;
      }
    }

    /** One turn of page_init's loop. */
    method InitOne(i: nat, mark: nat)
      requires Valid() && i < mem.Length
      modifies this, ppLink, ppRef
      ensures Valid() && State() == InitPage(old(State()), i, mark)
    {
      if Reserved(i, mark) {
        ppRef[i] := 1;
        pins := pins[i := 1];
      } else {
        ppRef[i] := 0;
        ppLink[i] := pageFreeList;
        pageFreeList := i;
        free := [i] + free;
      }
    }

    /** The mapping part of mem_init. */
    method MemInit(kd: nat, pagesPa: Word, stackPa: Word) returns (panic: bool)
      requires Valid() && kd < mem.Length && pagesPa % 4096 == 0 && stackPa % 4096 == 0
      modifies this, mem, ppLink, ppRef
      ensures Valid()
      ensures panic <==> Boot.MemInit(old(State()), kd, pagesPa, stackPa).Panic?
      ensures !panic ==> State() == Boot.MemInit(old(State()), kd, pagesPa, stackPa).value
    {
      panic := BootMapRegion(kd, UPAGES, PTSIZE, pagesPa, PTE_PU);
      if panic { return; }
      panic := BootMapRegion(kd, KSTACKBASE, KSTKSIZE, stackPa, PTE_PW);
      if panic { return; }
      panic := BootMapRegion(kd, KERNBASE, 0x0FFF_FFFF, 0, PTE_PW);
      if panic { return; }
      Lcr3(kd);
    }

    /** The address-space part of env_free: d is the environment's directory, kd kern_pgdir. */
    method EnvFree(d: nat, kd: nat, current: bool) returns (panic: bool)
      requires Valid() && d < mem.Length && kd < mem.Length
      modifies this, mem, ppLink, ppRef
      ensures Valid()
      ensures panic <==> VmTeardown.EnvFree(old(State()), d, kd, current).Panic?
      ensures !panic ==> State() == VmTeardown.EnvFree(old(State()), d, kd, current).value
      ensures !panic ==> log == old(log) + EnvFreeActs(old(State()), d, kd, current)
    {
      hide UnmapDir, DirActs, FreeDirActs, VmOps.PageDecref;
      if current { Lcr3(kd); }
      panic := EmptyDirectory(d);
      if panic { return; }
      panic := FreeDirectory(d);
    }

    /** The outer loop of env_free. */
    method EmptyDirectory(d: nat) returns (panic: bool)
      requires Valid() && d < mem.Length
      modifies this, mem, ppLink, ppRef
      ensures Valid()
      ensures panic <==> UnmapDir(old(State()), d, 0).Panic?
      ensures !panic ==> State() == UnmapDir(old(State()), d, 0).value
      ensures !panic ==> log == old(log) + DirActs(old(State()), d, 0)
    {
      var pdeno := 0;
      while pdeno < UTOP_PDX
        invariant Valid() && 0 <= pdeno <= UTOP_PDX
        invariant UnmapDir(State(), d, pdeno) == UnmapDir(old(State()), d, 0)
        invariant log + DirActs(State(), d, pdeno) == old(log) + DirActs(old(State()), d, 0)
      {
        hide UnmapDir, DirActs;
        panic := EmptyEntry(d, pdeno);
        if panic { return; }
        pdeno := pdeno + 1;
      }
      DirUnfoldEnd(State(), d);
      return false;
    }

    /** Its body. */
    method EmptyEntry(d: nat, pdeno: Index) returns (panic: bool)
      requires Valid() && d < mem.Length && pdeno < UTOP_PDX
      modifies this, mem, ppLink, ppRef
      ensures Valid()
      ensures panic ==> UnmapDir(old(State()), d, pdeno).Panic?
      ensures !panic ==> UnmapDir(State(), d, pdeno + 1) == UnmapDir(old(State()), d, pdeno)
      ensures !panic ==> log + DirActs(State(), d, pdeno + 1) == old(log) + DirActs(old(State()), d, pdeno)
    {
      ghost var before := State();
      UnfoldDir(before, d, pdeno);
      hide UnmapDir, UnmapTable, VmTeardown.DropTable, DirActs, TableActs, DropTableActs, Present, Frame, Shape;
      var pde := mem[d][pdeno];
      if !Present(pde) {
        DirUnfoldSkip(before, d, pdeno);
        return false;
      }
      if Frame(pde) >= mem.Length { return true; }
      panic := FreeTable(d, pdeno, Frame(pde));
      if !panic { DirUnfoldEntry(before, d, pdeno, Frame(pde)); }
    }

    /** The directory itself. */
    method FreeDirectory(d: nat) returns (panic: bool)
      requires Valid() && d < mem.Length
      modifies this, ppLink, ppRef
      ensures Valid()
      ensures match VmOps.PageDecref(RetireDir(old(State()), d), d)
              case Panic => panic
              case Done(v) => !panic && State() == v.(pins := v.pins[d := Minus1(v.pins[d])])
      ensures !panic ==> log == old(log) + FreeDirActs(old(State()), d)
    {
      FreeDirParts(State(), d);
      assert DecrefActs(RetireDir(State(), d), d) == DecrefActs(State(), d);
      hide FreeDirActs, DecrefActs, VmOps.PageDecref;
      dirs := dirs - {d};
      log := log + [Note(dirs, tabs, ktabs, pins)];
      panic := PageDecref(d);
      pins := pins[d := Minus1(pins[d])];
      log := log + [Note(dirs, tabs, ktabs, pins)];
    }

    /** The body of env_free's outer loop for a mapped page table t. */
    method FreeTable(d: nat, pdeno: Index, t: nat) returns (panic: bool)
      requires Valid() && d < mem.Length && t < mem.Length
      modifies this, mem, ppLink, ppRef
      ensures Valid()
      ensures var r := UnmapTable(old(State()), d, pdeno, t, 0);
        if r.Panic? || VmTeardown.DropTable(r.value, d, pdeno, t).Panic? then panic
        else !panic && State() == VmTeardown.DropTable(r.value, d, pdeno, t).value
      ensures var r := UnmapTable(old(State()), d, pdeno, t, 0);
        panic || (r.Done?
          && log == old(log) + (TableActs(old(State()), d, pdeno, t, 0) + DropTableActs(r.value, d, pdeno, t)))
    {
      hide UnmapTable, TableActs, VmTeardown.DropTable, DropTableActs;
      panic := EmptyTable(d, pdeno, t);
      if panic { return; }
      panic := DropTable(d, pdeno, t);
    }

    /** The page table itself. */
    method DropTable(d: nat, pdeno: Index, t: nat) returns (panic: bool)
      requires Valid() && d < mem.Length && t < mem.Length
      modifies this, mem, ppLink, ppRef
      ensures Valid()
      ensures panic <==> VmTeardown.DropTable(old(State()), d, pdeno, t).Panic?
      ensures !panic ==> State() == VmTeardown.DropTable(old(State()), d, pdeno, t).value
      ensures !panic ==> log == old(log) + DropTableActs(old(State()), d, pdeno, t)
    {
      DropTableParts(State(), d, pdeno, t);
      hide VmTeardown.DropTable, DropTableActs, DecrefActs, VmOps.PageDecref;
      Store(Slot(d, pdeno), 0);
      tabs := tabs - {t};
      log := log + [Note(dirs, tabs, ktabs, pins)];
      panic := PageDecref(t);
    }

    /** The inner loop of env_free over table t. */
    method EmptyTable(d: nat, pdeno: Index, t: nat) returns (panic: bool)
      requires Valid() && d < mem.Length && t < mem.Length
      modifies this, mem, ppLink, ppRef
      ensures Valid()
      ensures panic <==> UnmapTable(old(State()), d, pdeno, t, 0).Panic?
      ensures !panic ==> State() == UnmapTable(old(State()), d, pdeno, t, 0).value
      ensures !panic ==> log == old(log) + TableActs(old(State()), d, pdeno, t, 0)
    {
      var pteno := 0;
      while pteno < NENTRIES
        invariant Valid() && 0 <= pteno <= NENTRIES
        invariant UnmapTable(State(), d, pdeno, t, pteno) == UnmapTable(old(State()), d, pdeno, t, 0)
        invariant log + TableActs(State(), d, pdeno, t, pteno) == old(log) + TableActs(old(State()), d, pdeno, t, 0)
      {
        hide UnmapTable, TableActs;
        panic := EmptyPte(d, pdeno, t, pteno);
        if panic { return; }
        pteno := pteno + 1;
      }
      return false;
    }

    /** Its body. */
    method EmptyPte(d: nat, pdeno: Index, t: nat, pteno: Index) returns (panic: bool)
      requires Valid() && d < mem.Length && t < mem.Length
      modifies this, mem, ppLink, ppRef
      ensures Valid()
      ensures panic ==> UnmapTable(old(State()), d, pdeno, t, pteno).Panic?
      ensures !panic ==> UnmapTable(State(), d, pdeno, t, pteno + 1) == UnmapTable(old(State()), d, pdeno, t, pteno)
      ensures !panic ==>
        log + TableActs(State(), d, pdeno, t, pteno + 1) == old(log) + TableActs(old(State()), d, pdeno, t, pteno)
    {
      ghost var before := State();
      hide UnmapTable, TableActs, RemoveActs, VmOps.PageRemove, Present, PGADDR, Shape;
      panic := false;
      if Present(mem[t][pteno]) {
        panic := PageRemove(d, PGADDR(pdeno, pteno, 0));
        if panic {
          UnfoldTablePanic(before, d, pdeno, t, pteno);
          return;
        }
      }
      UnfoldTable(before, d, pdeno, t, pteno);
      TableUnfold(before, d, pdeno, t, pteno);
    }
  }
}
