/** The hand-over from boot_alloc to the page allocator: page_init, boot_map_region and the
    mappings mem_init makes with them. */
module Boot {
  import opened Mmu
  import opened VmOps
  import opened VmInv
  import opened VmMap
  import opened VmPages

  // page_init

  /** The frames page_init keeps off the list: page 0 and everything from the I/O hole
      through the boot allocator's mark, the page at the mark included. */
  predicate Reserved(i: nat, mark: nat) {
    i == 0 || IOPHYSMEM <= 4096 * i <= mark
  }

  /** The loop of page_init from frame i. */
  function PageInitFrom(v: Vm, i: nat, mark: nat): (r: Vm)
    requires Shape(v) && i <= |v.mem|
    ensures Shape(r) && |r.mem| == |v.mem|
    decreases |v.mem| - i
  {
    if i == |v.mem| then v
    else PageInitFrom(InitPage(v, i, mark), i + 1, mark)
  }

  lemma UnfoldPageInit(v: Vm, i: nat, mark: nat)
    requires Shape(v) && i < |v.mem|
    ensures PageInitFrom(v, i, mark) == PageInitFrom(InitPage(v, i, mark), i + 1, mark)
  {
    hide InitPage;
  }

  function InitPage(v: Vm, i: nat, mark: nat): (r: Vm)
    requires Shape(v) && i < |v.mem|
    ensures Shape(r) && |r.mem| == |v.mem|
  {
    if Reserved(i, mark) then v.(ref := v.ref[i := 1], pins := v.pins[i := 1])
    else v.(ref := v.ref[i := 0], link := v.link[i := v.head], head := i, free := [i] + v.free)
  }

  function PageInit(v: Vm, mark: nat): (r: Vm)
    requires Shape(v)
    ensures Shape(r) && |r.mem| == |v.mem|
  {
    PageInitFrom(v.(head := NULL, free := []), 0, mark)
  }

  /** The free frames below n, highest first: the order in which page_init leaves them. */
  function FreeBelow(n: nat, mark: nat): (r: seq<nat>)
    ensures forall f: nat :: f in r <==> f < n && !Reserved(f, mark)
  {
    if n == 0 then []
    else if Reserved(n - 1, mark) then FreeBelow(n - 1, mark)
    else [n - 1] + FreeBelow(n - 1, mark)
  }

  ghost predicate Descends(s: seq<nat>) { forall i, j :: 0 <= i < j < |s| ==> s[i] > s[j] }

  /** page_alloc will hand the frames out from the highest down. */
  lemma {:induction false} FreeDescends(n: nat, mark: nat)
    ensures Descends(FreeBelow(n, mark))
  {
    if n > 0 {
      var s := FreeBelow(n - 1, mark);
      FreeDescends(n - 1, mark);
      forall j | 0 <= j < |s| ensures s[j] < n - 1 { assert s[j] in s; }
    }
  }

  /** mem_init's state before page_init: a page array cleared by memset and kern_pgdir, in
      frame kd, empty but for its self-map at UVPT. */
  ghost predicate Cleared(v: Vm, kd: nat) {
    && Shape(v) && kd < |v.mem|
    && (forall f :: 0 <= f < |v.mem| ==> v.ref[f] == 0 && v.link[f] == NULL && v.pins[f] == 0)
    && v.loose == {} && v.dirs == {kd} && v.tabs == map[] && v.ktabs == map[]
    && (forall i: Index :: i != UVPT_PDX ==> !Present(v.mem[kd][i]))
    && v.mem[kd][UVPT_PDX] == Entry(kd, PTE_U)
  }

  ghost predicate Fresh(v: Vm, kd: nat, mark: nat) {
    Cleared(v, kd) && kd != 0 && Reserved(kd, mark)
  }

  /** Frames below i are initialised, those from i on still cleared. */
  ghost predicate InitSoFar(v: Vm, w: Vm, i: nat, mark: nat) {
    && Shape(w) && |w.mem| == |v.mem| && i <= |v.mem|
    && w.free == FreeBelow(i, mark) && Chain(w.free, w.link, w.head)
    && (forall f :: 0 <= f < i ==> w.ref[f] == w.pins[f] == if Reserved(f, mark) then 1 else 0)
    && (forall f :: i <= f < |v.mem| ==> w.ref[f] == 0 && w.link[f] == NULL && w.pins[f] == 0)
    && w.mem == v.mem && w.loose == v.loose && w.dirs == v.dirs && w.tabs == v.tabs && w.ktabs == v.ktabs
    && w.cr3 == v.cr3 && w.tlb == v.tlb
  }

  lemma InitStep(v: Vm, w: Vm, i: nat, mark: nat)
    requires InitSoFar(v, w, i, mark) && i < |v.mem|
    ensures InitSoFar(v, InitPage(w, i, mark), i + 1, mark)
  {
    if !Reserved(i, mark) { ChainPush(w.free, w.link, w.head, i); }
    hide Chain, FreeBelow;
    assert FreeBelow(i + 1, mark) == if Reserved(i, mark) then FreeBelow(i, mark) else [i] + FreeBelow(i, mark) by {
      FreeBelowStep(i, mark);
    }
  }

  lemma FreeBelowStep(i: nat, mark: nat)
    ensures FreeBelow(i + 1, mark) == if Reserved(i, mark) then FreeBelow(i, mark) else [i] + FreeBelow(i, mark)
  {
  }

  lemma {:induction false} InitLoop(v: Vm, w: Vm, i: nat, mark: nat)
    requires InitSoFar(v, w, i, mark)
    ensures InitSoFar(v, PageInitFrom(w, i, mark), |v.mem|, mark)
    decreases |v.mem| - i
  {
    hide *;
    InitSize(v, w, i, mark);
    if i < |v.mem| {
      InitStep(v, w, i, mark);
      UnfoldPageInit(w, i, mark);
      InitLoop(v, InitPage(w, i, mark), i + 1, mark);
    } else {
      PageInitEnd(w, mark);
    }
  }

  lemma InitSize(v: Vm, w: Vm, i: nat, mark: nat)
    requires InitSoFar(v, w, i, mark)
    ensures Shape(w) && |w.mem| == |v.mem| && i <= |v.mem|
  {
    hide Shape, Chain;
  }

  lemma PageInitEnd(v: Vm, mark: nat)
    requires Shape(v)
    ensures PageInitFrom(v, |v.mem|, mark) == v
  {
  }

  /** After page_init the list holds exactly the unreserved frames, without repetition, and the
      invariant every later operation relies on is established. */
  lemma PageInitCorrect(v: Vm, kd: nat, mark: nat)
    requires Fresh(v, kd, mark)
    ensures var w := PageInit(v, mark);
      && Inv(w) && w.free == FreeBelow(|v.mem|, mark)
      && w.mem == v.mem && w.dirs == {kd} && w.tabs == map[] && w.ktabs == map[]
      && w.cr3 == v.cr3 && w.tlb == v.tlb
  {
    var v0 := v.(head := NULL, free := []);
    InitLoop(v0, v0, 0, mark);
    FreshInv(v, PageInit(v, mark), kd, mark);
  }

  lemma FreshInv(v: Vm, w: Vm, kd: nat, mark: nat)
    requires Fresh(v, kd, mark) && InitSoFar(v.(head := NULL, free := []), w, |v.mem|, mark)
    ensures Inv(w)
  {
    hide Chain;
    forall g: nat | g < |w.mem| ensures w.ref[g] == |Refs(w, g)| + w.pins[g] {
      assert Refs(w, g) == {};
    }
    hide Refs, FreeBelow;
    assert Partition(w.free, w.loose, w.ref);
    assert Structure(w);
  }

  // boot_map_region

  /** The page number of a virtual page. */
  function Vpn(p: Page): nat { p.pdx * 1024 + p.ptx }

  /** The loop of boot_map_region: n pages from va on, both addresses advancing modulo 2^32.
      Panic is the out-of-memory panic (or KADDR's). */
  function BootMap(v: Vm, d: nat, va: Word, n: nat, pa: Word, perm: Perm): (r: Res<Vm>)
    requires Shape(v) && d < |v.mem| && pa % 4096 == 0
    ensures r.Done? ==> Shape(r.value) && |r.value.mem| == |v.mem|
    decreases n
  {
    if n == 0 then Done(v)
    else
      match PgdirWalk(v, d, va, true)
      case WalkPanic => Panic
      case NoTable(_) => Panic
      case At(v1, s) =>
        BootMap(Store(v1, s, Entry(pa / 4096, perm)), d, NextPage(va), n - 1, NextPage(pa), perm)
  }

  function NextPage(a: Word): Word {
    if a + 4096 < 0x1_0000_0000 then a + 4096 else a + 4096 - 0x1_0000_0000
  }

  /** numpage: the size in pages, rounded up. */
  function PagesIn(size: Word): nat {
    size / 4096 + if size % 4096 != 0 then 1 else 0
  }

  /** The n pages from page number a on all lie at or above UTOP and clear of the UVPT window,
      and there are that many. */
  predicate KernelRange(a: nat, n: nat) {
    && UTOP_PDX * 1024 <= a && a + n <= 0x10_0000
    && (a + n <= UVPT_PDX * 1024 || UVPT_PDX * 1024 + 1024 <= a)
  }

  /** The directory entries in the range that have no table yet. */
  ghost function Missing(v: Vm, d: nat, a: nat, n: nat): set<int>
    requires d < |v.mem|
  {
    set i: int | 0 <= i < NENTRIES && n > 0 && a / 1024 <= i && i * 1024 < a + n && !Present(v.mem[d][i])
  }

  predicate Within(p: Page, a: nat, n: nat) { a <= Vpn(p) < a + n }

  /** The frame the page k places into the range is mapped to. */
  function FrameAt(pa: Word, k: nat): nat { (pa / 4096 + k) % 0x10_0000 }

  /** After mapping n pages from page number a: exactly the pages of the range translate anew in
      d, in order; no page outside it changed in any directory, d's windows on its new tables apart. */
  ghost predicate RangeMapped(v: Vm, w: Vm, d: nat, a: nat, n: nat, pa: Word, perm: Perm) {
    && d < |v.mem| == |w.mem|
    && (forall p: Page :: Within(p, a, n) ==>
          Translate(w.mem, d, p) == Some(Entry(FrameAt(pa, Vpn(p) - a), perm)))
    && (forall e, p: Page :: e in v.dirs && e < |v.mem| && !Within(p, a, n) ==>
          Translate(w.mem, e, p) == Translate(v.mem, e, p)
          || (e == d && p.pdx == UVPT_PDX && p.ptx in Missing(v, d, a, n) && Translate(v.mem, e, p) == None))
  }

  /** m free pages became kernel tables with one reference each; no other count changed. */
  ghost predicate TablesTaken(v: Vm, w: Vm, m: nat) {
    && m <= |v.free| && w.free == v.free[m..] && |w.ref| == |v.ref|
    && (forall g :: 0 <= g < |v.ref| ==> w.ref[g] == if g in v.free[..m] then 1 else v.ref[g])
    && w.dirs == v.dirs && w.tabs == v.tabs && w.loose == v.loose && w.cr3 == v.cr3 && w.tlb == v.tlb
  }

  /** A kernel table's entries are not counted, so writing one keeps the invariant. */
  lemma KernelWriteInv(v: Vm, s: Slot, x: Word)
    requires Inv(v) && s.frame in v.ktabs
    ensures s.frame < |v.mem| && Inv(Store(v, s, x))
  {
    var w := Store(v, s, x);
    hide Chain, Counts, Partition, UserDirs, Owners, UserTables, KernelDirs;
    assert SameTables(v, w);
    CountsFrame(v, w);
    StructureFrame(v, w);
  }

  /** It shows at one page, in the directories that have the table. */
  lemma KernelWriteMap(v: Vm, s: Slot, x: Word, e: nat, p: Page)
    requires Inv(v) && s.frame in v.ktabs && e in v.dirs
    ensures s.frame < |v.mem| && e < |v.mem|
    ensures Translate(Store(v, s, x).mem, e, p)
      == if p == Page(v.ktabs[s.frame], s.idx) && Names(v.mem, Slot(e, p.pdx), s.frame)
         then EntryValue(x) else Translate(v.mem, e, p)
  {
    if Present(v.mem[e][p.pdx]) { WalkReads(v, e, p.pdx); }
    hide Counts, Chain, Partition, UserDirs, UserTables, KernelDirs, Owners;
  }

  /** One page of the loop. */
  ghost predicate PageStep(v: Vm, w: Vm, d: nat, a: nat, pa: Word, perm: Perm) {
    && d < |v.mem| == |w.mem| && a < 0x10_0000
    && Inv(w) && RangeMapped(v, w, d, a, 1, pa, perm)
    && TablesTaken(v, w, if NeedsTable(v, d, a * 4096) then 1 else 0)
    && (forall i: Index :: Present(w.mem[d][i]) <==> Present(v.mem[d][i]) || i == a / 1024)
  }

  lemma MapOnePage(v: Vm, d: nat, a: nat, pa: Word, perm: Perm)
    requires Inv(v) && d in v.dirs && a < 0x10_0000 && KernelRange(a, 1) && d < |v.mem|
    requires Shape(v)
    ensures var r := PgdirWalk(v, d, a * 4096, true);
      && (r.At? <==> !(NeedsTable(v, d, a * 4096) && v.free == []))
      && (r.At? ==> PageStep(v, Store(r.vm, r.slot, Entry(pa / 4096, perm)), d, a, pa, perm))
  {
    var va := a * 4096;
    hide *;
    PgdirWalkKeeps(v, d, va, true);
    PgdirWalkMap(v, d, va, true);
    NeedsTableIs(v, d, va);
    var r := PgdirWalk(v, d, va, true);
    if r.At? {
      AboveUtop(a);
      WalkKeepsDirs(v, r.vm, d, va);
      WalkSlotAbove(r.vm, d, va, r.slot);
      WalkDirEntries(v, r.vm, d, va, r.slot);
      KernelWriteInv(r.vm, r.slot, Entry(pa / 4096, perm));
      OnePageMap(v, r.vm, r.slot, d, a, pa, perm);
      OnePageTables(v, r.vm, r.slot, d, a, pa, perm);
      WriteElsewhere(r.vm, r.slot, Entry(pa / 4096, perm), d);
      StepFrom(v, r.vm, Store(r.vm, r.slot, Entry(pa / 4096, perm)), d, a, pa, perm);
    }
  }

  lemma NeedsTableIs(v: Vm, d: nat, va: Word)
    requires d < |v.mem|
    ensures NeedsTable(v, d, va) <==> !Present(v.mem[d][PDX(va)])
  {
  }

  lemma AboveUtop(a: nat)
    requires a < 0x10_0000 && KernelRange(a, 1)
    ensures PDX(a * 4096) == a / 1024 && PDX(a * 4096) >= UTOP_PDX && PDX(a * 4096) != UVPT_PDX
  {
  }

  lemma StepFrom(v: Vm, v1: Vm, w: Vm, d: nat, a: nat, pa: Word, perm: Perm)
    requires d < |v.mem| == |v1.mem| == |w.mem| && a < 0x10_0000 && w.mem[d] == v1.mem[d]
    requires Inv(w) && RangeMapped(v, w, d, a, 1, pa, perm)
    requires TablesTaken(v, w, if NeedsTable(v, d, a * 4096) then 1 else 0)
    requires forall i: Index :: Present(v1.mem[d][i]) <==> Present(v.mem[d][i]) || i == a / 1024
    ensures PageStep(v, w, d, a, pa, perm)
  {
    hide Inv, RangeMapped, TablesTaken, NeedsTable;
  }

  lemma WalkKeepsDirs(v: Vm, w: Vm, d: nat, va: Word)
    requires d < |v.mem| && if NeedsTable(v, d, va) then TableMade(v, w, d, va) else w == v
    ensures w.dirs == v.dirs && |w.mem| == |v.mem|
  {
  }

  lemma WriteElsewhere(v: Vm, s: Slot, x: Word, d: nat)
    requires s.frame < |v.mem| && d < |v.mem| && s.frame != d
    ensures |Store(v, s, x).mem| == |v.mem| && Store(v, s, x).mem[d] == v.mem[d]
  {
  }

  lemma WalkSlotAbove(v: Vm, d: nat, va: Word, s: Slot)
    requires Inv(v) && d in v.dirs && PDX(va) >= UTOP_PDX && PDX(va) != UVPT_PDX
    requires Names(v.mem, Slot(d, PDX(va)), s.frame)
    ensures s.frame in v.ktabs && v.ktabs[s.frame] == PDX(va) && s.frame !in v.dirs && s.frame < |v.mem|
  {
    WalkReads(v, d, PDX(va));
  }

  /** The walk makes the entry for va present and leaves the others of the directory. */
  lemma WalkDirEntries(v: Vm, w: Vm, d: nat, va: Word, s: Slot)
    requires Inv(v) && d in v.dirs && d < |v.mem| && PgdirWalk(v, d, va, true) == At(w, s)
    ensures |w.mem| == |v.mem|
    ensures forall i: Index :: Present(w.mem[d][i]) <==> Present(v.mem[d][i]) || i == PDX(va)
  {
    InvShape(v);
    if NeedsTable(v, d, va) {
      PageAllocInv(v, 1);
    }
    hide Inv, PageAlloc;
  }

  lemma OnePageMap(v: Vm, v1: Vm, s: Slot, d: nat, a: nat, pa: Word, perm: Perm)
    requires KernelRange(a, 1) && d in v.dirs && d < |v.mem| && MapKept(v, v1, d, Window(PDX(a * 4096)))
    requires Inv(v1) && s.frame < |v1.mem| && s.idx == PTX(a * 4096) && Names(v1.mem, Slot(d, PDX(a * 4096)), s.frame)
    requires s.frame in v1.ktabs && v1.ktabs[s.frame] == PDX(a * 4096) && v1.dirs == v.dirs
    requires NeedsTable(v, d, a * 4096) || v1 == v
    ensures RangeMapped(v, Store(v1, s, Entry(pa / 4096, perm)), d, a, 1, pa, perm)
  {
    var x := Entry(pa / 4096, perm);
    var w := Store(v1, s, x);
    var pg := Page(PDX(a * 4096), PTX(a * 4096));
    WithinOne(a);
    OnePageWrite(v1, s, x, pg);
    MissingHere(v, d, a);
    FrameFirst(pa);
    hide Inv, Translate, Store, Missing, Within, NeedsTable, Names, FrameAt, Entry, PDX, PTX, Vpn;
    forall p: Page | Within(p, a, 1) ensures Translate(w.mem, d, p) == Some(Entry(FrameAt(pa, Vpn(p) - a), perm)) {
      assert p == pg;
    }
  }

  lemma WithinOne(a: nat)
    requires a < 0x10_0000
    ensures var pg := Page(PDX(a * 4096), PTX(a * 4096));
      Vpn(pg) == a && forall p: Page :: Within(p, a, 1) <==> p == pg
  {
    IndicesOf(a);
    hide PDX, PTX;
    forall p: Page ensures Within(p, a, 1) <==> p == Page(a / 1024, a % 1024) { PageOfNumber(p, a); }
    PageOfNumber(Page(a / 1024, a % 1024), a);
  }

  lemma IndicesOf(a: nat)
    requires a < 0x10_0000
    ensures PDX(a * 4096) == a / 1024 && PTX(a * 4096) == a % 1024
  {
    var q, t := a / 1024, a % 1024;
    assert a * 4096 == q * 0x40_0000 + t * 4096;
    assert a * 4096 / 4096 == a;
  }

  lemma PageOfNumber(p: Page, a: nat)
    requires a < 0x10_0000
    ensures Vpn(p) == a <==> p == Page(a / 1024, a % 1024)
  {
    var q, t := a / 1024, a % 1024;
    assert a == q * 1024 + t && 0 <= t < 1024;
  }

  lemma FrameFirst(pa: Word)
    ensures FrameAt(pa, 0) == pa / 4096
  {
  }

  lemma MissingHere(v: Vm, d: nat, a: nat)
    requires d < |v.mem| && a < 0x10_0000
    ensures NeedsTable(v, d, a * 4096) ==> PDX(a * 4096) in Missing(v, d, a, 1)
  {
  }

  /** Writing the entry for pg in a kernel table, seen from every directory. */
  lemma OnePageWrite(v: Vm, s: Slot, x: Word, pg: Page)
    requires Inv(v) && s.frame in v.ktabs && s.frame < |v.mem| && pg == Page(v.ktabs[s.frame], s.idx) && Present(x)
    ensures forall e, p: Page :: e in v.dirs && e < |v.mem| ==>
      Translate(Store(v, s, x).mem, e, p)
        == if p == pg && Names(v.mem, Slot(e, p.pdx), s.frame) then Some(x) else Translate(v.mem, e, p)
  {
    assert |Store(v, s, x).mem| == |v.mem|;
    hide Inv, Translate, Store, Names;
    forall e, p: Page | e in v.dirs && e < |v.mem|
      ensures Translate(Store(v, s, x).mem, e, p)
        == if p == pg && Names(v.mem, Slot(e, p.pdx), s.frame) then Some(x) else Translate(v.mem, e, p)
    {
      KernelWriteMap(v, s, x, e, p);
    }
  }

  lemma OnePageTables(v: Vm, v1: Vm, s: Slot, d: nat, a: nat, pa: Word, perm: Perm)
    requires Shape(v) && KernelRange(a, 1) && d < |v.mem| && s.frame < |v1.mem|
    requires if NeedsTable(v, d, a * 4096) then TableMade(v, v1, d, a * 4096) else v1 == v
    ensures TablesTaken(v, Store(v1, s, Entry(pa / 4096, perm)), if NeedsTable(v, d, a * 4096) then 1 else 0)
  {
    if NeedsTable(v, d, a * 4096) {
      assert v.free[..1] == [v.free[0]];
    } else {
      assert v.free[0..] == v.free;
    }
  }

  lemma RangeJoins(v: Vm, v1: Vm, w: Vm, d: nat, a: nat, n: nat, pa: Word, perm: Perm)
    requires n > 0 && KernelRange(a, n) && PageStep(v, v1, d, a, pa, perm) && v1.dirs == v.dirs && d in v.dirs
    requires RangeMapped(v1, w, d, a + 1, n - 1, NextPage(pa), perm)
    ensures RangeMapped(v, w, d, a, n, pa, perm)
  {
    hide Inv, TablesTaken, Translate;
    MissingShrinks(v, v1, d, a, n, pa, perm);
    hide Missing;
    forall p: Page | Within(p, a, n)
      ensures Translate(w.mem, d, p) == Some(Entry(FrameAt(pa, Vpn(p) - a), perm))
    {
      if Vpn(p) == a {
        assert !Within(p, a + 1, n - 1) && Within(p, a, 1);
      } else {
        FrameAtNext(pa, Vpn(p) - a);
      }
    }
    assert forall p: Page :: !Within(p, a, n) ==> !Within(p, a, 1) && !Within(p, a + 1, n - 1);
  }

  lemma FrameAtNext(pa: Word, k: nat)
    requires k > 0
    ensures FrameAt(NextPage(pa), k - 1) == FrameAt(pa, k)
  {
  }

  lemma MissingShrinks(v: Vm, v1: Vm, d: nat, a: nat, n: nat, pa: Word, perm: Perm)
    requires n > 0 && KernelRange(a, n) && PageStep(v, v1, d, a, pa, perm)
    ensures Missing(v, d, a, 1) <= Missing(v, d, a, n)
    ensures Missing(v1, d, a + 1, n - 1) == Missing(v, d, a, n) - {a / 1024}
    ensures NeedsTable(v, d, a * 4096) <==> a / 1024 in Missing(v, d, a, n)
    ensures |Missing(v, d, a, n)| == |Missing(v1, d, a + 1, n - 1)| + if NeedsTable(v, d, a * 4096) then 1 else 0
  {
    hide Inv, RangeMapped, TablesTaken;
    assert PDX(a * 4096) == a / 1024;
    var m, m1 := Missing(v, d, a, n), Missing(v1, d, a + 1, n - 1);
    assert m1 == m - {a / 1024};
  }

  lemma TablesJoin(v: Vm, v1: Vm, w: Vm, m: nat, k: nat)
    requires TablesTaken(v, v1, m) && TablesTaken(v1, w, k)
    ensures TablesTaken(v, w, m + k)
  {
    assert v.free[m..][k..] == v.free[m + k..];
    assert v.free[m..][..k] == v.free[m..m + k];
    assert v.free[..m + k] == v.free[..m] + v.free[m..m + k];
  }

  /** The address of page number a, modulo 2^32. */
  function VaOf(a: nat): Word { (a % 0x10_0000) * 4096 }

  /** Exactly the missing directory entries of the range are present now. */
  ghost predicate EntriesMade(v: Vm, w: Vm, d: nat, a: nat, n: nat) {
    && d < |v.mem| == |w.mem|
    && forall i: Index :: Present(w.mem[d][i]) <==> Present(v.mem[d][i]) || i in Missing(v, d, a, n)
  }

  ghost predicate MapDone(v: Vm, r: Res<Vm>, d: nat, a: nat, n: nat, pa: Word, perm: Perm) {
    && d < |v.mem|
    && (r.Done? <==> |Missing(v, d, a, n)| <= |v.free|)
    && (r.Done? ==>
          && EntriesMade(v, r.value, d, a, n) && Inv(r.value) && RangeMapped(v, r.value, d, a, n, pa, perm)
          && TablesTaken(v, r.value, |Missing(v, d, a, n)|))
  }

  /** boot_map_region maps page k of the range to pa + k*PGSIZE with the given permissions,
      changes no other translation and no mapped page's count, takes exactly one free page for
      each missing table, and panics exactly when there are not enough of them. */
  lemma {:induction false} BootMapCorrect(v: Vm, d: nat, a: nat, n: nat, pa: Word, perm: Perm)
    requires Inv(v) && d in v.dirs && KernelRange(a, n) && pa % 4096 == 0
    ensures Shape(v) && d < |v.mem|
    ensures MapDone(v, BootMap(v, d, VaOf(a), n, pa, perm), d, a, n, pa, perm)
    decreases n
  {
    hide *;
    DirShape(v, d);
    if n == 0 {
      MapNothing(v, d, a, pa, perm);
    } else {
      RangeHead(a, n);
      MapOnePage(v, d, a, pa, perm);
      UnfoldMap(v, d, a, n, pa, perm);
      var r := PgdirWalk(v, d, a * 4096, true);
      if r.At? {
        var v1 := Store(r.vm, r.slot, Entry(pa / 4096, perm));
        StepKeepsDirs(v, v1, d, a, pa, perm);
        BootMapCorrect(v1, d, a + 1, n - 1, NextPage(pa), perm);
        MapStep(v, v1, BootMap(v1, d, VaOf(a + 1), n - 1, NextPage(pa), perm), d, a, n, pa, perm);
      } else {
        MapFails(v, d, a, n, pa, perm);
      }
    }
  }

  lemma RangeHead(a: nat, n: nat)
    requires n > 0 && KernelRange(a, n)
    ensures a < 0x10_0000 && KernelRange(a, 1) && KernelRange(a + 1, n - 1)
  {
  }

  lemma MapNothing(v: Vm, d: nat, a: nat, pa: Word, perm: Perm)
    requires Inv(v) && Shape(v) && d < |v.mem| && pa % 4096 == 0
    ensures MapDone(v, BootMap(v, d, VaOf(a), 0, pa, perm), d, a, 0, pa, perm)
  {
    hide Inv;
    assert Missing(v, d, a, 0) == {};
    assert v.free[0..] == v.free;
  }

  lemma BootMapNone(v: Vm, d: nat, va: Word, pa: Word, perm: Perm)
    requires Shape(v) && d < |v.mem| && pa % 4096 == 0
    ensures BootMap(v, d, va, 0, pa, perm) == Done(v)
  {
  }

  lemma UnfoldBootMap(v: Vm, d: nat, va: Word, n: nat, pa: Word, perm: Perm)
    requires Shape(v) && d < |v.mem| && n > 0 && pa % 4096 == 0
    ensures NextPage(pa) % 4096 == 0
    ensures BootMap(v, d, va, n, pa, perm) ==
      match PgdirWalk(v, d, va, true)
      case WalkPanic => Panic
      case NoTable(_) => Panic
      case At(v1, s) => BootMap(Store(v1, s, Entry(pa / 4096, perm)), d, NextPage(va), n - 1, NextPage(pa), perm)
  {
    hide PgdirWalk;
  }

  lemma UnfoldMap(v: Vm, d: nat, a: nat, n: nat, pa: Word, perm: Perm)
    requires Shape(v) && d < |v.mem| && n > 0 && a < 0x10_0000 && pa % 4096 == 0
    ensures NextPage(pa) % 4096 == 0
    ensures var r := PgdirWalk(v, d, a * 4096, true);
      BootMap(v, d, VaOf(a), n, pa, perm)
      == if r.At? then BootMap(Store(r.vm, r.slot, Entry(pa / 4096, perm)), d, VaOf(a + 1), n - 1, NextPage(pa), perm)
         else Panic
  {
    hide PgdirWalk, Store;
  }

  lemma StepKeepsDirs(v: Vm, v1: Vm, d: nat, a: nat, pa: Word, perm: Perm)
    requires PageStep(v, v1, d, a, pa, perm) && d in v.dirs
    ensures Inv(v1) && Shape(v1) && d in v1.dirs && d < |v1.mem|
  {
  }

  lemma MapFails(v: Vm, d: nat, a: nat, n: nat, pa: Word, perm: Perm)
    requires d < |v.mem| && n > 0 && a < 0x10_0000 && KernelRange(a, n) && NeedsTable(v, d, a * 4096) && v.free == []
    ensures MapDone(v, Panic, d, a, n, pa, perm)
  {
    assert a / 1024 in Missing(v, d, a, n);
  }

  lemma MapStep(v: Vm, v1: Vm, r: Res<Vm>, d: nat, a: nat, n: nat, pa: Word, perm: Perm)
    requires n > 0 && KernelRange(a, n) && PageStep(v, v1, d, a, pa, perm) && d in v.dirs
    requires MapDone(v1, r, d, a + 1, n - 1, NextPage(pa), perm)
    ensures MapDone(v, r, d, a, n, pa, perm)
  {
    StepTables(v, v1, d, a, pa, perm);
    MissingShrinks(v, v1, d, a, n, pa, perm);
    hide Inv, RangeMapped, TablesTaken, NeedsTable, Missing, EntriesMade, PageStep, KernelRange, NextPage;
    if r.Done? { StepJoins(v, v1, r.value, d, a, n, pa, perm); }
  }

  lemma StepJoins(v: Vm, v1: Vm, w: Vm, d: nat, a: nat, n: nat, pa: Word, perm: Perm)
    requires n > 0 && KernelRange(a, n) && PageStep(v, v1, d, a, pa, perm) && d in v.dirs
    requires d < |v.mem| == |v1.mem| && EntriesMade(v1, w, d, a + 1, n - 1)
    requires RangeMapped(v1, w, d, a + 1, n - 1, NextPage(pa), perm)
    requires TablesTaken(v1, w, |Missing(v1, d, a + 1, n - 1)|)
    ensures EntriesMade(v, w, d, a, n) && RangeMapped(v, w, d, a, n, pa, perm)
    ensures TablesTaken(v, w, |Missing(v, d, a, n)|)
  {
    hide *;
    StepTables(v, v1, d, a, pa, perm);
    MissingShrinks(v, v1, d, a, n, pa, perm);
    TablesJoin(v, v1, w, if NeedsTable(v, d, a * 4096) then 1 else 0, |Missing(v1, d, a + 1, n - 1)|);
    RangeJoins(v, v1, w, d, a, n, pa, perm);
    EntriesJoin(v, v1, Done(w), d, a, n, pa, perm);
  }

  lemma StepTables(v: Vm, v1: Vm, d: nat, a: nat, pa: Word, perm: Perm)
    requires PageStep(v, v1, d, a, pa, perm)
    ensures d < |v.mem| == |v1.mem| && a < 0x10_0000 && v1.dirs == v.dirs
    ensures TablesTaken(v, v1, if NeedsTable(v, d, a * 4096) then 1 else 0)
    ensures |v.free| == |v1.free| + if NeedsTable(v, d, a * 4096) then 1 else 0
  {
    hide Inv;
  }

  lemma EntriesJoin(v: Vm, v1: Vm, r: Res<Vm>, d: nat, a: nat, n: nat, pa: Word, perm: Perm)
    requires n > 0 && KernelRange(a, n) && PageStep(v, v1, d, a, pa, perm)
    requires r.Done? ==> EntriesMade(v1, r.value, d, a + 1, n - 1)
    ensures r.Done? ==> EntriesMade(v, r.value, d, a, n)
  {
    MissingShrinks(v, v1, d, a, n, pa, perm);
    hide Inv, RangeMapped, TablesTaken, Missing;
  }

  // mem_init

  const UPAGES_VPN := 956 * 1024                 // UPAGES / PGSIZE
  const STACK_VPN := 959 * 1024 + 1016           // (KSTACKTOP - KSTKSIZE) / PGSIZE
  const KERNBASE_VPN := 960 * 1024               // KERNBASE / PGSIZE

  /** The three boot_map_region calls of mem_init and the switch to kern_pgdir, with the
      physical addresses of pages[] and bootstack. */
  function MemInit(v: Vm, kd: nat, pagesPa: Word, stackPa: Word): (r: Res<Vm>)
    requires Shape(v) && kd < |v.mem| && pagesPa % 4096 == 0 && stackPa % 4096 == 0
    ensures r.Done? ==> Shape(r.value) && |r.value.mem| == |v.mem|
  {
    match BootMap(v, kd, UPAGES, PagesIn(PTSIZE), pagesPa, PTE_PU)
    case Panic => Panic
    case Done(v1) => MapStack(v1, kd, stackPa)
  }

  function MapStack(v: Vm, kd: nat, stackPa: Word): (r: Res<Vm>)
    requires Shape(v) && kd < |v.mem| && stackPa % 4096 == 0
    ensures r.Done? ==> Shape(r.value) && |r.value.mem| == |v.mem|
  {
    match BootMap(v, kd, KSTACKBASE, PagesIn(KSTKSIZE), stackPa, PTE_PW)
    case Panic => Panic
    case Done(v1) => MapPhysical(v1, kd)
  }

  /** size is 0xffffffff - KERNBASE: one byte short of a whole number of pages. */
  function MapPhysical(v: Vm, kd: nat): (r: Res<Vm>)
    requires Shape(v) && kd < |v.mem|
    ensures r.Done? ==> Shape(r.value) && |r.value.mem| == |v.mem|
  {
    match BootMap(v, kd, KERNBASE, PagesIn(0x0FFF_FFFF), 0, PTE_PW)
    case Panic => Panic
    case Done(v1) => Done(LoadCr3(v1, kd))
  }

  /** What the kernel's directory maps after mem_init: pages[] at UPAGES, present and open to users'
      reads (5), the stack below KSTACKTOP with nothing under it and physical memory at KERNBASE,
      present and writable for the kernel alone (3), and nothing else outside the window at UVPT. */
  ghost predicate KernelMap(w: Vm, kd: nat, pagesPa: Word, stackPa: Word) {
    kd < |w.mem| && forall p: Page :: p.pdx != UVPT_PDX ==> KernelAt(w, kd, p, pagesPa, stackPa)
  }

  predicate KernelAt(w: Vm, kd: nat, p: Page, pagesPa: Word, stackPa: Word)
    requires kd < |w.mem|
  {
    Translate(w.mem, kd, p) ==
      if p.pdx == 956 then Some((pagesPa / 4096 + p.ptx) % 0x10_0000 * 4096 + 5)
      else if p.pdx == 959 && p.ptx >= 1016 then Some((stackPa / 4096 + p.ptx - 1016) % 0x10_0000 * 4096 + 3)
      else if p.pdx >= 960 then Some(((p.pdx - 960) * 1024 + p.ptx) * 4096 + 3)
      else None
  }

  lemma {:induction false} Interval(lo: int, hi: int, s: set<int>)
    requires lo <= hi && forall i :: i in s <==> lo <= i < hi
    ensures |s| == hi - lo
    decreases hi - lo
  {
    if lo == hi {
      assert forall i :: i !in s;
      assert s == {};
    } else {
      Interval(lo, hi - 1, s - {hi - 1});
    }
  }

  /** The tables missing for a range that starts in entry lo and ends in entry hi - 1. */
  lemma MissingAll(v: Vm, d: nat, a: nat, n: nat, lo: Index, hi: nat)
    requires d < |v.mem| && n > 0 && a / 1024 == lo < hi <= NENTRIES && (hi - 1) * 1024 < a + n <= hi * 1024
    requires forall i: Index :: lo <= i < hi ==> !Present(v.mem[d][i])
    ensures forall i :: i in Missing(v, d, a, n) <==> lo <= i < hi
    ensures |Missing(v, d, a, n)| == hi - lo
  {
    Interval(lo, hi, Missing(v, d, a, n));
  }

  lemma PageCounts()
    ensures PagesIn(PTSIZE) == 1024 && PagesIn(KSTKSIZE) == 8 && PagesIn(0x0FFF_FFFF) == 65536
    ensures VaOf(UPAGES_VPN) == UPAGES && VaOf(STACK_VPN) == KSTACKBASE && VaOf(KERNBASE_VPN) == KERNBASE
    ensures KernelRange(UPAGES_VPN, 1024) && KernelRange(STACK_VPN, 8) && KernelRange(KERNBASE_VPN, 65536)
  {
  }

  /** kern_pgdir maps nothing but, through UVPT, itself. */
  lemma FreshMap(v: Vm, kd: nat, p: Page)
    requires kd < |v.mem| && (forall i: Index :: i != UVPT_PDX ==> !Present(v.mem[kd][i])) && p.pdx != UVPT_PDX
    ensures Translate(v.mem, kd, p) == None
  {
  }

  /** One call of boot_map_region seen from directory d: a range that needs tables lo to hi - 1. */
  ghost predicate Staged(v: Vm, w: Vm, d: nat, a: nat, n: nat, lo: nat, hi: nat, pa: Word, perm: Perm) {
    && Inv(w) && d < |v.mem| == |w.mem| && lo <= hi && TablesTaken(v, w, hi - lo)
    && (forall i: Index :: Present(w.mem[d][i]) <==> Present(v.mem[d][i]) || lo <= i < hi)
    && forall p: Page :: p.pdx != UVPT_PDX ==>
         Translate(w.mem, d, p)
         == if Within(p, a, n) then Some(Entry(FrameAt(pa, Vpn(p) - a), perm)) else Translate(v.mem, d, p)
  }

  lemma Stage(v: Vm, d: nat, a: nat, n: nat, lo: Index, hi: nat, pa: Word, perm: Perm)
    requires Inv(v) && d in v.dirs && KernelRange(a, n) && pa % 4096 == 0 && d < |v.mem|
    requires n > 0 && a / 1024 == lo < hi <= NENTRIES && (hi - 1) * 1024 < a + n <= hi * 1024
    requires forall i: Index :: lo <= i < hi ==> !Present(v.mem[d][i])
    requires (UVPT_PDX + 1) * 1024 <= a || a + n <= UVPT_PDX * 1024
    ensures Shape(v)
    ensures var r := BootMap(v, d, VaOf(a), n, pa, perm);
      (r.Done? <==> |v.free| >= hi - lo) && (r.Done? ==> Staged(v, r.value, d, a, n, lo, hi, pa, perm))
  {
    hide *;
    DirShape(v, d);
    BootMapCorrect(v, d, a, n, pa, perm);
    MissingAll(v, d, a, n, lo, hi);
    StageFrom(v, BootMap(v, d, VaOf(a), n, pa, perm), d, a, n, lo, hi, pa, perm);
  }

  lemma StageFrom(v: Vm, r: Res<Vm>, d: nat, a: nat, n: nat, lo: Index, hi: nat, pa: Word, perm: Perm)
    requires MapDone(v, r, d, a, n, pa, perm) && d in v.dirs && d < |v.mem| && lo < hi <= NENTRIES
    requires (forall i :: i in Missing(v, d, a, n) <==> lo <= i < hi) && |Missing(v, d, a, n)| == hi - lo
    requires (UVPT_PDX + 1) * 1024 <= a || a + n <= UVPT_PDX * 1024
    ensures (r.Done? <==> |v.free| >= hi - lo) && (r.Done? ==> Staged(v, r.value, d, a, n, lo, hi, pa, perm))
  {
    hide Inv, Missing, Translate, TablesTaken, Within;
  }

  /** From the state page_init leaves, mem_init's mappings succeed exactly when 66 pages are
      free, one per table, and then give the documented kernel address space; KERNBASE + x maps
      to x for every x below 2^28, in spite of the odd size and of va wrapping at the end. */
  lemma MemInitCorrect(v: Vm, kd: nat, pagesPa: Word, stackPa: Word)
    requires Inv(v) && v.dirs == {kd} && kd < |v.mem| && pagesPa % 4096 == 0 && stackPa % 4096 == 0
    requires forall i: Index :: i != UVPT_PDX ==> !Present(v.mem[kd][i])
    ensures Shape(v)
    ensures Booted(v, MemInit(v, kd, pagesPa, stackPa), kd, pagesPa, stackPa)
  {
    DirShape(v, kd);
    PageCounts();
    hide Inv, BootMap, Staged, Booted;
    Stage(v, kd, UPAGES_VPN, 1024, 956, 957, pagesPa, PTE_PU);
    match BootMap(v, kd, UPAGES, 1024, pagesPa, PTE_PU)
    case Panic => NotBooted(v, kd, pagesPa, stackPa);
    case Done(v1) => MemInitSecond(v, v1, kd, pagesPa, stackPa);
  }

  lemma NotBooted(v: Vm, kd: nat, pagesPa: Word, stackPa: Word)
    requires |v.free| < 66
    ensures Booted(v, Panic, kd, pagesPa, stackPa)
  {
  }

  lemma MemInitSecond(v: Vm, v1: Vm, kd: nat, pagesPa: Word, stackPa: Word)
    requires Shape(v) && v.dirs == {kd} && kd < |v.mem| && stackPa % 4096 == 0
    requires forall i: Index :: i != UVPT_PDX ==> !Present(v.mem[kd][i])
    requires Staged(v, v1, kd, UPAGES_VPN, 1024, 956, 957, pagesPa, PTE_PU)
    ensures Shape(v1) && kd < |v1.mem| && Booted(v, MapStack(v1, kd, stackPa), kd, pagesPa, stackPa)
  {
    StagedFacts(v, v1, kd, UPAGES_VPN, 1024, 956, 957, pagesPa, PTE_PU);
    PageCounts();
    hide Inv, BootMap, Staged, Booted;
    Stage(v1, kd, STACK_VPN, 8, 959, 960, stackPa, PTE_PW);
    match BootMap(v1, kd, KSTACKBASE, 8, stackPa, PTE_PW)
    case Panic => NotBooted(v, kd, pagesPa, stackPa);
    case Done(v2) => MemInitThird(v, v1, v2, kd, pagesPa, stackPa);
  }

  lemma StagedFacts(v: Vm, w: Vm, d: nat, a: nat, n: nat, lo: nat, hi: nat, pa: Word, perm: Perm)
    requires Staged(v, w, d, a, n, lo, hi, pa, perm)
    ensures Inv(w) && Shape(w) && d < |v.mem| == |w.mem| && w.dirs == v.dirs && lo <= hi
    ensures |v.free| == |w.free| + (hi - lo)
    ensures forall i: Index :: Present(w.mem[d][i]) <==> Present(v.mem[d][i]) || lo <= i < hi
  {
  }

  lemma MemInitThird(v: Vm, v1: Vm, v2: Vm, kd: nat, pagesPa: Word, stackPa: Word)
    requires Shape(v) && v.dirs == {kd} && kd < |v.mem|
    requires forall i: Index :: i != UVPT_PDX ==> !Present(v.mem[kd][i])
    requires Staged(v, v1, kd, UPAGES_VPN, 1024, 956, 957, pagesPa, PTE_PU)
    requires Staged(v1, v2, kd, STACK_VPN, 8, 959, 960, stackPa, PTE_PW)
    ensures Shape(v2) && kd < |v2.mem| && Booted(v, MapPhysical(v2, kd), kd, pagesPa, stackPa)
  {
    StagedFacts(v, v1, kd, UPAGES_VPN, 1024, 956, 957, pagesPa, PTE_PU);
    StagedFacts(v1, v2, kd, STACK_VPN, 8, 959, 960, stackPa, PTE_PW);
    PageCounts();
    hide Inv, BootMap, Staged, Booted;
    Stage(v2, kd, KERNBASE_VPN, 65536, 960, 1024, 0, PTE_PW);
    match BootMap(v2, kd, KERNBASE, 65536, 0, PTE_PW)
    case Panic => NotBooted(v, kd, pagesPa, stackPa);
    case Done(v3) => MemInitEnd(v, v1, v2, v3, kd, pagesPa, stackPa);
  }

  lemma MemInitEnd(v: Vm, v1: Vm, v2: Vm, v3: Vm, kd: nat, pagesPa: Word, stackPa: Word)
    requires Shape(v) && v.dirs == {kd} && kd < |v.mem|
    requires forall i: Index :: i != UVPT_PDX ==> !Present(v.mem[kd][i])
    requires Staged(v, v1, kd, UPAGES_VPN, 1024, 956, 957, pagesPa, PTE_PU)
    requires Staged(v1, v2, kd, STACK_VPN, 8, 959, 960, stackPa, PTE_PW)
    requires Staged(v2, v3, kd, KERNBASE_VPN, 65536, 960, 1024, 0, PTE_PW)
    ensures Booted(v, Done(LoadCr3(v3, kd)), kd, pagesPa, stackPa)
  {
    var w := LoadCr3(v3, kd);
    hide Inv, Staged, TablesTaken, Translate, KernelAt, KernelMap, Present, Shape;
    StagedInv(v2, v3, kd, KERNBASE_VPN, 65536, 960, 1024, 0, PTE_PW);
    StagedInv(v1, v2, kd, STACK_VPN, 8, 959, 960, stackPa, PTE_PW);
    StagedInv(v, v1, kd, UPAGES_VPN, 1024, 956, 957, pagesPa, PTE_PU);
    CpuIrrelevant(v3, w);
    MemInitTables(v, v1, v2, v3, kd, pagesPa, stackPa);
    MemInitMap(v, v1, v2, v3, kd, pagesPa, stackPa);
  }

  lemma MemInitMap(v: Vm, v1: Vm, v2: Vm, v3: Vm, kd: nat, pagesPa: Word, stackPa: Word)
    requires kd < |v.mem| && kd < |v3.mem|
    requires forall i: Index :: i != UVPT_PDX ==> !Present(v.mem[kd][i])
    requires Staged(v, v1, kd, UPAGES_VPN, 1024, 956, 957, pagesPa, PTE_PU)
    requires Staged(v1, v2, kd, STACK_VPN, 8, 959, 960, stackPa, PTE_PW)
    requires Staged(v2, v3, kd, KERNBASE_VPN, 65536, 960, 1024, 0, PTE_PW)
    ensures KernelMap(LoadCr3(v3, kd), kd, pagesPa, stackPa)
  {
    hide Staged, KernelAt, Present;
    forall p: Page | p.pdx != UVPT_PDX ensures KernelAt(LoadCr3(v3, kd), kd, p, pagesPa, stackPa) {
      MemInitPage(v, v1, v2, v3, kd, p, pagesPa, stackPa);
    }
  }

  lemma StagedInv(v: Vm, w: Vm, d: nat, a: nat, n: nat, lo: nat, hi: nat, pa: Word, perm: Perm)
    requires Staged(v, w, d, a, n, lo, hi, pa, perm)
    ensures Inv(w) && w.dirs == v.dirs && d < |w.mem| == |v.mem|
  {
    hide Inv;
  }

  lemma MemInitTables(v: Vm, v1: Vm, v2: Vm, v3: Vm, kd: nat, pagesPa: Word, stackPa: Word)
    requires Staged(v, v1, kd, UPAGES_VPN, 1024, 956, 957, pagesPa, PTE_PU)
    requires Staged(v1, v2, kd, STACK_VPN, 8, 959, 960, stackPa, PTE_PW)
    requires Staged(v2, v3, kd, KERNBASE_VPN, 65536, 960, 1024, 0, PTE_PW)
    ensures TablesTaken(v, LoadCr3(v3, kd).(cr3 := v.cr3, tlb := v.tlb), 66) && |v.free| >= 66
  {
    hide Inv, Translate, Within;
    assert TablesTaken(v, v1, 1) && TablesTaken(v1, v2, 1) && TablesTaken(v2, v3, 64);
    hide Staged;
    TablesJoin(v, v1, v2, 1, 1);
    TablesJoin(v, v2, v3, 2, 64);
  }

  lemma MemInitPage(v: Vm, v1: Vm, v2: Vm, v3: Vm, kd: nat, p: Page, pagesPa: Word, stackPa: Word)
    requires kd < |v.mem| && p.pdx != UVPT_PDX
    requires forall i: Index :: i != UVPT_PDX ==> !Present(v.mem[kd][i])
    requires Staged(v, v1, kd, UPAGES_VPN, 1024, 956, 957, pagesPa, PTE_PU)
    requires Staged(v1, v2, kd, STACK_VPN, 8, 959, 960, stackPa, PTE_PW)
    requires Staged(v2, v3, kd, KERNBASE_VPN, 65536, 960, 1024, 0, PTE_PW)
    ensures kd < |v3.mem| && KernelAt(LoadCr3(v3, kd), kd, p, pagesPa, stackPa)
  {
    hide Inv, Shape, Staged, TablesTaken, Translate, Within, FrameAt, Offset, KernelAt, Present, Vpn;
    FreshMap(v, kd, p);
    StagedAt(v, v1, kd, UPAGES_VPN, 1024, 956, 957, pagesPa, PTE_PU, p);
    StagedAt(v1, v2, kd, STACK_VPN, 8, 959, 960, stackPa, PTE_PW, p);
    StagedAt(v2, v3, kd, KERNBASE_VPN, 65536, 960, 1024, 0, PTE_PW, p);
    KernelPage(p, pagesPa, stackPa);
    KernelAtCases(v, v1, v2, v3, kd, p, pagesPa, stackPa);
  }

  lemma StagedAt(v: Vm, w: Vm, d: nat, a: nat, n: nat, lo: nat, hi: nat, pa: Word, perm: Perm, p: Page)
    requires Staged(v, w, d, a, n, lo, hi, pa, perm) && p.pdx != UVPT_PDX
    ensures d < |v.mem| == |w.mem|
    ensures Translate(w.mem, d, p)
         == if Within(p, a, n) then Some(Entry(FrameAt(pa, Offset(p, a)), perm)) else Translate(v.mem, d, p)
  {
    hide Inv, TablesTaken, Translate;
  }

  /** The place of a page in a range. */
  function Offset(p: Page, a: nat): nat { if Vpn(p) >= a then Vpn(p) - a else 0 }

  lemma KernelAtCases(v: Vm, v1: Vm, v2: Vm, v3: Vm, kd: nat, p: Page, pagesPa: Word, stackPa: Word)
    requires kd < |v.mem| == |v1.mem| == |v2.mem| == |v3.mem| && Translate(v.mem, kd, p) == None
    requires Translate(v1.mem, kd, p) == if p.pdx == 956 then Some(Entry(FrameAt(pagesPa, p.ptx), PTE_PU)) else None
    requires Translate(v2.mem, kd, p) ==
      if p.pdx == 959 && p.ptx >= 1016 then Some(Entry(FrameAt(stackPa, p.ptx - 1016), PTE_PW))
      else Translate(v1.mem, kd, p)
    requires Translate(v3.mem, kd, p) ==
      if p.pdx >= 960 then Some(Entry((p.pdx - 960) * 1024 + p.ptx, PTE_PW)) else Translate(v2.mem, kd, p)
    ensures KernelAt(LoadCr3(v3, kd), kd, p, pagesPa, stackPa)
  {
    EntryWords(FrameAt(pagesPa, p.ptx));
    if p.ptx >= 1016 { EntryWords(FrameAt(stackPa, p.ptx - 1016)); }
    if p.pdx >= 960 { EntryWords((p.pdx - 960) * 1024 + p.ptx); }
    hide Translate, Entry;
  }

  /** The two kinds of entries as numbers. */
  lemma EntryWords(f: nat)
    requires f < 0x10_0000
    ensures Entry(f, PTE_PU) == f * 4096 + 5 && Entry(f, PTE_PW) == f * 4096 + 3
  {
  }

  /** Which of the three ranges a page is in, and at which place. */
  lemma KernelPage(p: Page, pagesPa: Word, stackPa: Word)
    ensures Within(p, UPAGES_VPN, 1024) <==> p.pdx == 956
    ensures Within(p, STACK_VPN, 8) <==> p.pdx == 959 && p.ptx >= 1016
    ensures Within(p, KERNBASE_VPN, 65536) <==> p.pdx >= 960
    ensures p.pdx == 956 ==> Offset(p, UPAGES_VPN) == p.ptx
    ensures p.pdx == 959 && p.ptx >= 1016 ==> Offset(p, STACK_VPN) == p.ptx - 1016
    ensures p.pdx >= 960 ==> FrameAt(0, Offset(p, KERNBASE_VPN)) == (p.pdx - 960) * 1024 + p.ptx
  {
  }

  ghost predicate Booted(v: Vm, r: Res<Vm>, kd: nat, pagesPa: Word, stackPa: Word) {
    && (r.Done? <==> |v.free| >= 66)
    && (r.Done? ==>
          && Inv(r.value) && Coherent(r.value) && KernelMap(r.value, kd, pagesPa, stackPa)
          && TablesTaken(v, r.value.(cr3 := v.cr3, tlb := v.tlb), 66))
  }

  /** KERNBASE + x translates to x for every x below 2^28. */
  lemma KernbaseIsIdentity(w: Vm, kd: nat, pagesPa: Word, stackPa: Word, x: nat)
    requires KernelMap(w, kd, pagesPa, stackPa) && x < 0x1000_0000
    ensures var la := 0xF000_0000 + x;
      && Translate(w.mem, kd, PageOf(la)).Some?
      && PteAddr(Translate(w.mem, kd, PageOf(la)).value) + PGOFF(la) == x
  {
    KernbaseParts(x);
    hide PageOf, PGOFF, Translate, PteAddr;
    var p := PageOf(KERNBASE + x);
    assert KernelAt(w, kd, p, pagesPa, stackPa);
    EntryAddress(x / 4096);
  }

  lemma KernbaseParts(x: nat)
    requires x < 0x1000_0000
    ensures var p := PageOf(KERNBASE + x);
      p.pdx >= 960 && (p.pdx - 960) * 1024 + p.ptx == x / 4096 && PGOFF(KERNBASE + x) == x % 4096
  {
    assert PDX(KERNBASE + x) == 960 + x / 0x40_0000;
    assert x / 4096 / 1024 == x / 0x40_0000;
  }

  lemma EntryAddress(f: nat)
    requires f < 0x10_0000
    ensures PteAddr(f * 4096 + 3) == f * 4096
  {
  }

  // boot_alloc

  /** ROUNDUP(a, PGSIZE) in 32-bit arithmetic */
  function RoundUp(a: Word): Word {
    var t := (a + 4095) % 0x1_0000_0000;
    t - t % 4096
  }

  /** boot_alloc: the result and the new nextfree. A zero nextfree means the first call; end is
      the linker's. */
  function BootAlloc(next: Word, end: Word, n: Word): (Word, Word) {
    var result := if next == 0 then RoundUp(end) else next;
    (result, RoundUp((result + n) % 0x1_0000_0000))
  }

  /** The chunks a run of boot_alloc calls hands out. */
  function Chunks(next: Word, end: Word, sizes: seq<Word>): (r: seq<(Word, Word)>)
    ensures |r| == |sizes|
    decreases |sizes|
  {
    if sizes == [] then []
    else
      var (result, next') := BootAlloc(next, end, sizes[0]);
      [(result, sizes[0])] + Chunks(next', end, sizes[1..])
  }

  /** The mark the run leaves, as boot_alloc(0) returns it. */
  function Mark(next: Word, end: Word, sizes: seq<Word>): Word
    decreases |sizes|
  {
    if sizes == [] then BootAlloc(next, end, 0).0
    else Mark(BootAlloc(next, end, sizes[0]).1, end, sizes[1..])
  }

  /** A size in whole pages. */
  function Up(n: Word): nat { (n + 4095) / 4096 * 4096 }

  function Total(sizes: seq<Word>): nat {
    if sizes == [] then 0 else Up(sizes[0]) + Total(sizes[1..])
  }

  /** Where the next chunk starts. */
  function Start(next: Word, end: Word): Word { if next == 0 then RoundUp(end) else next }

  /** What every nextfree satisfies that has not wrapped: page-aligned, and behind the kernel. */
  predicate Settled(next: Word, end: Word) {
    next % 4096 == 0 && RoundUp(end) > 0 && (next == 0 || next >= RoundUp(end))
  }

  /** Each chunk ends before the next one starts, and the last before the mark. */
  ghost predicate Row(cs: seq<(Word, Word)>, mark: Word) {
    forall i :: 0 <= i < |cs| ==> EndsInTime(cs, mark, i)
  }

  predicate EndsInTime(cs: seq<(Word, Word)>, mark: Word, i: nat)
    requires i < |cs|
  {
    cs[i].0 + cs[i].1 <= if i + 1 < |cs| then cs[i + 1].0 else mark
  }

  ghost predicate InRow(next: Word, end: Word, sizes: seq<Word>) {
    Row(Chunks(next, end, sizes), Mark(next, end, sizes))
  }

  /** One call: the next chunk starts behind this one, in whole pages, exactly if nextfree does
      not wrap; a wrapped one lies below. */
  lemma NextStart(next: Word, end: Word, n: Word)
    requires Settled(next, end)
    ensures var a, next' := Start(next, end), BootAlloc(next, end, n).1;
      && a % 4096 == 0 && a > 0 && BootAlloc(next, end, n).0 == a
      && next' % 4096 == 0
      && (a + Up(n) < 0x1_0000_0000 ==> next' == Start(next', end) == a + Up(n) && Settled(next', end))
      && (a + Up(n) >= 0x1_0000_0000 ==> Start(next', end) < a + n && n > 0)
      && n <= Up(n) < n + 4096
  {
    StartAligned(next, end);
    Wraps(Start(next, end), n);
    BootAllocIs(next, end, n);
    hide Up, RoundUp, BootAlloc;
  }

  lemma BootAllocIs(next: Word, end: Word, n: Word)
    ensures BootAlloc(next, end, n) == (Start(next, end), RoundUp((Start(next, end) + n) % 0x1_0000_0000))
  {
    hide RoundUp;
  }

  lemma StartAligned(next: Word, end: Word)
    requires next % 4096 == 0
    ensures Start(next, end) % 4096 == 0
  {
  }

  lemma Wraps(a: Word, n: Word)
    requires a % 4096 == 0 && a > 0
    ensures var r := RoundUp((a + n) % 0x1_0000_0000);
      && r % 4096 == 0
      && (a + Up(n) < 0x1_0000_0000 ==> r == a + Up(n))
      && (a + Up(n) >= 0x1_0000_0000 ==> r <= a && n > 0)
    ensures n <= Up(n) < n + 4096
  {
    var x, u: nat := a / 4096, (n + 4095) / 4096;
    assert a == x * 4096 && Up(n) == u * 4096;
    InPages(x, n, u);
  }

  /** The same in pages: x whole pages and n bytes, which take u. */
  lemma InPages(x: nat, n: Word, u: nat)
    requires 0 < x < 0x10_0000 && u == (n + 4095) / 4096
    ensures RoundUp((x * 4096 + n) % 0x1_0000_0000) == if x + u < 0x10_0000 then (x + u) * 4096 else (x + u - 0x10_0000) * 4096
    ensures n <= u * 4096 < n + 4096 && u <= 0x10_0000
  {
    var b := x * 4096 + n;
    if b < 0x1_0000_0000 {
      assert b % 0x1_0000_0000 == b;
      UpTo(b, x + u);
    } else {
      assert b % 0x1_0000_0000 == b - 0x1_0000_0000;
      UpTo(b - 0x1_0000_0000, x + u - 0x10_0000);
    }
  }

  lemma UpTo(b: Word, p: nat)
    requires (p - 1) * 4096 < b <= p * 4096 && p <= 0x10_0000
    ensures RoundUp(b) == if p < 0x10_0000 then p * 4096 else 0
  {
    if p < 0x10_0000 {
      assert (b + 4095) % 0x1_0000_0000 == b + 4095;
      assert (b + 4095) / 4096 == p;
    } else {
      assert (b + 4095) % 0x1_0000_0000 == b + 4095 - 0x1_0000_0000;
    }
  }

  lemma ChunksStep(next: Word, end: Word, sizes: seq<Word>)
    requires sizes != []
    ensures var next' := BootAlloc(next, end, sizes[0]).1;
      && Chunks(next, end, sizes) == [(Start(next, end), sizes[0])] + Chunks(next', end, sizes[1..])
      && Mark(next, end, sizes) == Mark(next', end, sizes[1..])
      && Total(sizes) == Up(sizes[0]) + Total(sizes[1..])
  {
    hide RoundUp, Up;
  }

  /** What follows the first chunk starts with the second one, or is the mark. */
  lemma FollowedBy(next: Word, end: Word, sizes: seq<Word>)
    ensures if sizes == [] then Mark(next, end, sizes) == Start(next, end) else Chunks(next, end, sizes)[0].0 == Start(next, end)
  {
    hide RoundUp;
  }

  /** The chunks lie one behind the other, exactly if their sizes in whole pages fit below 2^32. */
  lemma {:induction false} ChunksInRowExact(next: Word, end: Word, sizes: seq<Word>)
    requires Settled(next, end)
    ensures InRow(next, end, sizes) <==> Start(next, end) + Total(sizes) < 0x1_0000_0000
    decreases |sizes|
  {
    if sizes != [] {
      var next' := BootAlloc(next, end, sizes[0]).1;
      var rest := sizes[1..];
      NextStart(next, end, sizes[0]);
      ChunksStep(next, end, sizes);
      FollowedBy(next', end, rest);
      RowStep(next, next', end, sizes);
      hide *;
      if Start(next, end) + Up(sizes[0]) < 0x1_0000_0000 { ChunksInRowExact(next', end, rest); }
    }
  }

  lemma RowStep(next: Word, next': Word, end: Word, sizes: seq<Word>)
    requires sizes != [] && next' == BootAlloc(next, end, sizes[0]).1
    ensures InRow(next, end, sizes)
      <==> Start(next, end) + sizes[0] <= Start(next', end) && InRow(next', end, sizes[1..])
  {
    ChunksStep(next, end, sizes);
    FollowedBy(next', end, sizes[1..]);
    RowCons((Start(next, end), sizes[0]), Chunks(next', end, sizes[1..]), Mark(next', end, sizes[1..]));
    hide Chunks, Mark, BootAlloc, Start, Row;
  }

  lemma RowCons(c: (Word, Word), cs: seq<(Word, Word)>, mark: Word)
    ensures Row([c] + cs, mark) <==> c.0 + c.1 <= (if cs == [] then mark else cs[0].0) && Row(cs, mark)
  {
    var all := [c] + cs;
    assert forall i :: 0 <= i < |cs| ==> all[i + 1] == cs[i];
    assert EndsInTime(all, mark, 0) <==> c.0 + c.1 <= if cs == [] then mark else cs[0].0;
    forall i | 0 <= i < |cs| ensures EndsInTime(all, mark, i + 1) <==> EndsInTime(cs, mark, i) {
      assert i + 1 < |cs| ==> all[i + 2] == cs[i + 1];
    }
    hide EndsInTime;
    if Row(all, mark) {
      forall i | 0 <= i < |cs| ensures EndsInTime(cs, mark, i) { assert EndsInTime(all, mark, i + 1); }
    }
    if EndsInTime(all, mark, 0) && Row(cs, mark) {
      forall i | 0 <= i < |all| ensures EndsInTime(all, mark, i) {
        if i > 0 { assert EndsInTime(cs, mark, i - 1); }
      }
    }
  }

  /** Then each is page-aligned, of the size asked for, above all before it and below the mark. */
  lemma {:induction false} ChunksDisjoint(next: Word, end: Word, sizes: seq<Word>, i: nat, j: nat)
    requires Settled(next, end) && Start(next, end) + Total(sizes) < 0x1_0000_0000 && i < |sizes|
    ensures var cs := Chunks(next, end, sizes);
      && cs[i].0 % 4096 == 0 && cs[i].1 == sizes[i] && Start(next, end) <= cs[i].0
      && cs[i].0 + sizes[i] <= Mark(next, end, sizes)
      && (i < j < |sizes| ==> cs[i].0 + sizes[i] <= cs[j].0)
    decreases |sizes|
  {
    var next' := BootAlloc(next, end, sizes[0]).1;
    NextStart(next, end, sizes[0]);
    ChunksStep(next, end, sizes);
    hide *;
    MarkIs(next', end, sizes[1..]);
    if i > 0 {
      ChunksDisjoint(next', end, sizes[1..], i - 1, if j > 0 then j - 1 else 0);
    } else if 0 < j < |sizes| {
      ChunksDisjoint(next', end, sizes[1..], j - 1, 0);
    }
  }

  lemma {:induction false} MarkIs(next: Word, end: Word, sizes: seq<Word>)
    requires Settled(next, end) && Start(next, end) + Total(sizes) < 0x1_0000_0000
    ensures Mark(next, end, sizes) == Start(next, end) + Total(sizes)
    decreases |sizes|
  {
    if sizes == [] {
      FollowedBy(next, end, sizes);
    } else {
      var next' := BootAlloc(next, end, sizes[0]).1;
      NextStart(next, end, sizes[0]);
      ChunksStep(next, end, sizes);
      hide *;
      MarkIs(next', end, sizes[1..]);
    }
  }

  lemma {:induction false} LastChunk(next: Word, end: Word, sizes: seq<Word>)
    requires Settled(next, end) && Start(next, end) + Total(sizes) < 0x1_0000_0000 && sizes != []
    ensures var c := Chunks(next, end, sizes)[|sizes| - 1];
      c.0 % 4096 == 0 && c.0 + Up(c.1) == Mark(next, end, sizes)
    decreases |sizes|
  {
    var next' := BootAlloc(next, end, sizes[0]).1;
    NextStart(next, end, sizes[0]);
    ChunksStep(next, end, sizes);
    MarkIs(next, end, sizes);
    hide *;
    if |sizes| > 1 { LastChunk(next', end, sizes[1..]); }
  }

  /** boot_alloc should panic when out of memory. Without that check its chunks are one behind the
      other and in physical memory exactly if their sizes in whole pages fit what is left of it
      (and of the address space, should memory fill it). */
  lemma BootAllocExact(next: Word, end: Word, sizes: seq<Word>, npages: nat)
    requires Settled(next, end) && sizes != [] && npages <= MAX_PAGES
    ensures
      InRow(next, end, sizes)
        && (forall i :: 0 <= i < |sizes| ==> Chunks(next, end, sizes)[i].0 + sizes[i] <= KERNBASE + npages * 4096)
      <==> Start(next, end) + Total(sizes) < 0x1_0000_0000 && Start(next, end) + Total(sizes) <= KERNBASE + npages * 4096
  {
    ChunksInRowExact(next, end, sizes);
    if Start(next, end) + Total(sizes) < 0x1_0000_0000 {
      MarkIs(next, end, sizes);
      hide InRow, Chunks, Mark, Total, Settled, Start;
      var limit := KERNBASE + npages * 4096;
      var last := |sizes| - 1;
      LastChunk(next, end, sizes);
      ChunksDisjoint(next, end, sizes, last, 0);
      WholePages(Chunks(next, end, sizes)[last].0, sizes[last], KERNBASE / 4096 + npages);
      forall i | 0 <= i < |sizes| ensures Chunks(next, end, sizes)[i].0 + sizes[i] <= Mark(next, end, sizes) {
        ChunksDisjoint(next, end, sizes, i, 0);
      }
    }
  }

  lemma WholePages(a: nat, n: Word, pages: nat)
    requires a % 4096 == 0
    ensures a + n <= pages * 4096 <==> a + Up(n) <= pages * 4096
  {
  }

  /** Nothing stops boot_alloc at the top: the pointer wraps, and the next chunk lies far below. */
  lemma BootAllocWraps(end: Word)
    ensures BootAlloc(0xFFFF_E000, end, 0x3000) == (0xFFFF_E000, 0x1000)
  {
  }

  /** The hand-over: with page_init given the mark of any run of boot_alloc that does not wrap, no
      byte a of a free frame is in page 0, in the I/O hole, in the kernel image up to end, or in
      any chunk. */
  lemma FreeAvoidsBootMemory(end: Word, sizes: seq<Word>, npages: nat, f: nat, a: nat, i: nat)
    requires KERNBASE + EXTPHYSMEM <= end && end + 4095 < 0x1_0000_0000 && RoundUp(end) + Total(sizes) < 0x1_0000_0000
    requires Mark(0, end, sizes) >= KERNBASE ==> f in FreeBelow(npages, Mark(0, end, sizes) - KERNBASE)
    requires 4096 * f <= a < 4096 * f + 4096 && i < |sizes|
    ensures Paddr(Mark(0, end, sizes)) == Some(Mark(0, end, sizes) - KERNBASE)
    ensures a >= 4096 && !(0xA_0000 <= a < 0x10_0000) && !(0x10_0000 <= a < end - 0xF000_0000)
    ensures var c := Chunks(0, end, sizes)[i]; !(c.0 <= 0xF000_0000 + a < c.0 + c.1)
  {
    KernelEnd(end);
    MarkIs(0, end, sizes);
    ChunksDisjoint(0, end, sizes, i, i);
    FreeOutside(npages, Mark(0, end, sizes) - KERNBASE, f, a);
    hide *;
  }

  lemma KernelEnd(end: Word)
    requires KERNBASE + EXTPHYSMEM <= end && end + 4095 < 0x1_0000_0000
    ensures Settled(0, end) && end <= RoundUp(end) == Start(0, end) <= end + 4095
  {
  }

  lemma FreeOutside(n: nat, mark: nat, f: nat, a: nat)
    requires f in FreeBelow(n, mark) && 4096 * f <= a < 4096 * f + 4096
    ensures a >= 4096 && !(IOPHYSMEM <= a <= mark)
  {
  }

  /** page_init keeps back one frame more than it must: the one that starts at the mark. */
  lemma MarkFrameKept(n: nat, mark: nat, f: nat)
    requires mark % 4096 == 0 && mark >= 0xA_0000 && f < n
    ensures f !in FreeBelow(n, mark) <==> f == 0 || 0xA_0000 <= 4096 * f < mark || f == mark / 4096
  {
  }

  /** mem_init's calls of boot_alloc: a page for kern_pgdir, then the page array, 8 bytes a page. */
  function BootSizes(npages: nat): seq<Word>
    requires npages <= MAX_PAGES
  {
    [4096, npages * 8]
  }

  function BootMark(end: Word, npages: nat): int
    requires npages <= MAX_PAGES
  {
    Mark(0, end, BootSizes(npages)) - KERNBASE
  }

  /** The frame of chunk i of them. */
  function BootFrame(end: Word, npages: nat, i: nat): int
    requires npages <= MAX_PAGES && i < 2
  {
    (Chunks(0, end, BootSizes(npages))[i].0 - KERNBASE) / 4096
  }

  /** Both start on a frame of their own, the page array has room for a struct PageInfo of 8 bytes
      for each page, and page_init keeps them back. */
  lemma BootFrames(end: Word, npages: nat)
    requires npages <= MAX_PAGES && KERNBASE + EXTPHYSMEM <= end && end + 4095 < 0x1_0000_0000
    requires RoundUp(end) + Total(BootSizes(npages)) < 0x1_0000_0000
    ensures 0 < BootFrame(end, npages, 0) < BootFrame(end, npages, 1) < 0x10_0000 && BootMark(end, npages) >= 0
    ensures Reserved(BootFrame(end, npages, 0), BootMark(end, npages))
    ensures Reserved(BootFrame(end, npages, 1), BootMark(end, npages))
    ensures BootFrame(end, npages, 1) * 4096 + 8 * npages <= BootMark(end, npages)
  {
    var sizes := BootSizes(npages);
    KernelEnd(end);
    MarkIs(0, end, sizes);
    ChunksDisjoint(0, end, sizes, 0, 1);
    ChunksDisjoint(0, end, sizes, 1, 0);
    hide Mark, Chunks, Total, RoundUp;
  }
}
