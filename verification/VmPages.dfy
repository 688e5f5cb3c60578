/** What pgdir_walk, page_insert, page_lookup and page_remove keep and change. */
module VmPages {
  import opened Mmu
  import opened VmOps
  import opened VmInv
  import opened VmMap

  lemma BelowUtop(va: Word)
    ensures va < UTOP <==> PDX(va) < UTOP_PDX
  {
  }

  // pgdir_walk

  /** The directory entry for va is absent and a table was taken from the free list for it. */
  ghost predicate TableMade(v: Vm, w: Vm, d: nat, va: Word) {
    && v.free != [] && w.free == v.free[1..] && v.free[0] < |v.mem| && IsData(v, v.free[0])
    && d < |v.mem| && !Present(v.mem[d][PDX(va)])
    && w.loose == v.loose && w.dirs == v.dirs && w.cr3 == v.cr3 && w.tlb == v.tlb
    && |w.ref| == |v.ref| == |v.mem| && w.ref == v.ref[v.free[0] := 1]
    && |w.mem| == |v.mem| && w.mem[v.free[0]] == ZeroFrame()
    && (if PDX(va) < UTOP_PDX
        then w.pins == v.pins && w.ktabs == v.ktabs && w.tabs == v.tabs[v.free[0] := Slot(d, PDX(va))]
        else w.tabs == v.tabs && w.ktabs == v.ktabs[v.free[0] := PDX(va)])
  }

  /** Under the invariant pgdir_walk never panics. It finds the table, or makes one, or leaves
      everything as it was, and a table it makes maps nothing: at most the directory's own
      window at UVPT gains the page that shows it. */
  lemma PgdirWalkKeeps(v: Vm, d: nat, va: Word, create: bool)
    requires Inv(v) && d in v.dirs
    ensures var r := PgdirWalk(v, d, va, create);
      && !r.WalkPanic? && Inv(r.vm)
      && (r.NoTable? <==> !Present(v.mem[d][PDX(va)]) && (!create || v.free == []))
      && (r.NoTable? ==> r.vm == v)
      && (r.At? && Present(v.mem[d][PDX(va)]) ==> r.vm == v)
      && (r.At? && !Present(v.mem[d][PDX(va)]) ==> TableMade(v, r.vm, d, va))
      && (r.At? ==> r.slot.frame < |v.mem| && r.slot.idx == PTX(va))
      && (r.At? ==> Names(r.vm.mem, Slot(d, PDX(va)), r.slot.frame))
  {
    InvShape(v);
    hide Inv, InstallTable, TableMade, PageAlloc, Shape;
    if Present(v.mem[d][PDX(va)]) {
      WalkReads(v, d, PDX(va));
    } else if create {
      PageAllocInv(v, 1);
      var (v1, t) := PageAlloc(v, 1);
      if t != NULL { InstallKeeps(v, v1, d, va, t); }
    }
  }

  lemma InstallKeeps(v: Vm, v1: Vm, d: nat, va: Word, t: nat)
    requires Inv(v) && Inv(v1) && d in v.dirs && Taken(v, v1, t, 1) && !Present(v.mem[d][PDX(va)])
    ensures var w := InstallTable(v1, d, PDX(va), t);
      Inv(w) && TableMade(v, w, d, va) && Names(w.mem, Slot(d, PDX(va)), t)
  {
    InvShape(v);
    hide Inv;
    assert v1.mem[d] == v.mem[d] && t in v1.loose;
    InstallTableInv(v1, d, PDX(va), t);
    InstallFields(v, v1, d, va, t);
  }

  lemma InstallFields(v: Vm, v1: Vm, d: nat, va: Word, t: nat)
    requires Shape(v) && d < |v.mem| && d in v.dirs && Taken(v, v1, t, 1) && !Present(v.mem[d][PDX(va)])
    ensures var w := InstallTable(v1, d, PDX(va), t);
      TableMade(v, w, d, va) && Names(w.mem, Slot(d, PDX(va)), t)
  {
    assert (v.loose + {t}) - {t} == v.loose;
  }

  /** A table made by the walk is a cleared page, entered in the directory present, writable and
      open to users; no other word of memory changes. */
  lemma WalkMakesEntry(v: Vm, d: nat, va: Word)
    requires Inv(v) && d in v.dirs && !Present(v.mem[d][PDX(va)]) && v.free != []
    ensures d < |v.mem| && v.free[0] < |v.mem| && v.free[0] != d
    ensures var r := PgdirWalk(v, d, va, true);
      && r.At? && r.slot == Slot(v.free[0], PTX(va))
      && r.vm.mem == v.mem[v.free[0] := ZeroFrame()][d := v.mem[d][PDX(va) := v.free[0] * 4096 + 7]]
  {
    DirShape(v, d);
    TakenZero(v);
    DirIsOther(v, d);
    var (v1, t) := PageAlloc(v, 1);
    assert v1.mem[d] == v.mem[d];
    InstallMem(v1, d, PDX(va), t);
    hide Inv, Shape, ZeroFrame, PageAlloc, InstallTable, Present, Frame;
  }

  /** What page_alloc(ALLOC_ZERO) hands out and does to memory. */
  lemma TakenZero(v: Vm)
    requires Inv(v) && Shape(v) && v.free != []
    ensures var (v1, t) := PageAlloc(v, 1);
      && t == v.head == v.free[0] && 0 <= t < |v.mem| && Shape(v1) && v1.mem == v.mem[t := ZeroFrame()]
  {
    HeadIsFree(v);
    hide Inv, ZeroFrame;
  }

  lemma DirIsOther(v: Vm, d: nat)
    requires Inv(v) && d in v.dirs && v.free != []
    ensures v.free[0] != d
  {
    HeadIsFree(v);
    hide Inv;
  }

  /** ... in a user table owned by va's directory entry, when va is below UTOP. */
  lemma WalkSlotBelow(v: Vm, d: nat, va: Word, s: Slot)
    requires Inv(v) && d in v.dirs && va < UTOP && Names(v.mem, Slot(d, PDX(va)), s.frame)
    ensures s.frame in v.tabs && v.tabs[s.frame] == Slot(d, PDX(va))
  {
    BelowUtop(va);
    WalkReads(v, d, PDX(va));
  }

  lemma PgdirWalkMap(v: Vm, d: nat, va: Word, create: bool)
    requires Inv(v) && d in v.dirs
    ensures var r := PgdirWalk(v, d, va, create);
      !r.WalkPanic? && |r.vm.mem| == |v.mem| && MapKept(v, r.vm, d, Window(PDX(va)))
  {
    DirShape(v, d);
    if Present(v.mem[d][PDX(va)]) { WalkReads(v, d, PDX(va)); }
    if !Present(v.mem[d][PDX(va)]) && create && v.head != NULL { MadeMap(v, d, PDX(va)); }
    hide Inv, Translate, InstallTable, Present, Shape;
  }

  /** Taking a page and installing it as a table. */
  lemma MadeMap(v: Vm, d: nat, i: Index)
    requires Inv(v) && Shape(v) && d in v.dirs && d < |v.mem| && !Present(v.mem[d][i]) && v.head != NULL
    ensures var (v1, t) := PageAlloc(v, 1);
      && t >= 0 && |InstallTable(v1, d, i, t).mem| == |v.mem| && MapKept(v, InstallTable(v1, d, i, t), d, Window(i))
  {
    PageAllocInv(v, 1);
    HeadIsFree(v);
    var (v1, t) := PageAlloc(v, 1);
    InvShape(v1);
    assert v1.mem[d] == v.mem[d] && t in v1.loose && v1.mem[t] == ZeroFrame() && v1.dirs == v.dirs;
    hide Inv, InstallTable, PageAlloc, Present, Shape, Translate, ZeroFrame;
    DataIrrelevant(v, v1) by { TakenElsewhere(v, v1, t); }
    InstallMap(v1, d, i, t);
  }

  lemma TakenElsewhere(v: Vm, w: Vm, f: nat)
    requires Taken(v, w, f, 1)
    ensures |w.mem| == |v.mem| && forall g :: 0 <= g < |v.mem| && !IsData(v, g) ==> w.mem[g] == v.mem[g]
  {
  }

  /** Every translation is kept, except that page win of directory d may have become mapped. */
  ghost predicate MapKept(v: Vm, w: Vm, d: nat, win: Page) {
    && |w.mem| == |v.mem|
    && forall e, p: Page :: e in v.dirs && e < |v.mem| ==>
         Translate(w.mem, e, p) == Translate(v.mem, e, p)
         || (e == d && p == win && Translate(v.mem, e, p) == None)
  }

  lemma MapKeptCoherent(v: Vm, w: Vm, d: nat, win: Page)
    requires Coherent(v) && MapKept(v, w, d, win) && w.cr3 == v.cr3 && w.tlb == v.tlb && w.dirs == v.dirs
    ensures Coherent(w)
  {
  }

  // page_remove

  /** page_decref looks at neither memory nor explicit references. */
  lemma DecrefIgnores(v: Vm, f: nat, mem: seq<FrameWords>, pins: seq<nat>)
    requires Shape(v) && f < |v.mem| && |mem| == |pins| == |v.mem|
    ensures var r := PageDecref(v.(mem := mem, pins := pins), f);
      && (r.Done? <==> PageDecref(v, f).Done?)
      && (r.Done? ==> r.value == PageDecref(v, f).value.(mem := mem, pins := pins))
  {
  }

  /** The mapping of va and its one reference are gone; a last reference frees the page. */
  ghost predicate Removed(v: Vm, w: Vm, s: Slot, va: Word) {
    && Shape(v) && s.frame < |v.mem| && Frame(WordAt(v, s)) < |v.mem|
    && var f := Frame(WordAt(v, s));
    && v.ref[f] > 0 && w.ref == v.ref[f := v.ref[f] - 1]
    && w.free == (if v.ref[f] == 1 then [f] + v.free else v.free)
    && w.mem == Store(v, s, 0).mem && w.loose == v.loose && w.pins == v.pins
    && w.dirs == v.dirs && w.tabs == v.tabs && w.ktabs == v.ktabs
    && w.cr3 == v.cr3 && w.tlb == v.tlb - {PageOf(va)}
  }

  lemma PageRemovePresent(v: Vm, d: nat, va: Word, s: Slot)
    requires Inv(v) && d in v.dirs && va < UTOP
    requires Names(v.mem, Slot(d, PDX(va)), s.frame) && s.idx == PTX(va)
    requires s.frame < |v.mem| && Present(WordAt(v, s))
    ensures PageRemove(v, d, va).Done?
    ensures Inv(PageRemove(v, d, va).value)
    ensures Removed(v, PageRemove(v, d, va).value, s, va)
  {
    InvShape(v);
    hide Inv;
    WalkSlotBelow(v, d, va, s);
    var f := Frame(WordAt(v, s));
    WhoNames(v, s, f);
    RemoveIsUnpin(v, d, va, s);
    ClearSlot(v, s);
    hide PageRemove, Unpin, SlotToPin, Removed, Unpinned, Shape, Invlpg, Live;
    var u := Unpin(SlotToPin(v, s), f).value;
    InvlpgInv(u, va);
    RemovedFields(v, u, s, va);
  }

  lemma RemovedFields(v: Vm, u: Vm, s: Slot, va: Word)
    requires Shape(v) && s.frame < |v.mem| && Frame(WordAt(v, s)) < |v.mem|
    requires Unpinned(SlotToPin(v, s), u, Frame(WordAt(v, s)))
    ensures Removed(v, Invlpg(u, va), s, va)
  {
    var f := Frame(WordAt(v, s));
    assert SlotToPin(v, s).pins[f := v.pins[f]] == v.pins;
  }

  lemma InvShape(v: Vm)
    requires Inv(v)
    ensures Shape(v)
  {
  }

  lemma DirShape(v: Vm, d: nat)
    requires Inv(v) && d in v.dirs
    ensures Shape(v) && d < |v.mem|
  {
  }

  lemma ClearSlot(v: Vm, s: Slot)
    requires Inv(v) && s.frame in v.tabs && Present(WordAt(v, s))
    requires Frame(WordAt(v, s)) < |v.mem| && IsData(v, Frame(WordAt(v, s)))
    ensures var f := Frame(WordAt(v, s));
      var r := Unpin(SlotToPin(v, s), f);
      r.Done? && Inv(r.value) && Unpinned(SlotToPin(v, s), r.value, f)
  {
    SlotToPinInv(v, s);
    InvShape(v);
    hide Inv;
    UnpinInv(SlotToPin(v, s), Frame(WordAt(v, s)));
  }

  lemma InvlpgInv(v: Vm, va: Word)
    requires Inv(v)
    ensures Inv(Invlpg(v, va))
  {
    CpuIrrelevant(v, Invlpg(v, va));
  }

  /** cr3 and the TLB are not part of the invariant. */
  lemma CpuIrrelevant(v: Vm, w: Vm)
    requires Inv(v) && w == v.(cr3 := w.cr3, tlb := w.tlb)
    ensures Inv(w)
  {
    hide Chain, Counts, Partition, Structure;
    CountsFrame(v, w);
    StructureFrame(v, w);
  }

  lemma RemoveIsUnpin(v: Vm, d: nat, va: Word, s: Slot)
    requires Shape(v) && d < |v.mem|
    requires Names(v.mem, Slot(d, PDX(va)), s.frame) && s.idx == PTX(va)
    requires s.frame < |v.mem| && Frame(WordAt(v, s)) < |v.mem|
    ensures var f := Frame(WordAt(v, s));
      && (PageRemove(v, d, va).Done? <==> Unpin(SlotToPin(v, s), f).Done?)
      && (PageRemove(v, d, va).Done? ==> PageRemove(v, d, va).value == Invlpg(Unpin(SlotToPin(v, s), f).value, va))
  {
    var f := Frame(WordAt(v, s));
    var v1 := SlotToPin(v, s);
    DecrefIgnores(v, f, v1.mem, v1.pins);
    assert v1.pins[f := v.pins[f]] == v.pins;
    assert PgdirWalk(v, d, va, false) == At(v, s);
    assert PageLookup(v, d, va) == Found(f, s);
  }

  /** The whole effect of page_remove on a page that is mapped, or whose table does not exist:
      no panic, that one translation is gone, every other one stays, nothing stale stays cached. */
  lemma PageRemoveCorrect(v: Vm, d: nat, va: Word)
    requires Inv(v) && d in v.dirs && va < UTOP && Removable(v, d, va)
    ensures var r := PageRemove(v, d, va);
      && r.Done? && Inv(r.value) && OnlyChanged(v, r.value, d, PageOf(va), None)
      && (Coherent(v) ==> Coherent(r.value))
      && SameBooks(v, r.value) && r.value.loose == v.loose
      && DropsOne(v, r.value, Mapped(v, d, va))
  {
    InvShape(v);
    if Translate(v.mem, d, PageOf(va)).None? {
      assert PageRemove(v, d, va) == Done(v);
    } else {
      hide Inv, OnlyChanged, DropsOne, SameBooks, PageRemove, Coherent;
      var s := Slot(Frame(v.mem[d][PDX(va)]), PTX(va));
      PageRemovePresent(v, d, va, s);
      RemovedMap(v, PageRemove(v, d, va).value, d, va, s);
    }
  }

  lemma RemovedMap(v: Vm, w: Vm, d: nat, va: Word, s: Slot)
    requires Inv(v) && d in v.dirs && va < UTOP && d < |v.mem| && s.frame < |v.mem|
    requires Names(v.mem, Slot(d, PDX(va)), s.frame) && s.idx == PTX(va) && Present(WordAt(v, s))
    requires Shape(w) && Removed(v, w, s, va)
    ensures OnlyChanged(v, w, d, PageOf(va), None)
    ensures (Coherent(v) ==> Coherent(w)) && SameBooks(v, w) && DropsOne(v, w, Mapped(v, d, va))
  {
    hide *;
    InvShape(v);
    WalkSlotBelow(v, d, va, s);
    TableWriteMap(v, s, 0);
    RemovedBooks(v, w, d, va, s);
    RemovedOnly(v, w, d, va, s);
    if Coherent(v) { FlushedCoherent(v, w, d, PageOf(va), None); }
  }

  lemma RemovedBooks(v: Vm, w: Vm, d: nat, va: Word, s: Slot)
    requires Shape(v) && Shape(w) && d < |v.mem| && s.frame < |v.mem| && Removed(v, w, s, va)
    requires Names(v.mem, Slot(d, PDX(va)), s.frame) && s.idx == PTX(va) && Present(WordAt(v, s))
    ensures SameBooks(v, w) && DropsOne(v, w, Mapped(v, d, va))
    ensures w.cr3 == v.cr3 && w.dirs == v.dirs && w.tlb == v.tlb - {PageOf(va)}
  {
  }

  lemma RemovedOnly(v: Vm, w: Vm, d: nat, va: Word, s: Slot)
    requires Shape(v) && Removed(v, w, s, va) && s.frame < |v.mem| && s.idx == PTX(va)
    requires OnlyChanged(v, Store(v, s, 0), d, Page(PDX(va), s.idx), EntryValue(0))
    ensures OnlyChanged(v, w, d, PageOf(va), None)
  {
    hide Translate;
  }

  /** One reference to m is gone, a last one freeing the page; no other count changed. */
  ghost predicate DropsOne(v: Vm, w: Vm, m: Opt<nat>) {
    match m
    case None => w.ref == v.ref && w.free == v.free
    case Some(g) =>
      && g < |v.ref| && v.ref[g] > 0 && w.ref == v.ref[g := v.ref[g] - 1]
      && w.free == if v.ref[g] == 1 then [g] + v.free else v.free
  }

  /** "Entry present, or no page table": what keeps page_lookup from reporting a page for
      an entry that is not present. */
  predicate Removable(v: Vm, d: nat, va: Word)
    requires d < |v.mem|
  {
    !Present(v.mem[d][PDX(va)]) || Translate(v.mem, d, PageOf(va)).Some?
  }

  /** The page mapped at va. */
  function Mapped(v: Vm, d: nat, va: Word): Opt<nat>
    requires d < |v.mem|
  {
    match Translate(v.mem, d, PageOf(va))
    case None => None
    case Some(x) => Some(Frame(x))
  }

  ghost predicate SameBooks(v: Vm, w: Vm) {
    && w.dirs == v.dirs && w.ktabs == v.ktabs && w.pins == v.pins && w.cr3 == v.cr3
    && |w.mem| == |v.mem| == |v.ref| == |w.ref|
  }

  /** For a page that is not mapped, page_remove does nothing, as its comment says, exactly
      when the page has no page table. */
  lemma RemoveUnmappedExact(v: Vm, d: nat, va: Word)
    requires Inv(v) && d in v.dirs && Translate(v.mem, d, PageOf(va)).None?
    ensures PageRemove(v, d, va) == Done(v) <==> !Present(v.mem[d][PDX(va)])
  {
    InvShape(v);
    if Present(v.mem[d][PDX(va)]) {
      WalkReads(v, d, PDX(va));
      hide Inv;
      match PageLookup(v, d, va)
      case Found(f, s) =>
        var r := PageRemove(v, d, va);
        assert r.Done? ==> r.value.ref[f] == Minus1(v.ref[f]);
      case _ =>
    }
  }

  /** What it does instead: a cleared entry reads as page 0, which loses a reference and, when
      that was its last one, goes to the free list. */
  lemma RemoveUnmappedTakesPageZero(v: Vm, d: nat, va: Word)
    requires Inv(v) && d in v.dirs && va < UTOP && v.ref[0] == 1
    requires Present(v.mem[d][PDX(va)])
    requires Frame(v.mem[d][PDX(va)]) < |v.mem| && v.mem[Frame(v.mem[d][PDX(va)])][PTX(va)] == 0
    ensures PageRemove(v, d, va).Done?
    ensures PageRemove(v, d, va).value.head == 0 && PageRemove(v, d, va).value.ref[0] == 0
  {
    InvShape(v);
    PageZeroOffList(v);
    hide Inv;
    ZeroEntryFound(v, d, va);
    hide PageLookup, Frame;
    assert PageDecref(v, 0).Done? && PageDecref(v, 0).value.head == 0;
  }

  lemma PageZeroOffList(v: Vm)
    requires Inv(v) && v.ref[0] == 1
    ensures v.link[0] == NULL
  {
    assert 0 !in v.free;
  }

  lemma ZeroEntryFound(v: Vm, d: nat, va: Word)
    requires Shape(v) && d < |v.mem| && Present(v.mem[d][PDX(va)])
    requires Frame(v.mem[d][PDX(va)]) < |v.mem| && v.mem[Frame(v.mem[d][PDX(va)])][PTX(va)] == 0
    ensures PageLookup(v, d, va) == Found(0, Slot(Frame(v.mem[d][PDX(va)]), PTX(va)))
  {
  }

  // page_insert

  /** The 16-bit count can take one more, or va maps the page already. */
  predicate RoomFor(v: Vm, d: nat, f: nat, va: Word)
    requires d < |v.mem| && f < |v.ref|
  {
    v.ref[f] < REF_LIMIT - 1 || Mapped(v, d, va) == Some(f)
  }

  /** page_remove looks at no explicit references. */
  lemma RemoveIgnoresPins(v: Vm, d: nat, va: Word, pins: seq<nat>)
    requires Shape(v) && d < |v.mem| && |pins| == |v.mem|
    ensures var r := PageRemove(v.(pins := pins), d, va);
      && (r.Done? <==> PageRemove(v, d, va).Done?)
      && (r.Done? ==> r.value == PageRemove(v, d, va).value.(pins := pins))
  {
    match PageLookup(v, d, va)
    case Found(f, s) => DecrefIgnores(v, f, v.mem, pins);
    case _ =>
  }

  /** v with entry s of a user table, absent so far, naming f and counted. */
  ghost predicate EntryAdded(v: Vm, w: Vm, s: Slot, f: nat, perm: Perm) {
    && s.frame < |v.mem| && f < 0x10_0000 && w.mem == Store(v, s, Entry(f, perm)).mem
    && f < |v.ref| && w.ref == v.ref[f := v.ref[f] + 1] && w.pins == v.pins
    && w.free == v.free && w.loose == v.loose - {f}
    && w.dirs == v.dirs && w.tabs == v.tabs && w.ktabs == v.ktabs && w.cr3 == v.cr3 && w.tlb == v.tlb
  }

  /** The tail of page_insert when the entry was absent. */
  lemma AddEntry(v: Vm, s: Slot, f: nat, perm: Perm)
    requires Inv(v) && s.frame in v.tabs && s.frame < |v.mem| && !Present(WordAt(v, s))
    requires f < |v.mem| && IsData(v, f) && f !in v.free && v.ref[f] < REF_LIMIT - 1
    ensures var w := Store(IncRef(v, f), s, Entry(f, perm)); Inv(w) && EntryAdded(v, w, s, f, perm)
  {
    InvShape(v);
    PinInv(v, f);
    PinThenStore(v, s, f, perm);
    EntryAddedFields(v, s, f, perm);
    PinFields(v, f);
    hide Inv, EntryAdded, Pin, PinToSlot, Store, IncRef, IsData, Shape;
    PinToSlotInv(Pin(v, f), s, f, perm);
  }

  lemma PinFields(v: Vm, f: nat)
    requires Shape(v) && f < |v.mem|
    ensures var p := Pin(v, f);
      && p.mem == v.mem && p.dirs == v.dirs && p.tabs == v.tabs && p.ktabs == v.ktabs
      && |p.pins| == |v.mem| && p.pins[f] > 0 && (IsData(p, f) <==> IsData(v, f))
  {
  }

  lemma PinThenStore(v: Vm, s: Slot, f: nat, perm: Perm)
    requires Shape(v) && f < |v.mem| && s.frame < |v.mem|
    ensures PinToSlot(Pin(v, f), s, f, perm) == Store(IncRef(v, f), s, Entry(f, perm))
  {
    PinnedStore(v, Pin(v, f), s, f, perm);
  }

  lemma EntryAddedFields(v: Vm, s: Slot, f: nat, perm: Perm)
    requires Shape(v) && s.frame < |v.mem| && f < |v.mem| && v.ref[f] < REF_LIMIT - 1
    ensures EntryAdded(v, Store(IncRef(v, f), s, Entry(f, perm)), s, f, perm)
  {
  }

  /** A reference taken and moved into entry s leaves the explicit references as they were. */
  lemma PinnedStore(v: Vm, r: Vm, s: Slot, f: nat, perm: Perm)
    requires Shape(v) && Shape(r) && |r.mem| == |v.mem| && f < |v.mem| && s.frame < |v.mem|
    requires r.pins == v.pins[f := v.pins[f] + 1]
    ensures PinToSlot(r, s, f, perm) == Store(r.(pins := v.pins), s, Entry(f, perm))
  {
    assert r.pins[f := r.pins[f] - 1] == v.pins;
  }

  /** The tail of page_insert when the entry mapped another page g. */
  lemma ReplaceEntry(v: Vm, d: nat, va: Word, s: Slot, f: nat, perm: Perm)
    requires Inv(v) && d in v.dirs && va < UTOP
    requires Names(v.mem, Slot(d, PDX(va)), s.frame) && s.idx == PTX(va)
    requires s.frame < |v.mem| && Present(WordAt(v, s)) && Frame(WordAt(v, s)) != f
    requires f < |v.mem| && IsData(v, f) && f !in v.free && v.ref[f] < REF_LIMIT - 1
    ensures var r := PageRemove(IncRef(v, f), d, va);
      && r.Done? && Inv(Store(r.value, s, Entry(f, perm)))
      && Replaced(v, Store(r.value, s, Entry(f, perm)), s, f, perm, va)
  {
    InvShape(v);
    WalkSlotBelow(v, d, va, s);
    PinInv(v, f);
    PinFields(v, f);
    hide Inv, PageRemove, Pin, IncRef, IsData, Removed, Replaced, Shape, Store, Live;
    var p := Pin(v, f);
    PageRemovePresent(p, d, va, s);
    RemoveUnderPin(v, d, f, va);
    RemovedThenStored(v, PageRemove(p, d, va).value, s, f, perm, va);
  }

  lemma RemoveUnderPin(v: Vm, d: nat, f: nat, va: Word)
    requires Shape(v) && d < |v.mem| && f < |v.mem| && PageRemove(Pin(v, f), d, va).Done?
    ensures PageRemove(IncRef(v, f), d, va)
         == Done(PageRemove(Pin(v, f), d, va).value.(pins := v.pins))
  {
    var u := IncRef(v, f);
    RemoveIgnoresPins(u, d, va, v.pins);
    RemoveIgnoresPins(u, d, va, Pin(v, f).pins);
    assert u.(pins := v.pins) == u;
    assert u.(pins := Pin(v, f).pins) == Pin(v, f);
    hide PageRemove;
  }

  lemma RemovedThenStored(v: Vm, r: Vm, s: Slot, f: nat, perm: Perm, va: Word)
    requires Shape(v) && f < |v.mem| && v.ref[f] < REF_LIMIT - 1 && Removed(Pin(v, f), r, s, va) && Inv(r)
    requires s.frame in v.tabs && IsData(v, f) && s.frame < |v.mem| && Frame(WordAt(v, s)) != f
    ensures Inv(Store(r.(pins := v.pins), s, Entry(f, perm)))
    ensures Replaced(v, Store(r.(pins := v.pins), s, Entry(f, perm)), s, f, perm, va)
  {
    InvShape(r);
    RemovedFacts(v, r, s, f, va);
    ReplacedFields(v, r, s, f, perm, va);
    PinnedStore(v, r, s, f, perm);
    hide Inv, Pin, PinToSlot, Removed, Replaced, Shape, Store, IsData;
    PinToSlotInv(r, s, f, perm);
  }

  lemma RemovedFacts(v: Vm, r: Vm, s: Slot, f: nat, va: Word)
    requires Shape(v) && f < |v.mem| && v.ref[f] < REF_LIMIT - 1 && Removed(Pin(v, f), r, s, va)
    requires s.frame in v.tabs && IsData(v, f) && s.frame < |v.mem|
    ensures |r.mem| == |v.mem| && s.frame in r.tabs && IsData(r, f) && !Present(WordAt(r, s))
    ensures |r.pins| == |v.mem| && r.pins == v.pins[f := v.pins[f] + 1]
  {
  }

  lemma ReplacedFields(v: Vm, r: Vm, s: Slot, f: nat, perm: Perm, va: Word)
    requires Shape(v) && f < |v.mem| && v.ref[f] < REF_LIMIT - 1 && Removed(Pin(v, f), r, s, va)
    requires s.frame < |v.mem| && Frame(WordAt(v, s)) != f
    ensures Replaced(v, Store(r.(pins := v.pins), s, Entry(f, perm)), s, f, perm, va)
  {
    assert v.mem[s.frame][s.idx := 0][s.idx := Entry(f, perm)] == v.mem[s.frame][s.idx := Entry(f, perm)];
  }

  ghost predicate Replaced(v: Vm, w: Vm, s: Slot, f: nat, perm: Perm, va: Word) {
    && s.frame < |v.mem| && f < 0x10_0000 && w.mem == Store(v, s, Entry(f, perm)).mem
    && f < |v.ref| && var g := Frame(WordAt(v, s));
    && g < |v.ref| && v.ref[g] > 0 && w.ref == v.ref[f := v.ref[f] + 1][g := v.ref[g] - 1]
    && w.free == (if v.ref[g] == 1 then [g] + v.free else v.free) && w.loose == v.loose - {f}
    && w.dirs == v.dirs && w.tabs == v.tabs && w.ktabs == v.ktabs && w.pins == v.pins
    && w.cr3 == v.cr3 && w.tlb == v.tlb - {PageOf(va)}
  }

  /** The tail of page_insert when the entry already mapped f: the count goes up and down
      again without reaching zero, so f is not freed, and only the permissions change. */
  lemma ReinsertEntry(v: Vm, d: nat, va: Word, s: Slot, f: nat, perm: Perm)
    requires Inv(v) && d in v.dirs && va < UTOP && f < |v.mem|
    requires Names(v.mem, Slot(d, PDX(va)), s.frame) && s.idx == PTX(va) && Names(v.mem, s, f)
    ensures var r := PageRemove(IncRef(v, f), d, va);
      && r.Done?
      && Store(r.value, s, Entry(f, perm)) == Invlpg(Store(v, s, Entry(f, perm)), va)
      && Inv(Store(r.value, s, Entry(f, perm)))
  {
    InvShape(v);
    WalkSlotBelow(v, d, va, s);
    NamedIsReferenced(v, s, f);
    WhoNames(v, s, f);
    RenameInv(v, s, f, perm);
    InvlpgInv(Store(v, s, Entry(f, perm)), va);
    hide Inv, Live;
    ReinsertFields(v, d, va, s, f, perm);
  }

  lemma ReinsertFields(v: Vm, d: nat, va: Word, s: Slot, f: nat, perm: Perm)
    requires Shape(v) && d < |v.mem| && f < |v.mem| && v.ref[f] > 0 && f !in v.loose
    requires Names(v.mem, Slot(d, PDX(va)), s.frame) && s.idx == PTX(va) && Names(v.mem, s, f)
    ensures var r := PageRemove(IncRef(v, f), d, va);
      r.Done? && Store(r.value, s, Entry(f, perm)) == Invlpg(Store(v, s, Entry(f, perm)), va)
  {
    var u := IncRef(v, f);
    assert PageLookup(u, d, va) == Found(f, s);
    assert u.ref[f := v.ref[f]] == v.ref;
    assert v.loose - {f} == v.loose;
    assert PageDecref(u, f) == Done(v);
    assert v.mem[s.frame][s.idx := 0][s.idx := Entry(f, perm)] == v.mem[s.frame][s.idx := Entry(f, perm)];
  }

  lemma RenameInv(v: Vm, s: Slot, f: nat, perm: Perm)
    requires Inv(v) && s.frame in v.tabs && Names(v.mem, s, f) && f < |v.mem| && IsData(v, f)
    ensures Inv(Store(v, s, Entry(f, perm)))
  {
    hide Chain, Counts, Partition, Kinds, UserDirs, Owners, UserTables, KernelDirs;
    TableWriteStructure(v, s, Entry(f, perm), Store(v, s, Entry(f, perm)));
    RenameCounts(v, s, f, perm);
  }

  lemma RenameCounts(v: Vm, s: Slot, f: nat, perm: Perm)
    requires Shape(v) && Counts(v) && s.frame < |v.mem| && Names(v.mem, s, f) && f < |v.mem|
    ensures Counts(Store(v, s, Entry(f, perm)))
  {
    var w := Store(v, s, Entry(f, perm));
    forall x: Slot, g: nat ensures Names(w.mem, x, g) <==> Names(v.mem, x, g) {}
    hide Names;
    forall g: nat | g < |w.mem| ensures w.ref[g] == |Refs(w, g)| + w.pins[g] { RefsSame(v, w, g); }
  }

  /** Whether page_insert at va has to make a page table. */
  predicate NeedsTable(v: Vm, d: nat, va: Word)
    requires d < |v.mem|
  {
    !Present(v.mem[d][PDX(va)])
  }

  /** The books of page_insert: f's count is one up and that of the page it replaces one down,
      a table costs one free page, and the explicit references stay. */
  ghost predicate InsertBooks(v: Vm, w: Vm, d: nat, f: nat, va: Word) {
    && SameBooks(v, w) && w.loose == v.loose - {f} && f !in w.free && d < |v.mem| && f < |v.ref|
    && if NeedsTable(v, d, va) then
         && v.free != [] && w.free == v.free[1..] && v.free[0] < |v.ref|
         && w.tabs == v.tabs[v.free[0] := Slot(d, PDX(va))]
         && w.ref == v.ref[v.free[0] := 1][f := v.ref[f] + 1]
       else
         && w.tabs == v.tabs
         && match Mapped(v, d, va)
            case None => w.free == v.free && w.ref == v.ref[f := v.ref[f] + 1]
            case Some(g) =>
              if g == f then w.free == v.free && w.ref == v.ref
              else && g < |v.ref| && v.ref[g] > 0
                   && w.ref == v.ref[f := v.ref[f] + 1][g := v.ref[g] - 1]
                   && w.free == if v.ref[g] == 1 then [g] + v.free else v.free
  }

  /** The map of page_insert: va translates to f with the given permissions, and every other
      page of every directory as before, d's window on a new table apart. */
  ghost predicate InsertMap(v: Vm, w: Vm, d: nat, f: nat, va: Word, perm: Perm) {
    && |w.mem| == |v.mem| && f < 0x10_0000
    && forall e, p: Page :: e in v.dirs && e < |v.mem| ==>
         if e == d && p == PageOf(va) then Translate(w.mem, e, p) == Some(Entry(f, perm))
         else || Translate(w.mem, e, p) == Translate(v.mem, e, p)
              || (e == d && NeedsTable(v, d, va) && p == Window(PDX(va)) && Translate(v.mem, e, p) == None)
  }

  /** page_insert fails only for want of a page table, and then changes nothing. Otherwise it
      keeps the invariant and the TLB coherent and maps exactly the page asked for. */
  lemma PageInsertCorrect(v: Vm, d: nat, f: nat, va: Word, perm: Perm)
    requires Inv(v) && d in v.dirs && va < UTOP
    requires f < |v.mem| && IsData(v, f) && f !in v.free && RoomFor(v, d, f, va)
    ensures var r := PageInsert(v, d, f, va, perm);
      && r.Done? && d < |v.mem|
      && (if NeedsTable(v, d, va) && v.free == [] then r.value == (v, -4)
          else && r.value.1 == 0 && Inv(r.value.0)
               && InsertBooks(v, r.value.0, d, f, va) && InsertMap(v, r.value.0, d, f, va, perm)
               && (Coherent(v) ==> Coherent(r.value.0)))
  {
    InvShape(v);
    PgdirWalkKeeps(v, d, va, true);
    hide Inv, PgdirWalk, TableMade, InsertBooks, InsertMap, RoomFor;
    var r := PgdirWalk(v, d, va, true);
    if r.At? {
      var v1, s := r.vm, r.slot;
      if NeedsTable(v, d, va) {
        InsertIntoNewTable(v, v1, d, f, va, perm, s);
      } else if Present(WordAt(v, s)) {
        if Frame(WordAt(v, s)) == f { InsertSame(v, d, f, va, perm, s); }
        else { InsertOver(v, d, f, va, perm, s); }
      } else {
        InsertAbsent(v, d, f, va, perm, s);
      }
    }
  }

  lemma InsertIntoNewTable(v: Vm, v1: Vm, d: nat, f: nat, va: Word, perm: Perm, s: Slot)
    requires Inv(v) && d in v.dirs && d < |v.mem| && va < UTOP && NeedsTable(v, d, va)
    requires f < |v.mem| && f < |v.ref| && IsData(v, f) && f !in v.free && RoomFor(v, d, f, va)
    requires PgdirWalk(v, d, va, true) == At(v1, s) && Inv(v1) && TableMade(v, v1, d, va)
    requires Shape(v) && s.frame < |v.mem| && s.idx == PTX(va) && Names(v1.mem, Slot(d, PDX(va)), s.frame)
    ensures var w := Store(IncRef(v1, f), s, Entry(f, perm));
      && !Present(WordAt(v1, s)) && Inv(w) && InsertBooks(v, w, d, f, va) && InsertMap(v, w, d, f, va, perm)
      && (Coherent(v) ==> Coherent(w))
  {
    InvShape(v1);
    hide Inv, PgdirWalk, RoomFor, InsertMap, InsertBooks;
    NewTableSlot(v, v1, d, va, s);
    NewTableFacts(v, v1, d, f, va);
    AddEntry(v1, s, f, perm);
    var w := Store(IncRef(v1, f), s, Entry(f, perm));
    NewTableMap(v, v1, w, d, f, va, perm, s);
    NewTableBooks(v, v1, w, d, f, va, perm, s);
  }

  lemma NewTableFacts(v: Vm, v1: Vm, d: nat, f: nat, va: Word)
    requires Shape(v) && TableMade(v, v1, d, va) && va < UTOP && NeedsTable(v, d, va)
    requires f < |v.mem| && IsData(v, f) && f !in v.free && RoomFor(v, d, f, va)
    ensures IsData(v1, f) && f !in v1.free && v1.ref[f] == v.ref[f] < REF_LIMIT - 1
    ensures v.free[0] in v1.tabs
  {
    BelowUtop(va);
    assert forall x :: x in v.free[1..] ==> x in v.free;
  }

  lemma NewTableMap(v: Vm, v1: Vm, w: Vm, d: nat, f: nat, va: Word, perm: Perm, s: Slot)
    requires Inv(v) && d in v.dirs && d < |v.mem| && va < UTOP && f < 0x10_0000
    requires PgdirWalk(v, d, va, true) == At(v1, s) && Inv(v1) && TableMade(v, v1, d, va)
    requires s.frame < |v1.mem| && s.idx == PTX(va) && Names(v1.mem, Slot(d, PDX(va)), s.frame)
    requires !Present(WordAt(v1, s)) && w.mem == Store(v1, s, Entry(f, perm)).mem
    requires w.cr3 == v1.cr3 && w.tlb == v1.tlb && w.dirs == v1.dirs
    ensures InsertMap(v, w, d, f, va, perm) && (Coherent(v) ==> Coherent(w))
  {
    NewTableDirs(v, v1, d, va);
    hide Inv, PgdirWalk, Names, TableMade, MapKept, Coherent, InsertMap;
    PgdirWalkMap(v, d, va, true);
    WalkSlotBelow(v1, d, va, s);
    TableWriteMap(v1, s, Entry(f, perm));
    AbsentEntry(v1, d, va, s);
    NewTableOnly(v, v1, w, d, f, va, perm, s);
    if Coherent(v) {
      MapKeptCoherent(v, v1, d, Window(PDX(va)));
      FlushedCoherent(v1, w, d, PageOf(va), Some(Entry(f, perm)));
    }
  }

  lemma NewTableDirs(v: Vm, v1: Vm, d: nat, va: Word)
    requires TableMade(v, v1, d, va)
    ensures v1.dirs == v.dirs && v1.cr3 == v.cr3 && v1.tlb == v.tlb && NeedsTable(v, d, va)
  {
  }

  lemma NewTableOnly(v: Vm, v1: Vm, w: Vm, d: nat, f: nat, va: Word, perm: Perm, s: Slot)
    requires d < |v.mem| && f < 0x10_0000 && NeedsTable(v, d, va) && v1.dirs == v.dirs
    requires MapKept(v, v1, d, Window(PDX(va))) && s.frame < |v1.mem| && s.idx == PTX(va)
    requires w.mem == Store(v1, s, Entry(f, perm)).mem
    requires OnlyChanged(v1, Store(v1, s, Entry(f, perm)), d, Page(PDX(va), s.idx), EntryValue(Entry(f, perm)))
    ensures InsertMap(v, w, d, f, va, perm)
    ensures OnlyChanged(v1, w, d, PageOf(va), Some(Entry(f, perm)))
  {
    hide Translate;
  }

  lemma AbsentEntry(v: Vm, d: nat, va: Word, s: Slot)
    requires d < |v.mem| && s.frame < |v.mem| && s.idx == PTX(va)
    requires Names(v.mem, Slot(d, PDX(va)), s.frame) && !Present(WordAt(v, s))
    ensures Translate(v.mem, d, PageOf(va)) == None
  {
  }

  lemma NewTableBooks(v: Vm, v1: Vm, w: Vm, d: nat, f: nat, va: Word, perm: Perm, s: Slot)
    requires Shape(v) && TableMade(v, v1, d, va) && va < UTOP && NeedsTable(v, d, va)
    requires f < |v.mem| && f !in v1.free && v1.ref[f] == v.ref[f] && EntryAdded(v1, w, s, f, perm)
    ensures InsertBooks(v, w, d, f, va)
  {
    BelowUtop(va);
  }

  lemma NewTableSlot(v: Vm, v1: Vm, d: nat, va: Word, s: Slot)
    requires Inv(v1) && TableMade(v, v1, d, va) && va < UTOP
    requires Names(v1.mem, Slot(d, PDX(va)), s.frame)
    ensures s.frame == v.free[0] && s.frame < |v1.mem| && !Present(WordAt(v1, s))
  {
    BelowUtop(va);
    assert v1.tabs[v.free[0]] == Slot(d, PDX(va));
  }

  /** In the remaining cases the table exists and the directory entry names it. */
  ghost predicate TableThere(v: Vm, d: nat, f: nat, va: Word, s: Slot) {
    && Inv(v) && Shape(v) && d in v.dirs && d < |v.mem| && va < UTOP && !NeedsTable(v, d, va)
    && f < |v.mem| && IsData(v, f) && f !in v.free && RoomFor(v, d, f, va)
    && s.frame < |v.mem| && s.idx == PTX(va) && Names(v.mem, Slot(d, PDX(va)), s.frame)
  }

  lemma MappedBySlot(v: Vm, d: nat, f: nat, va: Word, s: Slot)
    requires TableThere(v, d, f, va, s)
    ensures Translate(v.mem, d, PageOf(va)) == EntryValue(WordAt(v, s))
    ensures Mapped(v, d, va) == if Present(WordAt(v, s)) then Some(Frame(WordAt(v, s))) else None
  {
  }

  lemma InsertAbsent(v: Vm, d: nat, f: nat, va: Word, perm: Perm, s: Slot)
    requires TableThere(v, d, f, va, s) && !Present(WordAt(v, s))
    ensures var w := Store(IncRef(v, f), s, Entry(f, perm));
      Inv(w) && InsertBooks(v, w, d, f, va) && InsertMap(v, w, d, f, va, perm) && (Coherent(v) ==> Coherent(w))
  {
    MappedBySlot(v, d, f, va, s);
    WalkSlotBelow(v, d, va, s);
    hide Inv, InsertMap;
    AddEntry(v, s, f, perm);
    AddedMap(v, Store(IncRef(v, f), s, Entry(f, perm)), d, f, va, perm, s);
  }

  lemma AddedMap(v: Vm, w: Vm, d: nat, f: nat, va: Word, perm: Perm, s: Slot)
    requires TableThere(v, d, f, va, s) && !Present(WordAt(v, s)) && EntryAdded(v, w, s, f, perm)
    ensures InsertMap(v, w, d, f, va, perm) && (Coherent(v) ==> Coherent(w))
  {
    MappedBySlot(v, d, f, va, s);
    WalkSlotBelow(v, d, va, s);
    hide Inv, Names;
    TableWriteMap(v, s, Entry(f, perm));
    if Coherent(v) { FlushedCoherent(v, w, d, PageOf(va), Some(Entry(f, perm))); }
  }

  lemma InsertOver(v: Vm, d: nat, f: nat, va: Word, perm: Perm, s: Slot)
    requires TableThere(v, d, f, va, s) && Present(WordAt(v, s)) && Frame(WordAt(v, s)) != f
    ensures var r := PageRemove(IncRef(v, f), d, va);
      && r.Done? && var w := Store(r.value, s, Entry(f, perm));
      Inv(w) && InsertBooks(v, w, d, f, va) && InsertMap(v, w, d, f, va, perm) && (Coherent(v) ==> Coherent(w))
  {
    MappedBySlot(v, d, f, va, s);
    hide Inv, PageRemove;
    WalkSlotBelow(v, d, va, s);
    ReplaceEntry(v, d, va, s, f, perm);
    var w := Store(PageRemove(IncRef(v, f), d, va).value, s, Entry(f, perm));
    OverwrittenMap(v, w, d, f, va, perm, s);
    OverwrittenBooks(v, w, d, f, va, perm, s);
  }

  lemma OverwrittenMap(v: Vm, w: Vm, d: nat, f: nat, va: Word, perm: Perm, s: Slot)
    requires TableThere(v, d, f, va, s) && w.mem == Store(v, s, Entry(f, perm)).mem
    requires w.tlb == v.tlb - {PageOf(va)} && w.dirs == v.dirs && w.cr3 == v.cr3
    ensures InsertMap(v, w, d, f, va, perm) && (Coherent(v) ==> Coherent(w))
  {
    hide Inv;
    WalkSlotBelow(v, d, va, s);
    TableWriteMap(v, s, Entry(f, perm));
    if Coherent(v) { FlushedCoherent(v, w, d, PageOf(va), Some(Entry(f, perm))); }
  }

  lemma OverwrittenBooks(v: Vm, w: Vm, d: nat, f: nat, va: Word, perm: Perm, s: Slot)
    requires TableThere(v, d, f, va, s) && Present(WordAt(v, s)) && Frame(WordAt(v, s)) != f
    requires Replaced(v, w, s, f, perm, va)
    ensures InsertBooks(v, w, d, f, va)
  {
    MappedBySlot(v, d, f, va, s);
    hide Inv;
  }

  lemma InsertSame(v: Vm, d: nat, f: nat, va: Word, perm: Perm, s: Slot)
    requires TableThere(v, d, f, va, s) && Present(WordAt(v, s)) && Frame(WordAt(v, s)) == f
    ensures var r := PageRemove(IncRef(v, f), d, va);
      && r.Done? && var w := Store(r.value, s, Entry(f, perm));
      Inv(w) && InsertBooks(v, w, d, f, va) && InsertMap(v, w, d, f, va, perm) && (Coherent(v) ==> Coherent(w))
  {
    MappedBySlot(v, d, f, va, s);
    ThereFacts(v, d, f, va, s);
    hide *;
    WalkSlotBelow(v, d, va, s);
    SameIsReferenced(v, f, s);
    ReinsertEntry(v, d, va, s, f, perm);
    SameBooksKept(v, d, f, va, perm, s);
    SameFields(v, f, va, perm, s);
    OverwrittenMap(v, Invlpg(Store(v, s, Entry(f, perm)), va), d, f, va, perm, s);
  }

  lemma SameFields(v: Vm, f: nat, va: Word, perm: Perm, s: Slot)
    requires s.frame < |v.mem| && f < 0x10_0000
    ensures var w := Invlpg(Store(v, s, Entry(f, perm)), va);
      && w.mem == Store(v, s, Entry(f, perm)).mem && w.tlb == v.tlb - {PageOf(va)}
      && w.dirs == v.dirs && w.cr3 == v.cr3
  {
  }

  lemma ThereFacts(v: Vm, d: nat, f: nat, va: Word, s: Slot)
    requires TableThere(v, d, f, va, s)
    ensures Inv(v) && Shape(v) && d in v.dirs && d < |v.mem| && va < UTOP && f < |v.mem| && s.frame < |v.mem|
    ensures s.idx == PTX(va) && Names(v.mem, Slot(d, PDX(va)), s.frame)
    ensures Present(WordAt(v, s)) && Frame(WordAt(v, s)) == f ==> Names(v.mem, s, f)
  {
  }

  lemma SameIsReferenced(v: Vm, f: nat, s: Slot)
    requires Inv(v) && s.frame in v.tabs && Names(v.mem, s, f) && f < |v.mem|
    ensures f !in v.loose && f !in v.free
  {
    NamedIsReferenced(v, s, f);
  }

  lemma SameBooksKept(v: Vm, d: nat, f: nat, va: Word, perm: Perm, s: Slot)
    requires TableThere(v, d, f, va, s) && Present(WordAt(v, s)) && Frame(WordAt(v, s)) == f
    requires f !in v.loose && f !in v.free && Mapped(v, d, va) == Some(f)
    ensures InsertBooks(v, Invlpg(Store(v, s, Entry(f, perm)), va), d, f, va)
  {
    hide Inv, Mapped, RoomFor;
    assert v.loose - {f} == v.loose;
  }

  // The 16-bit count

  /** page_insert keeps the counts right exactly when the page's 16-bit count has room for one
      more or va maps the page already: otherwise the count wraps to zero under a live mapping. */
  lemma InsertRoomExact(v: Vm, d: nat, f: nat, va: Word, perm: Perm)
    requires Inv(v) && d in v.dirs && d < |v.mem| && va < UTOP
    requires f < |v.mem| && f < |v.ref| && IsData(v, f) && f !in v.free
    requires NeedsTable(v, d, va) ==> v.free != []
    ensures Shape(v)
    ensures var r := PageInsert(v, d, f, va, perm);
      r.Done? && Inv(r.value.0) <==> RoomFor(v, d, f, va)
  {
    InvShape(v);
    if RoomFor(v, d, f, va) {
      hide Inv;
      PageInsertCorrect(v, d, f, va, perm);
    } else {
      WrapBreaksCounts(v, d, f, va, perm);
    }
  }

  lemma WrapBreaksCounts(v: Vm, d: nat, f: nat, va: Word, perm: Perm)
    requires Inv(v) && Shape(v) && d in v.dirs && d < |v.mem| && va < UTOP
    requires f < |v.mem| && IsData(v, f) && f !in v.free && !RoomFor(v, d, f, va)
    requires NeedsTable(v, d, va) ==> v.free != []
    ensures PageInsert(v, d, f, va, perm).Done? ==> !Inv(PageInsert(v, d, f, va, perm).value.0)
  {
    PgdirWalkKeeps(v, d, va, true);
    var r := PgdirWalk(v, d, va, true);
    var v1, s := r.vm, r.slot;
    FullCount(v, v1, d, f, va);
    InvShape(v1);
    hide Inv, PgdirWalk, TableMade, RoomFor;
    WalkSlotBelow(v1, d, va, s);
    if Present(WordAt(v1, s)) { EntryNotF(v, v1, d, f, va, s); }
    WrappedTail(v1, d, f, va, perm, s);
  }

  lemma FullCount(v: Vm, v1: Vm, d: nat, f: nat, va: Word)
    requires Shape(v) && d < |v.mem| && f < |v.mem| && IsData(v, f) && f !in v.free && !RoomFor(v, d, f, va)
    requires if NeedsTable(v, d, va) then TableMade(v, v1, d, va) else v1 == v
    ensures f < |v1.ref| && v1.ref[f] == REF_LIMIT - 1 && v1.dirs == v.dirs && |v1.mem| == |v.mem|
  {
    if NeedsTable(v, d, va) { assert v.free[0] in v.free; }
  }

  /** page_insert from the walk on, with a full count. */
  lemma WrappedTail(v1: Vm, d: nat, f: nat, va: Word, perm: Perm, s: Slot)
    requires Shape(v1) && d < |v1.mem| && f < |v1.mem| && v1.ref[f] == REF_LIMIT - 1
    requires s.frame < |v1.mem| && s.idx == PTX(va) && Names(v1.mem, Slot(d, PDX(va)), s.frame) && s.frame in v1.tabs
    requires Present(WordAt(v1, s)) ==> Frame(WordAt(v1, s)) != f
    ensures var u := IncRef(v1, f);
      if Present(WordAt(u, s))
      then PageRemove(u, d, va).Done? ==> !Inv(Store(PageRemove(u, d, va).value, s, Entry(f, perm)))
      else !Inv(Store(u, s, Entry(f, perm)))
  {
    var u := IncRef(v1, f);
    hide Inv;
    if Present(WordAt(u, s)) {
      RemoveOther(u, d, va, s, f);
      hide PageRemove;
      if PageRemove(u, d, va).Done? {
        ZeroButNamed(Store(PageRemove(u, d, va).value, s, Entry(f, perm)), s, f);
      }
    } else {
      ZeroButNamed(Store(u, s, Entry(f, perm)), s, f);
    }
  }

  lemma EntryNotF(v: Vm, v1: Vm, d: nat, f: nat, va: Word, s: Slot)
    requires Inv(v1) && d < |v.mem| == |v1.mem| && f < |v.ref| && !RoomFor(v, d, f, va) && va < UTOP
    requires if NeedsTable(v, d, va) then TableMade(v, v1, d, va) else v1 == v
    requires s.frame < |v.mem| && s.idx == PTX(va) && Names(v1.mem, Slot(d, PDX(va)), s.frame)
    requires Present(WordAt(v1, s))
    ensures Frame(WordAt(v1, s)) != f
  {
    if NeedsTable(v, d, va) { NewTableSlot(v, v1, d, va, s); }
  }

  lemma RemoveOther(u: Vm, d: nat, va: Word, s: Slot, f: nat)
    requires Shape(u) && d < |u.mem| && f < |u.mem| && s.frame < |u.mem| && s.idx == PTX(va)
    requires Names(u.mem, Slot(d, PDX(va)), s.frame) && Frame(WordAt(u, s)) != f
    ensures var r := PageRemove(u, d, va);
      r.Done? ==> r.value.ref[f] == u.ref[f] && r.value.tabs == u.tabs && r.value.dirs == u.dirs
  {
    assert PgdirWalk(u, d, va, false) == At(u, s);
  }

  lemma ZeroButNamed(w: Vm, s: Slot, f: nat)
    requires Shape(w) && f < |w.mem| && w.ref[f] == 0 && s.frame in w.tabs && Names(w.mem, s, f)
    ensures !Inv(w)
  {
    if Inv(w) { NamedIsReferenced(w, s, f); }
  }
}
