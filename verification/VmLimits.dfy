/** Where the requirements on page_remove and page_insert come from: inputs within reach that
    break the counts when they are not met. */
module VmLimits {
  import opened Mmu
  import opened VmOps
  import opened VmInv
  import opened VmPages
  import opened VmTeardown
  import opened VmActs
  import opened VmTrack
  import opened VmMap
  import Boot

  // The failing cases are in reach

  /** A creating walk leaves a table with a cleared entry, and page_remove there takes page 0. */
  lemma WalkThenRemove(v: Vm, d: nat, va: Word)
    requires Inv(v) && d in v.dirs && d < |v.mem| && va < UTOP && |v.ref| > 0 && v.ref[0] == 1
    requires NeedsTable(v, d, va) && v.free != []
    ensures Shape(v) && PgdirWalk(v, d, va, true).At?
    ensures var w := PgdirWalk(v, d, va, true).vm;
      && Inv(w) && Shape(w) && d < |w.mem| && PageRemove(w, d, va).Done?
      && PageRemove(w, d, va).value.head == 0 && PageRemove(w, d, va).value.ref[0] == 0
  {
    PgdirWalkKeeps(v, d, va, true);
    WalkMakesEntry(v, d, va);
    InvShape(v);
    var w := PgdirWalk(v, d, va, true).vm;
    InvShape(w);
    PageZeroHeld(v);
    hide Inv, PgdirWalk, PageRemove;
    assert w.ref[0] == 1 && d in w.dirs;
    RemoveUnmappedTakesPageZero(w, d, va);
  }

  lemma PageZeroHeld(v: Vm)
    requires Inv(v) && |v.ref| > 0 && v.ref[0] == 1
    ensures 0 !in v.free
  {
  }

  /** n explicit references more. */
  ghost function Held(v: Vm, f: nat, n: nat): (w: Vm)
    requires Shape(v) && f < |v.mem|
    ensures Shape(w) && |w.mem| == |v.mem|
    decreases n
  {
    if n == 0 then v else Held(Pin(v, f), f, n - 1)
  }

  lemma {:induction false} HeldKeeps(v: Vm, f: nat, n: nat)
    requires Inv(v) && Shape(v) && f < |v.mem| && IsData(v, f) && f !in v.free && v.ref[f] + n < REF_LIMIT
    ensures var w := Held(v, f, n);
      && Inv(w) && w.ref[f] == v.ref[f] + n && w.mem == v.mem && w.dirs == v.dirs && IsData(w, f) && f !in w.free
    decreases n
  {
    if n > 0 {
      PinInv(v, f);
      PinFields(v, f);
      hide Inv;
      HeldKeeps(Pin(v, f), f, n - 1);
    }
  }

  /** Enough references fill a page's 16-bit count, and page_insert at any address that does not
      map the page then breaks the counts. */
  lemma FullCountInReach(v: Vm, w: Vm, d: nat, f: nat, va: Word, perm: Perm)
    requires Inv(v) && Shape(v) && d in v.dirs && d < |v.mem| && va < UTOP && f < |v.mem| && IsData(v, f) && f !in v.free
    requires Mapped(v, d, va) != Some(f) && !NeedsTable(v, d, va)
    requires w == Held(v, f, REF_LIMIT - 1 - v.ref[f])
    ensures Inv(w) && d < |w.mem| && Shape(w)
    ensures !(PageInsert(w, d, f, va, perm).Done? && Inv(PageInsert(w, d, f, va, perm).value.0))
  {
    HeldKeeps(v, f, REF_LIMIT - 1 - v.ref[f]);
    hide Inv, Held, PageInsert, RoomFor, Mapped, NeedsTable;
    InvShape(w);
    NoRoomLeft(v, w, d, f, va);
    InsertRoomExact(w, d, f, va, perm);
  }

  lemma NoRoomLeft(v: Vm, w: Vm, d: nat, f: nat, va: Word)
    requires d < |v.mem| && w.mem == v.mem && f < |w.ref| && w.ref[f] == REF_LIMIT - 1
    requires Mapped(v, d, va) != Some(f) && !NeedsTable(v, d, va)
    ensures !RoomFor(w, d, f, va) && !NeedsTable(w, d, va)
  {
  }

  // At and above UTOP, where entries are not counted

  /** A state that differs from one of the invariant in a kernel table's entry and in the count of
      f is none. */
  lemma UncountedChange(v: Vm, w: Vm, s: Slot, x: Word, f: nat)
    requires Inv(v) && s.frame in v.ktabs && s.frame < |v.mem| && w.mem == Store(v, s, x).mem
    requires w.dirs == v.dirs && w.tabs == v.tabs && w.pins == v.pins
    requires f < |v.mem| && f < |v.ref| && |w.ref| == |v.ref| && w.ref[f] != v.ref[f]
    ensures !Inv(w)
  {
    if Inv(w) {
      PageCount(v, f);
      PageCount(w, f);
      KtabApart(v, s.frame);
      UncountedRefs(v, w, s, x, f);
      hide Inv, Refs;
    }
  }

  lemma UncountedRefs(v: Vm, w: Vm, s: Slot, x: Word, f: nat)
    requires s.frame !in v.dirs && s.frame !in v.tabs && s.frame < |v.mem| && w.mem == Store(v, s, x).mem
    requires w.dirs == v.dirs && w.tabs == v.tabs
    ensures Refs(w, f) == Refs(v, f)
  {
    RefsSame(v, w, f);
  }

  lemma KtabApart(v: Vm, t: nat)
    requires Inv(v) && t in v.ktabs
    ensures t !in v.dirs && t !in v.tabs
  {
  }

  /** page_remove of a static mapping takes a reference the page never had for it: it panics or
      leaves the counts wrong, whichever the mapping. */
  lemma RemoveAboveUtop(v: Vm, d: nat, va: Word)
    requires Inv(v) && d in v.dirs && va >= UTOP && PDX(va) != UVPT_PDX
    requires d < |v.mem| && Translate(v.mem, d, PageOf(va)).Some?
    ensures Shape(v) && !(PageRemove(v, d, va).Done? && Inv(PageRemove(v, d, va).value))
  {
    InvShape(v);
    BelowUtop(va);
    var s := Slot(Frame(v.mem[d][PDX(va)]), PTX(va));
    assert Names(v.mem, Slot(d, PDX(va)), s.frame);
    Boot.WalkSlotAbove(v, d, va, s);
    hide Inv;
    if PageRemove(v, d, va).Done? {
      var f := Frame(WordAt(v, s));
      RemovedAbove(v, d, va, s);
      UncountedChange(v, PageRemove(v, d, va).value, s, 0, f);
    }
  }

  lemma RemovedAbove(v: Vm, d: nat, va: Word, s: Slot)
    requires Shape(v) && d < |v.mem| && s.frame < |v.mem| && s.idx == PTX(va) && Names(v.mem, Slot(d, PDX(va)), s.frame)
    requires PageRemove(v, d, va).Done?
    ensures var f, w := Frame(WordAt(v, s)), PageRemove(v, d, va).value;
      && f < |v.mem| && w.mem == Store(v, s, 0).mem && w.ref == v.ref[f := Minus1(v.ref[f])]
      && w.dirs == v.dirs && w.tabs == v.tabs && w.pins == v.pins
  {
    assert PgdirWalk(v, d, va, false) == At(v, s);
  }

  /** page_insert over another page's static mapping, or in place of none, counts a reference no
      counted entry holds. */
  lemma InsertAboveUtop(v: Vm, d: nat, f: nat, va: Word, perm: Perm)
    requires Inv(v) && d in v.dirs && va >= UTOP && PDX(va) != UVPT_PDX && d < |v.mem|
    requires f < |v.mem| && IsData(v, f) && f !in v.free && Mapped(v, d, va) != Some(f)
    requires NeedsTable(v, d, va) ==> v.free != []
    ensures Shape(v)
    ensures !(PageInsert(v, d, f, va, perm).Done? && Inv(PageInsert(v, d, f, va, perm).value.0))
  {
    PgdirWalkKeeps(v, d, va, true);
    InvShape(v);
    BelowUtop(va);
    var r := PgdirWalk(v, d, va, true);
    InvShape(r.vm);
    WalkCpu(v, d, va, true);
    StillOther(v, r.vm, d, f, va, r.slot);
    Boot.WalkSlotAbove(r.vm, d, va, r.slot);
    InsertCases(v, d, f, va, perm);
    hide *;
    MapAbove(r.vm, d, f, va, perm, r.slot);
  }

  /** After the walk va still maps no page or another one. */
  lemma StillOther(v: Vm, v1: Vm, d: nat, f: nat, va: Word, s: Slot)
    requires Inv(v) && d in v.dirs && d < |v.mem| && Shape(v) && PgdirWalk(v, d, va, true) == At(v1, s)
    requires Mapped(v, d, va) != Some(f) && f !in v.free
    requires Shape(v1) && s.frame < |v1.mem| && s.idx == PTX(va)
    ensures Present(WordAt(v1, s)) ==> Frame(WordAt(v1, s)) != f
  {
    if NeedsTable(v, d, va) {
      PgdirWalkKeeps(v, d, va, true);
      WalkMakesEntry(v, d, va);
      hide Inv, PgdirWalk, Shape, ZeroFrame, TableMade, Names;
      ZeroWord(s.idx);
    } else {
      hide Inv, Shape;
    }
  }

  lemma ZeroWord(i: Index)
    ensures ZeroFrame()[i] == 0
  {
  }

  lemma MapAbove(v: Vm, d: nat, f: nat, va: Word, perm: Perm, s: Slot)
    requires Inv(v) && Shape(v) && d < |v.mem| && f < |v.mem| && s.frame < |v.mem| && s.idx == PTX(va)
    requires s.frame in v.ktabs && Names(v.mem, Slot(d, PDX(va)), s.frame)
    requires Present(WordAt(v, s)) ==> Frame(WordAt(v, s)) != f
    ensures MapAt(v, d, f, va, perm, s).Done? ==> !Inv(MapAt(v, d, f, va, perm, s).value)
  {
    if MapAt(v, d, f, va, perm, s).Done? {
      MappedAbove(v, d, f, va, perm, s);
      hide Inv, MapAt, Entry;
      UncountedChange(v, MapAt(v, d, f, va, perm, s).value, s, Entry(f, perm), f);
    }
  }

  lemma MappedAbove(v: Vm, d: nat, f: nat, va: Word, perm: Perm, s: Slot)
    requires Shape(v) && d < |v.mem| && f < |v.mem| && s.frame < |v.mem| && s.idx == PTX(va)
    requires Names(v.mem, Slot(d, PDX(va)), s.frame) && MapAt(v, d, f, va, perm, s).Done?
    requires Present(WordAt(v, s)) ==> Frame(WordAt(v, s)) != f
    ensures var w := MapAt(v, d, f, va, perm, s).value;
      && f < 0x10_0000 && w.mem == Store(v, s, Entry(f, perm)).mem && w.dirs == v.dirs && w.tabs == v.tabs && w.pins == v.pins
      && |w.ref| == |v.ref| && w.ref[f] == Plus1(v.ref[f]) && w.ref[f] != v.ref[f]
  {
    var u := IncRef(v, f);
    IncKeeps(v, f);
    if Present(WordAt(u, s)) {
      RemovedAbove(u, d, va, s);
      assert v.mem[s.frame][s.idx := 0][s.idx := Entry(f, perm)] == v.mem[s.frame][s.idx := Entry(f, perm)];
    }
    hide PageRemove, Entry;
  }

  /** Where va maps f already, page_insert keeps the invariant; but a page with no reference at all,
      as a static mapping leaves it, goes to the free list. */
  lemma InsertAgainAboveUtop(v: Vm, d: nat, f: nat, va: Word, perm: Perm)
    requires Inv(v) && d in v.dirs && va >= UTOP && PDX(va) != UVPT_PDX && d < |v.mem|
    requires f < |v.mem| && f < |v.ref| && IsData(v, f) && f !in v.free && Mapped(v, d, va) == Some(f)
    ensures Shape(v) && PageInsert(v, d, f, va, perm).Done?
    ensures var w := PageInsert(v, d, f, va, perm).value.0; Inv(w) && (f in w.free <==> v.ref[f] == 0)
  {
    InvShape(v);
    BelowUtop(va);
    var s := Slot(Frame(v.mem[d][PDX(va)]), PTX(va));
    assert Names(v.mem, Slot(d, PDX(va)), s.frame) && Names(v.mem, s, f);
    Boot.WalkSlotAbove(v, d, va, s);
    AgainIs(v, d, f, va, perm, s);
    UncountedLoose(v, f);
    hide Inv, PageInsert, Entry, Names, Shape;
    var b := if v.ref[f] == 0 then PageFree(v, f).value else v;
    if v.ref[f] == 0 { PageFreeInv(v, f); FreedKeeps(v, f); }
    InvlpgInv(b, va);
    Boot.KernelWriteInv(Invlpg(b, va), s, Entry(f, perm));
  }

  lemma UncountedLoose(v: Vm, f: nat)
    requires Inv(v) && f < |v.mem| && f < |v.ref| && f !in v.free
    ensures v.ref[f] == 0 <==> f in v.loose
    ensures v.link[f] == NULL
  {
  }

  lemma FreedKeeps(v: Vm, f: nat)
    requires Shape(v) && f < |v.mem| && PageFree(v, f).Done?
    ensures PageFree(v, f).value.ktabs == v.ktabs && PageFree(v, f).value.mem == v.mem && f in PageFree(v, f).value.free
  {
  }

  /** The count goes up and down again, through zero only if it was there. */
  lemma AgainIs(v: Vm, d: nat, f: nat, va: Word, perm: Perm, s: Slot)
    requires Inv(v) && Shape(v) && d in v.dirs && d < |v.mem| && f < |v.mem| && f !in v.free && s.frame < |v.mem|
    requires s.idx == PTX(va) && Names(v.mem, Slot(d, PDX(va)), s.frame) && Names(v.mem, s, f)
    ensures f < 0x10_0000 && (v.ref[f] == 0 ==> PageFree(v, f).Done?)
    ensures var b := if v.ref[f] == 0 then PageFree(v, f).value else v;
      PageInsert(v, d, f, va, perm) == Done((Store(Invlpg(b, va), s, Entry(f, perm)), 0))
  {
    UncountedLoose(v, f);
    IncKeeps(v, f);
    LookupAt(IncRef(v, f), d, va, s);
    UpAndDown(v, f);
    InsertCases(v, d, f, va, perm);
    assert PgdirWalk(v, d, va, true) == At(v, s);
    if v.ref[f] == 0 { FreedKeeps(v, f); }
    hide Inv, PageLookup, PageDecref, PageFree, PgdirWalk, PageInsert, Entry, IncRef, Shape;
    MapAgain(v, if v.ref[f] == 0 then PageFree(v, f).value else v, d, f, va, perm, s);
  }

  lemma MapAgain(v: Vm, b: Vm, d: nat, f: nat, va: Word, perm: Perm, s: Slot)
    requires Shape(v) && Shape(b) && d < |v.mem| && f < |v.mem| && s.frame < |v.mem| && f < 0x10_0000
    requires Names(v.mem, s, f) && b.mem == v.mem && IncRef(v, f).mem == v.mem
    requires PageLookup(IncRef(v, f), d, va) == Found(f, s) && PageDecref(IncRef(v, f), f) == Done(b)
    ensures MapAt(v, d, f, va, perm, s) == Done(Store(Invlpg(b, va), s, Entry(f, perm)))
  {
    var u := IncRef(v, f);
    RemoveIs(u, b, d, f, va, s);
    StoreTwice(b, s, va, Entry(f, perm));
    assert WordAt(u, s) == v.mem[s.frame][s.idx];
    hide PageRemove, Entry, IncRef, Shape, Store, Invlpg;
  }

  lemma RemoveIs(u: Vm, b: Vm, d: nat, f: nat, va: Word, s: Slot)
    requires Shape(u) && d < |u.mem| && f < |u.mem| && PageLookup(u, d, va) == Found(f, s) && PageDecref(u, f) == Done(b)
    ensures s.frame < |b.mem| && PageRemove(u, d, va) == Done(Invlpg(Store(b, s, 0), va))
  {
    hide PageLookup, PageDecref;
  }

  lemma StoreTwice(b: Vm, s: Slot, va: Word, x: Word)
    requires s.frame < |b.mem|
    ensures var w := Invlpg(Store(b, s, 0), va); s.frame < |w.mem| && Store(w, s, x) == Store(Invlpg(b, va), s, x)
    ensures s.frame < |Invlpg(b, va).mem|
  {
    assert b.mem[s.frame][s.idx := 0][s.idx := x] == b.mem[s.frame][s.idx := x];
  }

  lemma UpAndDown(v: Vm, f: nat)
    requires Shape(v) && f < |v.mem| && (v.ref[f] == 0 <==> f in v.loose) && v.link[f] == NULL
    ensures v.ref[f] == 0 ==> PageFree(v, f).Done?
    ensures PageDecref(IncRef(v, f), f) == if v.ref[f] == 0 then PageFree(v, f) else Done(v)
  {
    var u := IncRef(v, f);
    var w := u.(ref := u.ref[f := Minus1(u.ref[f])]);
    assert w.ref == v.ref;
    if v.ref[f] == 0 {
      assert w == v.(loose := v.loose - {f});
      assert v.loose - {f} - {f} == v.loose - {f};
    } else {
      assert v.loose - {f} == v.loose;
      assert w == v;
    }
  }

  /** page_insert counts before it removes. The other way round, a page mapped again at its address
      would be on the free list under its own mapping exactly if that was its only reference. */
  lemma CountFirstExact(v: Vm, d: nat, f: nat, va: Word, perm: Perm)
    requires Inv(v) && d in v.dirs && d < |v.mem| && va < UTOP && f < |v.mem| && f < |v.ref|
    requires Mapped(v, d, va) == Some(f)
    ensures Shape(v) && PageRemove(v, d, va).Done? && f < 0x10_0000
    ensures var r := PageRemove(v, d, va).value;
      var s := Slot(Frame(v.mem[d][PDX(va)]), PTX(va));
      && s.frame < |r.mem| && var w := Store(IncRef(r, f), s, Entry(f, perm));
      && Translate(w.mem, d, PageOf(va)) == Some(Entry(f, perm))
      && (f in w.free <==> v.ref[f] == 1)
  {
    InvShape(v);
    var s := Slot(Frame(v.mem[d][PDX(va)]), PTX(va));
    assert Names(v.mem, Slot(d, PDX(va)), s.frame) && Names(v.mem, s, f);
    WalkSlotBelow(v, d, va, s);
    DirIsNoTable(v, d, s.frame);
    NamedIsReferenced(v, s, f);
    PageRemovePresent(v, d, va, s);
    var r := PageRemove(v, d, va).value;
    RemovedWordKept(v, r, d, va, s);
    hide Inv, PageRemove, Removed, Shape;
    CountedLast(v, r, d, f, va, perm, s);
  }

  lemma CountedLast(v: Vm, r: Vm, d: nat, f: nat, va: Word, perm: Perm, s: Slot)
    requires Shape(r) && d < |v.mem| == |r.mem| && r.mem[d] == v.mem[d] && s.frame < |r.mem| && s.frame != d && f < |r.mem|
    requires s.idx == PTX(va) && Names(v.mem, Slot(d, PDX(va)), s.frame) && f < 0x10_0000
    ensures var w := Store(IncRef(r, f), s, Entry(f, perm));
      Translate(w.mem, d, PageOf(va)) == Some(Entry(f, perm)) && w.free == r.free
  {
    hide Shape, Entry;
  }

  lemma RemovedWordKept(v: Vm, r: Vm, d: nat, va: Word, s: Slot)
    requires Removed(v, r, s, va) && s.frame != d && d < |v.mem|
    ensures |r.mem| == |v.mem| && r.mem[d] == v.mem[d]
    ensures var f := Frame(WordAt(v, s)); f < |v.ref| && r.free == if v.ref[f] == 1 then [f] + v.free else v.free
  {
  }
}
