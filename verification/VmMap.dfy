/** The address translations of every directory, and how each elementary write to the
    page structures changes them. */
module VmMap {
  import opened Mmu
  import opened VmOps
  import opened VmInv

  /** The page of d at which d's own entry i shows when d maps itself at UVPT. */
  function Window(i: Index): Page { Page(UVPT_PDX, i) }

  function EntryValue(x: Word): Opt<Word> { if Present(x) then Some(x) else None }

  /** Between v and w the translation of pg in directory d became val and every other
      translation of every directory stayed. */
  ghost predicate OnlyChanged(v: Vm, w: Vm, d: nat, pg: Page, val: Opt<Word>) {
    && |w.mem| == |v.mem|
    && forall e, p: Page :: e in v.dirs && e < |v.mem| ==>
         Translate(w.mem, e, p) == if e == d && p == pg then val else Translate(v.mem, e, p)
  }

  /** The two states translate alike in every directory of v. */
  ghost predicate SameMap(v: Vm, w: Vm) {
    && |w.mem| == |v.mem|
    && forall e, p: Page :: e in v.dirs && e < |v.mem| ==> Translate(w.mem, e, p) == Translate(v.mem, e, p)
  }

  /** A translation of d reads one of d's tables below UTOP, a kernel table, or d itself. */
  lemma WalkReads(v: Vm, d: nat, i: Index)
    requires Inv(v) && d in v.dirs && Present(v.mem[d][i])
    ensures Frame(v.mem[d][i]) < |v.mem|
    ensures i < UTOP_PDX ==> var t := Frame(v.mem[d][i]); t in v.tabs && v.tabs[t] == Slot(d, i)
    ensures i >= UTOP_PDX ==> KernelEntry(v, d, i, Frame(v.mem[d][i]))
  {
    hide Counts, Chain, Partition, UserTables, Owners;
  }

  /** Pages that are no part of a page structure have no influence on translations. */
  lemma DataIrrelevant(v: Vm, w: Vm)
    requires Inv(v) && |w.mem| == |v.mem|
    requires forall g :: 0 <= g < |v.mem| && !IsData(v, g) ==> w.mem[g] == v.mem[g]
    ensures SameMap(v, w)
  {
    forall e, p: Page | e in v.dirs && e < |v.mem|
      ensures Translate(w.mem, e, p) == Translate(v.mem, e, p)
    {
      if Present(v.mem[e][p.pdx]) { WalkReads(v, e, p.pdx); }
      hide Inv;
    }
  }

  /** Writing an entry of a table below UTOP changes the one page that entry maps. */
  lemma TableWriteMap(v: Vm, s: Slot, x: Word)
    requires Inv(v) && s.frame in v.tabs
    ensures var o := v.tabs[s.frame];
      s.frame < |v.mem| && OnlyChanged(v, Store(v, s, x), o.frame, Page(o.idx, s.idx), EntryValue(x))
  {
    var o := v.tabs[s.frame];
    var w := Store(v, s, x);
    OwnerNames(v, s);
    hide Inv, Translate;
    forall e, p: Page | e in v.dirs && e < |v.mem|
      ensures Translate(w.mem, e, p)
        == if e == o.frame && p == Page(o.idx, s.idx) then EntryValue(x) else Translate(v.mem, e, p)
    {
      TableWriteAt(v, s, x, e, p);
    }
  }

  lemma TableWriteAt(v: Vm, s: Slot, x: Word, e: nat, p: Page)
    requires Inv(v) && s.frame in v.tabs && s.frame < |v.mem| && e in v.dirs && e < |v.mem|
    ensures var o := v.tabs[s.frame];
      Translate(Store(v, s, x).mem, e, p)
        == if e == o.frame && p == Page(o.idx, s.idx) then EntryValue(x) else Translate(v.mem, e, p)
  {
    hide Inv;
    OwnerNames(v, s);
    if Present(v.mem[e][p.pdx]) { WalkReads(v, e, p.pdx); }
    DirIsNoTable(v, e, s.frame);
    DirIsNoTable(v, v.tabs[s.frame].frame, s.frame);
  }

  lemma OwnerNames(v: Vm, s: Slot)
    requires Inv(v) && s.frame in v.tabs
    ensures s.frame < |v.mem| && s.frame !in v.ktabs
    ensures v.tabs[s.frame].frame in v.dirs && v.tabs[s.frame].idx < UTOP_PDX && Names(v.mem, v.tabs[s.frame], s.frame)
  {
  }

  lemma DirIsNoTable(v: Vm, e: nat, t: nat)
    requires Inv(v) && e in v.dirs
    ensures e < |v.mem| && (t in v.tabs ==> e != t)
  {
  }

  /** Installing an empty table maps nothing; it only becomes visible in the directory's
      window at UVPT. */
  lemma InstallMap(v: Vm, d: nat, i: Index, t: nat)
    requires Inv(v) && d in v.dirs && !Present(v.mem[d][i])
    requires t in v.loose && t < |v.mem| && v.mem[t] == ZeroFrame()
    ensures var w := InstallTable(v, d, i, t);
      && (forall e, p: Page :: e in v.dirs && !(e == d && p == Window(i)) ==>
            Translate(w.mem, e, p) == Translate(v.mem, e, p))
      && (Translate(v.mem, d, Window(i)) == Translate(w.mem, d, Window(i)) || Translate(v.mem, d, Window(i)) == None)
  {
    var w := InstallTable(v, d, i, t);
    ZeroAbsent(v, t);
    LooseIsData(v, t);
    DirIsNoTable(v, d, t);
    hide Inv, Translate, InstallTable;
    forall e, p: Page | e in v.dirs
      ensures e < |v.mem|
      ensures Translate(w.mem, e, p) == Translate(v.mem, e, p)
           || (e == d && p == Window(i) && Translate(v.mem, e, p) == None)
    {
      DirIsNoTable(v, e, t);
      InstallAt(v, d, i, t, e, p);
    }
  }

  lemma InstallAt(v: Vm, d: nat, i: Index, t: nat, e: nat, p: Page)
    requires Inv(v) && Shape(v) && d in v.dirs && d < |v.mem| && !Present(v.mem[d][i])
    requires t in v.loose && t < |v.mem| && (forall j: Index :: !Present(v.mem[t][j]))
    requires e in v.dirs && e < |v.mem|
    ensures Translate(InstallTable(v, d, i, t).mem, e, p) == Translate(v.mem, e, p)
         || (e == d && p == Window(i) && Translate(v.mem, e, p) == None)
  {
    LooseIsData(v, t);
    InstallMem(v, d, i, t);
    if Present(v.mem[e][p.pdx]) { WalkReads(v, e, p.pdx); }
    hide Inv, InstallTable, Shape, Entry;
  }

  /** The one word of memory that changes when a table is installed. */
  lemma InstallMem(v: Vm, d: nat, i: Index, t: nat)
    requires Shape(v) && d < |v.mem| && t < |v.mem|
    ensures t * 4096 + 7 < 0x1_0000_0000
    ensures InstallTable(v, d, i, t).mem == v.mem[d := v.mem[d][i := t * 4096 + 7]]
    ensures Present(t * 4096 + 7) && Frame(t * 4096 + 7) == t
  {
  }

  /** Through the self-map the directory's entries are read as page mappings. */
  lemma SelfMapWindow(v: Vm, d: nat, i: Index)
    requires Inv(v) && d in v.dirs && Names(v.mem, Slot(d, UVPT_PDX), d)
    ensures Translate(v.mem, d, Window(i)) == EntryValue(v.mem[d][i])
  {
  }

  // Translation caching (section 4.10 of the Intel SDM Volume 3A)

  /** Every cached translation is the one the tables of the loaded directory give now. */
  ghost predicate Coherent(v: Vm) {
    && v.cr3 in v.dirs && v.cr3 < |v.mem|
    && forall p :: p in v.tlb ==> Translate(v.mem, v.cr3, p) == Some(v.tlb[p])
  }

  lemma SameMapCoherent(v: Vm, w: Vm)
    requires Coherent(v) && SameMap(v, w) && w.cr3 == v.cr3 && w.tlb == v.tlb && w.cr3 in w.dirs
    ensures Coherent(w)
  {
  }

  lemma FlushedCoherent(v: Vm, w: Vm, d: nat, pg: Page, val: Opt<Word>)
    requires Coherent(v) && OnlyChanged(v, w, d, pg, val) && w.cr3 == v.cr3 && w.dirs == v.dirs
    requires d < |v.mem| && (w.tlb == v.tlb - {pg} || (w.tlb == v.tlb && Translate(v.mem, d, pg) == None))
    ensures Coherent(w)
  {
  }
}
