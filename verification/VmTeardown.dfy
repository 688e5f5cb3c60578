/** env_free: the nested loops that empty an address space, and what they give back. */
module VmTeardown {
  import opened Mmu
  import opened VmOps
  import opened VmInv
  import opened VmMap
  import opened VmPages

  /** The inner loop of env_free from entry j of table t, which directory entry i names. */
  function UnmapTable(v: Vm, d: nat, i: Index, t: nat, j: nat): (r: Res<Vm>)
    requires Shape(v) && d < |v.mem| && t < |v.mem| && j <= NENTRIES
    ensures r.Done? ==> Shape(r.value) && |r.value.mem| == |v.mem|
    decreases NENTRIES - j
  {
    if j == NENTRIES then Done(v)
    else if Present(v.mem[t][j]) then
      match PageRemove(v, d, PGADDR(i, j, 0))
      case Panic => Panic
      case Done(v1) => UnmapTable(v1, d, i, t, j + 1)
    else UnmapTable(v, d, i, t, j + 1)
  }

  /** The emptied table's entry is cleared and the table released. */
  function DropTable(v: Vm, d: nat, i: Index, t: nat): (r: Res<Vm>)
    requires Shape(v) && d < |v.mem| && t < |v.mem|
    ensures r.Done? ==> Shape(r.value) && |r.value.mem| == |v.mem|
  {
    PageDecref(Store(v, Slot(d, i), 0).(tabs := v.tabs - {t}), t)
  }

  /** The outer loop from directory entry i. The first panic is KADDR's. */
  function UnmapDir(v: Vm, d: nat, i: nat): (r: Res<Vm>)
    requires Shape(v) && d < |v.mem| && i <= UTOP_PDX
    ensures r.Done? ==> Shape(r.value) && |r.value.mem| == |v.mem|
    decreases UTOP_PDX - i
  {
    if i == UTOP_PDX then Done(v)
    else if !Present(v.mem[d][i]) then UnmapDir(v, d, i + 1)
    else if Frame(v.mem[d][i]) >= |v.mem| then Panic
    else
      match UnmapTable(v, d, i, Frame(v.mem[d][i]), 0)
      case Panic => Panic
      case Done(v1) =>
        match DropTable(v1, d, i, Frame(v.mem[d][i]))
        case Panic => Panic
        case Done(v2) => UnmapDir(v2, d, i + 1)
  }

  /** env_free on the environment whose directory is d; current says it is curenv, and kd
      is kern_pgdir. */
  function EnvFree(v: Vm, d: nat, kd: nat, current: bool): (r: Res<Vm>)
    requires Shape(v) && d < |v.mem| && kd < |v.mem|
    ensures r.Done? ==> Shape(r.value) && |r.value.mem| == |v.mem|
  {
    match UnmapDir(if current then LoadCr3(v, kd) else v, d, 0)
    case Panic => Panic
    case Done(v1) =>
      match PageDecref(RetireDir(v1, d), d)
      case Panic => Panic
      case Done(v2) => Done(v2.(pins := v2.pins[d := Minus1(v2.pins[d])]))
  }

  // The inner loop

  /** From v to w the entries of table t from j on became absent and nothing else happened to
      the page structures; the TLB lost entries at most. */
  ghost predicate TableEmptied(v: Vm, w: Vm, t: nat, j: nat) {
    && t < |v.mem| == |w.mem|
    && (forall g :: 0 <= g < |v.mem| && g != t ==> w.mem[g] == v.mem[g])
    && (forall x: Index :: x < j ==> w.mem[t][x] == v.mem[t][x])
    && (forall x: Index :: x >= j ==> !Present(w.mem[t][x]))
    && w.dirs == v.dirs && w.tabs == v.tabs && w.ktabs == v.ktabs
    && w.pins == v.pins && w.loose == v.loose && w.cr3 == v.cr3
    && (forall p :: p in w.tlb ==> p in v.tlb && w.tlb[p] == v.tlb[p])
  }

  lemma RemoveStep(v: Vm, d: nat, i: Index, t: nat, j: Index)
    requires Inv(v) && d in v.dirs && i < UTOP_PDX && t < |v.mem| && Names(v.mem, Slot(d, i), t)
    requires Present(v.mem[t][j])
    ensures var r := PageRemove(v, d, PGADDR(i, j, 0));
      r.Done? && Inv(r.value) && Removed(v, r.value, Slot(t, j), PGADDR(i, j, 0))
  {
    PgaddrParts(i, j);
    InvShape(v);
    hide Inv, PageRemove, Removed, PDX, PTX, PGADDR;
    PageRemovePresent(v, d, PGADDR(i, j, 0), Slot(t, j));
  }

  lemma PgaddrParts(i: Index, j: Index)
    ensures PDX(PGADDR(i, j, 0)) == i && PTX(PGADDR(i, j, 0)) == j
    ensures i < UTOP_PDX ==> PGADDR(i, j, 0) < UTOP
  {
    AddressRoundTrip(0, i, j, 0);
    BelowUtop(PGADDR(i, j, 0));
  }

  lemma EmptiedStep(v: Vm, v1: Vm, r: Res<Vm>, t: nat, j: Index, va: Word)
    requires Removed(v, v1, Slot(t, j), va) && TableDone(v1, r, t, j + 1)
    ensures TableDone(v, r, t, j)
  {
    hide Inv;
  }

  ghost predicate TableDone(v: Vm, r: Res<Vm>, t: nat, j: nat) {
    r.Done? && Inv(r.value) && TableEmptied(v, r.value, t, j)
  }

  lemma {:induction false} UnmapTableKeeps(v: Vm, d: nat, i: Index, t: nat, j: nat)
    requires Inv(v) && d in v.dirs && i < UTOP_PDX && j <= NENTRIES
    requires t < |v.mem| && d != t && Names(v.mem, Slot(d, i), t)
    ensures d < |v.mem| && TableDone(v, UnmapTable(v, d, i, t, j), t, j)
    decreases NENTRIES - j, 1
  {
    InvShape(v);
    DirShape(v, d);
    hide Inv, Shape, Names, UnmapTable, TableDone, Present;
    if j == NENTRIES {
      EmptiedEnd(v, d, i, t);
    } else if Present(v.mem[t][j]) {
      UnmapPresent(v, d, i, t, j);
    } else {
      UnfoldTable(v, d, i, t, j);
      UnmapTableKeeps(v, d, i, t, j + 1);
      EmptiedSkip(v, UnmapTable(v, d, i, t, j + 1), t, j);
    }
  }

  /** One present entry, then the rest of the table. */
  lemma UnmapPresent(v: Vm, d: nat, i: Index, t: nat, j: Index)
    requires Inv(v) && Shape(v) && d in v.dirs && i < UTOP_PDX && d < |v.mem|
    requires t < |v.mem| && d != t && Names(v.mem, Slot(d, i), t) && Present(v.mem[t][j])
    ensures TableDone(v, UnmapTable(v, d, i, t, j), t, j)
    decreases NENTRIES - j, 0
  {
    RemoveStep(v, d, i, t, j);
    UnfoldTable(v, d, i, t, j);
    hide Inv, Shape, Names, UnmapTable, TableDone, Present, PageRemove, Removed, PGADDR;
    var va := PGADDR(i, j, 0);
    var v1 := PageRemove(v, d, va).value;
    RemovedKeepsDir(v, v1, d, i, t, j, va);
    UnmapTableKeeps(v1, d, i, t, j + 1);
    EmptiedStep(v, v1, UnmapTable(v1, d, i, t, j + 1), t, j, va);
  }

  lemma EmptiedEnd(v: Vm, d: nat, i: Index, t: nat)
    requires Inv(v) && Shape(v) && d < |v.mem| && t < |v.mem|
    ensures TableDone(v, UnmapTable(v, d, i, t, NENTRIES), t, NENTRIES)
  {
    hide Inv;
  }

  lemma UnfoldTable(v: Vm, d: nat, i: Index, t: nat, j: Index)
    requires Shape(v) && d < |v.mem| && t < |v.mem|
    requires Present(v.mem[t][j]) ==> PageRemove(v, d, PGADDR(i, j, 0)).Done?
    ensures UnmapTable(v, d, i, t, j)
      == UnmapTable(if Present(v.mem[t][j]) then PageRemove(v, d, PGADDR(i, j, 0)).value else v, d, i, t, j + 1)
  {
    hide PageRemove, Present, PGADDR;
  }

  lemma UnfoldTablePanic(v: Vm, d: nat, i: Index, t: nat, j: Index)
    requires Shape(v) && d < |v.mem| && t < |v.mem| && Present(v.mem[t][j]) && PageRemove(v, d, PGADDR(i, j, 0)).Panic?
    ensures UnmapTable(v, d, i, t, j).Panic?
  {
    hide PageRemove, Present, PGADDR;
  }

  lemma EmptiedSkip(v: Vm, r: Res<Vm>, t: nat, j: Index)
    requires t < |v.mem| && TableDone(v, r, t, j + 1) && !Present(v.mem[t][j])
    ensures TableDone(v, r, t, j)
  {
  }

  lemma RemovedKeepsDir(v: Vm, v1: Vm, d: nat, i: Index, t: nat, j: Index, va: Word)
    requires Removed(v, v1, Slot(t, j), va) && d != t && Names(v.mem, Slot(d, i), t)
    ensures |v1.mem| == |v.mem| && v1.dirs == v.dirs && Names(v1.mem, Slot(d, i), t)
  {
  }

  // The outer loop

  lemma DropTableKeeps(v: Vm, d: nat, i: Index, t: nat)
    requires Inv(v) && d in v.dirs && i < UTOP_PDX && t < |v.mem| && Names(v.mem, Slot(d, i), t)
    requires forall x: Index :: !Present(v.mem[t][x])
    ensures d < |v.mem|
    ensures var r := DropTable(v, d, i, t); r.Done? && Inv(r.value) && Dropped(v, r.value, d, i, t)
  {
    InvShape(v);
    var s := Slot(d, i);
    TableToPinInv(v, s, t);
    WalkReads(v, d, i);
    InvKinds(v, t);
    TableToPinFields(v, s, t);
    hide Inv, TableToPin, Store;
    UnpinInv(TableToPin(v, s), t);
    DropIsUnpin(v, d, i, t);
  }

  lemma InvKinds(v: Vm, t: nat)
    requires Inv(v) && t in v.tabs
    ensures t < |v.mem| && v.pins[t] == 0 && t !in v.dirs && t !in v.ktabs
  {
  }

  lemma TableToPinFields(v: Vm, s: Slot, t: nat)
    requires Shape(v) && s.frame < |v.mem| && t < |v.mem| && Names(v.mem, s, t)
    requires t in v.tabs && t !in v.dirs && t !in v.ktabs
    ensures var p := TableToPin(v, s);
      |p.mem| == |v.mem| && |p.pins| == |v.mem| && p.pins[t] > 0 && IsData(p, t)
  {
  }

  ghost predicate Dropped(v: Vm, w: Vm, d: nat, i: Index, t: nat) {
    && d < |v.mem| && w.mem == Store(v, Slot(d, i), 0).mem && w.tabs == v.tabs - {t}
    && w.dirs == v.dirs && w.ktabs == v.ktabs && w.pins == v.pins && w.loose == v.loose
    && w.cr3 == v.cr3 && w.tlb == v.tlb
  }

  lemma DropIsUnpin(v: Vm, d: nat, i: Index, t: nat)
    requires Shape(v) && d < |v.mem| && t < |v.mem| && Names(v.mem, Slot(d, i), t)
    requires Unpin(TableToPin(v, Slot(d, i)), t).Done?
    requires Unpinned(TableToPin(v, Slot(d, i)), Unpin(TableToPin(v, Slot(d, i)), t).value, t)
    ensures DropTable(v, d, i, t) == Unpin(TableToPin(v, Slot(d, i)), t)
    ensures Dropped(v, DropTable(v, d, i, t).value, d, i, t)
  {
    var p := TableToPin(v, Slot(d, i));
    var u := Store(v, Slot(d, i), 0).(tabs := v.tabs - {t});
    assert p.pins[t := v.pins[t]] == v.pins;
    DecrefIgnores(u, t, p.mem, p.pins);
    assert u.(mem := p.mem, pins := p.pins) == p;
  }

  /** From v to w directory d lost its entries from i up to UTOP, with their tables. */
  ghost predicate DirEmptied(v: Vm, w: Vm, d: nat, i: nat) {
    && d < |v.mem| == |w.mem|
    && (forall g :: 0 <= g < |v.mem| && g != d && !Owned(v, d, g, i) ==> w.mem[g] == v.mem[g])
    && (forall x: Index :: x < i || x >= UTOP_PDX ==> w.mem[d][x] == v.mem[d][x])
    && (forall x: Index :: i <= x < UTOP_PDX ==> !Present(w.mem[d][x]))
    && (forall t :: t in w.tabs <==> t in v.tabs && !Owned(v, d, t, i))
    && (forall t :: t in w.tabs ==> w.tabs[t] == v.tabs[t])
    && w.dirs == v.dirs && w.ktabs == v.ktabs
    && w.pins == v.pins && w.loose == v.loose && w.cr3 == v.cr3
    && (forall p :: p in w.tlb ==> p in v.tlb && w.tlb[p] == v.tlb[p])
  }

  /** t is a table of an entry of d at i or above. */
  predicate Owned(v: Vm, d: nat, t: nat, i: nat) {
    t in v.tabs && v.tabs[t].frame == d && v.tabs[t].idx >= i
  }

  ghost predicate DirDone(v: Vm, r: Res<Vm>, d: nat, i: nat) {
    r.Done? && Inv(r.value) && DirEmptied(v, r.value, d, i)
  }

  lemma {:induction false} UnmapDirKeeps(v: Vm, d: nat, i: nat)
    requires Inv(v) && d in v.dirs && i <= UTOP_PDX
    ensures Shape(v) && d < |v.mem| && DirDone(v, UnmapDir(v, d, i), d, i)
    decreases UTOP_PDX - i, 2
  {
    DirShape(v, d);
    NoneOwned(v, d, i);
    if i == UTOP_PDX {
      hide *;
      EmptyEnd(v, d);
    } else if !Present(v.mem[d][i]) {
      hide *;
      UnfoldDir(v, d, i);
      UnmapDirKeeps(v, d, i + 1);
      DirSkip(v, UnmapDir(v, d, i + 1), d, i);
    } else {
      hide Inv, UnmapDir, UnmapTable, DirDone;
      WalkReads(v, d, i);
      UnmapEntry(v, d, i, Frame(v.mem[d][i]));
    }
  }

  lemma EmptyEnd(v: Vm, d: nat)
    requires Inv(v) && Shape(v) && d < |v.mem| && forall t :: !Owned(v, d, t, UTOP_PDX)
    ensures DirDone(v, UnmapDir(v, d, UTOP_PDX), d, UTOP_PDX)
  {
    hide Inv;
  }

  lemma UnmapEntry(v: Vm, d: nat, i: Index, t: nat)
    requires Inv(v) && Shape(v) && d in v.dirs && d < |v.mem| && i < UTOP_PDX && Names(v.mem, Slot(d, i), t)
    requires t in v.tabs && v.tabs[t] == Slot(d, i) && t < |v.mem|
    ensures DirDone(v, UnmapDir(v, d, i), d, i)
    decreases UTOP_PDX - i, 1
  {
    InvKinds(v, t);
    hide *;
    UnmapTableKeeps(v, d, i, t, 0);
    DropEntry(v, UnmapTable(v, d, i, t, 0), d, i, t);
  }

  lemma DropEntry(v: Vm, r1: Res<Vm>, d: nat, i: Index, t: nat)
    requires Inv(v) && Shape(v) && d in v.dirs && d < |v.mem| && i < UTOP_PDX && Names(v.mem, Slot(d, i), t)
    requires t in v.tabs && v.tabs[t] == Slot(d, i) && t < |v.mem| && t != d
    requires r1 == UnmapTable(v, d, i, t, 0) && TableDone(v, r1, t, 0)
    ensures DirDone(v, UnmapDir(v, d, i), d, i)
    decreases UTOP_PDX - i, 0
  {
    EmptiedFacts(v, r1, d, i, t);
    UnfoldEntry(v, d, i, t);
    var v1 := r1.value;
    hide *;
    DropTableKeeps(v1, d, i, t);
    var v2 := DropTable(v1, d, i, t).value;
    DroppedFacts(v1, v2, d, i, t);
    UnmapDirKeeps(v2, d, i + 1);
    OneOwner(v, d, i, t);
    DirStep(v, v1, v2, UnmapDir(v2, d, i + 1), d, i, t);
  }

  lemma UnfoldEntry(v: Vm, d: nat, i: Index, t: nat)
    requires Shape(v) && d < |v.mem| && t < |v.mem| && i < UTOP_PDX && Names(v.mem, Slot(d, i), t)
    ensures var r1 := UnmapTable(v, d, i, t, 0);
      r1.Done? && DropTable(r1.value, d, i, t).Done?
      ==> UnmapDir(v, d, i) == UnmapDir(DropTable(r1.value, d, i, t).value, d, i + 1)
  {
    UnfoldDir(v, d, i);
    hide UnmapDir, UnmapTable, DropTable;
  }

  lemma EmptiedFacts(v: Vm, r: Res<Vm>, d: nat, i: Index, t: nat)
    requires TableDone(v, r, t, 0) && d != t && Names(v.mem, Slot(d, i), t)
    ensures r.Done? && Inv(r.value) && TableEmptied(v, r.value, t, 0)
    ensures var v1 := r.value;
      && |v1.mem| == |v.mem| && v1.dirs == v.dirs && Names(v1.mem, Slot(d, i), t)
      && t < |v1.mem| && forall x: Index :: !Present(v1.mem[t][x])
  {
    hide Inv;
  }

  lemma DroppedFacts(v1: Vm, v2: Vm, d: nat, i: Index, t: nat)
    requires Dropped(v1, v2, d, i, t)
    ensures |v2.mem| == |v1.mem| && v2.dirs == v1.dirs
  {
  }

  lemma UnfoldDir(v: Vm, d: nat, i: Index)
    requires Shape(v) && d < |v.mem| && i < UTOP_PDX
    ensures UnmapDir(v, d, i) ==
      var t := Frame(v.mem[d][i]);
      if !Present(v.mem[d][i]) then UnmapDir(v, d, i + 1)
      else if t >= |v.mem| then Panic
      else if UnmapTable(v, d, i, t, 0).Panic? then Panic
      else if DropTable(UnmapTable(v, d, i, t, 0).value, d, i, t).Panic? then Panic
      else UnmapDir(DropTable(UnmapTable(v, d, i, t, 0).value, d, i, t).value, d, i + 1)
  {
    hide UnmapTable, DropTable, Present, Frame;
  }

  lemma DirSkip(v: Vm, r: Res<Vm>, d: nat, i: Index)
    requires d < |v.mem| && !Present(v.mem[d][i]) && i < UTOP_PDX && DirDone(v, r, d, i + 1)
    requires forall t :: Owned(v, d, t, i) ==> Owned(v, d, t, i + 1)
    ensures DirDone(v, r, d, i)
  {
    assert forall t :: Owned(v, d, t, i) <==> Owned(v, d, t, i + 1);
    hide Inv;
  }

  lemma NoneOwned(v: Vm, d: nat, i: nat)
    requires Inv(v) && d in v.dirs && d < |v.mem| && i <= UTOP_PDX
    ensures i == UTOP_PDX ==> forall t :: !Owned(v, d, t, i)
    ensures i < UTOP_PDX && !Present(v.mem[d][i]) ==> forall t :: Owned(v, d, t, i) ==> Owned(v, d, t, i + 1)
  {
  }

  lemma OneOwner(v: Vm, d: nat, i: Index, t: nat)
    requires Inv(v) && d in v.dirs && d < |v.mem| && i < UTOP_PDX && Names(v.mem, Slot(d, i), t)
    ensures forall x :: x in v.tabs && v.tabs[x] == Slot(d, i) ==> x == t
    ensures t in v.tabs && v.tabs[t] == Slot(d, i)
  {
  }

  lemma DirStep(v: Vm, v1: Vm, v2: Vm, r: Res<Vm>, d: nat, i: Index, t: nat)
    requires d != t && i < UTOP_PDX && TableEmptied(v, v1, t, 0) && Dropped(v1, v2, d, i, t) && DirDone(v2, r, d, i + 1)
    requires t in v.tabs && v.tabs[t] == Slot(d, i)
    requires forall x :: x in v.tabs && v.tabs[x] == Slot(d, i) ==> x == t
    ensures DirDone(v, r, d, i)
  {
    StepWords(v, v1, v2, d, i, t);
    hide Inv, Owned, Present, TableEmptied, Dropped;
  }

  /** The first table and entry i are gone; what is left for the rest of the directory. */
  lemma StepWords(v: Vm, v1: Vm, v2: Vm, d: nat, i: Index, t: nat)
    requires d != t && i < UTOP_PDX && TableEmptied(v, v1, t, 0) && Dropped(v1, v2, d, i, t)
    requires t in v.tabs && v.tabs[t] == Slot(d, i)
    requires forall x :: x in v.tabs && v.tabs[x] == Slot(d, i) ==> x == t
    ensures d < |v.mem| == |v2.mem|
    ensures forall g :: 0 <= g < |v.mem| && g != d && g != t ==> v2.mem[g] == v.mem[g]
    ensures forall x: Index :: x != i ==> v2.mem[d][x] == v.mem[d][x]
    ensures !Present(v2.mem[d][i]) && v2.tabs == v.tabs - {t}
    ensures v2.dirs == v.dirs && v2.ktabs == v.ktabs && v2.pins == v.pins && v2.loose == v.loose && v2.cr3 == v.cr3
    ensures forall p :: p in v2.tlb ==> p in v.tlb && v2.tlb[p] == v.tlb[p]
    ensures forall g :: Owned(v, d, g, i) <==> Owned(v2, d, g, i + 1) || g == t
  {
  }

  // What env_free leaves

  /** Directory d is gone with its tables below UTOP. No other directory or table changed,
      nor any entry at or above UTOP; holds and explicit references stay, d's own apart. */
  ghost predicate EnvGone(v: Vm, w: Vm, d: nat) {
    && d < |v.mem| == |w.mem| == |w.pins| == |v.pins|
    && w.dirs == v.dirs - {d} && w.ktabs == v.ktabs && w.loose == v.loose && w.pins == v.pins[d := 0]
    && (forall t :: t in w.tabs <==> t in v.tabs && v.tabs[t].frame != d)
    && (forall t :: t in w.tabs ==> w.tabs[t] == v.tabs[t])
    && (forall g :: 0 <= g < |v.mem| && g != d && !Owned(v, d, g, 0) ==> w.mem[g] == v.mem[g])
    && (forall x: Index :: x >= UTOP_PDX ==> w.mem[d][x] == v.mem[d][x])
  }

  /** The counted entries naming g in directory d and its tables. */
  ghost function OwnRefs(v: Vm, d: nat, g: nat): set<Slot> {
    set s | s in Refs(v, g) && (s.frame == d || Owned(v, d, s.frame, 0))
  }

  /** Each page lost exactly the references d's address space held on it; the directory lost
      its own one; and the pages whose last reference this was, no others, joined the free list. */
  ghost predicate Reclaimed(v: Vm, w: Vm, d: nat) {
    && |w.ref| == |v.ref| == |v.mem|
    && (forall g: nat :: g < |v.ref| ==>
          w.ref[g] == v.ref[g] - |OwnRefs(v, d, g)| - (if g == d then 1 else 0))
    && (forall g: nat :: g < |v.ref| ==> (g in w.free <==> g in v.free || (w.ref[g] == 0 && v.ref[g] > 0)))
    && d in w.free && (forall t :: t in v.tabs && v.tabs[t].frame == d ==> t in w.free)
  }

  /** The other environments translate as before. */
  ghost predicate OthersKept(v: Vm, w: Vm) {
    |w.mem| == |v.mem| && forall e, p: Page :: e in w.dirs && e < |v.mem| ==>
      Translate(w.mem, e, p) == Translate(v.mem, e, p)
  }

  /** env_free gives back a whole address space without a panic. The loaded directory must be
      the freed one only if the environment is current, which is when the code loads
      kern_pgdir first. */
  lemma EnvFreeCorrect(v: Vm, d: nat, kd: nat, current: bool)
    requires Inv(v) && Coherent(v) && d in v.dirs && kd in v.dirs && kd != d
    requires v.cr3 == d ==> current
    ensures d < |v.mem| && kd < |v.mem|
    ensures var r := EnvFree(v, d, kd, current);
      && r.Done? && Inv(r.value) && EnvGone(v, r.value, d) && Reclaimed(v, r.value, d)
      && OthersKept(v, r.value) && Coherent(r.value)
      && r.value.cr3 == if current then kd else v.cr3
  {
    DirShape(v, d);
    DirShape(v, kd);
    var v0 := if current then LoadCr3(v, kd) else v;
    CpuIrrelevant(v, v0);
    UnmapDirKeeps(v0, d, 0);
    hide *;
    EnvFreeFrom(v, v0, UnmapDir(v0, d, 0).value, d, kd, current);
  }

  lemma EnvFreeFrom(v: Vm, v0: Vm, v1: Vm, d: nat, kd: nat, current: bool)
    requires Inv(v) && Shape(v) && Coherent(v) && d in v.dirs && kd in v.dirs && kd != d && d < |v.mem| && kd < |v.mem|
    requires v.cr3 == d ==> current
    requires v0 == (if current then LoadCr3(v, kd) else v) && Inv(v0) && Shape(v0)
    requires UnmapDir(v0, d, 0) == Done(v1) && Inv(v1) && DirEmptied(v0, v1, d, 0)
    ensures var r := EnvFree(v, d, kd, current);
      && r.Done? && Inv(r.value) && EnvGone(v, r.value, d) && Reclaimed(v, r.value, d)
      && OthersKept(v, r.value) && Coherent(r.value)
      && r.value.cr3 == if current then kd else v.cr3
  {
    hide Inv, Coherent, UnmapDir, DirEmptied, Unpin, EnvFree, EnvGone, Reclaimed, OthersKept;
    ReleaseDir(v0, v1, d);
    var w := Unpin(RetireDir(v1, d), d).value;
    ReleaseResult(v, v1, d, kd, current);
    GoneBase(v, v0, w, d);
    GoneCounts(v, w, d);
    GoneMap(v, w, d);
    GoneCoherent(v, w, d, kd, current);
  }

  lemma GoneBase(v: Vm, v0: Vm, w: Vm, d: nat)
    requires v0 == v.(cr3 := v0.cr3, tlb := v0.tlb) && EnvGone(v0, w, d)
    ensures EnvGone(v, w, d)
  {
    assert forall g :: Owned(v0, d, g, 0) <==> Owned(v, d, g, 0);
  }

  lemma ReleaseDir(v0: Vm, v1: Vm, d: nat)
    requires Inv(v0) && Inv(v1) && d in v0.dirs && DirEmptied(v0, v1, d, 0)
    ensures Shape(v1) && d < |v1.mem| && v1.pins[d] == 1
    ensures var r := Unpin(RetireDir(v1, d), d);
      r.Done? && Inv(r.value) && EnvGone(v0, r.value, d) && d in r.value.free
    ensures var w := Unpin(RetireDir(v1, d), d).value;
      w.cr3 == v0.cr3 && forall p :: p in w.tlb ==> p in v0.tlb && w.tlb[p] == v0.tlb[p]
  {
    InvShape(v0);
    InvShape(v1);
    RetireDirInv(v1, d);
    DirRef(v1, d);
    hide Inv, Unpin, Shape;
    UnpinInv(RetireDir(v1, d), d);
    ReleasedFields(v0, v1, Unpin(RetireDir(v1, d), d).value, d);
  }

  lemma ReleasedFields(v0: Vm, v1: Vm, w: Vm, d: nat)
    requires DirEmptied(v0, v1, d, 0) && d < |v1.pins| == |v1.mem| == |v0.pins| && v1.pins[d] == 1
    requires Unpinned(RetireDir(v1, d), w, d) && d < |v1.ref| && v1.ref[d] == 1
    ensures EnvGone(v0, w, d) && d in w.free
    ensures w.cr3 == v0.cr3 && forall p :: p in w.tlb ==> p in v0.tlb && w.tlb[p] == v0.tlb[p]
  {
  }

  lemma DirRef(v: Vm, d: nat)
    requires Inv(v) && d in v.dirs
    ensures d < |v.mem| && v.ref[d] == 1 && d !in v.tabs && d !in v.ktabs
  {
    assert Refs(v, d) == {} by {
      forall s | s in Refs(v, d) ensures false { WhoNames(v, s, d); }
    }
  }

  lemma ReleaseResult(v: Vm, v1: Vm, d: nat, kd: nat, current: bool)
    requires Shape(v) && d < |v.mem| && kd < |v.mem|
    requires UnmapDir(if current then LoadCr3(v, kd) else v, d, 0) == Done(v1)
    requires Shape(v1) && d < |v1.mem| && v1.pins[d] == 1 && Unpin(RetireDir(v1, d), d).Done?
    ensures EnvFree(v, d, kd, current) == Unpin(RetireDir(v1, d), d)
  {
    hide UnmapDir;
    assert PageDecref(RetireDir(v1, d), d).value.pins == v1.pins;
  }

  lemma GoneRefs(v: Vm, w: Vm, d: nat, g: nat)
    requires Inv(v) && Inv(w) && d in v.dirs && EnvGone(v, w, d)
    ensures Refs(w, g) == Refs(v, g) - OwnRefs(v, d, g)
  {
    forall s: Slot ensures s in Refs(w, g) <==> s in Refs(v, g) - OwnRefs(v, d, g) {
      GoneLive(v, w, d, s);
      if s.frame != d && !Owned(v, d, s.frame, 0) { GoneNames(v, w, d, s, g); }
      RefIs(v, g, s);
      RefIs(w, g, s);
      OwnRefIs(v, d, g, s);
      hide *;
    }
  }

  lemma RefIs(v: Vm, g: nat, s: Slot)
    ensures s in Refs(v, g) <==> s in Live(v.dirs, v.tabs) && Names(v.mem, s, g)
  {
  }

  lemma OwnRefIs(v: Vm, d: nat, g: nat, s: Slot)
    ensures s in OwnRefs(v, d, g) <==> s in Refs(v, g) && (s.frame == d || Owned(v, d, s.frame, 0))
  {
    hide Refs, Owned;
  }

  /** The counted entries that are left are those outside directory d and its tables. */
  lemma GoneLive(v: Vm, w: Vm, d: nat, s: Slot)
    requires Inv(v) && d in v.dirs && EnvGone(v, w, d)
    ensures s in Live(w.dirs, w.tabs) <==> s in Live(v.dirs, v.tabs) && s.frame != d && !Owned(v, d, s.frame, 0)
  {
    DirNotOwned(v, d, s.frame);
    DirIsNoTable(v, d, s.frame);
    hide Inv;
  }

  lemma GoneNames(v: Vm, w: Vm, d: nat, s: Slot, g: nat)
    requires EnvGone(v, w, d) && s.frame != d && !Owned(v, d, s.frame, 0)
    ensures Names(w.mem, s, g) <==> Names(v.mem, s, g)
  {
    hide Owned, Present, Frame;
  }

  lemma GoneCounts(v: Vm, w: Vm, d: nat)
    requires Inv(v) && Inv(w) && d in v.dirs && EnvGone(v, w, d) && d in w.free
    ensures Reclaimed(v, w, d)
  {
    forall g: nat | g < |v.mem|
      ensures g < |w.ref| && g < |v.ref|
      ensures w.ref[g] == v.ref[g] - |OwnRefs(v, d, g)| - (if g == d then 1 else 0)
      ensures g in w.free <==> g in v.free || (w.ref[g] == 0 && v.ref[g] > 0)
    {
      GoneCount(v, w, d, g);
    }
    forall t | t in v.tabs && v.tabs[t].frame == d ensures t in w.free {
      TableFreed(v, w, d, t);
    }
    InvShape(v);
    InvShape(w);
    hide Inv, EnvGone;
  }

  lemma GoneCount(v: Vm, w: Vm, d: nat, g: nat)
    requires Inv(v) && Inv(w) && d in v.dirs && EnvGone(v, w, d) && g < |v.mem|
    ensures g < |w.ref| && g < |v.ref|
    ensures w.ref[g] == v.ref[g] - |OwnRefs(v, d, g)| - (if g == d then 1 else 0)
    ensures g in w.free <==> g in v.free || (w.ref[g] == 0 && v.ref[g] > 0)
  {
    DirRef(v, d);
    GoneRefs(v, w, d, g);
    assert OwnRefs(v, d, g) <= Refs(v, g);
    PageCount(v, g);
    PageCount(w, g);
    hide Inv, Refs, OwnRefs;
  }

  /** The invariant at one page. */
  lemma PageCount(v: Vm, g: nat)
    requires Inv(v) && g < |v.mem|
    ensures g < |v.ref| && g < |v.pins| && v.ref[g] == |Refs(v, g)| + v.pins[g]
    ensures (v.ref[g] == 0 <==> g in v.free || g in v.loose) && !(g in v.free && g in v.loose)
    ensures g in v.dirs ==> v.pins[g] == 1
  {
    hide Refs;
  }

  lemma TableFreed(v: Vm, w: Vm, d: nat, t: nat)
    requires Inv(v) && Inv(w) && d in v.dirs && EnvGone(v, w, d)
    requires t in v.tabs && v.tabs[t].frame == d
    ensures t in w.free
  {
    InvKinds(v, t);
    TableRefs(v, d, t);
    hide *;
    GoneCount(v, w, d, t);
    PageCount(v, t);
  }

  lemma TableRefs(v: Vm, d: nat, t: nat)
    requires Inv(v) && d in v.dirs && t in v.tabs && v.tabs[t].frame == d
    ensures |Refs(v, t)| == |OwnRefs(v, d, t)| == 1 && t != d
  {
    var s := v.tabs[t];
    OwnerNames(v, Slot(t, 0));
    forall x | x in Refs(v, t) ensures x == s { WhoNames(v, x, t); }
    hide Inv;
    assert s in Refs(v, t);
    assert Refs(v, t) == {s} && OwnRefs(v, d, t) == {s};
  }

  lemma GoneMap(v: Vm, w: Vm, d: nat)
    requires Inv(v) && d in v.dirs && EnvGone(v, w, d)
    ensures OthersKept(v, w)
  {
    GoneSize(v, w, d);
    hide Inv, EnvGone, Translate;
    forall e, p: Page | e in w.dirs && e < |v.mem|
      ensures Translate(w.mem, e, p) == Translate(v.mem, e, p)
    {
      GoneAt(v, w, d, e, p);
    }
  }

  lemma GoneSize(v: Vm, w: Vm, d: nat)
    requires EnvGone(v, w, d)
    ensures |w.mem| == |v.mem| && w.dirs == v.dirs - {d}
  {
  }

  lemma GoneAt(v: Vm, w: Vm, d: nat, e: nat, p: Page)
    requires Inv(v) && d in v.dirs && e in v.dirs && e != d && EnvGone(v, w, d)
    ensures e < |v.mem| == |w.mem| && Translate(w.mem, e, p) == Translate(v.mem, e, p)
  {
    DirShape(v, e);
    DirNotOwned(v, d, e);
    if Present(v.mem[e][p.pdx]) { ReadsElsewhere(v, d, e, p.pdx); }
    hide Inv, Owned, Present, Frame, Shape;
  }

  lemma DirNotOwned(v: Vm, d: nat, e: nat)
    requires Inv(v)
    ensures e in v.dirs ==> !Owned(v, d, e, 0)
  {
  }

  /** What another directory's walk reads is neither directory d nor one of its tables. */
  lemma ReadsElsewhere(v: Vm, d: nat, e: nat, i: Index)
    requires Inv(v) && d in v.dirs && e in v.dirs && e != d && e < |v.mem| && Present(v.mem[e][i])
    ensures var t := Frame(v.mem[e][i]); t < |v.mem| && t != d && !Owned(v, d, t, 0)
  {
    WalkReads(v, e, i);
    var t := Frame(v.mem[e][i]);
    DirIsNoTable(v, d, t);
    KtabNotOwned(v, d, t);
    hide Inv;
    if t == e { DirNotOwned(v, d, e); }
  }

  lemma KtabNotOwned(v: Vm, d: nat, t: nat)
    requires Inv(v) && d in v.dirs
    ensures t in v.ktabs ==> t !in v.tabs && t != d
  {
  }

  lemma GoneCoherent(v: Vm, w: Vm, d: nat, kd: nat, current: bool)
    requires Coherent(v) && EnvGone(v, w, d) && OthersKept(v, w) && kd in v.dirs && kd < |v.mem| && kd != d
    requires v.cr3 == d ==> current
    requires var v0 := if current then LoadCr3(v, kd) else v;
      w.cr3 == v0.cr3 && forall p :: p in w.tlb ==> p in v0.tlb && w.tlb[p] == v0.tlb[p]
    ensures Coherent(w)
  {
  }

  /** env_free's references are the environment's mappings: for a page that is neither directory
      nor table, one for each virtual page below UTOP that maps it. */
  lemma OwnRefsAreMappings(v: Vm, d: nat, g: nat)
    requires Inv(v) && d in v.dirs && d < |v.mem| && g < |v.mem| && IsData(v, g)
    ensures |OwnRefs(v, d, g)| == |Mappings(v, d, g)|
  {
    var own := OwnRefs(v, d, g);
    hide Inv, OwnRefs, Mappings, PageAt, Owned, Frame, IsData;
    forall s | s in own ensures PageAt(v, s) in Mappings(v, d, g) && Owned(v, d, s.frame, 0) {
      OwnRefMaps(v, d, g, s);
    }
    forall p | p in Mappings(v, d, g) ensures exists s :: s in own && PageAt(v, s) == p {
      MappingIsRef(v, d, g, p);
      assert Slot(Frame(v.mem[d][p.pdx]), p.ptx) in own;
    }
    forall s, x | s in own && x in own && PageAt(v, s) == PageAt(v, x) ensures s == x {
      SameTable(v, d, g, s, x);
    }
    Bijection(own, Mappings(v, d, g), s => PageAt(v, s));
  }

  lemma MappingIsRef(v: Vm, d: nat, g: nat, p: Page)
    requires Inv(v) && d in v.dirs && d < |v.mem| && p in Mappings(v, d, g)
    ensures var s := Slot(Frame(v.mem[d][p.pdx]), p.ptx); s in OwnRefs(v, d, g) && PageAt(v, s) == p
  {
    WalkReads(v, d, p.pdx);
    hide Inv;
  }

  /** The virtual pages below UTOP that d maps to page g. */
  ghost function Mappings(v: Vm, d: nat, g: nat): set<Page>
    requires d < |v.mem|
  {
    set i: int, j: int | 0 <= i < UTOP_PDX && 0 <= j < NENTRIES
      && Translate(v.mem, d, Page(i, j)).Some? && Frame(Translate(v.mem, d, Page(i, j)).value) == g
      :: Page(i, j)
  }

  /** The virtual page an entry of a user table maps. */
  ghost function PageAt(v: Vm, s: Slot): Page {
    if s.frame in v.tabs then Page(v.tabs[s.frame].idx, s.idx) else Page(0, 0)
  }

  lemma OwnRefMaps(v: Vm, d: nat, g: nat, s: Slot)
    requires Inv(v) && d in v.dirs && d < |v.mem| && g < |v.mem| && IsData(v, g) && s in OwnRefs(v, d, g)
    ensures Owned(v, d, s.frame, 0) && PageAt(v, s) in Mappings(v, d, g)
  {
    WhoNames(v, s, g);
    var o := v.tabs[s.frame];
    assert Translate(v.mem, d, Page(o.idx, s.idx)) == Some(WordAt(v, s));
  }

  lemma SameTable(v: Vm, d: nat, g: nat, s: Slot, x: Slot)
    requires Inv(v) && d in v.dirs && Owned(v, d, s.frame, 0) && Owned(v, d, x.frame, 0)
    requires PageAt(v, s) == PageAt(v, x)
    ensures s == x
  {
    assert Names(v.mem, v.tabs[s.frame], s.frame) && Names(v.mem, v.tabs[x.frame], x.frame);
  }

  lemma {:induction false} Bijection(a: set<Slot>, b: set<Page>, f: Slot -> Page)
    requires forall s :: s in a ==> f(s) in b
    requires forall s, x :: s in a && x in a && f(s) == f(x) ==> s == x
    requires forall p :: p in b ==> exists s :: s in a && f(s) == p
    ensures |a| == |b|
    decreases a
  {
    if a == {} {
      assert b == {};
    } else {
      var s :| s in a;
      var a', b' := a - {s}, b - {f(s)};
      forall p | p in b' ensures exists x :: x in a' && f(x) == p {
        var x :| x in a && f(x) == p;
        assert x in a';
      }
      Bijection(a', b', f);
    }
  }
}
