/** The operations of kern/pmap.c and env_free as sequences of actions in the order of the code:
    they do what the functions in VmOps and VmTeardown say, and the order is what keeps stale
    translations out of the TLB and a freed directory out of cr3. */
module VmActs {
  import opened Mmu
  import opened VmOps
  import opened VmInv
  import opened VmTeardown
  import opened VmTlb

  // The actions, in the order of the code

  function AllocActs(v: Vm, flags: int): seq<Act>
    requires Shape(v)
  {
    if v.head == NULL then []
    else if flags != 0 then [Take, Fill(v.head, ZeroFrame())]
    else [Take]
  }

  function DecrefActs(v: Vm, f: nat): seq<Act>
    requires Shape(v) && f < |v.mem|
  {
    if Minus1(v.ref[f]) == 0 then [Lower(f), Give(f)] else [Lower(f)]
  }

  function InstallActs(v: Vm, d: nat, i: Index, t: nat): seq<Act>
    requires Shape(v) && t < |v.mem|
  {
    [Count(t), Write(Slot(d, i), Entry(t, PTE_PWU)), InstallNote(v, d, i, t)]
  }

  function InstallNote(v: Vm, d: nat, i: Index, t: nat): Act
    requires Shape(v) && t < |v.mem|
  {
    if i < UTOP_PDX then Note(v.dirs, v.tabs[t := Slot(d, i)], v.ktabs, v.pins)
    else Note(v.dirs, v.tabs, v.ktabs[t := i], v.pins[t := v.pins[t] + 1])
  }

  function WalkActs(v: Vm, d: nat, va: Word, create: bool): seq<Act>
    requires Shape(v) && d < |v.mem|
  {
    if Present(v.mem[d][PDX(va)]) || !create || v.head == NULL then []
    else AllocActs(v, 1) + InstallActs(v, d, PDX(va), v.head)
  }

  function RemoveActs(v: Vm, d: nat, va: Word): seq<Act>
    requires Shape(v) && d < |v.mem|
  {
    match PageLookup(v, d, va)
    case Found(f, s) => DecrefActs(v, f) + [Write(s, 0), Flush(va)]
    case _ => []
  }

  function InsertActs(v: Vm, d: nat, f: nat, va: Word, perm: Perm): seq<Act>
    requires Shape(v) && d < |v.mem| && f < |v.mem|
  {
    match PgdirWalk(v, d, va, true)
    case At(v1, s) => WalkActs(v, d, va, true) + MapActs(v1, d, f, va, perm, s)
    case _ => []
  }

  /** page_insert behind the walk: the count, a removal if the entry is in use, the entry. */
  function MapActs(v: Vm, d: nat, f: nat, va: Word, perm: Perm, s: Slot): seq<Act>
    requires Shape(v) && d < |v.mem| && f < |v.mem| && s.frame < |v.mem|
  {
    [Count(f)] + (if Present(WordAt(v, s)) then RemoveActs(IncRef(v, f), d, va) else []) + [Write(s, Entry(f, perm))]
  }

  /** ... and what that part does. */
  function MapAt(v: Vm, d: nat, f: nat, va: Word, perm: Perm, s: Slot): Res<Vm>
    requires Shape(v) && d < |v.mem| && f < |v.mem| && s.frame < |v.mem|
  {
    var u := IncRef(v, f);
    if Present(WordAt(u, s)) then
      match PageRemove(u, d, va)
      case Panic => Panic
      case Done(w) => Done(Store(w, s, Entry(f, perm)))
    else Done(Store(u, s, Entry(f, perm)))
  }

  /** env_free's inner loop from entry j of table t. */
  function TableActs(v: Vm, d: nat, i: Index, t: nat, j: nat): seq<Act>
    requires Shape(v) && d < |v.mem| && t < |v.mem| && j <= NENTRIES
    decreases NENTRIES - j
  {
    if j == NENTRIES then []
    else if Present(v.mem[t][j]) then
      match PageRemove(v, d, PGADDR(i, j, 0))
      case Panic => []
      case Done(v1) => RemoveActs(v, d, PGADDR(i, j, 0)) + TableActs(v1, d, i, t, j + 1)
    else TableActs(v, d, i, t, j + 1)
  }

  function DropTableActs(v: Vm, d: nat, i: Index, t: nat): seq<Act>
    requires Shape(v) && t < |v.mem|
  {
    [Write(Slot(d, i), 0), Note(v.dirs, v.tabs - {t}, v.ktabs, v.pins)] + DecrefActs(v, t)
  }

  /** The outer loop from directory entry i. */
  function DirActs(v: Vm, d: nat, i: nat): seq<Act>
    requires Shape(v) && d < |v.mem| && i <= UTOP_PDX
    decreases UTOP_PDX - i
  {
    if i == UTOP_PDX then []
    else if !Present(v.mem[d][i]) then DirActs(v, d, i + 1)
    else if Frame(v.mem[d][i]) >= |v.mem| then []
    else
      var t := Frame(v.mem[d][i]);
      match UnmapTable(v, d, i, t, 0)
      case Panic => []
      case Done(v1) =>
        match DropTable(v1, d, i, t)
        case Panic => []
        case Done(v2) => TableActs(v, d, i, t, 0) + DropTableActs(v1, d, i, t) + DirActs(v2, d, i + 1)
  }

  /** page_decref of the directory. */
  function FreeDirActs(v: Vm, d: nat): seq<Act>
    requires Shape(v) && d < |v.mem|
  {
    [Note(v.dirs - {d}, v.tabs, v.ktabs, v.pins)] + DecrefActs(v, d)
    + [Note(v.dirs - {d}, v.tabs, v.ktabs, v.pins[d := Minus1(v.pins[d])])]
  }

  function LoadActs(kd: nat, current: bool): seq<Act> { if current then [Load(kd)] else [] }

  function EnvFreeActs(v: Vm, d: nat, kd: nat, current: bool): seq<Act>
    requires Shape(v) && d < |v.mem| && kd < |v.mem|
  {
    var v0 := if current then LoadCr3(v, kd) else v;
    match UnmapDir(v0, d, 0)
    case Panic => []
    case Done(v1) => LoadActs(kd, current) + DirActs(v0, d, 0) + FreeDirActs(v1, d)
  }

  // They do what the operations do

  lemma ApplyOne(v: Vm, a: Act)
    requires Shape(v)
    ensures ApplyAll(v, [a]) == Apply(v, a)
  {
    hide Apply;
  }

  lemma ApplyLower(v: Vm, f: nat)
    requires Shape(v) && f < |v.mem|
    ensures Apply(v, Lower(f)) == v.(ref := v.ref[f := Minus1(v.ref[f])])
  {
  }

  lemma ApplyGive(v: Vm, f: nat)
    requires Shape(v) && f < |v.mem| && PageFree(v, f).Done?
    ensures Apply(v, Give(f)) == PageFree(v, f).value
  {
  }

  lemma ApplyLoad(v: Vm, d: nat)
    requires Shape(v) && d < |v.mem|
    ensures Apply(v, Load(d)) == LoadCr3(v, d)
  {
  }

  lemma ApplyCount(v: Vm, f: nat)
    requires Shape(v) && f < |v.mem|
    ensures Apply(v, Count(f)) == IncRef(v, f)
  {
  }

  lemma ApplyWrite(v: Vm, s: Slot, x: Word)
    requires Shape(v) && s.frame < |v.mem|
    ensures Apply(v, Write(s, x)) == Store(v, s, x) && Shape(Store(v, s, x))
  {
  }

  lemma ApplyFlush(v: Vm, va: Word)
    requires Shape(v)
    ensures Apply(v, Flush(va)) == Invlpg(v, va)
  {
  }

  lemma ApplyNote(v: Vm, a: Act)
    requires Shape(v) && a.Note? && |a.pins| == |v.mem|
    ensures Apply(v, a) == v.(dirs := a.dirs, tabs := a.tabs, ktabs := a.ktabs, pins := a.pins)
  {
  }

  lemma ApplyTwo(v: Vm, a: Act, b: Act)
    requires Shape(v)
    ensures ApplyAll(v, [a, b]) == Apply(Apply(v, a), b)
  {
    ApplyOne(Apply(v, a), b);
    assert [a, b][1..] == [b];
    hide Apply;
  }

  lemma AllocDoes(v: Vm, flags: int)
    requires Shape(v)
    ensures ApplyAll(v, AllocActs(v, flags)) == PageAlloc(v, flags).0
  {
    if v.head != NULL {
      ApplyTake(v);
      ApplyFill(PageAlloc(v, 0).0, v.head, ZeroFrame());
      ApplyOne(v, Take);
      ApplyTwo(v, Take, Fill(v.head, ZeroFrame()));
    } else {
      ApplyNone(v);
    }
    hide Apply, ApplyAll, Shape, ZeroFrame;
  }

  lemma ApplyTake(v: Vm)
    requires Shape(v)
    ensures Apply(v, Take) == PageAlloc(v, 0).0
  {
  }

  lemma ApplyFill(v: Vm, f: nat, words: FrameWords)
    requires Shape(v) && f < |v.mem|
    ensures Apply(v, Fill(f, words)) == v.(mem := v.mem[f := words])
  {
  }

  lemma DecrefDoes(v: Vm, f: nat)
    requires Shape(v) && f < |v.mem| && PageDecref(v, f).Done?
    ensures ApplyAll(v, DecrefActs(v, f)) == PageDecref(v, f).value
  {
    var u := v.(ref := v.ref[f := Minus1(v.ref[f])]);
    ApplyLower(v, f);
    if Minus1(v.ref[f]) == 0 {
      ApplyTwo(v, Lower(f), Give(f));
      ApplyGive(u, f);
    } else {
      ApplyOne(v, Lower(f));
    }
    hide Apply, ApplyAll, PageFree;
  }

  lemma ApplyThree(v: Vm, a: Act, b: Act, c: Act)
    requires Shape(v)
    ensures ApplyAll(v, [a, b, c]) == Apply(Apply(Apply(v, a), b), c)
  {
    ApplyTwo(Apply(v, a), b, c);
    assert [a, b, c][1..] == [b, c];
    hide Apply;
  }

  /** Actions one after the other. */
  lemma Then(v: Vm, u: Vm, w: Vm, a: seq<Act>, b: seq<Act>)
    requires Shape(v) && ApplyAll(v, a) == u && ApplyAll(u, b) == w
    ensures ApplyAll(v, a + b) == w
  {
    hide *;
    ApplyConcat(v, a, b);
  }

  lemma InstallDoes(v: Vm, d: nat, i: Index, t: nat)
    requires Shape(v) && d < |v.mem| && t < |v.mem|
    ensures ApplyAll(v, InstallActs(v, d, i, t)) == InstallTable(v, d, i, t)
  {
    var v1 := IncRef(v, t);
    var v2 := Store(v1, Slot(d, i), Entry(t, PTE_PWU));
    var c := InstallNote(v, d, i, t);
    InstallIs(v, d, i, t);
    InstallFits(v, d, i, t);
    assert InstallActs(v, d, i, t) == [Count(t), Write(Slot(d, i), Entry(t, PTE_PWU)), c];
    hide *;
    ApplyThree(v, Count(t), Write(Slot(d, i), Entry(t, PTE_PWU)), c);
    ApplyCount(v, t);
    ApplyWrite(v1, Slot(d, i), Entry(t, PTE_PWU));
    ApplyNote(v2, c);
  }

  lemma InstallFits(v: Vm, d: nat, i: Index, t: nat)
    requires Shape(v) && d < |v.mem| && t < |v.mem|
    ensures |IncRef(v, t).mem| == |v.mem| == |Store(IncRef(v, t), Slot(d, i), Entry(t, PTE_PWU)).mem|
    ensures InstallNote(v, d, i, t).Note? && |InstallNote(v, d, i, t).pins| == |v.mem|
  {
  }

  lemma InstallBooks(v: Vm, d: nat, i: Index, t: nat)
    requires Shape(v) && d < |v.mem| && t < |v.mem|
    ensures var u := Store(IncRef(v, t), Slot(d, i), Entry(t, PTE_PWU));
      u.dirs == v.dirs && u.tabs == v.tabs && u.ktabs == v.ktabs && u.pins == v.pins
  {
    hide Entry, Shape;
  }

  lemma InstallIs(v: Vm, d: nat, i: Index, t: nat)
    requires Shape(v) && d < |v.mem| && t < |v.mem|
    ensures var c := InstallNote(v, d, i, t);
      && c.Note?
      && InstallTable(v, d, i, t)
         == Store(IncRef(v, t), Slot(d, i), Entry(t, PTE_PWU)).(dirs := c.dirs, tabs := c.tabs, ktabs := c.ktabs, pins := c.pins)
  {
    hide Entry, Shape;
  }

  lemma WalkDoes(v: Vm, d: nat, va: Word, create: bool)
    requires Shape(v) && d < |v.mem| && !PgdirWalk(v, d, va, create).WalkPanic?
    ensures ApplyAll(v, WalkActs(v, d, va, create)) == PgdirWalk(v, d, va, create).vm
  {
    if !Present(v.mem[d][PDX(va)]) && create && v.head != NULL {
      MakeDoes(v, d, PDX(va));
    }
    hide ApplyAll, InstallTable, InstallActs, AllocActs, Entry, Frame, Present;
  }

  /** Taking a page and entering it as a table. */
  lemma MakeDoes(v: Vm, d: nat, i: Index)
    requires Shape(v) && d < |v.mem| && v.head != NULL
    ensures ApplyAll(v, AllocActs(v, 1) + InstallActs(v, d, i, v.head))
         == InstallTable(PageAlloc(v, 1).0, d, i, v.head)
  {
    var v1 := PageAlloc(v, 1).0;
    assert InstallActs(v, d, i, v.head) == InstallActs(v1, d, i, v.head);
    hide *;
    AllocDoes(v, 1);
    InstallDoes(v1, d, i, v.head);
    Then(v, v1, InstallTable(v1, d, i, v.head), AllocActs(v, 1), InstallActs(v, d, i, v.head));
  }

  lemma RemoveDoes(v: Vm, d: nat, va: Word)
    requires Shape(v) && d < |v.mem| && PageRemove(v, d, va).Done?
    ensures ApplyAll(v, RemoveActs(v, d, va)) == PageRemove(v, d, va).value
  {
    match PageLookup(v, d, va)
    case Found(f, s) =>
      ClearDoes(v, f, s, va);
      hide PageLookup, PageDecref, ApplyAll;
    case _ =>
      hide PageLookup, PageDecref;
  }

  lemma ClearDoes(v: Vm, f: nat, s: Slot, va: Word)
    requires Shape(v) && f < |v.mem| && s.frame < |v.mem| && PageDecref(v, f).Done?
    ensures ApplyAll(v, DecrefActs(v, f) + [Write(s, 0), Flush(va)])
         == Invlpg(Store(PageDecref(v, f).value, s, 0), va)
  {
    var u := PageDecref(v, f).value;
    WriteFlush(u, s, va);
    hide *;
    DecrefDoes(v, f);
    Then(v, u, Invlpg(Store(u, s, 0), va), DecrefActs(v, f), [Write(s, 0), Flush(va)]);
  }

  lemma WriteFlush(v: Vm, s: Slot, va: Word)
    requires Shape(v) && s.frame < |v.mem|
    ensures ApplyAll(v, [Write(s, 0), Flush(va)]) == Invlpg(Store(v, s, 0), va)
  {
    ApplyTwo(v, Write(s, 0), Flush(va));
    ApplyWrite(v, s, 0);
    ApplyFlush(Store(v, s, 0), va);
    hide *;
  }

  lemma InsertDoes(v: Vm, d: nat, f: nat, va: Word, perm: Perm)
    requires Shape(v) && d < |v.mem| && f < |v.mem| && PageInsert(v, d, f, va, perm).Done?
    requires PgdirWalk(v, d, va, true).At?
    ensures ApplyAll(v, InsertActs(v, d, f, va, perm)) == PageInsert(v, d, f, va, perm).value.0
  {
    var r := PgdirWalk(v, d, va, true);
    WalkDoes(v, d, va, true);
    var u := IncRef(r.vm, f);
    SameWord(r.vm, f, r.slot);
    hide PgdirWalk, WalkActs, RemoveActs, ApplyAll, PageRemove, IncRef, Store, Entry, Present, Apply;
    if Present(WordAt(r.vm, r.slot)) {
      RemoveDoes(u, d, va);
      MapDoes(r.vm, f, RemoveActs(u, d, va), PageRemove(u, d, va).value, r.slot, perm);
    } else {
      ApplyNone(u);
      MapDoes(r.vm, f, [], u, r.slot, perm);
    }
    Then(v, r.vm, PageInsert(v, d, f, va, perm).value.0, WalkActs(v, d, va, true),
         MapActs(r.vm, d, f, va, perm, r.slot));
  }

  lemma ApplyNone(v: Vm)
    requires Shape(v)
    ensures ApplyAll(v, []) == v
  {
  }

  lemma SameWord(v: Vm, f: nat, s: Slot)
    requires Shape(v) && f < |v.mem| && s.frame < |v.mem|
    ensures IncRef(v, f).mem == v.mem && WordAt(IncRef(v, f), s) == WordAt(v, s)
  {
  }

  lemma MapDoes(v: Vm, f: nat, mid: seq<Act>, u: Vm, s: Slot, perm: Perm)
    requires Shape(v) && f < |v.mem| && ApplyAll(IncRef(v, f), mid) == u && s.frame < |u.mem| && f < 0x10_0000
    ensures ApplyAll(v, [Count(f)] + mid + [Write(s, Entry(f, perm))]) == Store(u, s, Entry(f, perm))
  {
    ApplyOne(v, Count(f));
    ApplyOne(u, Write(s, Entry(f, perm)));
    ApplyCount(v, f);
    ApplyWrite(u, s, Entry(f, perm));
    hide *;
    Then(v, IncRef(v, f), u, [Count(f)], mid);
    Then(v, u, Store(u, s, Entry(f, perm)), [Count(f)] + mid, [Write(s, Entry(f, perm))]);
  }

  lemma {:induction false} TableDoes(v: Vm, d: nat, i: Index, t: nat, j: nat)
    requires Shape(v) && d < |v.mem| && t < |v.mem| && j <= NENTRIES && UnmapTable(v, d, i, t, j).Done?
    ensures ApplyAll(v, TableActs(v, d, i, t, j)) == UnmapTable(v, d, i, t, j).value
    decreases NENTRIES - j
  {
    if j < NENTRIES {
      if Present(v.mem[t][j]) {
        var va := PGADDR(i, j, 0);
        var v1 := PageRemove(v, d, va).value;
        RemoveDoes(v, d, va);
        ApplyConcat(v, RemoveActs(v, d, va), TableActs(v1, d, i, t, j + 1));
        hide PageRemove, RemoveActs, ApplyAll, Present, PGADDR;
        TableDoes(v1, d, i, t, j + 1);
      } else {
        hide PageRemove, RemoveActs, ApplyAll, Present, PGADDR;
        TableDoes(v, d, i, t, j + 1);
      }
    }
  }

  lemma DropTableDoes(v: Vm, d: nat, i: Index, t: nat)
    requires Shape(v) && d < |v.mem| && t < |v.mem| && DropTable(v, d, i, t).Done?
    ensures ApplyAll(v, DropTableActs(v, d, i, t)) == DropTable(v, d, i, t).value
  {
    var u := Store(v, Slot(d, i), 0).(tabs := v.tabs - {t});
    assert DecrefActs(u, t) == DecrefActs(v, t);
    UnlinkDoes(v, d, i, t);
    hide ApplyAll, Apply, PageDecref, DecrefActs;
    DecrefDoes(u, t);
    Then(v, u, PageDecref(u, t).value, [Write(Slot(d, i), 0), Note(v.dirs, v.tabs - {t}, v.ktabs, v.pins)],
         DecrefActs(v, t));
  }

  lemma UnlinkDoes(v: Vm, d: nat, i: Index, t: nat)
    requires Shape(v) && d < |v.mem|
    ensures ApplyAll(v, [Write(Slot(d, i), 0), Note(v.dirs, v.tabs - {t}, v.ktabs, v.pins)])
         == Store(v, Slot(d, i), 0).(tabs := v.tabs - {t})
  {
    var c := Note(v.dirs, v.tabs - {t}, v.ktabs, v.pins);
    ApplyTwo(v, Write(Slot(d, i), 0), c);
    ApplyWrite(v, Slot(d, i), 0);
    ApplyNote(Store(v, Slot(d, i), 0), c);
    hide ApplyAll, Apply;
  }

  lemma DirUnfoldEnd(v: Vm, d: nat)
    requires Shape(v) && d < |v.mem|
    ensures DirActs(v, d, UTOP_PDX) == []
  {
  }

  lemma DirUnfoldSkip(v: Vm, d: nat, i: Index)
    requires Shape(v) && d < |v.mem| && i < UTOP_PDX && !Present(v.mem[d][i])
    ensures DirActs(v, d, i) == DirActs(v, d, i + 1)
  {
    hide Present;
  }

  /** The actions for one present entry of the directory. */
  lemma DirUnfoldEntry(v: Vm, d: nat, i: Index, t: nat)
    requires Shape(v) && d < |v.mem| && i < UTOP_PDX && Names(v.mem, Slot(d, i), t) && t < |v.mem|
    requires UnmapTable(v, d, i, t, 0).Done? && DropTable(UnmapTable(v, d, i, t, 0).value, d, i, t).Done?
    ensures var v1 := UnmapTable(v, d, i, t, 0).value;
      DirActs(v, d, i)
      == TableActs(v, d, i, t, 0) + DropTableActs(v1, d, i, t) + DirActs(DropTable(v1, d, i, t).value, d, i + 1)
  {
    assert Present(v.mem[d][i]) && Frame(v.mem[d][i]) == t;
    hide UnmapTable, DropTable, TableActs, DropTableActs, Present, Frame;
  }

  lemma {:induction false} DirDoes(v: Vm, d: nat, i: nat)
    requires Shape(v) && d < |v.mem| && i <= UTOP_PDX && UnmapDir(v, d, i).Done?
    ensures ApplyAll(v, DirActs(v, d, i)) == UnmapDir(v, d, i).value
    decreases UTOP_PDX - i, 1
  {
    if i < UTOP_PDX {
      UnfoldDir(v, d, i);
      hide Shape, ApplyAll, UnmapDir, UnmapTable, DropTable, DirActs, Frame, Present;
      if Present(v.mem[d][i]) {
        EntryDoes(v, d, i, Frame(v.mem[d][i]));
      } else {
        DirUnfoldSkip(v, d, i);
        DirDoes(v, d, i + 1);
      }
    }
  }

  /** A present entry: its table emptied and dropped, then the rest of the directory. */
  lemma EntryDoes(v: Vm, d: nat, i: Index, t: nat)
    requires Shape(v) && d < |v.mem| && i < UTOP_PDX && Present(v.mem[d][i]) && t == Frame(v.mem[d][i]) < |v.mem|
    requires UnmapTable(v, d, i, t, 0).Done? && DropTable(UnmapTable(v, d, i, t, 0).value, d, i, t).Done?
    requires UnmapDir(v, d, i) == UnmapDir(DropTable(UnmapTable(v, d, i, t, 0).value, d, i, t).value, d, i + 1)
    requires UnmapDir(v, d, i).Done?
    ensures ApplyAll(v, DirActs(v, d, i)) == UnmapDir(v, d, i).value
    decreases UTOP_PDX - i, 0
  {
    DirUnfoldEntry(v, d, i, t);
    hide Shape, ApplyAll, UnmapDir, UnmapTable, DropTable, DirActs, TableActs, DropTableActs, Frame, Present;
    var v1 := UnmapTable(v, d, i, t, 0).value;
    var v2 := DropTable(v1, d, i, t).value;
    TableDoes(v, d, i, t, 0);
    DropTableDoes(v1, d, i, t);
    DirDoes(v2, d, i + 1);
    Then(v, v1, v2, TableActs(v, d, i, t, 0), DropTableActs(v1, d, i, t));
    Then(v, v2, UnmapDir(v2, d, i + 1).value, TableActs(v, d, i, t, 0) + DropTableActs(v1, d, i, t), DirActs(v2, d, i + 1));
  }

  lemma FreeDirDoes(v: Vm, d: nat)
    requires Shape(v) && d < |v.mem| && PageDecref(RetireDir(v, d), d).Done?
    ensures var w := PageDecref(RetireDir(v, d), d).value;
      ApplyAll(v, FreeDirActs(v, d)) == w.(pins := w.pins[d := Minus1(w.pins[d])])
  {
    var a := Note(v.dirs - {d}, v.tabs, v.ktabs, v.pins);
    var c := Note(v.dirs - {d}, v.tabs, v.ktabs, v.pins[d := Minus1(v.pins[d])]);
    var u := RetireDir(v, d);
    var w := PageDecref(u, d).value;
    assert DecrefActs(u, d) == DecrefActs(v, d);
    NoteOne(v, a);
    NoteOne(w, c);
    DecrefKeeps(u, d);
    hide ApplyAll, Apply, DecrefActs, PageDecref;
    DecrefDoes(u, d);
    Then(v, u, w, [a], DecrefActs(v, d));
    Then(v, w, w.(pins := w.pins[d := Minus1(w.pins[d])]), [a] + DecrefActs(v, d), [c]);
  }

  lemma NoteOne(v: Vm, a: Act)
    requires Shape(v) && a.Note? && |a.pins| == |v.mem|
    ensures ApplyAll(v, [a]) == v.(dirs := a.dirs, tabs := a.tabs, ktabs := a.ktabs, pins := a.pins)
  {
    ApplyOne(v, a);
    ApplyNote(v, a);
    hide *;
  }

  lemma DecrefKeeps(v: Vm, f: nat)
    requires Shape(v) && f < |v.mem| && PageDecref(v, f).Done?
    ensures var w := PageDecref(v, f).value;
      && w.mem == v.mem && w.dirs == v.dirs && w.tabs == v.tabs && w.ktabs == v.ktabs && w.pins == v.pins
      && w.cr3 == v.cr3 && w.tlb == v.tlb
  {
  }

  lemma EnvFreeDoes(v: Vm, d: nat, kd: nat, current: bool)
    requires Shape(v) && d < |v.mem| && kd < |v.mem| && EnvFree(v, d, kd, current).Done?
    ensures ApplyAll(v, EnvFreeActs(v, d, kd, current)) == EnvFree(v, d, kd, current).value
  {
    var v0 := if current then LoadCr3(v, kd) else v;
    LoadDoes(v, kd, current);
    hide ApplyAll, UnmapDir, DirActs, FreeDirActs, LoadActs, PageDecref, LoadCr3;
    var v1 := UnmapDir(v0, d, 0).value;
    var w := PageDecref(RetireDir(v1, d), d).value;
    DirDoes(v0, d, 0);
    FreeDirDoes(v1, d);
    Then(v, v0, v1, LoadActs(kd, current), DirActs(v0, d, 0));
    Then(v, v1, w.(pins := w.pins[d := Minus1(w.pins[d])]),
         LoadActs(kd, current) + DirActs(v0, d, 0), FreeDirActs(v1, d));
  }

  lemma LoadDoes(v: Vm, kd: nat, current: bool)
    requires Shape(v) && kd < |v.mem|
    ensures ApplyAll(v, LoadActs(kd, current)) == if current then LoadCr3(v, kd) else v
  {
    ApplyOne(v, Load(kd));
    ApplyLoad(v, kd);
    ApplyNone(v);
    hide Apply, ApplyAll, LoadCr3;
  }

}
