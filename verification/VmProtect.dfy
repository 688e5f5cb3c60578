/** Who may access what: the rights the two levels of entries give a user, at boot and over every
    run, as the memory layout promises them (inc/memlayout.h). */
module VmProtect {
  import opened Bits
  import opened Mmu
  import opened VmOps
  import opened VmInv
  import opened VmMap
  import opened VmPages
  import opened VmTeardown
  import opened VmTlb
  import opened VmActs
  import opened VmTrack
  import opened VmOrder
  import opened VmRuns
  import opened VmShared
  import Boot

  // Rights (section 4.6 of the Intel SDM Volume 3A): user (4) and write (2) must be set at both levels

  predicate UserReads(v: Vm, d: nat, p: Page)
    requires d < |v.mem|
  {
    && Translate(v.mem, d, p).Some?
    && And(v.mem[d][p.pdx], 4) != 0 && And(Translate(v.mem, d, p).value, 4) != 0
  }

  predicate UserWrites(v: Vm, d: nat, p: Page)
    requires d < |v.mem|
  {
    && UserReads(v, d, p)
    && And(v.mem[d][p.pdx], 2) != 0 && And(Translate(v.mem, d, p).value, 2) != 0
  }

  /** The directories' own entries: at UVPT the directory itself, for users to read; elsewhere open,
      so that a page's rights are those of its own entry. */
  ghost predicate DirsOpen(v: Vm) {
    forall d, i: Index :: d in v.dirs && d < |v.mem| ==> DirWord(v, d, i)
  }

  predicate DirWord(v: Vm, d: nat, i: Index)
    requires d < |v.mem|
  {
    if i == 957 then v.mem[d][i] == d * 4096 + 5 else Present(v.mem[d][i]) ==> v.mem[d][i] % 4096 == 7
  }

  /** Above UTOP every directory maps what mem_init mapped, UVPT apart. */
  ghost predicate KernelKept(v: Vm, pagesPa: Word, stackPa: Word) {
    forall d, p: Page :: d in v.dirs && d < |v.mem| && Above(p.pdx) ==> Boot.KernelAt(v, d, p, pagesPa, stackPa)
  }

  // What they mean for a user

  lemma FiveThree(f: nat)
    requires f < 0x10_0000
    ensures And(f * 4096 + 5, 4) != 0 && And(f * 4096 + 5, 2) == 0
    ensures And(f * 4096 + 3, 4) == 0 && And(f * 4096 + 3, 2) != 0
  {
    RightsForms(f * 4096 + 5);
    RightsForms(f * 4096 + 3);
    LowRights(f);
    hide And;
  }

  lemma LowRights(f: nat)
    ensures (f * 4096 + 5) / 4 % 2 == 1 && (f * 4096 + 5) / 2 % 2 == 0
    ensures (f * 4096 + 3) / 4 % 2 == 0 && (f * 4096 + 3) / 2 % 2 == 1
  {
    Quotients(f);
    Parity(f * 512);
    Parity(f * 1024);
    Parity(f * 1024 + 1);
    hide *;
  }

  lemma Parity(k: nat)
    ensures (2 * k) % 2 == 0 && (2 * k + 1) % 2 == 1
  {
  }

  lemma Quotients(f: nat)
    ensures (f * 4096 + 5) / 4 == 2 * (f * 512) + 1 && (f * 4096 + 5) / 2 == 2 * (f * 1024 + 1)
    ensures (f * 4096 + 3) / 4 == 2 * (f * 512) && (f * 4096 + 3) / 2 == 2 * (f * 1024) + 1
  {
  }

  lemma SevenOpen(w: Word)
    requires w % 4096 == 7
    ensures And(w, 4) != 0 && And(w, 2) != 0
  {
    RightsForms(w);
    var f := w / 4096;
    assert w == f * 4096 + 7;
    assert w / 4 == f * 1024 + 1 && w / 2 == f * 2048 + 3;
    hide And;
  }

  /** In every directory: no user access from ULIM (index 958) up; pages[] at index 956 to read and
      not to write; the page tables at UVPT not to write; nothing at index 955; and below UTOP the
      rights of the page's own entry. The kernel may write the stack and physical memory. */
  lemma Rights(v: Vm, d: nat, p: Page, pagesPa: Word, stackPa: Word)
    requires DirsOpen(v) && KernelKept(v, pagesPa, stackPa) && d in v.dirs && d < |v.mem|
    ensures p.pdx >= 958 ==> !UserReads(v, d, p)
    ensures p.pdx == 957 ==> !UserWrites(v, d, p)
    ensures p.pdx == 956 ==> UserReads(v, d, p) && !UserWrites(v, d, p)
    ensures p.pdx == 955 ==> Translate(v.mem, d, p) == None
    ensures p.pdx < 955 && Translate(v.mem, d, p).Some? ==>
      && (UserReads(v, d, p) <==> And(Translate(v.mem, d, p).value, 4) != 0)
      && (UserWrites(v, d, p)
          <==> And(Translate(v.mem, d, p).value, 4) != 0 && And(Translate(v.mem, d, p).value, 2) != 0)
    ensures p.pdx >= 958 && Translate(v.mem, d, p).Some? ==> And(Translate(v.mem, d, p).value, 2) != 0
  {
    assert DirWord(v, d, p.pdx);
    PresentBelow(v, d, p);
    if p.pdx == 957 {
      FiveThree(d);
    } else {
      if Translate(v.mem, d, p).Some? { SevenOpen(v.mem[d][p.pdx]); }
      if Above(p.pdx) {
        assert Boot.KernelAt(v, d, p, pagesPa, stackPa);
        KernelWordRights(v, d, p, pagesPa, stackPa);
      }
    }
    hide And, Translate, KernelKept, DirsOpen;
  }

  lemma PresentBelow(v: Vm, d: nat, p: Page)
    requires d < |v.mem|
    ensures Translate(v.mem, d, p).Some? ==> Present(v.mem[d][p.pdx])
    ensures p.pdx == 957 && v.mem[d][957] == d * 4096 + 5 ==> d < 0x10_0000
  {
  }

  lemma KernelWordRights(v: Vm, d: nat, p: Page, pagesPa: Word, stackPa: Word)
    requires d < |v.mem| && Above(p.pdx) && Boot.KernelAt(v, d, p, pagesPa, stackPa)
    ensures p.pdx == 955 ==> Translate(v.mem, d, p) == None
    ensures p.pdx == 956 ==>
      && Translate(v.mem, d, p).Some?
      && And(Translate(v.mem, d, p).value, 4) != 0 && And(Translate(v.mem, d, p).value, 2) == 0
    ensures p.pdx >= 958 && Translate(v.mem, d, p).Some? ==>
      And(Translate(v.mem, d, p).value, 4) == 0 && And(Translate(v.mem, d, p).value, 2) != 0
  {
    hide And, Translate;
    if p.pdx == 956 {
      FiveThree((pagesPa / 4096 + p.ptx) % 0x10_0000);
    } else if p.pdx >= 960 {
      FiveThree((p.pdx - 960) * 1024 + p.ptx);
    } else if p.pdx == 959 && p.ptx >= 1016 {
      FiveThree((stackPa / 4096 + p.ptx - 1016) % 0x10_0000);
    }
  }

  // Every operation keeps the directories open

  lemma KeptOpen(v: Vm, w: Vm)
    requires DirsOpen(v) && DirsKept(v, w)
    ensures DirsOpen(w)
  {
    forall d, i: Index | d in w.dirs && d < |w.mem| ensures DirWord(w, d, i) {
      assert DirWord(v, d, i);
    }
  }

  lemma WalkOpen(v: Vm, d: nat, va: Word, create: bool)
    requires Inv(v) && Shape(v) && d in v.dirs && d < |v.mem| && DirsOpen(v)
    ensures !PgdirWalk(v, d, va, create).WalkPanic? && DirsOpen(PgdirWalk(v, d, va, create).vm)
  {
    WalkKept(v, d, va, create);
    var w := PgdirWalk(v, d, va, create).vm;
    assert DirWord(v, d, 957);
    hide Inv, PgdirWalk, Shape, DirWord, Present;
    forall e, i: Index | e in w.dirs && e < |w.mem| ensures DirWord(w, e, i) {
      assert DirWord(v, e, i);
      WalkWord(v, w, d, PDX(va), e, i);
    }
  }

  lemma WalkWord(v: Vm, w: Vm, d: nat, j: Index, e: nat, i: Index)
    requires d < |v.mem| == |w.mem| && e < |v.mem| && DirWord(v, e, i) && DirWord(v, d, 957)
    requires e != d || i != j ==> w.mem[e][i] == v.mem[e][i]
    requires w.mem == v.mem || (!Present(v.mem[d][j]) && w.mem[d][j] % 4096 == 7)
    ensures DirWord(w, e, i)
  {
  }

  lemma NewDirOpen(v: Vm, p: nat, kd: nat)
    requires Inv(v) && Shape(v) && p in v.loose && kd in v.dirs && p < |v.mem| && kd < |v.mem| && DirsOpen(v)
    ensures DirsOpen(MakeDir(v, p, kd))
  {
    LooseIsData(v, p);
    DirImageWords(v, p, kd);
    var w := MakeDir(v, p, kd);
    OtherFrames(v, p, kd);
    hide Inv, MakeDir, Shape;
    forall d, i: Index | d in w.dirs && d < |w.mem| ensures DirWord(w, d, i) {
      if d == p { assert DirWord(v, kd, i); } else { assert DirWord(v, d, i); }
    }
  }

  lemma OtherFrames(v: Vm, p: nat, kd: nat)
    requires Shape(v) && p < |v.mem| && kd < |v.mem|
    ensures var w := MakeDir(v, p, kd);
      |w.mem| == |v.mem| && w.dirs == v.dirs + {p} && forall g :: 0 <= g < |v.mem| && g != p ==> w.mem[g] == v.mem[g]
  {
    hide DirImage;
  }

  lemma NewEnvOpen(v: Vm, kd: nat)
    requires Safe(v) && Shape(v) && Enabled(v, NewEnv(kd)) && DirsOpen(v)
    ensures Step(v, NewEnv(kd)).Done? && DirsOpen(Step(v, NewEnv(kd)).value)
  {
    NewEnvParts(v, kd);
    AllocSafe(v, 1);
    TakenDir(v, kd);
    var (w, p) := PageAlloc(v, 1);
    SafeCr3(v);
    SafeCr3(w);
    hide Inv, Coherent, PageAlloc, MakeDir, Shape, Acts, Step, Safe;
    AllocKept(v, 1);
    KeptOpen(v, w);
    if p != NULL { NewDirOpen(w, p, kd); }
  }

  lemma StepOpen(v: Vm, op: Op)
    requires Safe(v) && Shape(v) && Enabled(v, op) && DirsOpen(v)
    ensures Step(v, op).Done? && DirsOpen(Step(v, op).value)
  {
    SafeCr3(v);
    hide Inv, Coherent, DirsOpen, DirsKept, Shape, PgdirWalk, PageInsert, Safe;
    match op
    case Walk(d, va, create) => WalkOpen(v, d, va, create);
    case Insert(d, f, va, perm) =>
      InsertKept(v, d, f, va, perm);
      WalkOpen(v, d, va, true);
      KeptOpen(PgdirWalk(v, d, va, true).vm, PageInsert(v, d, f, va, perm).value.0);
    case NewEnv(kd) => NewEnvOpen(v, kd);
    case _ =>
      StepKept(v, op);
      KeptOpen(v, Step(v, op).value);
  }

  // Every operation keeps what is mapped above UTOP

  /** The directories of w are some of v's and translate alike above UTOP, UVPT apart. */
  ghost predicate MapsKept(v: Vm, w: Vm) {
    && |w.mem| == |v.mem| && w.dirs <= v.dirs
    && forall d, p: Page :: d in w.dirs && d < |v.mem| && Above(p.pdx) ==>
         Translate(w.mem, d, p) == Translate(v.mem, d, p)
  }

  lemma KeptKernel(v: Vm, w: Vm, pagesPa: Word, stackPa: Word)
    requires KernelKept(v, pagesPa, stackPa) && MapsKept(v, w)
    ensures KernelKept(w, pagesPa, stackPa)
  {
    hide Translate;
    forall d, p: Page | d in w.dirs && d < |w.mem| && Above(p.pdx) ensures Boot.KernelAt(w, d, p, pagesPa, stackPa) {
      assert Boot.KernelAt(v, d, p, pagesPa, stackPa);
    }
  }

  lemma SameMapKept(v: Vm, w: Vm)
    requires SameMap(v, w) && w.dirs == v.dirs
    ensures MapsKept(v, w)
  {
    hide Translate;
  }

  lemma AllocMaps(v: Vm, flags: int)
    requires Inv(v) && Shape(v)
    ensures MapsKept(v, PageAlloc(v, flags).0)
  {
    PageAllocInv(v, flags);
    var (w, f) := PageAlloc(v, flags);
    if f != NULL {
      DataIrrelevant(v, w);
      hide Inv, SameMap, MapsKept;
      SameMapKept(v, w);
    } else {
      hide Inv;
    }
  }

  lemma MemMaps(v: Vm, w: Vm)
    requires w.mem == v.mem && w.dirs == v.dirs
    ensures MapsKept(v, w)
  {
    hide Translate;
  }

  lemma WalkMaps(v: Vm, d: nat, va: Word, create: bool)
    requires Inv(v) && Shape(v) && d in v.dirs && d < |v.mem|
    ensures !PgdirWalk(v, d, va, create).WalkPanic? && MapsKept(v, PgdirWalk(v, d, va, create).vm)
  {
    PgdirWalkMap(v, d, va, create);
    WalkCpu(v, d, va, create);
    hide Inv, PgdirWalk, Translate, Shape;
  }

  lemma InsertMaps(v: Vm, d: nat, f: nat, va: Word, perm: Perm)
    requires Inv(v) && Shape(v) && d in v.dirs && d < |v.mem| && va < UTOP
    requires f < |v.mem| && f < |v.ref| && IsData(v, f) && f !in v.free && RoomFor(v, d, f, va)
    ensures PageInsert(v, d, f, va, perm).Done? && MapsKept(v, PageInsert(v, d, f, va, perm).value.0)
  {
    PageInsertCorrect(v, d, f, va, perm);
    BelowUtop(va);
    hide Inv, PageInsert, Translate, Shape, RoomFor, NeedsTable;
  }

  lemma RemoveMaps(v: Vm, d: nat, va: Word)
    requires Inv(v) && Shape(v) && d in v.dirs && d < |v.mem| && va < UTOP && Removable(v, d, va)
    ensures PageRemove(v, d, va).Done? && MapsKept(v, PageRemove(v, d, va).value)
  {
    PageRemoveCorrect(v, d, va);
    BelowUtop(va);
    hide Inv, PageRemove, Translate, Shape, Removable, Mapped;
  }

  lemma EnvFreeMaps(v: Vm, d: nat, kd: nat, current: bool)
    requires Inv(v) && Shape(v) && Coherent(v) && d in v.dirs && kd in v.dirs && kd != d && d < |v.mem| && kd < |v.mem|
    requires v.cr3 == d ==> current
    ensures EnvFree(v, d, kd, current).Done? && MapsKept(v, EnvFree(v, d, kd, current).value)
  {
    EnvFreeCorrect(v, d, kd, current);
    hide Inv, EnvFree, Translate, Coherent, Shape, Reclaimed;
  }

  lemma StepMaps(v: Vm, op: Op)
    requires Safe(v) && Shape(v) && Enabled(v, op) && !op.NewEnv?
    ensures Step(v, op).Done? && MapsKept(v, Step(v, op).value)
  {
    StepSafe(v, op);
    SafeCr3(v);
    hide Inv, Coherent, MapsKept, Shape, PageRemove, EnvFree, PageAlloc, PageDecref, PgdirWalk, PageInsert, Safe;
    match op
    case Alloc(flags) => AllocMaps(v, flags);
    case Walk(d, va, create) => WalkMaps(v, d, va, create);
    case Insert(d, f, va, perm) => InsertMaps(v, d, f, va, perm);
    case Remove(d, va) => RemoveMaps(v, d, va);
    case DestroyEnv(d, kd, current) => EnvFreeMaps(v, d, kd, current);
    case Free(f) => MemMaps(v, PageFree(v, f).value);
    case Hold(f) => MemMaps(v, Pin(v, f));
    case Release(f) => DecrefKeeps(v, f); MemMaps(v, Unpin(v, f).value);
    case Switch(d) => MemMaps(v, LoadCr3(v, d));
  }

  /** A new environment maps above UTOP what the kernel's directory maps. */
  lemma NewDirMaps(v: Vm, p: nat, kd: nat, d: nat, g: Page)
    requires Inv(v) && Shape(v) && p in v.loose && kd in v.dirs && p < |v.mem| && kd < |v.mem| && Above(g.pdx)
    requires d in v.dirs || d == p
    ensures d < |v.mem| == |MakeDir(v, p, kd).mem|
    ensures Translate(MakeDir(v, p, kd).mem, d, g) == Translate(v.mem, if d == p then kd else d, g)
  {
    LooseIsData(v, p);
    OtherFrames(v, p, kd);
    DirImageWords(v, p, kd);
    var e := if d == p then kd else d;
    DirShape(v, e);
    if Present(v.mem[e][g.pdx]) {
      WalkReads(v, e, g.pdx);
      LooseNoTable(v, p);
    }
    hide Inv, MakeDir, Shape, Present;
  }

  lemma LooseNoTable(v: Vm, p: nat)
    requires Inv(v) && p in v.loose
    ensures p !in v.dirs && p !in v.ktabs && p !in v.tabs
  {
    LooseIsData(v, p);
    hide Inv;
  }

  lemma NewDirKernel(v: Vm, p: nat, kd: nat, pagesPa: Word, stackPa: Word)
    requires Inv(v) && Shape(v) && p in v.loose && kd in v.dirs && p < |v.mem| && kd < |v.mem|
    requires KernelKept(v, pagesPa, stackPa)
    ensures KernelKept(MakeDir(v, p, kd), pagesPa, stackPa)
  {
    var w := MakeDir(v, p, kd);
    OtherFrames(v, p, kd);
    hide Inv, MakeDir, Shape, Translate;
    forall d, g: Page | d in w.dirs && d < |w.mem| && Above(g.pdx) ensures Boot.KernelAt(w, d, g, pagesPa, stackPa) {
      NewDirMaps(v, p, kd, d, g);
      assert Boot.KernelAt(v, if d == p then kd else d, g, pagesPa, stackPa);
    }
  }

  lemma NewEnvKernel(v: Vm, kd: nat, pagesPa: Word, stackPa: Word)
    requires Safe(v) && Shape(v) && Enabled(v, NewEnv(kd)) && KernelKept(v, pagesPa, stackPa)
    ensures Step(v, NewEnv(kd)).Done? && KernelKept(Step(v, NewEnv(kd)).value, pagesPa, stackPa)
  {
    NewEnvParts(v, kd);
    AllocSafe(v, 1);
    TakenDir(v, kd);
    var (w, p) := PageAlloc(v, 1);
    SafeCr3(v);
    SafeCr3(w);
    hide Inv, Coherent, PageAlloc, MakeDir, Shape, Acts, Step, Safe, KernelKept, MapsKept;
    AllocMaps(v, 1);
    KeptKernel(v, w, pagesPa, stackPa);
    if p != NULL { NewDirKernel(w, p, kd, pagesPa, stackPa); }
  }

  // Runs

  ghost predicate Guarded(v: Vm, pagesPa: Word, stackPa: Word) {
    Safe(v) && DirsOpen(v) && KernelKept(v, pagesPa, stackPa)
  }

  lemma StepGuarded(v: Vm, op: Op, pagesPa: Word, stackPa: Word)
    requires Guarded(v, pagesPa, stackPa) && Shape(v) && Enabled(v, op)
    ensures Step(v, op).Done? && Guarded(Step(v, op).value, pagesPa, stackPa)
  {
    hide Safe, DirsOpen, KernelKept, MapsKept, Step, Enabled, Shape;
    StepSafe(v, op);
    StepOpen(v, op);
    if op.NewEnv? {
      NewEnvKernel(v, op.kd, pagesPa, stackPa);
    } else {
      StepMaps(v, op);
      KeptKernel(v, Step(v, op).value, pagesPa, stackPa);
    }
  }

  lemma TlbGuarded(v: Vm, w: Vm, pagesPa: Word, stackPa: Word)
    requires Guarded(v, pagesPa, stackPa) && Safe(w) && w == v.(tlb := w.tlb)
    ensures Guarded(w, pagesPa, stackPa)
  {
    hide Safe, Translate;
    MemKept(v, w);
    KeptOpen(v, w);
    MemMaps(v, w);
    KeptKernel(v, w, pagesPa, stackPa);
  }

  lemma RanGuarded(v: Vm, op: Op, u: Vm, pagesPa: Word, stackPa: Word)
    requires Guarded(v, pagesPa, stackPa) && Shape(v) && Enabled(v, op) && Runs(v, Acts(v, op), u)
    ensures Guarded(u, pagesPa, stackPa)
  {
    GuardedSafe(v, pagesPa, stackPa);
    hide *;
    StepGuarded(v, op, pagesPa, stackPa);
    RanSafe(v, op, u);
    StepOrdered(v, op);
    var r, acts := Step(v, op).value, Acts(v, op);
    assert acts[..|acts|] == acts;
    OrderedAt(v, acts, r, Pending(v, op), |acts|, u);
    TlbGuarded(r, u, pagesPa, stackPa);
  }

  lemma GuardedSafe(v: Vm, pagesPa: Word, stackPa: Word)
    requires Guarded(v, pagesPa, stackPa)
    ensures Safe(v)
  {
  }

  /** Over every run, with any fills, every directory keeps these rights. */
  lemma {:induction false} RunGuarded(v: Vm, ops: seq<Op>, w: Vm, pagesPa: Word, stackPa: Word)
    requires Guarded(v, pagesPa, stackPa) && Shape(v) && Reaches(v, ops, w)
    ensures Guarded(w, pagesPa, stackPa)
    decreases |ops|
  {
    if ops == [] {
      FilledSafeAgain(v, w);
      hide Safe;
      TlbGuarded(v, w, pagesPa, stackPa);
    } else {
      hide Guarded, Enabled, Runs, Acts, Shape;
      var u :| Shape(u) && Runs(v, Acts(v, ops[0]), u) && Reaches(u, ops[1..], w);
      RanGuarded(v, ops[0], u, pagesPa, stackPa);
      RunGuarded(u, ops[1..], w, pagesPa, stackPa);
    }
  }

  // Boot

  /** boot_map_region leaves open entries in the directory. */
  lemma {:induction false} BootMapOpen(v: Vm, d: nat, a: nat, n: nat, pa: Word, perm: Perm)
    requires Inv(v) && Shape(v) && d in v.dirs && d < |v.mem| && Boot.KernelRange(a, n) && pa % 4096 == 0 && DirsOpen(v)
    ensures var r := Boot.BootMap(v, d, Boot.VaOf(a), n, pa, perm); r.Done? ==> DirsOpen(r.value)
    decreases n
  {
    hide *;
    if n == 0 {
      Boot.BootMapNone(v, d, Boot.VaOf(a), pa, perm);
    } else {
      Boot.RangeHead(a, n);
      Boot.MapOnePage(v, d, a, pa, perm);
      Boot.UnfoldMap(v, d, a, n, pa, perm);
      var r := PgdirWalk(v, d, a * 4096, true);
      if r.At? {
        var v1 := Store(r.vm, r.slot, Entry(pa / 4096, perm));
        Boot.StepKeepsDirs(v, v1, d, a, pa, perm);
        PageOpen(v, d, a, pa, perm);
        BootMapOpen(v1, d, a + 1, n - 1, Boot.NextPage(pa), perm);
      }
    }
  }

  lemma PageOpen(v: Vm, d: nat, a: nat, pa: Word, perm: Perm)
    requires Inv(v) && Shape(v) && d in v.dirs && d < |v.mem| && a < 0x10_0000 && Boot.KernelRange(a, 1) && DirsOpen(v)
    requires PgdirWalk(v, d, a * 4096, true).At?
    ensures var r := PgdirWalk(v, d, a * 4096, true); DirsOpen(Store(r.vm, r.slot, Entry(pa / 4096, perm)))
  {
    var r := PgdirWalk(v, d, a * 4096, true);
    WalkOpen(v, d, a * 4096, true);
    Boot.AboveUtop(a);
    WalkFound(v, r.vm, d, a * 4096, r.slot);
    Boot.WalkSlotAbove(r.vm, d, a * 4096, r.slot);
    KtabIsNoDir(r.vm, r.slot.frame);
    hide Inv, PgdirWalk, Shape, DirsOpen, Entry;
    FrameKept(r.vm, Store(r.vm, r.slot, Entry(pa / 4096, perm)), r.slot.frame);
    KeptOpen(r.vm, Store(r.vm, r.slot, Entry(pa / 4096, perm)));
  }

  lemma KtabIsNoDir(v: Vm, t: nat)
    requires Inv(v) && t in v.ktabs
    ensures t !in v.dirs
  {
  }

  /** From the cleared page structures on, with page_init's and mem_init's own choice of memory,
      boot leaves these rights. */
  lemma BootGuarded(v: Vm, kd: nat, mark: nat, pagesPa: Word, stackPa: Word)
    requires Boot.Fresh(v, kd, mark) && pagesPa % 4096 == 0 && stackPa % 4096 == 0
    requires |Boot.FreeBelow(|v.mem|, mark)| >= 66
    ensures Shape(v)
    ensures var b := Boot.MemInit(Boot.PageInit(v, mark), kd, pagesPa, stackPa);
      b.Done? && Guarded(b.value, pagesPa, stackPa)
  {
    Boot.PageInitCorrect(v, kd, mark);
    var u := Boot.PageInit(v, mark);
    FreshOpen(v, u, kd);
    hide Inv, Boot.PageInit, Boot.MemInit, Shape, DirsOpen, KernelKept;
    Boot.MemInitCorrect(u, kd, pagesPa, stackPa);
    MemInitOpen(u, kd, pagesPa, stackPa);
    KernelAll(Boot.MemInit(u, kd, pagesPa, stackPa).value, kd, pagesPa, stackPa);
  }

  lemma FreshOpen(v: Vm, u: Vm, kd: nat)
    requires Boot.Cleared(v, kd) && u.mem == v.mem && u.dirs == {kd}
    ensures DirsOpen(u)
  {
  }

  lemma KernelAll(w: Vm, kd: nat, pagesPa: Word, stackPa: Word)
    requires Boot.KernelMap(w, kd, pagesPa, stackPa) && w.dirs == {kd}
    ensures KernelKept(w, pagesPa, stackPa)
  {
    hide Boot.KernelAt;
  }

  lemma MemInitOpen(v: Vm, kd: nat, pagesPa: Word, stackPa: Word)
    requires Inv(v) && Shape(v) && v.dirs == {kd} && kd < |v.mem| && pagesPa % 4096 == 0 && stackPa % 4096 == 0
    requires DirsOpen(v)
    ensures var r := Boot.MemInit(v, kd, pagesPa, stackPa); r.Done? ==> DirsOpen(r.value) && r.value.dirs == {kd}
  {
    Boot.PageCounts();
    hide Inv, Shape, DirsOpen, Boot.BootMap;
    RegionOpen(v, kd, Boot.UPAGES_VPN, 1024, pagesPa, PTE_PU);
    var r1 := Boot.BootMap(v, kd, UPAGES, 1024, pagesPa, PTE_PU);
    if r1.Done? {
      RegionOpen(r1.value, kd, Boot.STACK_VPN, 8, stackPa, PTE_PW);
      var r2 := Boot.BootMap(r1.value, kd, KSTACKBASE, 8, stackPa, PTE_PW);
      if r2.Done? {
        RegionOpen(r2.value, kd, Boot.KERNBASE_VPN, 65536, 0, PTE_PW);
        var r3 := Boot.BootMap(r2.value, kd, KERNBASE, 65536, 0, PTE_PW);
        if r3.Done? { LoadedOpen(r3.value, kd); }
      }
    }
  }

  lemma LoadedOpen(v: Vm, kd: nat)
    requires DirsOpen(v)
    ensures DirsOpen(LoadCr3(v, kd)) && LoadCr3(v, kd).dirs == v.dirs
  {
    MemKept(v, LoadCr3(v, kd));
    KeptOpen(v, LoadCr3(v, kd));
  }

  lemma RegionOpen(v: Vm, kd: nat, a: nat, n: nat, pa: Word, perm: Perm)
    requires Inv(v) && Shape(v) && v.dirs == {kd} && kd < |v.mem| && Boot.KernelRange(a, n) && pa % 4096 == 0 && DirsOpen(v)
    ensures var r := Boot.BootMap(v, kd, Boot.VaOf(a), n, pa, perm);
      r.Done? ==> Inv(r.value) && Shape(r.value) && r.value.dirs == {kd} && kd < |r.value.mem| && DirsOpen(r.value)
  {
    hide Inv, Shape, DirsOpen, Boot.BootMap, Boot.MapDone;
    Boot.BootMapCorrect(v, kd, a, n, pa, perm);
    BootMapOpen(v, kd, a, n, pa, perm);
    MapDoneParts(v, Boot.BootMap(v, kd, Boot.VaOf(a), n, pa, perm), kd, a, n, pa, perm);
  }

  lemma MapDoneParts(v: Vm, r: Res<Vm>, d: nat, a: nat, n: nat, pa: Word, perm: Perm)
    requires Boot.MapDone(v, r, d, a, n, pa, perm)
    ensures r.Done? ==> Inv(r.value) && Shape(r.value) && r.value.dirs == v.dirs && d < |r.value.mem|
  {
    if r.Done? { InvShape(r.value); }
    hide Inv, Boot.RangeMapped;
  }
}
