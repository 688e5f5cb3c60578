/** The address space above UTOP is the same in every directory, UVPT apart, as long as no
    creating walk makes a kernel table in one directory of several. */
module VmShared {
  import opened Mmu
  import opened VmOps
  import opened VmInv
  import opened VmMap
  import opened VmPages
  import opened VmTeardown
  import opened VmTlb
  import opened VmActs
  import opened VmTrack
  import opened VmOrder
  import opened VmRuns

  predicate Above(i: Index) { i >= UTOP_PDX && i != UVPT_PDX }

  /** All directories have the same entries above UTOP, UVPT apart. */
  ghost predicate SameAbove(v: Vm) {
    forall d, e, i: Index :: d in v.dirs && e in v.dirs && d < |v.mem| && e < |v.mem| && Above(i)
      ==> v.mem[d][i] == v.mem[e][i]
  }

  /** The operation makes a kernel table in one directory while there are others. */
  ghost predicate Private(v: Vm, op: Op) {
    && op.Walk? && op.create && Above(PDX(op.va)) && op.d < |v.mem| && !Present(v.mem[op.d][PDX(op.va)])
    && v.free != [] && v.dirs != {op.d}
  }

  /** Every directory of w is one of v, unchanged. */
  ghost predicate DirsKept(v: Vm, w: Vm) {
    && |w.mem| == |v.mem| && w.dirs <= v.dirs
    && forall d :: d in w.dirs && d < |v.mem| ==> w.mem[d] == v.mem[d]
  }

  lemma KeptSame(v: Vm, w: Vm)
    requires SameAbove(v) && DirsKept(v, w)
    ensures SameAbove(w)
  {
  }

  lemma MemKept(v: Vm, w: Vm)
    requires w.mem == v.mem && w.dirs == v.dirs
    ensures DirsKept(v, w)
  {
  }

  /** One frame that is no directory has changed. */
  lemma FrameKept(v: Vm, w: Vm, t: nat)
    requires |w.mem| == |v.mem| && w.dirs == v.dirs && t !in v.dirs
    requires forall g :: 0 <= g < |v.mem| && g != t ==> w.mem[g] == v.mem[g]
    ensures DirsKept(v, w)
  {
  }

  lemma AllocKept(v: Vm, flags: int)
    requires Inv(v) && Shape(v)
    ensures DirsKept(v, PageAlloc(v, flags).0)
  {
    PageAllocInv(v, flags);
    hide Inv, PageAlloc;
  }

  /** A creating walk writes the one entry for va. */
  lemma WalkKept(v: Vm, d: nat, va: Word, create: bool)
    requires Inv(v) && Shape(v) && d in v.dirs && d < |v.mem|
    ensures var r := PgdirWalk(v, d, va, create);
      && !r.WalkPanic? && |r.vm.mem| == |v.mem| && r.vm.dirs == v.dirs
      && (forall e, i: Index :: e in v.dirs && e < |v.mem| && (e != d || i != PDX(va)) ==> r.vm.mem[e][i] == v.mem[e][i])
      && (if create && v.free != [] && !Present(v.mem[d][PDX(va)]) then r.vm.mem[d][PDX(va)] % 4096 == 7
          else r.vm.mem == v.mem)
  {
    PgdirWalkKeeps(v, d, va, create);
    WalkCpu(v, d, va, create);
    if create && v.free != [] && !Present(v.mem[d][PDX(va)]) {
      WalkMakesEntry(v, d, va);
      FreeIsNoDir(v);
    }
    hide Inv, PgdirWalk, Shape, TableMade, ZeroFrame;
  }

  lemma FreeIsNoDir(v: Vm)
    requires Inv(v) && v.free != []
    ensures v.free[0] !in v.dirs
  {
    HeadIsFree(v);
    hide Inv;
  }

  lemma WalkSame(v: Vm, d: nat, va: Word, create: bool)
    requires Inv(v) && Shape(v) && d in v.dirs && d < |v.mem| && SameAbove(v)
    ensures !PgdirWalk(v, d, va, create).WalkPanic?
    ensures SameAbove(PgdirWalk(v, d, va, create).vm) <==> !Private(v, Walk(d, va, create))
  {
    WalkKept(v, d, va, create);
    var w := PgdirWalk(v, d, va, create).vm;
    hide Inv, PgdirWalk, Shape;
    if Private(v, Walk(d, va, create)) {
      var e :| e in v.dirs && e != d;
      DirShape(v, e);
      assert v.mem[d][PDX(va)] == v.mem[e][PDX(va)] == w.mem[e][PDX(va)];
    } else if w.mem == v.mem {
      KeptSame(v, w);
    }
  }

  // page_insert and page_remove write in tables below UTOP

  lemma RemoveKept(v: Vm, d: nat, va: Word)
    requires Inv(v) && Shape(v) && d in v.dirs && d < |v.mem| && va < UTOP && Removable(v, d, va)
    ensures PageRemove(v, d, va).Done? && DirsKept(v, PageRemove(v, d, va).value)
  {
    if Present(v.mem[d][PDX(va)]) {
      PresentKept(v, d, va);
    } else {
      hide Inv, Shape;
      assert PageRemove(v, d, va) == Done(v);
    }
  }

  lemma PresentKept(v: Vm, d: nat, va: Word)
    requires Inv(v) && Shape(v) && d in v.dirs && d < |v.mem| && va < UTOP && Removable(v, d, va)
    requires Present(v.mem[d][PDX(va)])
    ensures PageRemove(v, d, va).Done? && DirsKept(v, PageRemove(v, d, va).value)
  {
    WalkReads(v, d, PDX(va));
    var s := Slot(Frame(v.mem[d][PDX(va)]), PTX(va));
    BelowUtop(va);
    TableIsNoDir(v, s.frame);
    assert Names(v.mem, Slot(d, PDX(va)), s.frame) && Present(WordAt(v, s));
    hide *;
    PageRemovePresent(v, d, va, s);
    RemovedKept(v, PageRemove(v, d, va).value, s, va);
  }

  lemma RemovedKept(v: Vm, w: Vm, s: Slot, va: Word)
    requires Removed(v, w, s, va) && s.frame !in v.dirs
    ensures DirsKept(v, w)
  {
    FrameKept(v, w, s.frame);
  }

  lemma TableIsNoDir(v: Vm, t: nat)
    requires Inv(v) && t in v.tabs
    ensures t !in v.dirs
  {
  }

  lemma MapAtKept(v: Vm, d: nat, f: nat, va: Word, perm: Perm, s: Slot)
    requires Inv(v) && Shape(v) && d in v.dirs && d < |v.mem| && f < |v.mem| && va < UTOP && s.frame < |v.mem|
    requires s.idx == PTX(va) && Names(v.mem, Slot(d, PDX(va)), s.frame) && MapAt(v, d, f, va, perm, s).Done?
    ensures DirsKept(v, MapAt(v, d, f, va, perm, s).value)
  {
    WalkSlotBelow(v, d, va, s);
    TableIsNoDir(v, s.frame);
    hide Inv, MapAt, Shape, Names;
    MapAtFrames(v, d, f, va, perm, s);
    FrameKept(v, MapAt(v, d, f, va, perm, s).value, s.frame);
  }

  lemma MapAtFrames(v: Vm, d: nat, f: nat, va: Word, perm: Perm, s: Slot)
    requires Shape(v) && d < |v.mem| && f < |v.mem| && s.frame < |v.mem|
    requires s.idx == PTX(va) && Names(v.mem, Slot(d, PDX(va)), s.frame) && MapAt(v, d, f, va, perm, s).Done?
    ensures var w := MapAt(v, d, f, va, perm, s).value;
      && |w.mem| == |v.mem| && w.dirs == v.dirs
      && forall g :: 0 <= g < |v.mem| && g != s.frame ==> w.mem[g] == v.mem[g]
  {
    IncKeeps(v, f);
    var u := IncRef(v, f);
    if Present(WordAt(u, s)) { RemovedAt(u, d, va, s); }
    hide IncRef, PageRemove, Shape, Entry, Names;
  }

  lemma RemovedAt(v: Vm, d: nat, va: Word, s: Slot)
    requires Shape(v) && d < |v.mem| && s.frame < |v.mem| && s.idx == PTX(va) && Names(v.mem, Slot(d, PDX(va)), s.frame)
    requires PageRemove(v, d, va).Done?
    ensures var w := PageRemove(v, d, va).value; w.mem == Store(v, s, 0).mem && w.dirs == v.dirs
  {
    assert PgdirWalk(v, d, va, false) == At(v, s);
  }

  /** Behind its walk page_insert changes no directory. */
  lemma InsertKept(v: Vm, d: nat, f: nat, va: Word, perm: Perm)
    requires Inv(v) && Shape(v) && d in v.dirs && d < |v.mem| && va < UTOP
    requires f < |v.mem| && f < |v.ref| && IsData(v, f) && f !in v.free && RoomFor(v, d, f, va)
    ensures PageInsert(v, d, f, va, perm).Done? && !PgdirWalk(v, d, va, true).WalkPanic?
    ensures DirsKept(PgdirWalk(v, d, va, true).vm, PageInsert(v, d, f, va, perm).value.0)
  {
    PageInsertCorrect(v, d, f, va, perm);
    InsertCases(v, d, f, va, perm);
    var r := PgdirWalk(v, d, va, true);
    if r.At? { WalkFound(v, r.vm, d, va, r.slot); InvShape(r.vm); }
    hide Inv, PageInsert, PgdirWalk, MapAt, Shape;
    if r.At? { MapAtKept(r.vm, d, f, va, perm, r.slot); }
  }

  // env_setup_vm and env_free

  lemma NewDirSame(v: Vm, p: nat, kd: nat)
    requires Inv(v) && Shape(v) && p in v.loose && kd in v.dirs && p < |v.mem| && kd < |v.mem| && SameAbove(v)
    ensures SameAbove(MakeDir(v, p, kd))
  {
    LooseIsData(v, p);
    ImageEntries(v, MakeDir(v, p, kd), p, kd);
    hide Inv, DirImage;
  }

  lemma NewEnvSame(v: Vm, kd: nat)
    requires Safe(v) && Shape(v) && Enabled(v, NewEnv(kd)) && SameAbove(v)
    ensures Step(v, NewEnv(kd)).Done? && SameAbove(Step(v, NewEnv(kd)).value)
  {
    NewEnvParts(v, kd);
    AllocSafe(v, 1);
    TakenDir(v, kd);
    var (w, p) := PageAlloc(v, 1);
    SafeCr3(v);
    SafeCr3(w);
    hide Inv, Coherent, PageAlloc, MakeDir, Shape, Acts, Step;
    AllocKept(v, 1);
    KeptSame(v, w);
    if p != NULL { NewDirSame(w, p, kd); }
  }

  lemma EnvFreeKept(v: Vm, d: nat, kd: nat, current: bool)
    requires Inv(v) && Shape(v) && Coherent(v) && d in v.dirs && kd in v.dirs && kd != d && d < |v.mem| && kd < |v.mem|
    requires v.cr3 == d ==> current
    ensures EnvFree(v, d, kd, current).Done? && DirsKept(v, EnvFree(v, d, kd, current).value)
  {
    EnvFreeCorrect(v, d, kd, current);
    NoDirOwned(v, d);
    hide Inv, EnvFree, Coherent, Shape;
  }

  lemma NoDirOwned(v: Vm, d: nat)
    requires Inv(v)
    ensures forall e :: e in v.dirs ==> !Owned(v, d, e, 0)
  {
  }

  /** Most operations change no directory. */
  lemma StepKept(v: Vm, op: Op)
    requires Safe(v) && Shape(v) && Enabled(v, op) && !op.Walk? && !op.Insert? && !op.NewEnv?
    ensures Step(v, op).Done? && DirsKept(v, Step(v, op).value)
  {
    StepSafe(v, op);
    SafeCr3(v);
    hide Inv, Coherent, DirsKept, Shape, PageRemove, EnvFree, PageAlloc, PageDecref;
    match op
    case Alloc(flags) => AllocKept(v, flags);
    case Remove(d, va) => RemoveKept(v, d, va);
    case DestroyEnv(d, kd, current) => EnvFreeKept(v, d, kd, current);
    case Free(f) => MemKept(v, PageFree(v, f).value);
    case Hold(f) => MemKept(v, Pin(v, f));
    case Release(f) => DecrefKeeps(v, f); MemKept(v, Unpin(v, f).value);
    case Switch(d) => MemKept(v, LoadCr3(v, d));
  }

  /** An operation keeps the address spaces alike above UTOP exactly if it makes no private kernel
      table. */
  lemma StepSameExact(v: Vm, op: Op)
    requires Safe(v) && Shape(v) && Enabled(v, op) && SameAbove(v)
    ensures Step(v, op).Done? && (SameAbove(Step(v, op).value) <==> !Private(v, op))
  {
    SafeCr3(v);
    hide Inv, Coherent, SameAbove, DirsKept, Shape, PgdirWalk, PageInsert, Safe;
    match op
    case Walk(d, va, create) => WalkSame(v, d, va, create);
    case Insert(d, f, va, perm) =>
      InsertKept(v, d, f, va, perm);
      BelowUtop(va);
      WalkSame(v, d, va, true);
      KeptSame(PgdirWalk(v, d, va, true).vm, PageInsert(v, d, f, va, perm).value.0);
    case NewEnv(kd) => NewEnvSame(v, kd);
    case _ =>
      StepKept(v, op);
      KeptSame(v, Step(v, op).value);
  }

  // Runs

  /** A run, with any fills, none of whose operations makes a private kernel table. */
  ghost predicate ReachesShared(v: Vm, ops: seq<Op>, w: Vm)
    requires Shape(v)
    decreases |ops|
  {
    if ops == [] then Fills(v, w)
    else
      && Enabled(v, ops[0]) && !Private(v, ops[0])
      && exists u :: Shape(u) && Runs(v, Acts(v, ops[0]), u) && ReachesShared(u, ops[1..], w)
  }

  /** Over every such run all environments have the same address space above UTOP, UVPT apart. */
  lemma {:induction false} RunSameAbove(v: Vm, ops: seq<Op>, w: Vm)
    requires Safe(v) && Shape(v) && SameAbove(v) && ReachesShared(v, ops, w)
    ensures Safe(w) && SameAbove(w)
    decreases |ops|
  {
    if ops == [] {
      FilledSafeAgain(v, w);
      hide Safe;
    } else {
      hide Safe, Enabled, Runs, Acts, SameAbove, Private, Shape;
      var u :| Shape(u) && Runs(v, Acts(v, ops[0]), u) && ReachesShared(u, ops[1..], w);
      RanSafe(v, ops[0], u);
      RanSame(v, ops[0], u);
      RunSameAbove(u, ops[1..], w);
    }
  }

  lemma RanSame(v: Vm, op: Op, u: Vm)
    requires Safe(v) && Shape(v) && Enabled(v, op) && SameAbove(v) && !Private(v, op) && Runs(v, Acts(v, op), u)
    ensures SameAbove(u)
  {
    hide *;
    StepSameExact(v, op);
    StepOrdered(v, op);
    var r, acts := Step(v, op).value, Acts(v, op);
    assert acts[..|acts|] == acts;
    OrderedAt(v, acts, r, Pending(v, op), |acts|, u);
    SameButTlbAbove(r, u);
  }

  lemma SameButTlbAbove(r: Vm, u: Vm)
    requires SameAbove(r) && u == r.(tlb := u.tlb)
    ensures SameAbove(u)
  {
  }
}
