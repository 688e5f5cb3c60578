/** Whole runs: any sequence of allocations, mappings, teardowns and address-space switches, with
    the processor filling its TLB at any moment in between and inside, keeps the invariant and the
    TLB coherent, and never panics. */
module VmRuns {
  import opened Mmu
  import opened VmOps
  import opened VmInv
  import opened VmMap
  import opened VmPages
  import opened VmTeardown
  import opened VmTlb
  import opened VmActs
  import opened VmTrack
  import opened VmOrder
  import Boot

  datatype Op =
    | Alloc(flags: int)
    | Free(f: nat)
    | Hold(f: nat)                                   // pp->pp_ref++ by a kernel routine
    | Release(f: nat)                                // page_decref of such a reference
    | Walk(d: nat, va: Word, create: bool)
    | Insert(d: nat, f: nat, va: Word, perm: Perm)
    | Remove(d: nat, va: Word)
    | NewEnv(kd: nat)                                // env_setup_vm as its comment describes it
    | DestroyEnv(d: nat, kd: nat, current: bool)
    | Switch(d: nat)                                 // lcr3

  /** What the callers of each operation owe it. */
  predicate Enabled(v: Vm, op: Op) {
    match op
    case Alloc(_) => true
    case Free(f) => f in v.loose && f < |v.mem|
    case Hold(f) => f < |v.mem| && f < |v.ref| && IsData(v, f) && f !in v.free && v.ref[f] < REF_LIMIT - 1
    case Release(f) => f < |v.mem| && f < |v.pins| && IsData(v, f) && v.pins[f] > 0
    case Walk(d, _, _) => d in v.dirs && d < |v.mem|
    case Insert(d, f, va, _) =>
      && d in v.dirs && d < |v.mem| && va < UTOP && f < |v.mem| && f < |v.ref|
      && IsData(v, f) && f !in v.free && RoomFor(v, d, f, va)
    case Remove(d, va) => d in v.dirs && d < |v.mem| && va < UTOP && Removable(v, d, va)
    case NewEnv(kd) => kd in v.dirs && kd < |v.mem|
    case DestroyEnv(d, kd, current) =>
      d in v.dirs && kd in v.dirs && d < |v.mem| && kd < |v.mem| && d != kd && (v.cr3 == d ==> current)
    case Switch(d) => d in v.dirs && d < |v.mem|
  }

  ghost function Step(v: Vm, op: Op): Res<Vm>
    requires Shape(v) && Enabled(v, op)
  {
    match op
    case Alloc(flags) => Done(PageAlloc(v, flags).0)
    case Free(f) => PageFree(v, f)
    case Hold(f) => Done(Pin(v, f))
    case Release(f) => Unpin(v, f)
    case Walk(d, va, create) =>
      (match PgdirWalk(v, d, va, create)
       case WalkPanic => Panic
       case NoTable(w) => Done(w)
       case At(w, _) => Done(w))
    case Insert(d, f, va, perm) =>
      (match PageInsert(v, d, f, va, perm)
       case Panic => Panic
       case Done((w, _)) => Done(w))
    case Remove(d, va) => PageRemove(v, d, va)
    case NewEnv(kd) =>
      var (w, p) := PageAlloc(v, 1);
      Done(if p == NULL then w else MakeDir(w, p, kd))
    case DestroyEnv(d, kd, current) => EnvFree(v, d, kd, current)
    case Switch(d) => Done(LoadCr3(v, d))
  }

  /** The operation as its actions. */
  function Acts(v: Vm, op: Op): seq<Act>
    requires Shape(v) && Enabled(v, op)
  {
    match op
    case Alloc(flags) => AllocActs(v, flags)
    case Free(f) => [Give(f)]
    case Hold(f) => HoldActs(v, f)
    case Release(f) => ReleaseActs(v, f)
    case Walk(d, va, create) => WalkActs(v, d, va, create)
    case Insert(d, f, va, perm) => InsertActs(v, d, f, va, perm)
    case Remove(d, va) => RemoveActs(v, d, va)
    case NewEnv(kd) =>
      var (w, p) := PageAlloc(v, 1);
      AllocActs(v, 1) + (if p == NULL then [] else BuildActs(w, p, kd))
    case DestroyEnv(d, kd, current) => EnvFreeActs(v, d, kd, current)
    case Switch(d) => [Load(d)]
  }

  function HoldActs(v: Vm, f: nat): seq<Act>
    requires Shape(v) && f < |v.mem|
  {
    [Count(f), Note(v.dirs, v.tabs, v.ktabs, v.pins[f := v.pins[f] + 1])]
  }

  function ReleaseActs(v: Vm, f: nat): seq<Act>
    requires Shape(v) && f < |v.mem| && v.pins[f] > 0
  {
    DecrefActs(v, f) + [Note(v.dirs, v.tabs, v.ktabs, v.pins[f := v.pins[f] - 1])]
  }

  function BuildActs(v: Vm, p: nat, kd: nat): seq<Act>
    requires Shape(v) && p < |v.mem| && kd < |v.mem|
  {
    [Fill(p, DirImage(v.mem[kd], p)), Count(p),
     Note(v.dirs + {p}, v.tabs, v.ktabs, v.pins[p := v.pins[p] + 1])]
  }

  /** The page whose translation may be stale for a moment inside the operation. */
  ghost function Pending(v: Vm, op: Op): iset<Page> {
    match op
    case Insert(d, _, va, _) => Hit(v, d, va)
    case Remove(d, va) => Hit(v, d, va)
    case _ => iset{}
  }

  ghost predicate Safe(v: Vm) { Inv(v) && Coherent(v) }

  /** One step keeps everything and does not panic. */
  lemma StepSafe(v: Vm, op: Op)
    requires Safe(v) && Shape(v) && Enabled(v, op)
    ensures Step(v, op).Done? && Safe(Step(v, op).value)
  {
    match op
    case Alloc(flags) => AllocSafe(v, flags);
    case Free(f) => FreeSafe(v, f);
    case Hold(f) => HoldSafe(v, f);
    case Release(f) => ReleaseSafe(v, f);
    case Walk(d, va, create) => WalkSafe(v, d, va, create);
    case Insert(d, f, va, perm) => hide Inv, Coherent; PageInsertCorrect(v, d, f, va, perm);
    case Remove(d, va) => hide Inv, Coherent; PageRemoveCorrect(v, d, va);
    case NewEnv(kd) => NewEnvSafe(v, kd);
    case DestroyEnv(d, kd, current) => hide Inv, Coherent; EnvFreeCorrect(v, d, kd, current);
    case Switch(d) => SwitchSafe(v, d);
  }

  lemma SwitchSafe(v: Vm, d: nat)
    requires Safe(v) && d in v.dirs
    ensures Safe(LoadCr3(v, d))
  {
    CpuIrrelevant(v, LoadCr3(v, d));
    DirShape(v, d);
    hide Inv;
  }

  lemma AllocSafe(v: Vm, flags: int)
    requires Safe(v) && Shape(v)
    ensures Safe(PageAlloc(v, flags).0)
  {
    PageAllocInv(v, flags);
    var (w, f) := PageAlloc(v, flags);
    if f != NULL {
      DataIrrelevant(v, w);
      hide Inv;
      SameMapCoherent(v, w);
    }
  }

  lemma FreeSafe(v: Vm, f: nat)
    requires Safe(v) && Shape(v) && f in v.loose && f < |v.mem|
    ensures PageFree(v, f).Done? && Safe(PageFree(v, f).value)
  {
    PageFreeInv(v, f);
    hide Inv;
    SameMapCoherent(v, PageFree(v, f).value);
  }

  lemma HoldSafe(v: Vm, f: nat)
    requires Safe(v) && Shape(v) && Enabled(v, Hold(f))
    ensures Safe(Pin(v, f))
  {
    PinInv(v, f);
    hide Inv;
    SameMapCoherent(v, Pin(v, f));
  }

  lemma ReleaseSafe(v: Vm, f: nat)
    requires Safe(v) && Shape(v) && Enabled(v, Release(f))
    ensures Unpin(v, f).Done? && Safe(Unpin(v, f).value)
  {
    UnpinInv(v, f);
    hide Inv, Unpin;
    SameMapCoherent(v, Unpin(v, f).value);
  }

  lemma WalkSafe(v: Vm, d: nat, va: Word, create: bool)
    requires Safe(v) && Shape(v) && d in v.dirs && d < |v.mem|
    ensures var r := PgdirWalk(v, d, va, create); !r.WalkPanic? && Safe(r.vm)
  {
    PgdirWalkKeeps(v, d, va, create);
    PgdirWalkMap(v, d, va, create);
    hide Inv, PgdirWalk;
    MapKeptCoherent(v, PgdirWalk(v, d, va, create).vm, d, Window(PDX(va)));
  }

  lemma NewEnvSafe(v: Vm, kd: nat)
    requires Safe(v) && Shape(v) && Enabled(v, NewEnv(kd))
    ensures var (w, p) := PageAlloc(v, 1); Safe(if p == NULL then w else MakeDir(w, p, kd))
  {
    AllocSafe(v, 1);
    PageAllocInv(v, 1);
    var (w, p) := PageAlloc(v, 1);
    if p != NULL {
      hide Inv, Coherent, PageAlloc;
      NewDirSafe(w, p, kd);
    }
  }

  lemma NewDirSafe(w: Vm, p: nat, kd: nat)
    requires Safe(w) && Shape(w) && p in w.loose && kd in w.dirs && p < |w.mem| && kd < |w.mem|
    ensures Safe(MakeDir(w, p, kd))
  {
    MakeDirInv(w, p, kd);
    LooseIsData(w, p);
    DataIrrelevant(w, MakeDir(w, p, kd));
    hide Inv;
    SameMapCoherent(w, MakeDir(w, p, kd));
  }

  // The other operations as actions

  lemma HoldOrdered(v: Vm, f: nat)
    requires Safe(v) && Shape(v) && Enabled(v, Hold(f))
    ensures Ordered(v, HoldActs(v, f), Pin(v, f), iset{})
  {
    var c := Note(v.dirs, v.tabs, v.ktabs, v.pins[f := v.pins[f] + 1]);
    var u := IncRef(v, f);
    HoldStates(v, u, c, f);
    hide *;
    SafeCr3(v);
    ApplyCount(v, f);
    ApplyNote(u, c);
    TrackNeutral(v, Count(f), u);
    TrackNeutral(u, c, Pin(v, f));
    ApplyOne(v, Count(f));
    ApplyOne(u, c);
    TrackThen(v, u, [Count(f)], [c], iset{});
    Then(v, u, Pin(v, f), [Count(f)], [c]);
    OrderedIf(v, HoldActs(v, f), Pin(v, f), iset{});
  }

  lemma HoldStates(v: Vm, u: Vm, c: Act, f: nat)
    requires Safe(v) && Shape(v) && f < |v.mem| && u == IncRef(v, f)
    requires c == Note(v.dirs, v.tabs, v.ktabs, v.pins[f := v.pins[f] + 1])
    ensures Shape(u) && |u.mem| == |v.mem| == |c.pins| && LoadedSafe(u) && LoadedSafe(Pin(v, f))
    ensures u.mem == v.mem == Pin(v, f).mem && u.cr3 == v.cr3 == Pin(v, f).cr3
    ensures u.(dirs := c.dirs, tabs := c.tabs, ktabs := c.ktabs, pins := c.pins) == Pin(v, f)
    ensures c.Note? && HoldActs(v, f) == [Count(f)] + [c]
  {
    PinIs(v, f);
    assert HoldActs(v, f) == [Count(f)] + [c];
    hide *;
    SafeCr3(v);
    IncKeeps(v, f);
    NotedLoaded(u, Pin(v, f));
  }

  lemma PinIs(v: Vm, f: nat)
    requires Shape(v) && f < |v.mem|
    ensures var u := IncRef(v, f);
      && |u.mem| == |v.mem| == |v.pins| && u.dirs == v.dirs && u.tabs == v.tabs && u.ktabs == v.ktabs && u.free == v.free
      && Pin(v, f) == u.(pins := v.pins[f := v.pins[f] + 1])
  {
  }

  lemma OrderedIf(v: Vm, acts: seq<Act>, r: Vm, bound: iset<Page>)
    requires Shape(v) && Safe(v) && Track(v, acts, iset{}, bound) && ApplyAll(v, acts) == r
    ensures Ordered(v, acts, r, bound)
  {
    hide Inv, Coherent, Track, ApplyAll, Ordered;
    TrackOrdered(v, acts, r, bound);
  }

  lemma ReleaseOrdered(v: Vm, f: nat)
    requires Safe(v) && Shape(v) && Enabled(v, Release(f)) && Unpin(v, f).Done?
    ensures Ordered(v, ReleaseActs(v, f), Unpin(v, f).value, iset{})
  {
    var c := Note(v.dirs, v.tabs, v.ktabs, v.pins[f := v.pins[f] - 1]);
    var u := PageDecref(v, f).value;
    var r := Unpin(v, f).value;
    SafeLoaded(v);
    LoadedIn(v);
    DecrefKeeps(v, f);
    ApplyNote(u, c);
    assert f != v.cr3;
    DecrefTracks(v, f);
    NotedLoaded(u, r);
    assert ReleaseActs(v, f) == DecrefActs(v, f) + [c];
    hide *;
    DecrefDoes(v, f);
    TrackNeutral(u, c, r);
    ApplyOne(u, c);
    TrackThen(v, u, DecrefActs(v, f), [c], iset{});
    Then(v, u, r, DecrefActs(v, f), [c]);
    OrderedIf(v, ReleaseActs(v, f), r, iset{});
  }

  lemma FreeOrdered(v: Vm, f: nat)
    requires Safe(v) && Shape(v) && f in v.loose && f < |v.mem| && PageFree(v, f).Done?
    ensures Ordered(v, [Give(f)], PageFree(v, f).value, iset{})
  {
    var w := PageFree(v, f).value;
    SafeLoaded(v);
    LooseIsData(v, f);
    ApplyGive(v, f);
    assert LoadedSafe(w) && w.cr3 == v.cr3 && w.mem == v.mem;
    hide *;
    TrackNeutral(v, Give(f), w);
    ApplyOne(v, Give(f));
    OrderedIf(v, [Give(f)], w, iset{});
  }

  lemma AllocOrdered(v: Vm, flags: int)
    requires Safe(v) && Shape(v)
    ensures Ordered(v, AllocActs(v, flags), PageAlloc(v, flags).0, iset{})
  {
    hide *;
    SafeCr3(v);
    AllocTracks(v, flags);
    AllocDoes(v, flags);
    OrderedIf(v, AllocActs(v, flags), PageAlloc(v, flags).0, iset{});
  }

  lemma SafeCr3(v: Vm)
    requires Safe(v)
    ensures Inv(v) && Coherent(v) && Shape(v) && v.cr3 in v.dirs && LoadedSafe(v)
  {
    SafeLoaded(v);
    InvShape(v);
    hide Inv;
  }

  lemma SwitchOrdered(v: Vm, d: nat)
    requires Safe(v) && Shape(v) && d in v.dirs && d < |v.mem|
    ensures Ordered(v, [Load(d)], LoadCr3(v, d), iset{})
  {
    var w := LoadCr3(v, d);
    hide *;
    SafeCr3(v);
    LoadedKernel(v, d);
    SafeLoaded(w);
    TrackNone(w);
    ApplyNone(w);
    TrackOrdered(w, [], w, iset{});
    LoadFirst(v, d, [], w, iset{});
    assert [Load(d)] + [] == [Load(d)];
  }

  lemma NewEnvOrdered(v: Vm, kd: nat)
    requires Safe(v) && Shape(v) && Enabled(v, NewEnv(kd))
    ensures Ordered(v, Acts(v, NewEnv(kd)), Step(v, NewEnv(kd)).value, iset{})
  {
    NewEnvParts(v, kd);
    AllocSafe(v, 1);
    TakenDir(v, kd);
    var (w, p) := PageAlloc(v, 1);
    hide *;
    SafeCr3(v);
    AllocTracks(v, 1);
    AllocDoes(v, 1);
    var r := Step(v, NewEnv(kd)).value;
    if p != NULL {
      BuildTracks(w, p, kd);
      TrackThen(v, w, AllocActs(v, 1), BuildActs(w, p, kd), iset{});
      Then(v, w, r, AllocActs(v, 1), BuildActs(w, p, kd));
    }
    OrderedIf(v, Acts(v, NewEnv(kd)), r, iset{});
  }

  lemma NewEnvParts(v: Vm, kd: nat)
    requires Shape(v) && Enabled(v, NewEnv(kd))
    ensures var (w, p) := PageAlloc(v, 1);
      && Acts(v, NewEnv(kd)) == (if p == NULL then AllocActs(v, 1) else AllocActs(v, 1) + BuildActs(w, p, kd))
      && Step(v, NewEnv(kd)) == Done(if p == NULL then w else MakeDir(w, p, kd))
  {
    hide PageAlloc, AllocActs, BuildActs, MakeDir;
  }

  lemma TakenDir(v: Vm, kd: nat)
    requires Safe(v) && Shape(v) && Enabled(v, NewEnv(kd))
    ensures var (w, p) := PageAlloc(v, 1); p != NULL ==> p in w.loose && kd in w.dirs && p < |w.mem|
  {
    PageAllocInv(v, 1);
    hide Inv, PageAlloc;
  }

  lemma BuildTracks(v: Vm, p: nat, kd: nat)
    requires Safe(v) && Shape(v) && p in v.loose && kd in v.dirs && p < |v.mem| && kd < |v.mem|
    ensures Track(v, BuildActs(v, p, kd), iset{}, iset{}) && ApplyAll(v, BuildActs(v, p, kd)) == MakeDir(v, p, kd)
  {
    var img := DirImage(v.mem[kd], p);
    var c := Note(v.dirs + {p}, v.tabs, v.ktabs, v.pins[p := v.pins[p] + 1]);
    var u1 := v.(mem := v.mem[p := img]);
    var u2 := IncRef(u1, p);
    var r := MakeDir(v, p, kd);
    BuildStates(v, p, kd, img);
    assert BuildActs(v, p, kd) == [Fill(p, img)] + [Count(p)] + [c];
    hide *;
    SafeCr3(v);
    LooseFillTracks(v, p, img);
    ApplyOne(v, Fill(p, img));
    ApplyCount(u1, p);
    ApplyOne(u1, Count(p));
    TrackNeutral(u1, Count(p), u2);
    ApplyNote(u2, c);
    ApplyOne(u2, c);
    TrackNeutral(u2, c, r);
    TrackThen(v, u1, [Fill(p, img)], [Count(p)], iset{});
    Then(v, u1, u2, [Fill(p, img)], [Count(p)]);
    TrackThen(v, u2, [Fill(p, img)] + [Count(p)], [c], iset{});
    Then(v, u2, r, [Fill(p, img)] + [Count(p)], [c]);
  }

  lemma BuildStates(v: Vm, p: nat, kd: nat, img: FrameWords)
    requires Safe(v) && Shape(v) && p in v.loose && p < |v.mem| && kd < |v.mem| && img == DirImage(v.mem[kd], p)
    ensures var u1 := v.(mem := v.mem[p := img]);
      && Shape(u1) && var u2 := IncRef(u1, p);
      var c := Note(v.dirs + {p}, v.tabs, v.ktabs, v.pins[p := v.pins[p] + 1]);
      && LoadedSafe(u1) && LoadedSafe(u2) && LoadedSafe(MakeDir(v, p, kd)) && |c.pins| == |u2.mem| && Shape(u2)
      && u2.(dirs := c.dirs, tabs := c.tabs, ktabs := c.ktabs, pins := c.pins) == MakeDir(v, p, kd)
      && u2.mem == u1.mem == MakeDir(v, p, kd).mem && u1.cr3 == u2.cr3 == MakeDir(v, p, kd).cr3 == v.cr3
  {
    SafeLoaded(v);
    hide Inv, Coherent, DirImage;
  }

  /** Any operation, with the processor at work meanwhile. */
  lemma StepOrdered(v: Vm, op: Op)
    requires Safe(v) && Shape(v) && Enabled(v, op) && Step(v, op).Done?
    ensures Ordered(v, Acts(v, op), Step(v, op).value, Pending(v, op))
  {
    hide Inv, Coherent, Ordered, Shape, Track;
    match op
    case Alloc(flags) => AllocOrdered(v, flags);
    case Free(f) => FreeOrdered(v, f);
    case Hold(f) => HoldOrdered(v, f);
    case Release(f) => ReleaseOrdered(v, f);
    case Walk(d, va, create) => WalkOrdered(v, d, va, create);
    case Insert(d, f, va, perm) => InsertOrdered(v, d, f, va, perm);
    case Remove(d, va) => RemoveOrdered(v, d, va);
    case NewEnv(kd) => NewEnvOrdered(v, kd);
    case DestroyEnv(d, kd, current) => EnvFreeOrdered(v, d, kd, current);
    case Switch(d) => SwitchOrdered(v, d);
  }

  // Runs

  /** Some run of the operations, each enabled when its turn comes, with any fills before,
      between and inside them, leads from v to w. */
  ghost predicate Reaches(v: Vm, ops: seq<Op>, w: Vm)
    requires Shape(v)
    decreases |ops|
  {
    if ops == [] then Fills(v, w)
    else
      Enabled(v, ops[0]) && exists u :: Shape(u) && Runs(v, Acts(v, ops[0]), u) && Reaches(u, ops[1..], w)
  }

  lemma FilledSafeAgain(v: Vm, w: Vm)
    requires Safe(v) && Fills(v, w)
    ensures Safe(w)
  {
    CpuIrrelevant(v, w);
    hide Inv, Translate;
  }

  lemma RanSafe(v: Vm, op: Op, u: Vm)
    requires Safe(v) && Shape(v) && Enabled(v, op) && Runs(v, Acts(v, op), u)
    ensures Safe(u)
  {
    hide *;
    StepSafe(v, op);
    StepOrdered(v, op);
    var r, acts := Step(v, op).value, Acts(v, op);
    assert acts[..|acts|] == acts;
    OrderedAt(v, acts, r, Pending(v, op), |acts|, u);
    SafeParts(r, u);
  }

  lemma SafeParts(r: Vm, u: Vm)
    requires Safe(r) && Coherent(u) && u == r.(tlb := u.tlb)
    ensures Safe(u)
  {
    CpuIrrelevant(r, u);
    hide Inv, Coherent;
  }

  /** Safety over every run: whatever it has led to, the invariant holds, the TLB is coherent, and
      no operation enabled there panics. */
  lemma {:induction false} RunSafe(v: Vm, ops: seq<Op>, w: Vm, next: Op)
    requires Safe(v) && Shape(v) && Reaches(v, ops, w)
    ensures Safe(w) && Shape(w) && (Enabled(w, next) ==> Step(w, next).Done?)
    decreases |ops|
  {
    if ops == [] {
      FilledSafeAgain(v, w);
      InvShape(w);
      hide Inv, Coherent, Step, Enabled, Shape;
      if Enabled(w, next) { StepSafe(w, next); }
    } else {
      hide Inv, Coherent, Step, Enabled, Runs, Acts, Safe, Shape;
      var u :| Shape(u) && Runs(v, Acts(v, ops[0]), u) && Reaches(u, ops[1..], w);
      RanSafe(v, ops[0], u);
      RunSafe(u, ops[1..], w, next);
    }
  }

  /** From the cleared page array on: page_init with the mark mem_init's own boot_alloc calls
      leave, mem_init's mappings, then any run. */
  lemma BootThenRun(v: Vm, end: Word, kd: nat, mark: nat, pagesPa: Word, stackPa: Word, ops: seq<Op>, w: Vm)
    requires |v.mem| <= MAX_PAGES && KERNBASE + EXTPHYSMEM <= end && end + 4095 < 0x1_0000_0000
    requires Boot.RoundUp(end) + Boot.Total(Boot.BootSizes(|v.mem|)) < 0x1_0000_0000
    requires kd == Boot.BootFrame(end, |v.mem|, 0) && mark == Boot.BootMark(end, |v.mem|)
    requires pagesPa == Boot.BootFrame(end, |v.mem|, 1) * 4096 && stackPa % 4096 == 0
    requires Boot.Cleared(v, kd) && |Boot.FreeBelow(|v.mem|, mark)| >= 66
    ensures Shape(v) && kd < |v.mem| && pagesPa % 4096 == 0
    ensures var b := Boot.MemInit(Boot.PageInit(v, mark), kd, pagesPa, stackPa);
      b.Done? && Safe(b.value) && (Reaches(b.value, ops, w) ==> Safe(w))
  {
    Boot.BootFrames(end, |v.mem|);
    hide Boot.BootFrame, Boot.BootMark, Boot.RoundUp, Boot.Total, Boot.FreeBelow, Boot.Cleared, Boot.MemInit, Boot.PageInit, Safe, Reaches;
    BootedRun(v, kd, mark, pagesPa, stackPa, ops, w);
  }

  lemma BootedRun(v: Vm, kd: nat, mark: nat, pagesPa: Word, stackPa: Word, ops: seq<Op>, w: Vm)
    requires Boot.Fresh(v, kd, mark) && pagesPa % 4096 == 0 && stackPa % 4096 == 0
    requires |Boot.FreeBelow(|v.mem|, mark)| >= 66
    ensures Shape(v)
    ensures var b := Boot.MemInit(Boot.PageInit(v, mark), kd, pagesPa, stackPa);
      b.Done? && Safe(b.value) && (Reaches(b.value, ops, w) ==> Safe(w))
  {
    Boot.PageInitCorrect(v, kd, mark);
    var u := Boot.PageInit(v, mark);
    hide Inv, Boot.PageInit, Boot.MemInit, Shape, Reaches;
    Boot.MemInitCorrect(u, kd, pagesPa, stackPa);
    var b := Boot.MemInit(u, kd, pagesPa, stackPa).value;
    if Reaches(b, ops, w) { RunSafe(b, ops, w, Alloc(0)); }
  }

  // What the invariant says of the allocator

  /** Free, handed-out and referenced pages add up to all of physical memory. */
  lemma FramesConserved(v: Vm)
    requires Inv(v)
    ensures |v.free| + |v.loose| + |Referenced(v)| == |v.mem|
  {
    FreeSize(v);
    Parts(v);
    hide *;
    var held := Listed(v.free) + v.loose;
    assert |held| == |Listed(v.free)| + |v.loose|;
    assert |held + Referenced(v)| == |held| + |Referenced(v)|;
  }

  lemma Parts(v: Vm)
    requires Inv(v)
    ensures Listed(v.free) !! v.loose
    ensures (Listed(v.free) + v.loose) !! Referenced(v)
    ensures Listed(v.free) + v.loose + Referenced(v) == Below(|v.mem|)
  {
    hide *;
    forall g: nat
      ensures g in Listed(v.free) ==> g !in v.loose && g < |v.mem|
      ensures g in Listed(v.free) || g in v.loose || g in Referenced(v) <==> g < |v.mem|
      ensures g in Referenced(v) ==> g !in Listed(v.free) && g !in v.loose
    {
      WhereIs(v, g);
    }
  }

  lemma FreeSize(v: Vm)
    requires Inv(v)
    ensures |Listed(v.free)| == |v.free|
  {
    assert Distinct(v.free);
    hide *;
    ListSize(v.free);
  }

  lemma WhereIs(v: Vm, g: nat)
    requires Inv(v)
    ensures g in Listed(v.free) ==> g !in v.loose && g < |v.mem|
    ensures g in Listed(v.free) || g in v.loose || g in Referenced(v) <==> g < |v.mem|
    ensures g in Referenced(v) ==> g !in Listed(v.free) && g !in v.loose
  {
    InvShape(v);
    ListInRange(v.free, v.link, v.head);
    if g < |v.mem| { PageCount(v, g); }
    hide Inv, Follows, Distinct;
  }

  ghost function Referenced(v: Vm): set<nat> {
    set f | f in Below(|v.ref|) && v.ref[f] > 0
  }

  ghost function Listed(s: seq<nat>): set<nat> {
    set f | f in s
  }

  ghost function Below(n: nat): (r: set<nat>)
    ensures |r| == n && forall f: nat :: f in r <==> f < n
  {
    if n == 0 then {} else Below(n - 1) + {n - 1}
  }

  lemma {:induction false} ListSize(s: seq<nat>)
    requires Distinct(s)
    ensures |Listed(s)| == |s|
  {
    if s == [] {
      assert Listed(s) == {};
    } else {
      ListSize(s[1..]);
      assert s == [s[0]] + s[1..];
      assert Listed(s) == Listed(s[1..]) + {s[0]};
      assert s[0] !in s[1..];
    }
  }

  /** page_alloc's comment has it clear the page if flags & ALLOC_ZERO, bit 0. The code does that
      exactly when the flags are 0 or have the bit, unless the page was clear already. */
  lemma AllocFlagExact(v: Vm, flags: int)
    requires Inv(v) && v.free != []
    ensures Shape(v) && PageAlloc(v, flags).1 >= 0
    ensures var (w, f) := PageAlloc(v, flags);
      w.mem[f] == (if flags % 2 == 1 then ZeroFrame() else v.mem[f])
      <==> flags == 0 || flags % 2 == 1 || v.mem[f] == ZeroFrame()
  {
    InvShape(v);
    PageAllocInv(v, flags);
  }

  /** The double-free guard of page_free catches a page that is on the list except at the tail. */
  lemma DoubleFreeGuard(v: Vm, f: nat)
    requires Inv(v) && f in v.free
    ensures f < |v.mem|
    ensures PageFree(v, f).Panic? <==> f != v.free[|v.free| - 1]
  {
    var i :| 0 <= i < |v.free| && v.free[i] == f;
    LinkAt(v.free, v.link, v.head, i);
    InvShape(v);
    PageCount(v, f);
    assert i + 1 < |v.free| ==> v.free[i] != v.free[|v.free| - 1];
  }

  /** page_free panics exactly for a page that is referenced, or free and not at the tail. */
  lemma FreePanicExact(v: Vm, f: nat)
    requires Inv(v) && f < |v.mem|
    ensures PageFree(v, f).Panic? <==> v.ref[f] != 0 || (f in v.free && f != v.free[|v.free| - 1])
  {
    InvShape(v);
    if f in v.free {
      DoubleFreeGuard(v, f);
      PageCount(v, f);
    } else {
      OffList(v, f);
    }
  }

  lemma OffList(v: Vm, f: nat)
    requires Inv(v) && f < |v.mem| && f !in v.free
    ensures v.link[f] == NULL
  {
  }

  /** Freeing the tail again passes the guard and closes the list into a cycle, so that no
      sequence of pages describes it any more. */
  lemma TailDoubleFreeCycles(v: Vm, f: nat, s: seq<nat>)
    requires Inv(v) && v.free != [] && f == v.free[|v.free| - 1]
    ensures f < |v.mem| && PageFree(v, f).Done?
    ensures var w := PageFree(v, f).value; !Follows(s, w.link, w.head)
  {
    DoubleFreeGuard(v, f);
    InvShape(v);
    assert v.head == v.free[0];
    ListInRange(v.free, v.link, v.head);
    CycleEndless(v, PageFree(v, f).value, s, |v.free| - 1);
  }

  /** From any page of the old list the links of w lead to another page of it. */
  lemma {:induction false} CycleEndless(v: Vm, w: Vm, s: seq<nat>, i: nat)
    requires Inv(v) && i < |v.free| && v.head == v.free[0]
    requires v.free[|v.free| - 1] < |v.link|
    requires w.link == v.link[v.free[|v.free| - 1] := v.head]
    ensures !Follows(s, w.link, v.free[i])
    decreases s
  {
    if s != [] && s[0] == v.free[i] {
      LinkAt(v.free, v.link, v.head, i);
      assert i + 1 < |v.free| ==> v.free[i] != v.free[|v.free| - 1];
      CycleEndless(v, w, s[1..], if i + 1 < |v.free| then i + 1 else 0);
    }
  }
}
