/** TLB coherence with the processor at work inside the operations: whatever it caches between
    the actions of an operation, nothing stale is left at the end, and the loaded directory is
    never given away. The two orders of the code on which this rests are shown to matter. */
module VmOrder {
  import opened Mmu
  import opened VmOps
  import opened VmInv
  import opened VmMap
  import opened VmPages
  import opened VmTeardown
  import opened VmTlb
  import opened VmActs
  import opened VmTrack

  // What every operation guarantees

  /** After any number of the actions, with any fills in between: the loaded directory is not
      given away, only pages in bound may be cached wrongly, and none when all is done; the
      memory and the books are then those of r. */
  ghost predicate Ordered(v: Vm, acts: seq<Act>, r: Vm, bound: iset<Page>)
    requires Shape(v)
  {
    forall k: nat, w: Vm :: k <= |acts| && Runs(v, acts[..k], w) ==>
      && LoadedSafe(w) && CoherentBut(w, bound)
      && (k == |acts| ==> Coherent(w) && w == r.(tlb := w.tlb))
  }

  lemma TrackOrdered(v: Vm, acts: seq<Act>, r: Vm, bound: iset<Page>)
    requires Shape(v) && Coherent(v) && Track(v, acts, iset{}, bound) && ApplyAll(v, acts) == r
    ensures Ordered(v, acts, r, bound)
  {
    hide Runs, Track, ApplyAll, Coherent, CoherentBut, LoadedSafe, Shape;
    forall k: nat, w: Vm | k <= |acts| && Runs(v, acts[..k], w)
      ensures LoadedSafe(w) && CoherentBut(w, bound) && (k == |acts| ==> Coherent(w) && w == r.(tlb := w.tlb))
    {
      TrackRuns(v, acts, bound, k, w);
      if k == |acts| {
        assert acts[..k] == acts;
        RunsEnd(v, acts, w);
      }
    }
  }

  /** page_remove: between *pte = 0 and invlpg va alone may be cached wrongly, and only if the
      directory is loaded. */
  lemma RemoveOrdered(v: Vm, d: nat, va: Word)
    requires Inv(v) && Coherent(v) && d in v.dirs && va < UTOP
    requires d < |v.mem| && Removable(v, d, va)
    ensures Shape(v) && PageRemove(v, d, va).Done?
    ensures Ordered(v, RemoveActs(v, d, va), PageRemove(v, d, va).value, Hit(v, d, va))
  {
    InvShape(v);
    PageRemoveCorrect(v, d, va);
    SafeLoaded(v);
    hide Inv, Coherent, PageRemove, ApplyAll, Track, Ordered, LoadedSafe, Shape, Hit;
    assert v.cr3 in v.dirs by { LoadedIn(v); }
    RemoveDoes(v, d, va);
    if Present(v.mem[d][PDX(va)]) {
      WalkReads(v, d, PDX(va));
      var s := Slot(Frame(v.mem[d][PDX(va)]), PTX(va));
      assert Present(WordAt(v, s)) && Names(v.mem, Slot(d, PDX(va)), s.frame);
      RemoveTracksMapped(v, v, d, va, s);
    } else {
      TrackNone(v);
      SameHit(v, v, d, va);
      assert RemoveActs(v, d, va) == [];
      TrackWider(v, [], iset{}, iset{}, Hit(v, d, va));
    }
    TrackOrdered(v, RemoveActs(v, d, va), PageRemove(v, d, va).value, Hit(v, d, va));
  }

  lemma InsertOrdered(v: Vm, d: nat, f: nat, va: Word, perm: Perm)
    requires Inv(v) && Coherent(v) && d in v.dirs && va < UTOP
    requires f < |v.mem| && IsData(v, f) && f !in v.free && d < |v.mem| && f < |v.ref| && RoomFor(v, d, f, va)
    ensures Shape(v) && PageInsert(v, d, f, va, perm).Done?
    ensures Ordered(v, InsertActs(v, d, f, va, perm), PageInsert(v, d, f, va, perm).value.0, Hit(v, d, va))
  {
    InvShape(v);
    PageInsertCorrect(v, d, f, va, perm);
    SafeLoaded(v);
    InsertNone(v, d, f, va, perm);
    hide *;
    LoadedIn(v);
    InsertTracks(v, d, f, va, perm);
    if PgdirWalk(v, d, va, true).At? { InsertDoes(v, d, f, va, perm); }
    TrackOrdered(v, InsertActs(v, d, f, va, perm), PageInsert(v, d, f, va, perm).value.0, Hit(v, d, va));
  }

  lemma InsertNone(v: Vm, d: nat, f: nat, va: Word, perm: Perm)
    requires Inv(v) && Shape(v) && d in v.dirs && d < |v.mem| && f < |v.mem|
    requires PageInsert(v, d, f, va, perm).Done?
    ensures !PgdirWalk(v, d, va, true).At? ==>
      ApplyAll(v, InsertActs(v, d, f, va, perm)) == PageInsert(v, d, f, va, perm).value.0
  {
    PgdirWalkKeeps(v, d, va, true);
    hide Inv, PgdirWalk, PageRemove, WalkActs, RemoveActs, Shape;
  }

  lemma WalkOrdered(v: Vm, d: nat, va: Word, create: bool)
    requires Inv(v) && Coherent(v) && d in v.dirs
    ensures Shape(v) && d < |v.mem| && !PgdirWalk(v, d, va, create).WalkPanic?
    ensures Ordered(v, WalkActs(v, d, va, create), PgdirWalk(v, d, va, create).vm, iset{})
  {
    InvShape(v);
    DirShape(v, d);
    SafeLoaded(v);
    WalkCpu(v, d, va, create);
    hide *;
    LoadedIn(v);
    WalkTracks(v, d, va, create);
    WalkDoes(v, d, va, create);
    TrackOrdered(v, WalkActs(v, d, va, create), PgdirWalk(v, d, va, create).vm, iset{});
  }

  /** env_free: at no time is anything cached wrongly, because nothing it changes is loaded. */
  lemma EnvFreeOrdered(v: Vm, d: nat, kd: nat, current: bool)
    requires Inv(v) && Coherent(v) && d in v.dirs && kd in v.dirs && kd != d
    requires v.cr3 == d ==> current
    ensures Shape(v) && d < |v.mem| && kd < |v.mem| && EnvFree(v, d, kd, current).Done?
    ensures Ordered(v, EnvFreeActs(v, d, kd, current), EnvFree(v, d, kd, current).value, iset{})
  {
    InvShape(v);
    DirShape(v, d);
    DirShape(v, kd);
    EnvFreeCorrect(v, d, kd, current);
    SafeLoaded(v);
    LoadedIn(v);
    hide Inv, Coherent, LoadedSafe, Shape, EnvFree, EnvFreeActs, Ordered;
    if current {
      LoadedKernel(v, kd);
      var v0 := LoadCr3(v, kd);
      EmptyTracks(v0, d, kd);
      EnvFreeLater(v, d, kd);
      EnvFreeDoes(v0, d, kd, false);
      TrackOrdered(v0, EnvFreeActs(v0, d, kd, false), EnvFree(v0, d, kd, false).value, iset{});
      LoadFirst(v, kd, EnvFreeActs(v0, d, kd, false), EnvFree(v0, d, kd, false).value, iset{});
    } else {
      EmptyTracks(v, d, kd);
      EnvFreeDoes(v, d, kd, false);
      TrackOrdered(v, EnvFreeActs(v, d, kd, false), EnvFree(v, d, kd, false).value, iset{});
    }
  }

  lemma LoadedKernel(v: Vm, kd: nat)
    requires Inv(v) && Shape(v) && kd in v.dirs && kd < |v.mem|
    ensures var w := LoadCr3(v, kd);
      Inv(w) && Shape(w) && Coherent(w) && w.cr3 == kd && w.dirs == v.dirs && |w.mem| == |v.mem|
  {
    CpuIrrelevant(v, LoadCr3(v, kd));
    InvShape(LoadCr3(v, kd));
    hide Inv;
  }

  /** For the current environment: lcr3, then as for any other. */
  lemma EnvFreeLater(v: Vm, d: nat, kd: nat)
    requires Shape(v) && Shape(LoadCr3(v, kd)) && d < |v.mem| && kd < |v.mem| && EnvFree(v, d, kd, true).Done?
    ensures EnvFree(LoadCr3(v, kd), d, kd, false) == EnvFree(v, d, kd, true)
    ensures EnvFreeActs(v, d, kd, true) == [Load(kd)] + EnvFreeActs(LoadCr3(v, kd), d, kd, false)
  {
    hide UnmapDir, DirActs, FreeDirActs, Shape, PageDecref, LoadCr3;
  }

  lemma LoadFirst(v: Vm, kd: nat, acts: seq<Act>, r: Vm, bound: iset<Page>)
    requires Shape(v) && Coherent(v) && LoadedSafe(v) && kd < |v.mem|
    requires Shape(LoadCr3(v, kd)) && Ordered(LoadCr3(v, kd), acts, r, bound)
    ensures Ordered(v, [Load(kd)] + acts, r, bound)
  {
    hide *;
    var all := [Load(kd)] + acts;
    forall k: nat, w: Vm | k <= |all| && Runs(v, all[..k], w)
      ensures LoadedSafe(w) && CoherentBut(w, bound) && (k == |all| ==> Coherent(w) && w == r.(tlb := w.tlb))
    {
      if k == 0 {
        assert all[..k] == [];
        FilledSafe(v, w, bound);
      } else {
        assert all[..k] == [Load(kd)] + acts[..k - 1];
        LoadedRun(v, kd, acts[..k - 1], w);
        OrderedAt(LoadCr3(v, kd), acts, r, bound, k - 1, w);
      }
    }
    OrderedIs(v, all, r, bound);
  }

  lemma OrderedIs(v: Vm, acts: seq<Act>, r: Vm, bound: iset<Page>)
    requires Shape(v)
    requires forall k: nat, w: Vm :: k <= |acts| && Runs(v, acts[..k], w) ==>
      LoadedSafe(w) && CoherentBut(w, bound) && (k == |acts| ==> Coherent(w) && w == r.(tlb := w.tlb))
    ensures Ordered(v, acts, r, bound)
  {
    hide Runs, LoadedSafe, CoherentBut, Coherent, Shape;
  }

  lemma FilledSafe(v: Vm, w: Vm, bound: iset<Page>)
    requires Shape(v) && Coherent(v) && LoadedSafe(v) && Runs(v, [], w)
    ensures LoadedSafe(w) && CoherentBut(w, bound)
  {
    hide Translate;
  }

  /** lcr3 forgets what was filled before it. */
  lemma LoadedRun(v: Vm, kd: nat, rest: seq<Act>, w: Vm)
    requires Shape(v) && kd < |v.mem| && Shape(LoadCr3(v, kd)) && Runs(v, [Load(kd)] + rest, w)
    ensures Runs(LoadCr3(v, kd), rest, w)
  {
    hide Apply, Fills, LoadCr3, Shape;
    var all := [Load(kd)] + rest;
    assert all[0] == Load(kd) && all[1..] == rest;
    var u :| Fills(v, u) && Shape(u) && Runs(Apply(u, all[0]), all[1..], w);
    LoadForgets(v, u, kd);
  }

  lemma LoadForgets(v: Vm, u: Vm, kd: nat)
    requires Shape(v) && Shape(u) && kd < |v.mem| && Fills(v, u)
    ensures Apply(u, Load(kd)) == LoadCr3(v, kd)
  {
  }

  // What the order is for

  lemma FillsTwice(u: Vm, v: Vm, w: Vm)
    requires Fills(u, v) && Fills(v, w)
    ensures Fills(u, w)
  {
    hide Translate;
  }

  lemma {:induction false} RunsConcat(v: Vm, a: seq<Act>, b: seq<Act>, u: Vm, w: Vm)
    requires Shape(v) && Shape(u) && Runs(v, a, u) && Runs(u, b, w)
    ensures Runs(v, a + b, w)
    decreases |a|
  {
    hide Apply, Fills, Shape;
    if a == [] {
      assert a + b == b;
      FillsRun(v, u, b, w);
    } else {
      assert (a + b)[0] == a[0] && (a + b)[1..] == a[1..] + b;
      var x :| Fills(v, x) && Shape(x) && Runs(Apply(x, a[0]), a[1..], u);
      RunsConcat(Apply(x, a[0]), a[1..], b, u, w);
    }
  }

  lemma FillsRun(v: Vm, u: Vm, b: seq<Act>, w: Vm)
    requires Shape(v) && Shape(u) && Fills(v, u) && Runs(u, b, w)
    ensures Runs(v, b, w)
  {
    hide Fills, Apply, Shape;
    if b == [] {
      FillsTwice(v, u, w);
    } else {
      var x :| Fills(u, x) && Shape(x) && Runs(Apply(x, b[0]), b[1..], w);
      FillsTwice(v, u, x);
    }
  }

  /** page_remove with invlpg before *pte = 0. */
  function FlushFirstActs(v: Vm, d: nat, va: Word): seq<Act>
    requires Shape(v) && d < |v.mem|
  {
    match PageLookup(v, d, va)
    case Found(f, s) => DecrefActs(v, f) + [Flush(va), Write(s, 0)]
    case _ => []
  }

  /** Without any fill that order gives the same state; with fills it leaves nothing stale exactly
      when the directory is not the loaded one. */
  lemma FlushFirstExact(v: Vm, d: nat, va: Word)
    requires Inv(v) && Coherent(v) && d in v.dirs && va < UTOP
    requires d < |v.mem| && Translate(v.mem, d, PageOf(va)).Some?
    ensures Shape(v)
    ensures (forall w :: Runs(v, FlushFirstActs(v, d, va), w) ==> Coherent(w)) <==> v.cr3 != d
  {
    hide *;
    InvShape(v);
    SafeLoaded(v);
    LoadedIn(v);
    var s := MappedSlot(v, d, va);
    var f := Frame(WordAt(v, s));
    var acts := FlushFirstActs(v, d, va);
    if v.cr3 == d {
      var w := FlushedTooSoon(v, d, va, s, f);
    } else {
      FlushFirstTracks(v, d, va, s, f);
      forall w | Runs(v, acts, w) ensures Coherent(w) {
        assert acts[..|acts|] == acts;
        TrackRuns(v, acts, iset{}, |acts|, w);
      }
    }
  }

  lemma MappedSlot(v: Vm, d: nat, va: Word) returns (s: Slot)
    requires Inv(v) && Shape(v) && v.cr3 in v.dirs && d in v.dirs && va < UTOP && d < |v.mem|
    requires Translate(v.mem, d, PageOf(va)).Some?
    ensures SlotMaps(v, d, va, s) && s.frame < |v.mem| && Present(WordAt(v, s))
    ensures var f := Frame(WordAt(v, s));
      && f < |v.mem| && f != v.cr3 && PageDecref(v, f).Done?
      && FlushFirstActs(v, d, va) == DecrefActs(v, f) + [Flush(va), Write(s, 0)]
  {
    s := Slot(Frame(v.mem[d][PDX(va)]), PTX(va));
    assert Present(v.mem[d][PDX(va)]) && s.frame < |v.mem| && Names(v.mem, Slot(d, PDX(va)), s.frame);
    SlotMapsHere(v, d, va, s);
    MappedIsNoDir(v, s);
    LookupAt(v, d, va, s);
    RemoveDecrefs(v, d, va, s);
    hide Inv, PageLookup, PageDecref, PageRemove, SlotMaps, Translate, DecrefActs, Shape;
  }

  lemma RemoveDecrefs(v: Vm, d: nat, va: Word, s: Slot)
    requires Inv(v) && Shape(v) && d in v.dirs && va < UTOP && Names(v.mem, Slot(d, PDX(va)), s.frame) && s.idx == PTX(va)
    requires d < |v.mem| && s.frame < |v.mem| && Present(WordAt(v, s)) && Frame(WordAt(v, s)) < |v.mem|
    ensures PageDecref(v, Frame(WordAt(v, s))).Done?
  {
    PageRemovePresent(v, d, va, s);
    LookupAt(v, d, va, s);
    hide Inv, PageLookup, PageDecref, Removed, Shape;
  }

  lemma FlushFirstTracks(v: Vm, d: nat, va: Word, s: Slot, f: nat)
    requires Shape(v) && SlotMaps(v, d, va, s) && LoadedSafe(v) && v.cr3 != d && f < |v.mem| && f != v.cr3
    requires PageDecref(v, f).Done?
    ensures Track(v, DecrefActs(v, f) + [Flush(va), Write(s, 0)], iset{}, iset{})
  {
    var u := PageDecref(v, f).value;
    var x := Invlpg(u, va);
    DecrefTracks(v, f);
    DecrefDoes(v, f);
    DecrefKeeps(v, f);
    SlotMapsSame(v, u, d, va, s);
    SlotMapsSame(v, x, d, va, s);
    WriteBreaks(x, d, va, s, 0);
    ApplyFlush(u, va);
    ApplyOne(u, Flush(va));
    ApplyWrite(x, s, 0);
    WriteLoaded(x, s, 0);
    assert LoadedSafe(x) && x.cr3 == u.cr3 == v.cr3 && x.mem == u.mem;
    HitNone(x, d, va);
    hide *;
    TrackNeutral(u, Flush(va), x);
    TrackOne(x, Write(s, 0)) by { NoneBroken(x, Apply(x, Write(s, 0)), d, va); }
    TrackThen(u, x, [Flush(va)], [Write(s, 0)], iset{});
    assert [Flush(va)] + [Write(s, 0)] == [Flush(va), Write(s, 0)];
    TrackThen(v, u, DecrefActs(v, f), [Flush(va), Write(s, 0)], iset{});
  }

  lemma NoneBroken(v: Vm, w: Vm, d: nat, va: Word)
    requires Broken(v, w) <= Hit(v, d, va) && Hit(v, d, va) == iset{}
    ensures Broken(v, w) == iset{}
  {
  }

  /** The processor caches va again between the two actions, and keeps it. */
  lemma FlushedTooSoon(v: Vm, d: nat, va: Word, s: Slot, f: nat) returns (w: Vm)
    requires Shape(v) && SlotMaps(v, d, va, s) && v.cr3 == d && f < |v.mem| && Present(WordAt(v, s))
    requires PageDecref(v, f).Done?
    ensures Runs(v, DecrefActs(v, f) + [Flush(va), Write(s, 0)], w) && !Coherent(w)
  {
    var u := PageDecref(v, f).value;
    var x := Invlpg(u, va);
    var y := x.(tlb := map[PageOf(va) := WordAt(v, s)]);
    w := Store(y, s, 0);
    DecrefKeeps(v, f);
    WriteBreaks(v, d, va, s, 0);
    Outdated(v, w, d, va, s);
    RefillLegal(v, x, y, PageOf(va), s);
    hide *;
    TooSoonRuns(u, x, y, s, va);
    DecrefDoes(v, f);
    RunsApply(v, DecrefActs(v, f));
    RunsConcat(v, DecrefActs(v, f), [Flush(va), Write(s, 0)], u, w);
  }

  lemma RefillLegal(v: Vm, x: Vm, y: Vm, p: Page, s: Slot)
    requires s.frame < |v.mem| && v.cr3 < |v.mem| && Present(WordAt(v, s)) && x.mem == v.mem && x.cr3 == v.cr3
    requires Translate(v.mem, v.cr3, p) == EntryValue(WordAt(v, s)) && y == x.(tlb := map[p := WordAt(v, s)])
    ensures Fills(x, y)
  {
    hide Translate;
  }

  lemma TooSoonRuns(u: Vm, x: Vm, y: Vm, s: Slot, va: Word)
    requires Shape(u) && x == Invlpg(u, va) && Fills(x, y) && s.frame < |y.mem|
    ensures Runs(u, [Flush(va), Write(s, 0)], Store(y, s, 0))
  {
    var w := Store(y, s, 0);
    assert Shape(x) && Shape(y) && Shape(w);
    ApplyFlush(u, va);
    ApplyWrite(y, s, 0);
    FillsNone(u);
    FillsNone(w);
    hide Apply, Fills, Shape, Invlpg, Store;
    assert Runs(w, [], w);
    assert [Write(s, 0)][1..] == [];
    assert Runs(x, [Write(s, 0)], w);
    assert [Flush(va), Write(s, 0)][1..] == [Write(s, 0)];
  }

  lemma FillsNone(v: Vm)
    ensures Fills(v, v)
  {
  }

  lemma Outdated(v: Vm, w: Vm, d: nat, va: Word, s: Slot)
    requires SlotMaps(v, d, va, s) && w.mem == Store(v, s, 0).mem && w.cr3 == d && PageOf(va) in w.tlb
    ensures !Coherent(w)
  {
    assert OnlyChanged(v, Store(v, s, 0), d, PageOf(va), EntryValue(0));
    hide Translate;
  }

  /** env_free with lcr3 at the end. */
  function LoadLastActs(v: Vm, d: nat, kd: nat): seq<Act>
    requires Shape(v) && d < |v.mem| && kd < |v.mem|
  {
    EnvFreeActs(v, d, kd, false) + [Load(kd)]
  }

  /** In that order the loaded directory stays safe throughout exactly when it is another one;
      otherwise it is on the free list before lcr3 takes it out of use. */
  lemma LoadLastExact(v: Vm, d: nat, kd: nat)
    requires Inv(v) && Coherent(v) && d in v.dirs && kd in v.dirs && kd != d
    ensures Shape(v) && d < |v.mem| && kd < |v.mem|
    ensures var acts := LoadLastActs(v, d, kd);
      (forall k: nat, w :: k <= |acts| && Runs(v, acts[..k], w) ==> LoadedSafe(w)) <==> v.cr3 != d
  {
    hide *;
    InvShape(v);
    DirShape(v, d);
    DirShape(v, kd);
    if v.cr3 == d {
      var first, acts := EnvFreeActs(v, d, kd, false), LoadLastActs(v, d, kd);
      LoadLastParts(v, d, kd);
      FreedWhileLoaded(v, d, kd);
      RunsApply(v, first);
      assert Runs(v, acts[..|first|], ApplyAll(v, first));
    } else {
      forall k: nat, w | k <= |LoadLastActs(v, d, kd)| && Runs(v, LoadLastActs(v, d, kd)[..k], w) ensures LoadedSafe(w) {
        LoadLastAt(v, d, kd, k, w);
      }
    }
  }

  lemma LoadLastParts(v: Vm, d: nat, kd: nat)
    requires Shape(v) && d < |v.mem| && kd < |v.mem|
    ensures var first, acts := EnvFreeActs(v, d, kd, false), LoadLastActs(v, d, kd);
      && acts == first + [Load(kd)] && |acts| == |first| + 1 && acts[..|first|] == first
      && forall k: nat :: k <= |first| ==> acts[..k] == first[..k]
  {
    hide EnvFreeActs, Shape;
  }

  lemma LoadLastAt(v: Vm, d: nat, kd: nat, k: nat, w: Vm)
    requires Inv(v) && Shape(v) && Coherent(v) && d in v.dirs && kd in v.dirs && kd != d && v.cr3 != d
    requires d < |v.mem| && kd < |v.mem| && k <= |LoadLastActs(v, d, kd)| && Runs(v, LoadLastActs(v, d, kd)[..k], w)
    ensures LoadedSafe(w)
  {
    hide *;
    var first, acts := EnvFreeActs(v, d, kd, false), LoadLastActs(v, d, kd);
    LoadLastParts(v, d, kd);
    EnvFreeOrdered(v, d, kd, false);
    var r := EnvFree(v, d, kd, false).value;
    if k <= |first| {
      OrderedAt(v, first, r, iset{}, k, w);
    } else {
      assert acts[..k] == acts;
      KernelStays(v, d, kd);
      EnvFreeDoes(v, d, kd, false);
      RunsEnd(v, acts, w);
      ApplyConcat(v, first, [Load(kd)]);
      ApplyOne(r, Load(kd));
      LoadedThen(r, kd, w);
    }
  }

  lemma KernelStays(v: Vm, d: nat, kd: nat)
    requires Inv(v) && Shape(v) && Coherent(v) && d in v.dirs && kd in v.dirs && kd != d && v.cr3 != d
    requires d < |v.mem| && kd < |v.mem|
    ensures var r := EnvFree(v, d, kd, false); r.Done? && Inv(r.value) && Shape(r.value) && kd in r.value.dirs
  {
    EnvFreeCorrect(v, d, kd, false);
    InvShape(EnvFree(v, d, kd, false).value);
    hide Inv, Coherent, EnvFree, Shape;
  }

  lemma OrderedAt(v: Vm, acts: seq<Act>, r: Vm, bound: iset<Page>, k: nat, w: Vm)
    requires Shape(v) && Ordered(v, acts, r, bound) && k <= |acts| && Runs(v, acts[..k], w)
    ensures LoadedSafe(w) && CoherentBut(w, bound) && (k == |acts| ==> Coherent(w) && w == r.(tlb := w.tlb))
  {
    hide Runs, LoadedSafe, CoherentBut, Coherent, Shape;
  }

  lemma LoadedThen(r: Vm, kd: nat, w: Vm)
    requires Inv(r) && Shape(r) && kd in r.dirs && SameButTlb(Apply(r, Load(kd)), w)
    ensures LoadedSafe(w)
  {
    DirRef(r, kd);
    hide Inv;
  }

  lemma FreedWhileLoaded(v: Vm, d: nat, kd: nat)
    requires Inv(v) && Shape(v) && d in v.dirs && d < |v.mem| && kd < |v.mem| && v.cr3 == d
    ensures !LoadedSafe(ApplyAll(v, EnvFreeActs(v, d, kd, false)))
  {
    UnmapDirKeeps(v, d, 0);
    var v1 := UnmapDir(v, d, 0).value;
    ReleaseDir(v, v1, d);
    ReleaseResult(v, v1, d, kd, false);
    hide Inv, UnmapDir, DirEmptied, EnvFreeActs, Unpin, EnvGone, Shape;
    EnvFreeDoes(v, d, kd, false);
  }
}
