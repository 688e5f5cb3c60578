/** The actions of each operation, one by one: which translations they break, that what may be
    stale is flushed, and that the loaded directory is never given away. */
module VmTrack {
  import opened Mmu
  import opened VmOps
  import opened VmInv
  import opened VmMap
  import opened VmPages
  import opened VmTeardown
  import opened VmTlb
  import opened VmActs

  /** The loaded directory is one, and is not on the free list. */
  ghost predicate LoadedSafe(v: Vm) {
    v.cr3 in v.dirs && v.cr3 < |v.mem| && v.cr3 !in v.free
  }

  /** Along the actions the loaded directory is safe and stays loaded, stale entries are possible
      for pages in bound only, and at the end for none. */
  ghost predicate Track(v: Vm, acts: seq<Act>, ps: iset<Page>, bound: iset<Page>)
    requires Shape(v)
    decreases |acts|
  {
    && LoadedSafe(v) && ps <= bound
    && if acts == [] then ps == iset{}
       else
         && !acts[0].Load? && Apply(v, acts[0]).cr3 == v.cr3
         && Track(Apply(v, acts[0]), acts[1..], After(v, acts[0], ps), bound)
  }

  /** What a tracked sequence guarantees after any number of its actions and any fills. */
  lemma TrackRuns(v: Vm, acts: seq<Act>, bound: iset<Page>, k: nat, w: Vm)
    requires Shape(v) && Coherent(v) && Track(v, acts, iset{}, bound)
    requires k <= |acts| && Runs(v, acts[..k], w)
    ensures CoherentBut(w, bound) && LoadedSafe(w)
    ensures k == |acts| ==> Coherent(w)
  {
    RunsCoherent(v, acts[..k], iset{}, w);
    RunsEnd(v, acts[..k], w);
    TrackPrefix(v, acts, iset{}, bound, k);
    hide Translate, Runs, Track, Stale, ApplyAll;
  }

  lemma {:induction false} TrackPrefix(v: Vm, acts: seq<Act>, ps: iset<Page>, bound: iset<Page>, k: nat)
    requires Shape(v) && Track(v, acts, ps, bound) && k <= |acts|
    ensures LoadedSafe(ApplyAll(v, acts[..k])) && Stale(v, acts[..k], ps) <= bound
    ensures k == |acts| ==> Stale(v, acts[..k], ps) == iset{}
    decreases k
  {
    if k > 0 {
      assert acts[..k][1..] == acts[1..][..k - 1];
      hide Apply, After, LoadedSafe;
      TrackPrefix(Apply(v, acts[0]), acts[1..], After(v, acts[0], ps), bound, k - 1);
    }
  }

  lemma {:induction false} TrackConcat(v: Vm, a: seq<Act>, b: seq<Act>, ps: iset<Page>, bound: iset<Page>)
    requires Shape(v) && Track(v, a, ps, bound) && Track(ApplyAll(v, a), b, iset{}, bound)
    ensures Track(v, a + b, ps, bound)
    decreases |a|
  {
    if a == [] {
      assert a + b == b;
    } else {
      assert (a + b)[0] == a[0] && (a + b)[1..] == a[1..] + b;
      hide Apply, After, LoadedSafe;
      TrackConcat(Apply(v, a[0]), a[1..], b, After(v, a[0], ps), bound);
    }
  }

  lemma {:induction false} TrackWider(v: Vm, acts: seq<Act>, ps: iset<Page>, small: iset<Page>, bound: iset<Page>)
    requires Shape(v) && Track(v, acts, ps, small) && small <= bound
    ensures Track(v, acts, ps, bound)
    decreases |acts|
  {
    if acts != [] {
      hide Apply, After, LoadedSafe;
      TrackWider(Apply(v, acts[0]), acts[1..], After(v, acts[0], ps), small, bound);
    }
  }

  /** Two tracked sequences in a row. */
  lemma TrackThen(v: Vm, u: Vm, a: seq<Act>, b: seq<Act>, bound: iset<Page>)
    requires Shape(v) && Track(v, a, iset{}, bound) && ApplyAll(v, a) == u && Track(u, b, iset{}, bound)
    ensures Track(v, a + b, iset{}, bound)
  {
    hide *;
    TrackConcat(v, a, b, iset{}, bound);
  }

  /** ... the first of which breaks nothing, or the second. */
  lemma TrackCalmThen(v: Vm, u: Vm, a: seq<Act>, b: seq<Act>, bound: iset<Page>)
    requires Shape(v) && Track(v, a, iset{}, iset{}) && ApplyAll(v, a) == u && Track(u, b, iset{}, bound)
    ensures Track(v, a + b, iset{}, bound)
  {
    hide *;
    TrackWider(v, a, iset{}, iset{}, bound);
    TrackThen(v, u, a, b, bound);
  }

  lemma TrackThenCalm(v: Vm, u: Vm, a: seq<Act>, b: seq<Act>, bound: iset<Page>)
    requires Shape(v) && Track(v, a, iset{}, bound) && ApplyAll(v, a) == u && Track(u, b, iset{}, iset{})
    ensures Track(v, a + b, iset{}, bound)
  {
    hide *;
    TrackWider(u, b, iset{}, iset{}, bound);
    TrackThen(v, u, a, b, bound);
  }

  /** An action that breaks no translation of the loaded directory. */
  lemma TrackOne(v: Vm, a: Act)
    requires Shape(v) && !a.Load? && LoadedSafe(v) && LoadedSafe(Apply(v, a)) && Apply(v, a).cr3 == v.cr3
    requires Broken(v, Apply(v, a)) == iset{}
    ensures Track(v, [a], iset{}, iset{})
  {
    hide Apply, LoadedSafe, Broken;
    assert Track(Apply(v, a), [], iset{}, iset{});
    assert After(v, a, iset{}) == iset{};
  }

  lemma TrackNeutral(v: Vm, a: Act, w: Vm)
    requires Shape(v) && !a.Load? && Apply(v, a) == w && LoadedSafe(v) && LoadedSafe(w) && w.cr3 == v.cr3
    requires w.mem == v.mem
    ensures Track(v, [a], iset{}, iset{})
  {
    assert Broken(v, Apply(v, a)) == iset{} by { hide *; SameBroken(v, w); }
    hide *;
    TrackOne(v, a);
  }

  lemma SameBroken(v: Vm, w: Vm)
    requires w.mem == v.mem
    ensures Broken(v, w) == iset{}
  {
    hide Translate;
  }

  lemma TrackNone(v: Vm)
    requires Shape(v) && LoadedSafe(v)
    ensures Track(v, [], iset{}, iset{})
  {
  }

  // The pieces

  lemma SafeLoaded(v: Vm)
    requires Inv(v) && Coherent(v)
    ensures LoadedSafe(v)
  {
    DirRef(v, v.cr3);
  }

  lemma DecrefTracks(v: Vm, f: nat)
    requires Shape(v) && f < |v.mem| && PageDecref(v, f).Done? && LoadedSafe(v) && f != v.cr3
    ensures Track(v, DecrefActs(v, f), iset{}, iset{})
    ensures LoadedSafe(PageDecref(v, f).value)
  {
    var u := v.(ref := v.ref[f := Minus1(v.ref[f])]);
    DecrefStates(v, u, f);
    var w := PageDecref(v, f).value;
    ApplyLower(v, f);
    hide *;
    TrackNeutral(v, Lower(f), u);
    if Minus1(v.ref[f]) == 0 {
      ApplyGive(u, f);
      TrackNeutral(u, Give(f), w);
      ApplyOne(v, Lower(f));
      TrackThen(v, u, [Lower(f)], [Give(f)], iset{});
      assert [Lower(f)] + [Give(f)] == [Lower(f), Give(f)];
    }
  }

  lemma DecrefStates(v: Vm, u: Vm, f: nat)
    requires Shape(v) && f < |v.mem| && PageDecref(v, f).Done? && LoadedSafe(v) && f != v.cr3
    requires u == v.(ref := v.ref[f := Minus1(v.ref[f])])
    ensures Shape(u) && |u.mem| == |v.mem| && u.mem == v.mem && u.cr3 == v.cr3 && LoadedSafe(u)
    ensures var w := PageDecref(v, f).value; LoadedSafe(w) && w.mem == u.mem && w.cr3 == u.cr3
    ensures DecrefActs(v, f) == if Minus1(v.ref[f]) == 0 then [Lower(f), Give(f)] else [Lower(f)]
    ensures Minus1(v.ref[f]) == 0 ==> PageFree(u, f) == PageDecref(v, f)
    ensures Minus1(v.ref[f]) != 0 ==> u == PageDecref(v, f).value
  {
  }

  /** Entry s is the one that maps va in d: writing it changes that translation alone. */
  ghost predicate SlotMaps(v: Vm, d: nat, va: Word, s: Slot) {
    && d in v.dirs && d < |v.mem| && s.frame < |v.mem|
    && forall x: Word :: OnlyChanged(v, Store(v, s, x), d, PageOf(va), EntryValue(x))
  }

  lemma SlotMapsHere(v: Vm, d: nat, va: Word, s: Slot)
    requires Inv(v) && d in v.dirs && va < UTOP && Names(v.mem, Slot(d, PDX(va)), s.frame) && s.idx == PTX(va)
    ensures SlotMaps(v, d, va, s) && IsTable(v, s)
  {
    WalkSlotBelow(v, d, va, s);
    DirShape(v, d);
    OwnerNames(v, s);
    hide Inv, OnlyChanged, Names;
    forall x: Word ensures OnlyChanged(v, Store(v, s, x), d, PageOf(va), EntryValue(x)) {
      TableWriteMap(v, s, x);
    }
  }

  predicate IsTable(v: Vm, s: Slot) { s.frame in v.tabs && s.frame < |v.mem| }

  /** With the same memory and directories it is so too ... */
  lemma SlotMapsSame(v: Vm, w: Vm, d: nat, va: Word, s: Slot)
    requires SlotMaps(v, d, va, s) && w.mem == v.mem && w.dirs == v.dirs
    ensures SlotMaps(w, d, va, s)
  {
    hide Translate;
    forall x: Word ensures OnlyChanged(w, Store(w, s, x), d, PageOf(va), EntryValue(x)) {
      assert OnlyChanged(v, Store(v, s, x), d, PageOf(va), EntryValue(x));
      assert Store(w, s, x).mem == Store(v, s, x).mem;
    }
  }

  /** ... and after a write to the entry itself. */
  lemma SlotMapsAgain(v: Vm, d: nat, va: Word, s: Slot, y: Word)
    requires SlotMaps(v, d, va, s)
    ensures SlotMaps(Store(v, s, y), d, va, s)
  {
    hide Translate;
    var w := Store(v, s, y);
    assert OnlyChanged(v, w, d, PageOf(va), EntryValue(y));
    forall x: Word ensures OnlyChanged(w, Store(w, s, x), d, PageOf(va), EntryValue(x)) {
      assert OnlyChanged(v, Store(v, s, x), d, PageOf(va), EntryValue(x));
      assert w.mem[s.frame][s.idx := x] == v.mem[s.frame][s.idx := x];
      assert Store(w, s, x).mem == Store(v, s, x).mem;
    }
  }

  /** The pages a write to the entry can break: va's own, and only if the directory is loaded. */
  ghost function Hit(v: Vm, d: nat, va: Word): iset<Page> {
    if v.cr3 == d then iset{PageOf(va)} else iset{}
  }

  lemma WriteBreaks(v: Vm, d: nat, va: Word, s: Slot, x: Word)
    requires SlotMaps(v, d, va, s) && v.cr3 in v.dirs
    ensures Broken(v, Store(v, s, x)) <= Hit(v, d, va)
    ensures Translate(v.mem, d, PageOf(va)) == EntryValue(WordAt(v, s))
    ensures !Present(WordAt(v, s)) ==> Broken(v, Store(v, s, x)) == iset{}
  {
    var y := WordAt(v, s);
    assert v.mem[s.frame][s.idx := y] == v.mem[s.frame];
    assert Store(v, s, y).mem == v.mem;
    assert OnlyChanged(v, Store(v, s, y), d, PageOf(va), EntryValue(y));
    assert OnlyChanged(v, Store(v, s, x), d, PageOf(va), EntryValue(x));
    hide Translate;
  }

  /** *pte = 0, then invlpg. */
  lemma ClearTracks(v: Vm, d: nat, va: Word, s: Slot)
    requires Shape(v) && SlotMaps(v, d, va, s) && LoadedSafe(v)
    ensures Track(v, [Write(s, 0), Flush(va)], iset{}, Hit(v, d, va))
    ensures LoadedSafe(Invlpg(Store(v, s, 0), va))
  {
    var u := Store(v, s, 0);
    WriteBreaks(v, d, va, s, 0);
    ApplyWrite(v, s, 0);
    ApplyFlush(u, va);
    assert [Write(s, 0), Flush(va)][1..] == [Flush(va)];
    hide Apply, SlotMaps, Broken, OnlyChanged, Translate, Shape;
    var ps := After(v, Write(s, 0), iset{});
    assert After(u, Flush(va), ps) == iset{};
    assert Track(Invlpg(u, va), [], iset{}, Hit(v, d, va));
    assert Track(u, [Flush(va)], ps, Hit(v, d, va));
  }

  // page_remove

  lemma RemoveTracks(v: Vm, d: nat, va: Word, s: Slot)
    requires Shape(v) && d < |v.mem| && SlotMaps(v, d, va, s) && LoadedSafe(v) && PageRemove(v, d, va).Done?
    requires PageLookup(v, d, va) == Found(Frame(WordAt(v, s)), s) && Frame(WordAt(v, s)) != v.cr3
    ensures Track(v, RemoveActs(v, d, va), iset{}, Hit(v, d, va))
  {
    var f := Frame(WordAt(v, s));
    DecrefTracks(v, f);
    DecrefKeeps(v, f);
    hide PageLookup, Track, Apply, ApplyAll, SlotMaps, Shape, LoadedSafe, PageDecref;
    var u := PageDecref(v, f).value;
    DecrefDoes(v, f);
    SlotMapsSame(v, u, d, va, s);
    ClearTracks(u, d, va, s);
    TrackWider(v, DecrefActs(v, f), iset{}, iset{}, Hit(v, d, va));
    TrackThen(v, u, DecrefActs(v, f), [Write(s, 0), Flush(va)], Hit(v, d, va));
  }

  /** A directory of a state of the invariant is off the free list. */
  lemma DirSafe(v: Vm)
    requires Inv(v) && v.cr3 in v.dirs
    ensures LoadedSafe(v)
  {
    DirRef(v, v.cr3);
  }

  lemma MappedIsNoDir(v: Vm, s: Slot)
    requires Inv(v) && s.frame in v.tabs && s.frame < |v.mem| && Present(WordAt(v, s))
    ensures Frame(WordAt(v, s)) < |v.mem| && Frame(WordAt(v, s)) !in v.dirs
  {
    WhoNames(v, s, Frame(WordAt(v, s)));
  }

  /** page_remove of a mapped page, from any state with the memory and directories of v. */
  lemma RemoveTracksMapped(v: Vm, u: Vm, d: nat, va: Word, s: Slot)
    requires Inv(v) && d in v.dirs && va < UTOP && Names(v.mem, Slot(d, PDX(va)), s.frame) && s.idx == PTX(va)
    requires s.frame < |v.mem| && Present(WordAt(v, s))
    requires Shape(u) && u.mem == v.mem && u.dirs == v.dirs && LoadedSafe(u) && d < |u.mem| && PageRemove(u, d, va).Done?
    ensures Track(u, RemoveActs(u, d, va), iset{}, Hit(u, d, va))
  {
    SlotMapsHere(v, d, va, s);
    MappedIsNoDir(v, s);
    SlotMapsSame(v, u, d, va, s);
    LookupAt(u, d, va, s);
    hide *;
    LoadedIn(u);
    RemoveTracks(u, d, va, s);
  }

  lemma LoadedIn(v: Vm)
    requires LoadedSafe(v)
    ensures v.cr3 in v.dirs
  {
  }

  lemma LookupAt(v: Vm, d: nat, va: Word, s: Slot)
    requires Shape(v) && d < |v.mem| && Names(v.mem, Slot(d, PDX(va)), s.frame) && s.idx == PTX(va)
    requires s.frame < |v.mem| && Frame(WordAt(v, s)) < |v.mem|
    ensures PageLookup(v, d, va) == Found(Frame(WordAt(v, s)), s)
  {
  }

  // page_alloc and pgdir_walk

  lemma AllocTracks(v: Vm, flags: int)
    requires Inv(v) && Shape(v) && v.cr3 in v.dirs
    ensures Track(v, AllocActs(v, flags), iset{}, iset{})
  {
    DirSafe(v);
    if v.head == NULL {
      TrackNone(v);
    } else {
      PageAllocInv(v, 0);
      var u := PageAlloc(v, 0).0;
      assert Apply(v, Take) == u;
      ApplyOne(v, Take);
      DirSafe(u);
      assert u.mem == v.mem && u.cr3 == v.cr3;
      var t := v.head;
      assert t in u.loose && t < |u.mem|;
      hide Inv, Track, Apply, LoadedSafe, PageAlloc, ApplyAll;
      TrackNeutral(v, Take, u);
      if flags != 0 {
        LooseFillTracks(u, t, ZeroFrame());
        assert [Take, Fill(t, ZeroFrame())] == [Take] + [Fill(t, ZeroFrame())];
        TrackThen(v, u, [Take], [Fill(t, ZeroFrame())], iset{});
      }
    }
  }

  /** Filling a page that is no part of a page structure. */
  lemma LooseFillTracks(v: Vm, t: nat, words: FrameWords)
    requires Inv(v) && Shape(v) && v.cr3 in v.dirs && t in v.loose
    ensures t < |v.mem| && Apply(v, Fill(t, words)) == v.(mem := v.mem[t := words])
    ensures Track(v, [Fill(t, words)], iset{}, iset{})
  {
    LooseIsData(v, t);
    DirSafe(v);
    var w := v.(mem := v.mem[t := words]);
    assert Apply(v, Fill(t, words)) == w;
    DataIrrelevant(v, w);
    SameMapBroken(v, w);
    hide Inv, Apply, Broken, Track;
    TrackOne(v, Fill(t, words));
  }

  lemma SameMapBroken(v: Vm, w: Vm)
    requires SameMap(v, w) && v.cr3 in v.dirs
    ensures Broken(v, w) == iset{}
  {
    hide Translate;
  }

  lemma InstallTracks(v: Vm, d: nat, i: Index, t: nat)
    requires Inv(v) && Shape(v) && v.cr3 in v.dirs && d in v.dirs && d < |v.mem| && !Present(v.mem[d][i])
    requires t in v.loose && t < |v.mem| && v.mem[t] == ZeroFrame()
    ensures Track(v, InstallActs(v, d, i, t), iset{}, iset{})
  {
    var s, x := Slot(d, i), Entry(t, PTE_PWU);
    var u1 := IncRef(v, t);
    var u2 := Store(u1, s, x);
    var c := InstallNote(v, d, i, t);
    InstallUnbroken(v, d, i, t);
    DirSafe(v);
    InstallKeepsLoaded(v, d, i, t);
    ApplyCount(v, t);
    ApplyWrite(u1, s, x);
    ApplyNote(u2, c);
    hide Inv, Apply, LoadedSafe, Broken, Track, InstallNote, InstallTable, Entry, ZeroFrame;
    TrackNeutral(v, Count(t), u1);
    TrackOne(u1, Write(s, x));
    var u3 := Apply(u2, c);
    TrackNeutral(u2, c, u3);
    assert [Count(t)] + [Write(s, x)] + [c] == InstallActs(v, d, i, t);
    ApplyOne(v, Count(t));
    TrackThen(v, u1, [Count(t)], [Write(s, x)], iset{});
    ApplyTwo(v, Count(t), Write(s, x));
    assert [Count(t)] + [Write(s, x)] == [Count(t), Write(s, x)];
    TrackThen(v, u2, [Count(t)] + [Write(s, x)], [c], iset{});
  }

  lemma InstallKeepsLoaded(v: Vm, d: nat, i: Index, t: nat)
    requires Shape(v) && d < |v.mem| && t < |v.mem| && LoadedSafe(v)
    ensures var u1 := IncRef(v, t);
      var u2 := Store(u1, Slot(d, i), Entry(t, PTE_PWU));
      var c := InstallNote(v, d, i, t);
      && LoadedSafe(u1) && LoadedSafe(u2) && u1.cr3 == u2.cr3 == v.cr3 && u1.mem == v.mem
      && c.Note? && |c.pins| == |v.mem| && c.dirs == v.dirs
      && LoadedSafe(u2.(dirs := c.dirs, tabs := c.tabs, ktabs := c.ktabs, pins := c.pins))
  {
    hide Entry;
  }

  lemma InstallUnbroken(v: Vm, d: nat, i: Index, t: nat)
    requires Inv(v) && Shape(v) && v.cr3 in v.dirs && d in v.dirs && d < |v.mem| && !Present(v.mem[d][i])
    requires t in v.loose && t < |v.mem| && v.mem[t] == ZeroFrame()
    ensures Broken(IncRef(v, t), Store(IncRef(v, t), Slot(d, i), Entry(t, PTE_PWU))) == iset{}
  {
    InstallMap(v, d, i, t);
    DirShape(v, v.cr3);
    var w := InstallTable(v, d, i, t);
    assert w.mem == Store(IncRef(v, t), Slot(d, i), Entry(t, PTE_PWU)).mem;
    hide Inv, Translate, InstallTable, Entry;
    assert forall p: Page :: Translate(v.mem, v.cr3, p).Some? ==> Translate(w.mem, v.cr3, p) == Translate(v.mem, v.cr3, p);
  }

  lemma WalkTracks(v: Vm, d: nat, va: Word, create: bool)
    requires Inv(v) && Shape(v) && v.cr3 in v.dirs && d in v.dirs && d < |v.mem|
    ensures Track(v, WalkActs(v, d, va, create), iset{}, iset{})
  {
    if Present(v.mem[d][PDX(va)]) || !create || v.head == NULL {
      DirSafe(v);
      TrackNone(v);
    } else {
      MadeFacts(v, d, PDX(va));
      var v1 := PageAlloc(v, 1).0;
      hide Inv, Track, ApplyAll, PageAlloc, AllocActs, InstallActs, Shape, Frame;
      AllocTracks(v, 1);
      AllocDoes(v, 1);
      InstallTracks(v1, d, PDX(va), v.head);
      TrackThen(v, v1, AllocActs(v, 1), InstallActs(v, d, PDX(va), v.head), iset{});
    }
  }

  lemma MadeFacts(v: Vm, d: nat, i: Index)
    requires Inv(v) && Shape(v) && d in v.dirs && d < |v.mem| && v.head != NULL
    ensures var v1 := PageAlloc(v, 1).0;
      && Inv(v1) && Shape(v1) && v1.cr3 == v.cr3 && v1.dirs == v.dirs && |v1.mem| == |v.mem|
      && v1.mem[d] == v.mem[d] && v.head in v1.loose && v1.mem[v.head] == ZeroFrame()
      && InstallActs(v1, d, i, v.head) == InstallActs(v, d, i, v.head)
  {
    PageAllocInv(v, 1);
    HeadIsFree(v);
    InvShape(PageAlloc(v, 1).0);
    hide Inv, ZeroFrame;
  }

  // page_insert

  lemma TrackEnd(v: Vm, acts: seq<Act>, bound: iset<Page>)
    requires Shape(v) && Track(v, acts, iset{}, bound)
    ensures LoadedSafe(ApplyAll(v, acts))
  {
    TrackPrefix(v, acts, iset{}, bound, |acts|);
    assert acts[..|acts|] == acts;
  }

  lemma RemovedState(v: Vm, d: nat, va: Word, s: Slot)
    requires Shape(v) && d < |v.mem| && s.frame < |v.mem| && PageRemove(v, d, va).Done?
    requires PageLookup(v, d, va) == Found(Frame(WordAt(v, s)), s)
    ensures var w := PageRemove(v, d, va).value;
      w.mem == Store(v, s, 0).mem && w.dirs == v.dirs && w.cr3 == v.cr3
  {
    DecrefKeeps(v, Frame(WordAt(v, s)));
    hide PageLookup, PageDecref;
  }

  /** Writing the entry while it is absent breaks nothing. */
  lemma EntryTracks(v: Vm, d: nat, va: Word, s: Slot, x: Word)
    requires Shape(v) && SlotMaps(v, d, va, s) && LoadedSafe(v) && !Present(WordAt(v, s))
    ensures Track(v, [Write(s, x)], iset{}, iset{})
  {
    WriteBreaks(v, d, va, s, x);
    ApplyWrite(v, s, x);
    WriteLoaded(v, s, x);
    hide *;
    TrackOne(v, Write(s, x));
  }

  lemma WriteLoaded(v: Vm, s: Slot, x: Word)
    requires LoadedSafe(v) && s.frame < |v.mem|
    ensures v.cr3 in v.dirs && LoadedSafe(Store(v, s, x)) && Store(v, s, x).cr3 == v.cr3
  {
  }

  /** page_insert behind the walk. */
  lemma MapTracks(v: Vm, d: nat, f: nat, va: Word, perm: Perm, s: Slot)
    requires Inv(v) && Shape(v) && v.cr3 in v.dirs && d in v.dirs && d < |v.mem| && f < |v.mem| && va < UTOP
    requires s.frame < |v.mem| && s.idx == PTX(va) && Names(v.mem, Slot(d, PDX(va)), s.frame)
    requires Present(WordAt(v, s)) ==> PageRemove(IncRef(v, f), d, va).Done?
    ensures Track(v, MapActs(v, d, f, va, perm, s), iset{}, Hit(v, d, va))
  {
    var u := IncRef(v, f);
    MapParts(v, d, f, va, perm, s);
    hide *;
    DirSafe(v);
    ApplyCount(v, f);
    ApplyOne(v, Count(f));
    IncKeeps(v, f);
    SlotMapsHere(v, d, va, s);
    TrackNeutral(v, Count(f), u);
    SlotMapsSame(v, u, d, va, s);
    SameHit(v, u, d, va);
    if Present(WordAt(v, s)) {
      OverTracks(v, u, d, f, va, perm, s);
    } else {
      EntryTracks(u, d, va, s, Entry(f, perm));
      TrackThen(v, u, [Count(f)], [Write(s, Entry(f, perm))], iset{});
      NothingBetween([Count(f)], [Write(s, Entry(f, perm))]);
      TrackWider(v, [Count(f)] + [Write(s, Entry(f, perm))], iset{}, iset{}, Hit(v, d, va));
    }
  }

  lemma MapParts(v: Vm, d: nat, f: nat, va: Word, perm: Perm, s: Slot)
    requires Shape(v) && d < |v.mem| && f < |v.mem| && s.frame < |v.mem|
    ensures f < 0x10_0000
    ensures MapActs(v, d, f, va, perm, s)
      == [Count(f)] + (if Present(WordAt(v, s)) then RemoveActs(IncRef(v, f), d, va) else []) + [Write(s, Entry(f, perm))]
  {
  }

  lemma NothingBetween(a: seq<Act>, b: seq<Act>)
    ensures a + [] + b == a + b
  {
  }

  /** ... over another mapping: the removal in between. */
  lemma OverTracks(v: Vm, u: Vm, d: nat, f: nat, va: Word, perm: Perm, s: Slot)
    requires Inv(v) && Shape(v) && Shape(u) && d in v.dirs && d < |v.mem| && va < UTOP && f < 0x10_0000
    requires s.frame < |v.mem| && s.idx == PTX(va) && Names(v.mem, Slot(d, PDX(va)), s.frame)
    requires Present(WordAt(v, s)) && u.mem == v.mem && u.dirs == v.dirs && LoadedSafe(u)
    requires Track(v, [Count(f)], iset{}, iset{}) && ApplyAll(v, [Count(f)]) == u && SlotMaps(u, d, va, s)
    requires d < |u.mem| && PageRemove(u, d, va).Done? && Hit(u, d, va) == Hit(v, d, va)
    ensures Track(v, [Count(f)] + RemoveActs(u, d, va) + [Write(s, Entry(f, perm))], iset{}, Hit(v, d, va))
  {
    hide *;
    var w := PageRemove(u, d, va).value;
    RemoveTracksMapped(v, u, d, va, s);
    RemoveDoes(u, d, va);
    TrackEnd(u, RemoveActs(u, d, va), Hit(v, d, va));
    AbsentAfter(v, u, d, va, s);
    EntryTracks(w, d, va, s, Entry(f, perm));
    TrackCalmThen(v, u, [Count(f)], RemoveActs(u, d, va), Hit(v, d, va));
    Then(v, u, w, [Count(f)], RemoveActs(u, d, va));
    TrackThenCalm(v, w, [Count(f)] + RemoveActs(u, d, va), [Write(s, Entry(f, perm))], Hit(v, d, va));
  }

  lemma AbsentAfter(v: Vm, u: Vm, d: nat, va: Word, s: Slot)
    requires Inv(v) && Shape(u) && d in v.dirs && va < UTOP && s.frame < |v.mem| && s.idx == PTX(va)
    requires Names(v.mem, Slot(d, PDX(va)), s.frame) && Present(WordAt(v, s)) && u.mem == v.mem
    requires d < |u.mem| && PageRemove(u, d, va).Done? && SlotMaps(u, d, va, s)
    ensures var w := PageRemove(u, d, va).value; SlotMaps(w, d, va, s) && !Present(WordAt(w, s))
  {
    SlotFrameIsTable(v, d, va, s);
    MappedIsNoDir(v, s);
    hide Inv, SlotMaps, PageRemove;
    LookupAt(u, d, va, s);
    RemovedState(u, d, va, s);
    SlotMapsAgain(u, d, va, s, 0);
    var w := PageRemove(u, d, va).value;
    SlotMapsSame(Store(u, s, 0), w, d, va, s);
    Cleared(u, w, s);
  }

  lemma IncKeeps(v: Vm, f: nat)
    requires Shape(v) && f < |v.mem|
    ensures var u := IncRef(v, f);
      && Shape(u) && u.mem == v.mem && u.dirs == v.dirs && u.cr3 == v.cr3 && (LoadedSafe(v) ==> LoadedSafe(u))
      && forall s: Slot :: s.frame < |v.mem| ==> WordAt(u, s) == WordAt(v, s)
    ensures f < 0x10_0000
  {
  }

  lemma SameHit(v: Vm, w: Vm, d: nat, va: Word)
    requires w.cr3 == v.cr3
    ensures Hit(w, d, va) == Hit(v, d, va) && iset{} <= Hit(v, d, va)
  {
  }

  lemma SlotFrameIsTable(v: Vm, d: nat, va: Word, s: Slot)
    requires Inv(v) && d in v.dirs && va < UTOP && Names(v.mem, Slot(d, PDX(va)), s.frame)
    ensures s.frame in v.tabs
  {
    WalkSlotBelow(v, d, va, s);
  }

  lemma Cleared(v: Vm, w: Vm, s: Slot)
    requires s.frame < |v.mem| && w.mem == Store(v, s, 0).mem
    ensures s.frame < |w.mem| && !Present(WordAt(w, s))
    ensures Store(v, s, 0).dirs == v.dirs
  {
  }

  lemma InsertTracks(v: Vm, d: nat, f: nat, va: Word, perm: Perm)
    requires Inv(v) && Shape(v) && v.cr3 in v.dirs && d in v.dirs && d < |v.mem| && va < UTOP
    requires f < |v.mem| && IsData(v, f) && f !in v.free && RoomFor(v, d, f, va)
    ensures Track(v, InsertActs(v, d, f, va, perm), iset{}, Hit(v, d, va))
  {
    InsertDone(v, d, f, va, perm);
    InsertCases(v, d, f, va, perm);
    WalkCpu(v, d, va, true);
    var r := PgdirWalk(v, d, va, true);
    hide *;
    if r.At? {
      InsertFrom(v, r.vm, d, f, va, perm, r.slot);
    } else {
      DirSafe(v);
      TrackNone(v);
      SameHit(v, v, d, va);
      TrackWider(v, [], iset{}, iset{}, Hit(v, d, va));
    }
  }

  lemma InsertDone(v: Vm, d: nat, f: nat, va: Word, perm: Perm)
    requires Inv(v) && Shape(v) && d in v.dirs && d < |v.mem| && va < UTOP
    requires f < |v.mem| && IsData(v, f) && f !in v.free && RoomFor(v, d, f, va)
    ensures PageInsert(v, d, f, va, perm).Done? && f < 0x10_0000
  {
    PageInsertCorrect(v, d, f, va, perm);
  }

  lemma InsertFrom(v: Vm, v1: Vm, d: nat, f: nat, va: Word, perm: Perm, s: Slot)
    requires Inv(v) && Shape(v) && v.cr3 in v.dirs && d in v.dirs && d < |v.mem| && va < UTOP && f < |v.mem|
    requires PgdirWalk(v, d, va, true) == At(v1, s) && Shape(v1) && |v1.mem| == |v.mem| && s.frame < |v.mem|
    requires Present(WordAt(v1, s)) ==> PageRemove(IncRef(v1, f), d, va).Done?
    ensures Track(v, WalkActs(v, d, va, true) + MapActs(v1, d, f, va, perm, s), iset{}, Hit(v, d, va))
  {
    WalkFound(v, v1, d, va, s);
    hide *;
    SameHit(v, v1, d, va);
    WalkTracks(v, d, va, true);
    WalkDoes(v, d, va, true);
    MapTracks(v1, d, f, va, perm, s);
    TrackCalmThen(v, v1, WalkActs(v, d, va, true), MapActs(v1, d, f, va, perm, s), Hit(v, d, va));
  }

  lemma WalkFound(v: Vm, v1: Vm, d: nat, va: Word, s: Slot)
    requires Inv(v) && Shape(v) && d in v.dirs && d < |v.mem| && PgdirWalk(v, d, va, true) == At(v1, s)
    ensures Inv(v1) && v1.cr3 == v.cr3 && v1.dirs == v.dirs && s.idx == PTX(va)
    ensures Names(v1.mem, Slot(d, PDX(va)), s.frame)
  {
    PgdirWalkKeeps(v, d, va, true);
    hide Inv, PgdirWalk, Shape;
  }

  /** page_insert and its actions, case by case. */
  lemma InsertCases(v: Vm, d: nat, f: nat, va: Word, perm: Perm)
    requires Shape(v) && d < |v.mem| && f < |v.mem|
    ensures f < 0x10_0000
    ensures match PgdirWalk(v, d, va, true)
      case WalkPanic => PageInsert(v, d, f, va, perm).Panic?
      case NoTable(v1) => PageInsert(v, d, f, va, perm) == Done((v1, -E_NO_MEM)) && InsertActs(v, d, f, va, perm) == []
      case At(v1, s) =>
        && InsertActs(v, d, f, va, perm) == WalkActs(v, d, va, true) + MapActs(v1, d, f, va, perm, s)
        && PageInsert(v, d, f, va, perm) ==
             match MapAt(v1, d, f, va, perm, s)
             case Panic => Panic
             case Done(w) => Done((w, 0))
  {
    var r := PgdirWalk(v, d, va, true);
    if r.At? { IncKeeps(r.vm, f); }
    hide PgdirWalk, PageRemove, WalkActs, MapActs, Entry, IncRef;
  }

  lemma InsertPanics(v: Vm, d: nat, f: nat, va: Word, perm: Perm)
    requires Shape(v) && d < |v.mem| && f < |v.mem| && PgdirWalk(v, d, va, true).WalkPanic?
    ensures PageInsert(v, d, f, va, perm).Panic?
  {
    hide PgdirWalk;
  }

  lemma InsertAfterWalk(v: Vm, v1: Vm, d: nat, f: nat, va: Word, perm: Perm)
    requires Shape(v) && Shape(v1) && d < |v.mem| == |v1.mem| && f < |v.mem|
    requires var r := PgdirWalk(v, d, va, true); !r.WalkPanic? && r.vm == v1
    ensures var r := PgdirWalk(v, d, va, true);
      if r.NoTable? then PageInsert(v, d, f, va, perm) == Done((v1, -E_NO_MEM))
      else
        && InsertActs(v, d, f, va, perm) == WalkActs(v, d, va, true) + MapActs(v1, d, f, va, perm, r.slot)
        && (MapAt(v1, d, f, va, perm, r.slot).Panic? ==> PageInsert(v, d, f, va, perm).Panic?)
        && (MapAt(v1, d, f, va, perm, r.slot).Done? ==>
              PageInsert(v, d, f, va, perm) == Done((MapAt(v1, d, f, va, perm, r.slot).value, 0)))
  {
    InsertCases(v, d, f, va, perm);
    hide PgdirWalk, MapAt, MapActs, WalkActs, PageInsert, InsertActs, Shape;
  }

  lemma WalkCpu(v: Vm, d: nat, va: Word, create: bool)
    requires Inv(v) && Shape(v) && d in v.dirs && d < |v.mem|
    ensures var r := PgdirWalk(v, d, va, create);
      !r.WalkPanic? && Shape(r.vm) && |r.vm.mem| == |v.mem| && r.vm.cr3 == v.cr3 && r.vm.dirs == v.dirs
  {
    PgdirWalkKeeps(v, d, va, create);
    InvShape(PgdirWalk(v, d, va, create).vm);
    hide Inv, PgdirWalk, Shape;
  }

  // env_free

  lemma TableTracks(v: Vm, d: nat, i: Index, t: nat, j: nat)
    requires Inv(v) && Shape(v) && d in v.dirs && d < |v.mem| && v.cr3 in v.dirs && v.cr3 != d && i < UTOP_PDX
    requires j <= NENTRIES && t < |v.mem| && d != t && Names(v.mem, Slot(d, i), t)
    ensures Track(v, TableActs(v, d, i, t, j), iset{}, iset{})
    decreases NENTRIES - j
  {
    hide Inv, Shape, Track, TableActs, RemoveActs, PageRemove, Present, Frame, PGADDR, PDX, PTX, LoadedSafe, Apply, ApplyAll, Hit, Names, Removed;
    if j == NENTRIES {
      DirSafe(v);
      TrackNone(v);
      TableUnfold(v, d, i, t, j);
    } else if Present(v.mem[t][j]) {
      var va := PGADDR(i, j, 0);
      RemoveStep(v, d, i, t, j);
      TableUnfold(v, d, i, t, j);
      var v1 := PageRemove(v, d, va).value;
      RemovedKeepsDir(v, v1, d, i, t, j, va);
      RemovedCpu(v, v1, Slot(t, j), va);
      DirSafe(v);
      PgaddrParts(i, j);
      RemoveTracksMapped(v, v, d, va, Slot(t, j));
      HitNone(v, d, va);
      InvShape(v1);
      TableTracks(v1, d, i, t, j + 1);
      RemoveDoes(v, d, va);
      TrackThen(v, v1, RemoveActs(v, d, va), TableActs(v1, d, i, t, j + 1), iset{});
    } else {
      TableUnfold(v, d, i, t, j);
      TableTracks(v, d, i, t, j + 1);
    }
  }

  lemma HitNone(v: Vm, d: nat, va: Word)
    requires v.cr3 != d
    ensures Hit(v, d, va) == iset{}
  {
  }

  lemma RemovedCpu(v: Vm, w: Vm, s: Slot, va: Word)
    requires Removed(v, w, s, va)
    ensures w.cr3 == v.cr3 && w.dirs == v.dirs && |w.mem| == |v.mem|
  {
  }

  lemma TableUnfold(v: Vm, d: nat, i: Index, t: nat, j: nat)
    requires Shape(v) && d < |v.mem| && t < |v.mem| && j <= NENTRIES
    requires j < NENTRIES && Present(v.mem[t][j]) ==> PageRemove(v, d, PGADDR(i, j, 0)).Done?
    ensures TableActs(v, d, i, t, j) ==
      if j == NENTRIES then []
      else if Present(v.mem[t][j]) then
        RemoveActs(v, d, PGADDR(i, j, 0)) + TableActs(PageRemove(v, d, PGADDR(i, j, 0)).value, d, i, t, j + 1)
      else TableActs(v, d, i, t, j + 1)
  {
    hide RemoveActs, PageRemove, PGADDR, Present;
  }

  /** No other directory's translations read directory d. */
  lemma DirWriteElsewhere(v: Vm, d: nat, i: Index, x: Word, e: nat, p: Page)
    requires Inv(v) && d in v.dirs && e in v.dirs && e != d
    ensures d < |v.mem| && e < |v.mem|
    ensures Translate(Store(v, Slot(d, i), x).mem, e, p) == Translate(v.mem, e, p)
  {
    DirShape(v, d);
    DirShape(v, e);
    if Present(v.mem[e][p.pdx]) {
      WalkReads(v, e, p.pdx);
      DirIsNoTable(v, d, Frame(v.mem[e][p.pdx]));
      DirNoKtab(v, d);
    }
    hide Inv;
  }

  lemma DirNoKtab(v: Vm, d: nat)
    requires Inv(v) && d in v.dirs
    ensures d !in v.ktabs
  {
  }

  lemma DropTableTracks(v: Vm, d: nat, i: Index, t: nat)
    requires Inv(v) && Shape(v) && d in v.dirs && d < |v.mem| && v.cr3 in v.dirs && v.cr3 != d && i < UTOP_PDX
    requires t < |v.mem| && t in v.tabs && DropTable(v, d, i, t).Done?
    ensures Track(v, DropTableActs(v, d, i, t), iset{}, iset{})
  {
    hide *;
    var s := Slot(d, i);
    var a := Note(v.dirs, v.tabs - {t}, v.ktabs, v.pins);
    DropTableSteps(v, d, i, t);
    var u1 := Apply(v, Write(s, 0));
    var u := Apply(u1, a);
    TrackOne(v, Write(s, 0));
    TrackNeutral(u1, a, u);
    ApplyOne(v, Write(s, 0));
    TrackThen(v, u1, [Write(s, 0)], [a], iset{});
    ApplyOne(u1, a);
    Then(v, u1, u, [Write(s, 0)], [a]);
    DecrefTracks(u, t);
    TrackThen(v, u, [Write(s, 0)] + [a], DecrefActs(u, t), iset{});
  }

  lemma DropTableSteps(v: Vm, d: nat, i: Index, t: nat)
    requires Inv(v) && Shape(v) && d in v.dirs && d < |v.mem| && v.cr3 in v.dirs && v.cr3 != d && i < UTOP_PDX
    requires t < |v.mem| && t in v.tabs && DropTable(v, d, i, t).Done?
    ensures var a := Note(v.dirs, v.tabs - {t}, v.ktabs, v.pins);
      var u1 := Apply(v, Write(Slot(d, i), 0));
      var u := Apply(u1, a);
      && LoadedSafe(v) && LoadedSafe(u1) && LoadedSafe(u) && u.cr3 == u1.cr3 == v.cr3 != t && u.mem == u1.mem
      && Broken(v, u1) == iset{} && t < |u.mem| && PageDecref(u, t).Done?
      && DropTableActs(v, d, i, t) == [Write(Slot(d, i), 0)] + [a] + DecrefActs(u, t)
  {
    DirSafe(v);
    DirIsNoTable(v, v.cr3, t);
    UnlinkUnbroken(v, d, i);
    ApplyWrite(v, Slot(d, i), 0);
    ApplyNote(Store(v, Slot(d, i), 0), Note(v.dirs, v.tabs - {t}, v.ktabs, v.pins));
    WriteLoaded(v, Slot(d, i), 0);
    NotedLoaded(Store(v, Slot(d, i), 0), Store(v, Slot(d, i), 0).(tabs := v.tabs - {t}));
    DropTableParts(v, d, i, t);
    hide *;
  }

  lemma DropTableParts(v: Vm, d: nat, i: Index, t: nat)
    requires Shape(v) && d < |v.mem| && t < |v.mem|
    ensures var u1 := Store(v, Slot(d, i), 0);
      var u := u1.(tabs := v.tabs - {t});
      && Shape(u1) && Shape(u) && |v.pins| == |u1.mem| == |v.mem| && u1.cr3 == v.cr3 && u1.dirs == v.dirs
      && u1.ktabs == v.ktabs && u1.pins == v.pins && u1 == u1.(dirs := v.dirs, ktabs := v.ktabs, pins := v.pins)
      && PageDecref(u, t) == DropTable(v, d, i, t)
      && DropTableActs(v, d, i, t)
         == [Write(Slot(d, i), 0)] + [Note(v.dirs, v.tabs - {t}, v.ktabs, v.pins)] + DecrefActs(u, t)
  {
    hide PageDecref;
  }

  lemma UnlinkUnbroken(v: Vm, d: nat, i: Index)
    requires Inv(v) && d in v.dirs && d < |v.mem| && v.cr3 in v.dirs && v.cr3 != d
    ensures Broken(v, Store(v, Slot(d, i), 0)) == iset{}
  {
    forall p: Page ensures Translate(Store(v, Slot(d, i), 0).mem, v.cr3, p) == Translate(v.mem, v.cr3, p) && v.cr3 < |v.mem| {
      DirWriteElsewhere(v, d, i, 0, v.cr3, p);
    }
    hide Inv, Translate;
  }

  lemma NotedLoaded(v: Vm, w: Vm)
    requires LoadedSafe(v) && w.dirs == v.dirs && w.cr3 == v.cr3 && w.mem == v.mem && w.free == v.free
    ensures LoadedSafe(w)
  {
  }

  lemma {:induction false} DirTracks(v: Vm, d: nat, i: nat)
    requires Inv(v) && Shape(v) && d in v.dirs && d < |v.mem| && v.cr3 in v.dirs && v.cr3 != d && i <= UTOP_PDX
    ensures Track(v, DirActs(v, d, i), iset{}, iset{})
    decreases UTOP_PDX - i, 1
  {
    hide Inv, Shape, Track, DirActs, Present, Frame, LoadedSafe, Names;
    if i == UTOP_PDX {
      DirSafe(v);
      TrackNone(v);
      assert DirActs(v, d, i) == [] by { DirUnfoldEnd(v, d); }
    } else if Present(v.mem[d][i]) {
      NamedTable(v, d, i);
      EntryDirTracks(v, d, i, Frame(v.mem[d][i]));
    } else {
      DirUnfoldSkip(v, d, i);
      DirTracks(v, d, i + 1);
    }
  }

  lemma NamedTable(v: Vm, d: nat, i: Index)
    requires Inv(v) && d in v.dirs && d < |v.mem| && i < UTOP_PDX && Present(v.mem[d][i])
    ensures var t := Frame(v.mem[d][i]); t < |v.mem| && d != t && t in v.tabs && Names(v.mem, Slot(d, i), t)
  {
    WalkReads(v, d, i);
    DirIsNoTable(v, d, Frame(v.mem[d][i]));
    hide Inv;
  }

  lemma EntryDirTracks(v: Vm, d: nat, i: Index, t: nat)
    requires Inv(v) && Shape(v) && d in v.dirs && d < |v.mem| && v.cr3 in v.dirs && v.cr3 != d && i < UTOP_PDX
    requires t < |v.mem| && d != t && t in v.tabs && Names(v.mem, Slot(d, i), t)
    ensures Track(v, DirActs(v, d, i), iset{}, iset{})
    decreases UTOP_PDX - i, 0
  {
    hide Inv, Shape, Track, DirActs, Present, Frame, LoadedSafe, Names, UnmapTable, DropTable, TableActs, DropTableActs, ApplyAll, TableDone, Dropped, TableEmptied;
    UnmapTableKeeps(v, d, i, t, 0);
    var r1 := UnmapTable(v, d, i, t, 0);
    EmptiedFacts(v, r1, d, i, t);
    var v1 := r1.value;
    EmptiedCpu(v, v1, t);
    InvShape(v1);
    DropTableKeeps(v1, d, i, t);
    var v2 := DropTable(v1, d, i, t).value;
    DroppedCpu(v1, v2, d, i, t);
    InvShape(v2);
    DirUnfoldEntry(v, d, i, t);
    TableTracks(v, d, i, t, 0);
    TableDoes(v, d, i, t, 0);
    DropTableTracks(v1, d, i, t);
    DropTableDoes(v1, d, i, t);
    DirTracks(v2, d, i + 1);
    TrackThen(v, v1, TableActs(v, d, i, t, 0), DropTableActs(v1, d, i, t), iset{});
    Then(v, v1, v2, TableActs(v, d, i, t, 0), DropTableActs(v1, d, i, t));
    TrackThen(v, v2, TableActs(v, d, i, t, 0) + DropTableActs(v1, d, i, t), DirActs(v2, d, i + 1), iset{});
  }

  lemma EmptiedCpu(v: Vm, w: Vm, t: nat)
    requires TableEmptied(v, w, t, 0)
    ensures |w.mem| == |v.mem| && w.dirs == v.dirs && w.cr3 == v.cr3 && w.tabs == v.tabs
  {
  }

  lemma DroppedCpu(v: Vm, w: Vm, d: nat, i: Index, t: nat)
    requires Dropped(v, w, d, i, t)
    ensures |w.mem| == |v.mem| && w.dirs == v.dirs && w.cr3 == v.cr3
  {
  }

  lemma FreeDirTracks(v: Vm, d: nat)
    requires Inv(v) && Shape(v) && d in v.dirs && d < |v.mem| && v.cr3 in v.dirs && v.cr3 != d
    requires PageDecref(RetireDir(v, d), d).Done?
    ensures Track(v, FreeDirActs(v, d), iset{}, iset{})
  {
    var a := Note(v.dirs - {d}, v.tabs, v.ktabs, v.pins);
    var c := Note(v.dirs - {d}, v.tabs, v.ktabs, v.pins[d := Minus1(v.pins[d])]);
    var u := RetireDir(v, d);
    var w := PageDecref(u, d).value;
    var x := w.(pins := c.pins);
    DirSafe(v);
    RetiredLoaded(v, d);
    assert DecrefActs(u, d) == DecrefActs(v, d);
    ApplyNote(v, a);
    ApplyOne(v, a);
    DecrefKeeps(u, d);
    ApplyNote(w, c);
    DecrefTracks(u, d);
    NotedLoaded(w, x);
    hide *;
    TrackNeutral(v, a, u);
    TrackThen(v, u, [a], DecrefActs(v, d), iset{});
    DecrefDoes(u, d);
    Then(v, u, w, [a], DecrefActs(v, d));
    TrackNeutral(w, c, x);
    TrackThen(v, w, [a] + DecrefActs(v, d), [c], iset{});
    FreeDirParts(v, d);
  }

  lemma FreeDirParts(v: Vm, d: nat)
    requires Shape(v) && d < |v.mem|
    ensures FreeDirActs(v, d)
      == [Note(v.dirs - {d}, v.tabs, v.ktabs, v.pins)] + DecrefActs(v, d)
         + [Note(v.dirs - {d}, v.tabs, v.ktabs, v.pins[d := Minus1(v.pins[d])])]
  {
  }

  lemma RetiredLoaded(v: Vm, d: nat)
    requires LoadedSafe(v) && v.cr3 != d
    ensures LoadedSafe(RetireDir(v, d)) && RetireDir(v, d).mem == v.mem && RetireDir(v, d).cr3 == v.cr3
  {
  }

  /** env_free while another directory is loaded. */
  lemma EmptyTracks(v: Vm, d: nat, kd: nat)
    requires Inv(v) && Shape(v) && d in v.dirs && d < |v.mem| && kd < |v.mem| && v.cr3 in v.dirs && v.cr3 != d
    ensures Track(v, EnvFreeActs(v, d, kd, false), iset{}, iset{})
  {
    UnmapDirKeeps(v, d, 0);
    var v1 := UnmapDir(v, d, 0).value;
    DirEmptiedFacts(v, v1, d);
    RetireDone(v, v1, d);
    EnvFreeParts(v, d, kd);
    hide *;
    DirTracks(v, d, 0);
    DirDoes(v, d, 0);
    FreeDirTracks(v1, d);
    TrackThen(v, v1, DirActs(v, d, 0), FreeDirActs(v1, d), iset{});
  }

  lemma DirEmptiedFacts(v: Vm, w: Vm, d: nat)
    requires Inv(w) && DirEmptied(v, w, d, 0)
    ensures Shape(w) && w.dirs == v.dirs && w.cr3 == v.cr3 && |w.mem| == |v.mem|
  {
    InvShape(w);
    hide Inv;
  }

  lemma RetireDone(v: Vm, v1: Vm, d: nat)
    requires Inv(v) && Inv(v1) && Shape(v1) && d in v.dirs && d < |v1.mem| && DirEmptied(v, v1, d, 0)
    ensures PageDecref(RetireDir(v1, d), d).Done?
  {
    ReleaseDir(v, v1, d);
    hide Inv, DirEmptied;
  }

  lemma EnvFreeParts(v: Vm, d: nat, kd: nat)
    requires Shape(v) && d < |v.mem| && kd < |v.mem| && UnmapDir(v, d, 0).Done?
    ensures EnvFreeActs(v, d, kd, false) == DirActs(v, d, 0) + FreeDirActs(UnmapDir(v, d, 0).value, d)
  {
    hide UnmapDir, DirActs, FreeDirActs;
  }
}
