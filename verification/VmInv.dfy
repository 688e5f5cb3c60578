/** The invariant of the page allocator and page tables, and the elementary transitions
    every operation is composed of. */
module VmInv {
  import opened Mmu
  import opened VmOps

  // The free list

  ghost predicate Distinct(s: seq<nat>) {
    forall i, j :: 0 <= i < j < |s| ==> s[i] != s[j]
  }

  /** Following the links from head visits s in order and ends at NULL. */
  ghost predicate Follows(s: seq<nat>, link: seq<int>, head: int) {
    if s == [] then head == NULL
    else head == s[0] && s[0] < |link| && Follows(s[1..], link, link[s[0]])
  }

  /** head and link spell out the list s, which repeats no page, and every page
      off the list has a NULL link. */
  ghost predicate Chain(s: seq<nat>, link: seq<int>, head: int) {
    && Distinct(s)
    && Follows(s, link, head)
    && (forall f :: 0 <= f < |link| && f !in s ==> link[f] == NULL)
  }

  // Counted references

  /** The counted entries: directory entries below UTOP and the entries of the tables there. */
  ghost function Live(dirs: set<nat>, tabs: map<nat, Slot>): (r: set<Slot>)
    ensures forall s: Slot :: s in r <==> (s.frame in dirs && s.idx < UTOP_PDX) || s.frame in tabs
  {
    var r := (set d, i | d in dirs && 0 <= i < UTOP_PDX :: Slot(d, i))
           + (set t, i | t in tabs && 0 <= i < NENTRIES :: Slot(t, i));
    assert forall s: Slot :: s in r <==> (s.frame in dirs && s.idx < UTOP_PDX) || s.frame in tabs by {
      forall s: Slot ensures s in r <==> (s.frame in dirs && s.idx < UTOP_PDX) || s.frame in tabs {
        assert s == Slot(s.frame, s.idx);
      }
    }
    r
  }

  predicate Names(mem: seq<FrameWords>, s: Slot, f: nat) {
    s.frame < |mem| && Present(mem[s.frame][s.idx]) && Frame(mem[s.frame][s.idx]) == f
  }

  ghost function Refs(v: Vm, f: nat): set<Slot> {
    set s | s in Live(v.dirs, v.tabs) && Names(v.mem, s, f)
  }

  /** pp_ref is exactly the number of counted entries naming the page plus its
      explicit references. */
  ghost predicate Counts(v: Vm)
    requires Shape(v)
  {
    forall f :: 0 <= f < |v.mem| ==> v.ref[f] == |Refs(v, f)| + v.pins[f]
  }

  /** Every page is free, handed out and uncounted, or referenced, and only one of these. */
  ghost predicate Partition(free: seq<nat>, loose: set<nat>, ref: seq<nat>) {
    && (forall f :: f in loose ==> f < |ref| && f !in free)
    && (forall f :: 0 <= f < |ref| ==> (ref[f] == 0 <==> f in free || f in loose))
  }

  // The page structures

  predicate IsData(v: Vm, f: nat) {
    f !in v.dirs && f !in v.tabs && f !in v.ktabs
  }

  ghost predicate Kinds(v: Vm)
    requires Shape(v)
  {
    && (forall d :: d in v.dirs ==> d < |v.mem| && v.pins[d] == 1 && d !in v.tabs && d !in v.ktabs)
    && (forall t :: t in v.tabs ==> t < |v.mem| && v.pins[t] == 0 && t !in v.ktabs)
    && (forall t :: t in v.ktabs ==> t < |v.mem| && v.pins[t] >= 1 && v.ktabs[t] >= UTOP_PDX)
  }

  /** Each table below UTOP belongs to exactly one directory entry: the one that names it... */
  ghost predicate UserDirs(v: Vm)
    requires Shape(v) && Kinds(v)
  {
    forall d, i: Index :: d in v.dirs && i < UTOP_PDX && Present(v.mem[d][i])
      ==> Frame(v.mem[d][i]) in v.tabs && v.tabs[Frame(v.mem[d][i])] == Slot(d, i)
  }

  /** ... and that one does name it. */
  ghost predicate Owners(v: Vm)
    requires Shape(v) && Kinds(v)
  {
    forall t :: t in v.tabs
      ==> v.tabs[t].frame in v.dirs && v.tabs[t].idx < UTOP_PDX && Names(v.mem, v.tabs[t], t)
  }

  /** User mappings name data pages only. */
  ghost predicate UserTables(v: Vm)
    requires Shape(v) && Kinds(v)
  {
    forall t, j: Index :: t in v.tabs && Present(v.mem[t][j])
      ==> Frame(v.mem[t][j]) < |v.mem| && IsData(v, Frame(v.mem[t][j]))
  }

  /** Above UTOP a directory entry is absent, a kernel table of that index, or the
      self-map at UVPT. */
  ghost predicate KernelDirs(v: Vm)
    requires Shape(v) && Kinds(v)
  {
    forall d, i: Index :: d in v.dirs && i >= UTOP_PDX && Present(v.mem[d][i])
      ==> KernelEntry(v, d, i, Frame(v.mem[d][i]))
  }

  predicate KernelEntry(v: Vm, d: nat, i: Index, t: nat) {
    (t in v.ktabs && v.ktabs[t] == i) || (i == UVPT_PDX && t == d)
  }

  ghost predicate Structure(v: Vm)
    requires Shape(v)
  {
    Kinds(v) && UserDirs(v) && Owners(v) && UserTables(v) && KernelDirs(v)
  }

  ghost predicate Inv(v: Vm) {
    Shape(v) && Chain(v.free, v.link, v.head) && Counts(v) && Partition(v.free, v.loose, v.ref) && Structure(v)
  }

  // How the set of references to a page changes

  lemma RefsSame(v: Vm, w: Vm, f: nat)
    requires forall s: Slot :: s in Live(w.dirs, w.tabs) && Names(w.mem, s, f)
                          <==> s in Live(v.dirs, v.tabs) && Names(v.mem, s, f)
    ensures Refs(w, f) == Refs(v, f)
  {
  }

  lemma RefsGain(v: Vm, w: Vm, f: nat, s: Slot)
    requires s in Live(w.dirs, w.tabs) && Names(w.mem, s, f)
    requires !(s in Live(v.dirs, v.tabs) && Names(v.mem, s, f))
    requires forall x: Slot :: x != s ==>
      (x in Live(w.dirs, w.tabs) && Names(w.mem, x, f) <==> x in Live(v.dirs, v.tabs) && Names(v.mem, x, f))
    ensures |Refs(w, f)| == |Refs(v, f)| + 1
  {
    hide Names, Live;
    assert Refs(w, f) == Refs(v, f) + {s};
  }

  /** A page named by some counted entry, or explicitly referenced, is neither free nor loose. */
  lemma NamedIsReferenced(v: Vm, s: Slot, f: nat)
    requires Inv(v) && f < |v.mem|
    requires s in Live(v.dirs, v.tabs) && Names(v.mem, s, f)
    ensures v.ref[f] > 0 && f !in v.free && f !in v.loose
  {
    assert s in Refs(v, f);
  }

  lemma StructurePagesNotFree(v: Vm, f: nat)
    requires Inv(v) && f < |v.mem| && !IsData(v, f)
    ensures v.ref[f] > 0 && f !in v.free && f !in v.loose
  {
    if f in v.tabs { NamedIsReferenced(v, v.tabs[f], f); }
  }

  /** A counted entry of a directory or table never names a directory or, except for the
      owning entry of a table, a page table. */
  lemma WhoNames(v: Vm, s: Slot, f: nat)
    requires Inv(v) && s in Live(v.dirs, v.tabs) && Names(v.mem, s, f)
    ensures f < |v.mem|
    ensures s.frame in v.dirs ==> f in v.tabs && v.tabs[f] == s
    ensures s.frame in v.tabs ==> IsData(v, f)
    ensures f !in v.dirs && f !in v.ktabs
  {
  }

  // The parts of the invariant that a transition leaves alone

  /** The memories agree on every directory and every table below UTOP. */
  ghost predicate SameTables(v: Vm, w: Vm) {
    && |w.mem| == |v.mem| && w.dirs == v.dirs && w.tabs == v.tabs && w.ktabs == v.ktabs
    && forall g :: 0 <= g < |v.mem| && (g in v.dirs || g in v.tabs) ==> w.mem[g] == v.mem[g]
  }

  lemma CountsFrame(v: Vm, w: Vm)
    requires Shape(v) && Shape(w) && Counts(v) && SameTables(v, w)
    requires forall g :: 0 <= g < |v.mem| ==> w.ref[g] + v.pins[g] == v.ref[g] + w.pins[g]
    ensures Counts(w)
  {
    forall g | 0 <= g < |w.mem| ensures w.ref[g] == |Refs(w, g)| + w.pins[g] {
      RefsSame(v, w, g);
    }
  }

  lemma StructureFrame(v: Vm, w: Vm)
    requires Shape(v) && Shape(w) && Structure(v) && SameTables(v, w)
    requires forall g :: 0 <= g < |v.mem| && !IsData(v, g) ==> w.pins[g] == v.pins[g]
    ensures Structure(w)
  {
  }

  lemma {:induction false} FollowsFrame(s: seq<nat>, link: seq<int>, head: int, f: nat, x: int)
    requires Follows(s, link, head) && f < |link| && f !in s
    ensures Follows(s, link[f := x], head)
  {
    if s != [] { FollowsFrame(s[1..], link, link[s[0]], f, x); }
  }

  lemma ChainPush(s: seq<nat>, link: seq<int>, head: int, f: nat)
    requires Chain(s, link, head) && f < |link| && f !in s
    ensures Chain([f] + s, link[f := head], f)
  {
    var s' := [f] + s;
    FollowsFrame(s, link, head, f, head);
    assert s'[1..] == s;
    assert forall x :: x in s' <==> x == f || x in s;
  }

  lemma ChainPop(s: seq<nat>, link: seq<int>, head: int)
    requires Chain(s, link, head) && s != []
    ensures Chain(s[1..], link[s[0] := NULL], link[s[0]])
    ensures s[0] !in s[1..]
  {
    var s' := s[1..];
    assert s == [s[0]] + s';
    assert s[0] !in s';
    FollowsFrame(s', link, link[s[0]], s[0], NULL);
    assert forall x :: x in s <==> x == s[0] || x in s';
  }

  lemma ListInRange(s: seq<nat>, link: seq<int>, head: int)
    requires Follows(s, link, head)
    ensures forall f :: f in s ==> f < |link|
  {
    forall f | f in s ensures f < |link| {
      var i :| 0 <= i < |s| && s[i] == f;
      LinkAt(s, link, head, i);
    }
  }

  lemma {:induction false} LinkAt(s: seq<nat>, link: seq<int>, head: int, i: nat)
    requires Follows(s, link, head) && i < |s|
    ensures s[i] < |link| && link[s[i]] == if i + 1 < |s| then s[i + 1] else NULL
  {
    if i > 0 { LinkAt(s[1..], link, link[s[0]], i - 1); }
  }

  // Elementary transitions

  ghost function Pin(v: Vm, f: nat): (w: Vm)
    requires Shape(v) && f < |v.mem|
    ensures Shape(w)
  {
    IncRef(v, f).(pins := v.pins[f := v.pins[f] + 1])
  }

  lemma PinInv(v: Vm, f: nat)
    requires Inv(v) && f < |v.mem| && f !in v.free && IsData(v, f)
    requires v.ref[f] < REF_LIMIT - 1
    ensures Inv(Pin(v, f))
  {
    hide Chain, Counts, Structure;
    var w := Pin(v, f);
    CountsFrame(v, w);
    StructureFrame(v, w);
  }

  ghost function Unpin(v: Vm, f: nat): (r: Res<Vm>)
    requires Shape(v) && f < |v.mem| && v.pins[f] > 0
    ensures r.Done? ==> Shape(r.value)
  {
    match PageDecref(v, f)
    case Panic => Panic
    case Done(w) => Done(w.(pins := w.pins[f := v.pins[f] - 1]))
  }

  /** One explicit reference to f is gone; a last one sends f to the free list. */
  ghost predicate Unpinned(v: Vm, w: Vm, f: nat) {
    && f < |v.ref| && f < |v.pins| && v.ref[f] > 0 && v.pins[f] > 0
    && w.ref == v.ref[f := v.ref[f] - 1] && w.pins == v.pins[f := v.pins[f] - 1]
    && w.free == (if v.ref[f] == 1 then [f] + v.free else v.free) && w.loose == v.loose
    && w.mem == v.mem && w.dirs == v.dirs && w.tabs == v.tabs && w.ktabs == v.ktabs
    && w.cr3 == v.cr3 && w.tlb == v.tlb
  }

  /** Dropping an explicit reference never panics: at zero the page is off the list. */
  lemma UnpinInv(v: Vm, f: nat)
    requires Inv(v) && f < |v.mem| && v.pins[f] > 0 && IsData(v, f)
    ensures Unpin(v, f).Done?
    ensures Inv(Unpin(v, f).value)
    ensures Unpinned(v, Unpin(v, f).value, f)
  {
    PinnedIsReferenced(v, f);
    hide Chain, Counts, Partition, Structure, IsData;
    ChainPush(v.free, v.link, v.head, f);
    PartitionDrop(v.free, v.loose, v.ref, f);
    UnpinFields(v, f);
    hide Unpin;
    var w := Unpin(v, f).value;
    UnpinFrame(v, w, f);
  }

  lemma UnpinFields(v: Vm, f: nat)
    requires Shape(v) && f < |v.mem| && v.pins[f] > 0 && v.ref[f] > 0 && v.link[f] == NULL && f !in v.loose
    ensures Unpin(v, f).Done? && Unpinned(v, Unpin(v, f).value, f)
    ensures var w := Unpin(v, f).value;
      && w.link == (if v.ref[f] == 1 then v.link[f := v.head] else v.link)
      && w.head == (if v.ref[f] == 1 then f else v.head)
  {
    assert v.loose - {f} == v.loose;
  }

  lemma UnpinFrame(v: Vm, w: Vm, f: nat)
    requires Shape(v) && Shape(w) && Counts(v) && Structure(v) && IsData(v, f) && Unpinned(v, w, f)
    ensures Counts(w) && Structure(w)
  {
    hide Counts, Structure;
    CountsFrame(v, w);
    StructureFrame(v, w);
  }

  lemma PinnedIsReferenced(v: Vm, f: nat)
    requires Inv(v) && f < |v.mem| && v.pins[f] > 0
    ensures v.ref[f] > 0 && f !in v.free && f !in v.loose
    ensures v.link[f] == NULL
  {
  }

  lemma PartitionDrop(free: seq<nat>, loose: set<nat>, ref: seq<nat>, f: nat)
    requires Partition(free, loose, ref) && f < |ref| && ref[f] > 0
    ensures Partition(if ref[f] == 1 then [f] + free else free, loose, ref[f := ref[f] - 1])
  {
    assert forall g :: g in [f] + free <==> g in free || g == f;
  }

  /** A present entry of a user table is cleared, its count becoming an explicit reference. */
  ghost function SlotToPin(v: Vm, s: Slot): (w: Vm)
    requires Shape(v) && s.frame < |v.mem| && Frame(WordAt(v, s)) < |v.mem|
    ensures Shape(w)
  {
    var f := Frame(WordAt(v, s));
    Store(v, s, 0).(pins := v.pins[f := v.pins[f] + 1])
  }

  lemma SlotToPinInv(v: Vm, s: Slot)
    requires Inv(v) && s.frame in v.tabs && Present(WordAt(v, s))
    ensures Inv(SlotToPin(v, s))
  {
    hide Chain, Counts, Partition, KernelDirs;
    var f := Frame(WordAt(v, s));
    var w := SlotToPin(v, s);
    SlotWrite(w, v, s, f);
    TableWriteStructure(v, s, 0, w);
  }

  /** An explicit reference moves into an absent entry of a user table. */
  ghost function PinToSlot(v: Vm, s: Slot, f: nat, perm: Perm): (w: Vm)
    requires Shape(v) && s.frame < |v.mem| && f < |v.mem| && v.pins[f] > 0
    ensures Shape(w)
  {
    Store(v, s, Entry(f, perm)).(pins := v.pins[f := v.pins[f] - 1])
  }

  lemma PinToSlotInv(v: Vm, s: Slot, f: nat, perm: Perm)
    requires Inv(v) && s.frame in v.tabs && !Present(WordAt(v, s))
    requires f < |v.mem| && v.pins[f] > 0 && IsData(v, f)
    ensures Inv(PinToSlot(v, s, f, perm))
  {
    hide Chain, Counts, Partition, KernelDirs;
    var w := PinToSlot(v, s, f, perm);
    SlotWrite(v, w, s, f);
    TableWriteStructure(v, s, Entry(f, perm), w);
  }

  /** w has one counted entry more than v, naming f, and one explicit reference less. */
  lemma SlotWrite(v: Vm, w: Vm, s: Slot, f: nat)
    requires Shape(v) && Shape(w) && |w.mem| == |v.mem| && f < |v.mem|
    requires s in Live(v.dirs, v.tabs) && w.dirs == v.dirs && w.tabs == v.tabs
    requires Names(w.mem, s, f)
    requires s.frame < |v.mem| && !Present(WordAt(v, s)) && OneWord(v.mem, w.mem, s)
    requires w.ref == v.ref && v.pins[f] == w.pins[f] + 1
    requires forall g :: 0 <= g < |v.mem| && g != f ==> v.pins[g] == w.pins[g]
    ensures Counts(v) <==> Counts(w)
  {
    forall g: nat | g < |v.mem| ensures |Refs(w, g)| + w.pins[g] == |Refs(v, g)| + v.pins[g] {
      if g == f { RefsGain(v, w, f, s); } else { RefsSame(v, w, g); }
    }
  }

  /** The two memories differ at most in word s. */
  ghost predicate OneWord(a: seq<FrameWords>, b: seq<FrameWords>, s: Slot) {
    |a| == |b| && forall f, i: Index :: 0 <= f < |a| && Slot(f, i) != s ==> a[f][i] == b[f][i]
  }

  lemma TableWriteStructure(v: Vm, s: Slot, x: Word, w: Vm)
    requires Shape(v) && Structure(v) && s.frame in v.tabs
    requires Present(x) ==> Frame(x) < |v.mem| && IsData(v, Frame(x))
    requires Shape(w) && w.mem == Store(v, s, x).mem
    requires w.dirs == v.dirs && w.tabs == v.tabs && w.ktabs == v.ktabs && |w.pins| == |v.pins|
    requires forall g :: 0 <= g < |v.mem| && !IsData(v, g) ==> w.pins[g] == v.pins[g]
    ensures Structure(w)
  {
    assert forall g :: 0 <= g < |v.mem| && g != s.frame ==> w.mem[g] == v.mem[g];
    assert Kinds(w);
    assert UserDirs(w);
    assert Owners(w);
    assert UserTables(w);
    assert KernelDirs(w);
  }

  /** f went from the head of the free list to the caller; nothing else happened. */
  ghost predicate Taken(v: Vm, w: Vm, f: nat, flags: int) {
    && Shape(v) && Shape(w) && SameTables(v, w) && f < |v.mem| && IsData(v, f)
    && v.free != [] && v.free[0] == f && w.free == v.free[1..]
    && f !in v.loose && w.loose == v.loose + {f}
    && w.ref == v.ref && w.ref[f] == 0 && w.pins == v.pins && w.cr3 == v.cr3 && w.tlb == v.tlb
    && w.mem == (if flags != 0 then v.mem[f := ZeroFrame()] else v.mem)
  }

  /** page_alloc takes the head of the list. */
  lemma PageAllocInv(v: Vm, flags: int)
    requires Inv(v)
    ensures var (w, f) := PageAlloc(v, flags);
      && Inv(w) && (f == NULL <==> v.free == [])
      && (f == NULL ==> w == v) && (f != NULL ==> Taken(v, w, f, flags))
  {
    HeadIsFree(v);
    if v.head != NULL { PageAllocTakes(v, flags); }
  }

  lemma HeadIsFree(v: Vm)
    requires Inv(v)
    ensures v.head == NULL <==> v.free == []
    ensures v.head != NULL ==> v.head == v.free[0] && v.head !in v.loose && v.ref[v.head] == 0 && IsData(v, v.head)
  {
    if v.head != NULL {
      assert v.head in v.free;
      if !IsData(v, v.head) { StructurePagesNotFree(v, v.head); }
    }
  }

  lemma PageAllocTakes(v: Vm, flags: int)
    requires Inv(v) && v.head != NULL
    ensures var (w, f) := PageAlloc(v, flags); Inv(w) && f == v.head && Taken(v, w, f, flags)
  {
    HeadIsFree(v);
    hide Chain, Counts, Partition, Structure;
    var f := v.head;
    var w := PageAlloc(v, flags).0;
    ChainPop(v.free, v.link, v.head);
    PartitionTake(v.free, v.loose, v.ref);
    assert SameTables(v, w);
    CountsFrame(v, w);
    StructureFrame(v, w);
  }

  lemma PartitionTake(free: seq<nat>, loose: set<nat>, ref: seq<nat>)
    requires Partition(free, loose, ref) && free != [] && free[0] < |ref| && free[0] !in free[1..]
    ensures Partition(free[1..], loose + {free[0]}, ref)
  {
    assert forall g :: g in free <==> g == free[0] || g in free[1..];
  }

  /** page_free puts a loose page at the head of the list; the guard passes. */
  lemma PageFreeInv(v: Vm, f: nat)
    requires Inv(v) && f in v.loose
    ensures f < |v.mem| && PageFree(v, f).Done?
    ensures Inv(PageFree(v, f).value) && PageFree(v, f).value.free == [f] + v.free
  {
    LooseIsData(v, f);
    hide Chain, Counts, Partition, Structure;
    ChainPush(v.free, v.link, v.head, f);
    PartitionGive(v.free, v.loose, v.ref, f);
    var w := PageFree(v, f).value;
    CountsFrame(v, w);
    StructureFrame(v, w);
  }

  lemma LooseIsData(v: Vm, f: nat)
    requires Inv(v) && f in v.loose
    ensures f < |v.mem| && f !in v.free && v.ref[f] == 0 && v.link[f] == NULL
    ensures IsData(v, f) && v.pins[f] == 0 && Refs(v, f) == {}
  {
    if !IsData(v, f) { StructurePagesNotFree(v, f); }
  }

  lemma PartitionGive(free: seq<nat>, loose: set<nat>, ref: seq<nat>, f: nat)
    requires Partition(free, loose, ref) && f in loose
    ensures Partition([f] + free, loose - {f}, ref)
  {
    assert forall g :: g in [f] + free <==> g == f || g in free;
  }

  // New and retired structure pages

  /** Nothing below UTOP names a loose page. */
  lemma NoEntryNames(v: Vm, t: nat, s: Slot)
    requires Inv(v) && t in v.loose && s in Live(v.dirs, v.tabs)
    ensures !Names(v.mem, s, t)
  {
    LooseIsData(v, t);
    assert s in Refs(v, t) <==> Names(v.mem, s, t);
  }

  lemma InstallTableInv(v: Vm, d: nat, i: Index, t: nat)
    requires Inv(v) && d in v.dirs && !Present(v.mem[d][i])
    requires t in v.loose && v.mem[t] == ZeroFrame()
    ensures t < |v.mem| && Inv(InstallTable(v, d, i, t))
  {
    LooseIsData(v, t);
    var w := InstallTable(v, d, i, t);
    InstallCounts(v, w, d, i, t);
    InstallStructure(v, w, d, i, t);
    hide Chain, Counts, Structure;
    PartitionCount(v.free, v.loose, v.ref, t);
  }

  lemma PartitionCount(free: seq<nat>, loose: set<nat>, ref: seq<nat>, f: nat)
    requires Partition(free, loose, ref) && f in loose
    ensures Partition(free, loose - {f}, ref[f := 1])
  {
  }

  lemma InstallCounts(v: Vm, w: Vm, d: nat, i: Index, t: nat)
    requires Inv(v) && d in v.dirs && !Present(v.mem[d][i])
    requires t in v.loose && t < |v.mem| && v.mem[t] == ZeroFrame() && IsData(v, t)
    requires w == InstallTable(v, d, i, t)
    ensures Counts(w)
  {
    LooseIsData(v, t);
    var s := Slot(d, i);
    hide Chain, Partition, Structure, ZeroFrame;
    assert Names(w.mem, s, t);
    assert forall j: Index :: !Present(v.mem[t][j]) && w.mem[t][j] == v.mem[t][j] by { ZeroAbsent(v, t); }
    assert forall x: Slot, g: nat :: x.frame != t && x != s ==> (Names(w.mem, x, g) <==> Names(v.mem, x, g));
    forall g: nat | g < |w.mem| ensures w.ref[g] == |Refs(w, g)| + w.pins[g] {
      if g == t && i < UTOP_PDX {
        RefsGain(v, w, t, s);
      } else {
        RefsSame(v, w, g);
      }
    }
  }

  lemma ZeroAbsent(v: Vm, t: nat)
    requires t < |v.mem| && v.mem[t] == ZeroFrame()
    ensures forall j: Index :: !Present(v.mem[t][j])
  {
  }

  lemma InstallStructure(v: Vm, w: Vm, d: nat, i: Index, t: nat)
    requires Inv(v) && d in v.dirs && !Present(v.mem[d][i])
    requires t in v.loose && t < |v.mem| && v.mem[t] == ZeroFrame() && IsData(v, t)
    requires w == InstallTable(v, d, i, t)
    ensures Structure(w)
  {
    LooseIsData(v, t);
    ZeroAbsent(v, t);
    InstallKinds(v, w, d, i, t);
    hide Chain, Counts, Partition, Kinds, UserDirs, Owners, UserTables, KernelDirs, ZeroFrame;
    forall x, j: Index | x in v.tabs && x < |v.mem| && Present(v.mem[x][j])
      ensures Frame(v.mem[x][j]) != t
    {
      NoEntryNames(v, t, Slot(x, j));
    }
    InstallUserTables(v, w, d, i, t);
    InstallUserDirs(v, w, d, i, t);
    InstallOwners(v, w, d, i, t);
    InstallKernelDirs(v, w, d, i, t);
  }

  lemma InstallKinds(v: Vm, w: Vm, d: nat, i: Index, t: nat)
    requires Shape(v) && Shape(w) && Kinds(v)
    requires d < |v.mem| && t < |v.mem| && IsData(v, t) && w == InstallTable(v, d, i, t) && v.pins[t] == 0
    ensures Kinds(w)
  {
  }

  lemma InstallUserTables(v: Vm, w: Vm, d: nat, i: Index, t: nat)
    requires Shape(v) && Shape(w) && Kinds(v) && Kinds(w) && UserTables(v)
    requires d in v.dirs && t < |v.mem| && IsData(v, t) && w == InstallTable(v, d, i, t)
    requires forall j: Index :: !Present(v.mem[t][j])
    requires forall x, j: Index :: x in v.tabs && x < |v.mem| && Present(v.mem[x][j]) ==> Frame(v.mem[x][j]) != t
    ensures UserTables(w)
  {
    hide Present, Frame, Entry;
  }

  lemma InstallUserDirs(v: Vm, w: Vm, d: nat, i: Index, t: nat)
    requires Shape(v) && Shape(w) && Kinds(v) && Kinds(w) && UserDirs(v)
    requires d in v.dirs && t < |v.mem| && IsData(v, t) && w == InstallTable(v, d, i, t)
    ensures UserDirs(w)
  {
    hide Present, Frame, Entry;
  }

  lemma InstallOwners(v: Vm, w: Vm, d: nat, i: Index, t: nat)
    requires Shape(v) && Shape(w) && Kinds(v) && Kinds(w) && Owners(v)
    requires d in v.dirs && t < |v.mem| && IsData(v, t) && w == InstallTable(v, d, i, t)
    requires !Present(v.mem[d][i])
    ensures Owners(w)
  {
    hide Present, Frame, Entry;
  }

  lemma InstallKernelDirs(v: Vm, w: Vm, d: nat, i: Index, t: nat)
    requires Shape(v) && Shape(w) && Kinds(v) && Kinds(w) && KernelDirs(v)
    requires d in v.dirs && t < |v.mem| && IsData(v, t) && w == InstallTable(v, d, i, t)
    ensures KernelDirs(w)
  {
    hide Present, Frame, Entry;
  }

  /** env_free drops a directory entry whose table has been emptied: the table's one
      count becomes an explicit reference to a data page. */
  ghost function TableToPin(v: Vm, s: Slot): (w: Vm)
    requires Shape(v) && s.frame < |v.mem| && Frame(WordAt(v, s)) < |v.mem|
    ensures Shape(w)
  {
    var t := Frame(WordAt(v, s));
    Store(v, s, 0).(tabs := v.tabs - {t}, pins := v.pins[t := v.pins[t] + 1])
  }

  lemma TableToPinInv(v: Vm, s: Slot, t: nat)
    requires Inv(v) && s.frame in v.dirs && s.idx < UTOP_PDX && Names(v.mem, s, t)
    requires t < |v.mem| && forall j: Index :: !Present(v.mem[t][j])
    ensures Inv(TableToPin(v, s))
  {
    var w := TableToPin(v, s);
    RetireCounts(v, w, s, t);
    RetireStructure(v, w, s, t);
  }

  lemma RetireCounts(v: Vm, w: Vm, s: Slot, t: nat)
    requires Shape(v) && Counts(v) && Structure(v) && s.frame in v.dirs && s.idx < UTOP_PDX && Names(v.mem, s, t)
    requires t < |v.mem| && (forall j: Index :: !Present(v.mem[t][j])) && w == TableToPin(v, s)
    ensures Counts(w)
  {
    assert t !in v.dirs;
    hide Structure;
    forall g: nat | g < |w.mem| ensures w.ref[g] == |Refs(w, g)| + w.pins[g] {
      RetireRefs(v, w, s, t, g);
    }
  }

  lemma RetireRefs(v: Vm, w: Vm, s: Slot, t: nat, g: nat)
    requires Shape(v) && s.frame in v.dirs && s.idx < UTOP_PDX && Names(v.mem, s, t) && t !in v.dirs
    requires t < |v.mem| && (forall j: Index :: !Present(v.mem[t][j])) && w == TableToPin(v, s)
    ensures |Refs(v, g)| == |Refs(w, g)| + if g == t then 1 else 0
  {
    RetireNames(v, w, s, t);
    RetireLive(v, w, s, t);
    hide Names, TableToPin;
    if g == t { RefsGain(w, v, t, s); } else { RefsSame(v, w, g); }
  }

  lemma RetireLive(v: Vm, w: Vm, s: Slot, t: nat)
    requires t !in v.dirs && w.dirs == v.dirs && w.tabs == v.tabs - {t}
    requires s.frame in v.dirs && s.idx < UTOP_PDX
    ensures forall x: Slot :: x in Live(w.dirs, w.tabs) <==> x in Live(v.dirs, v.tabs) && x.frame != t
    ensures s in Live(v.dirs, v.tabs)
  {
  }

  lemma RetireNames(v: Vm, w: Vm, s: Slot, t: nat)
    requires Shape(v) && Names(v.mem, s, t) && t < |v.mem| && w.mem == Store(v, s, 0).mem
    requires forall j: Index :: !Present(v.mem[t][j])
    ensures forall x: Slot, g: nat :: x != s ==> (Names(w.mem, x, g) <==> Names(v.mem, x, g))
    ensures forall g: nat :: !Names(w.mem, s, g) && (Names(v.mem, s, g) ==> g == t)
    ensures forall x: Slot, g: nat :: Names(v.mem, x, g) ==> x.frame != t
  {
  }

  lemma RetireStructure(v: Vm, w: Vm, s: Slot, t: nat)
    requires Shape(v) && Shape(w) && Structure(v) && s.frame in v.dirs && s.idx < UTOP_PDX && Names(v.mem, s, t)
    requires t < |v.mem| && w == TableToPin(v, s)
    ensures Structure(w)
  {
    assert t in v.tabs && v.tabs[t] == s;
    RetireWords(v, w, s, t);
    assert Kinds(w);
    hide Frame, Present, TableToPin, Shape;
    RetireUser(v, w, s, t);
    hide UserDirs, Owners, UserTables;
  }

  lemma RetireWords(v: Vm, w: Vm, s: Slot, t: nat)
    requires Shape(v) && Names(v.mem, s, t) && t < |v.mem| && w == TableToPin(v, s)
    ensures |w.mem| == |v.mem| && w.dirs == v.dirs && w.ktabs == v.ktabs && w.tabs == v.tabs - {t}
    ensures forall g :: 0 <= g < |v.mem| && g != s.frame ==> w.mem[g] == v.mem[g]
    ensures forall i: Index :: i != s.idx ==> w.mem[s.frame][i] == v.mem[s.frame][i]
    ensures !Present(w.mem[s.frame][s.idx])
  {
  }

  lemma RetireUser(v: Vm, w: Vm, s: Slot, t: nat)
    requires Shape(v) && Shape(w) && Kinds(v) && Kinds(w) && UserDirs(v) && Owners(v) && UserTables(v)
    requires s.frame in v.dirs && s.idx < UTOP_PDX && t in v.tabs && v.tabs[t] == s
    requires |w.mem| == |v.mem| && w.dirs == v.dirs && w.ktabs == v.ktabs && w.tabs == v.tabs - {t}
    requires forall g :: 0 <= g < |v.mem| && g != s.frame ==> w.mem[g] == v.mem[g]
    requires forall i: Index :: i != s.idx ==> w.mem[s.frame][i] == v.mem[s.frame][i]
    requires !Present(w.mem[s.frame][s.idx])
    ensures UserDirs(w) && Owners(w) && UserTables(w)
  {
    hide Frame, Present, Shape;
  }

  /** A new environment's directory (kern/env.c:155-188): empty below UTOP, a copy of the
      kernel's directory above it, and mapping itself at UVPT. */
  function DirImage(kern: FrameWords, p: nat): FrameWords
    requires p < MAX_PAGES
  {
    seq(NENTRIES, i requires 0 <= i < NENTRIES =>
      if i < UTOP_PDX then 0 else if i == UVPT_PDX then Entry(p, PTE_U) else kern[i])
  }

  function MakeDir(v: Vm, p: nat, kd: nat): (w: Vm)
    requires Shape(v) && p < |v.mem| && kd < |v.mem|
    ensures Shape(w)
  {
    IncRef(v, p).(mem := v.mem[p := DirImage(v.mem[kd], p)], dirs := v.dirs + {p},
                  pins := v.pins[p := v.pins[p] + 1])
  }

  lemma MakeDirInv(v: Vm, p: nat, kd: nat)
    requires Inv(v) && p in v.loose && kd in v.dirs
    ensures p < |v.mem| && kd < |v.mem| && Inv(MakeDir(v, p, kd))
    ensures MakeDir(v, p, kd).mem[p][957] == p * 4096 + 5
    ensures forall i: Index :: i < 955 ==> MakeDir(v, p, kd).mem[p][i] == 0
    ensures forall i: Index :: i >= 955 && i != 957 ==> MakeDir(v, p, kd).mem[p][i] == v.mem[kd][i]
  {
    LooseIsData(v, p);
    DirImageWords(v, p, kd);
    var w := MakeDir(v, p, kd);
    assert Counts(w) by { MakeDirCounts(v, w, p, kd); }
    assert Structure(w) by { MakeDirStructure(v, w, p, kd); }
    hide Chain, Counts, Structure;
    PartitionCount(v.free, v.loose, v.ref, p);
  }

  /** Nothing below UTOP; the directory itself at UVPT, present and for users to read (5); the rest as
      in the kernel's. */
  lemma DirImageWords(v: Vm, p: nat, kd: nat)
    requires Shape(v) && p < |v.mem| && kd < |v.mem|
    ensures MakeDir(v, p, kd).mem[p][957] == p * 4096 + 5
    ensures forall i: Index :: i < 955 ==> MakeDir(v, p, kd).mem[p][i] == 0
    ensures forall i: Index :: i >= 955 && i != 957 ==> MakeDir(v, p, kd).mem[p][i] == v.mem[kd][i]
  {
  }

  lemma MakeDirCounts(v: Vm, w: Vm, p: nat, kd: nat)
    requires Inv(v) && p in v.loose && kd in v.dirs && p < |v.mem| && w == MakeDir(v, p, kd)
    ensures Counts(w)
  {
    LooseIsData(v, p);
    MakeDirNames(v, w, p, kd);
    hide Chain, Partition, Structure, Names, Live, Refs, DirImage;
    forall g: nat | g < |w.mem| ensures w.ref[g] == |Refs(w, g)| + w.pins[g] {
      RefsSame(v, w, g);
    }
  }

  lemma MakeDirNames(v: Vm, w: Vm, p: nat, kd: nat)
    requires Shape(v) && p < |v.mem| && kd < |v.mem| && w == MakeDir(v, p, kd) && IsData(v, p)
    ensures forall s: Slot, g: nat :: s in Live(w.dirs, w.tabs) && Names(w.mem, s, g)
                                  <==> s in Live(v.dirs, v.tabs) && Names(v.mem, s, g)
  {
    assert forall i: Index :: i < UTOP_PDX ==> !Present(w.mem[p][i]);
    assert forall g :: 0 <= g < |v.mem| && g != p ==> w.mem[g] == v.mem[g];
    hide DirImage, Present, Frame, Shape;
  }

  lemma MakeDirStructure(v: Vm, w: Vm, p: nat, kd: nat)
    requires Inv(v) && p in v.loose && kd in v.dirs && p < |v.mem| && w == MakeDir(v, p, kd)
    ensures Structure(w)
  {
    LooseIsData(v, p);
    MakeDirKinds(v, w, p, kd);
    hide Chain, Counts, Partition, Kinds, UserDirs, Owners, UserTables, KernelDirs;
    forall x, j: Index | x in v.tabs && x < |v.mem| && Present(v.mem[x][j]) ensures Frame(v.mem[x][j]) != p {
      NoEntryNames(v, p, Slot(x, j));
    }
    ImageEntries(v, w, p, kd);
    MakeDirUser(v, w, p, kd);
    MakeDirKernel(v, w, p, kd);
  }

  lemma MakeDirKinds(v: Vm, w: Vm, p: nat, kd: nat)
    requires Shape(v) && Shape(w) && Kinds(v) && p < |v.mem| && kd < |v.mem| && w == MakeDir(v, p, kd)
    requires IsData(v, p) && v.pins[p] == 0
    ensures Kinds(w)
  {
  }

  lemma ImageEntries(v: Vm, w: Vm, p: nat, kd: nat)
    requires Shape(v) && p < |v.mem| && kd < |v.mem| && w == MakeDir(v, p, kd)
    ensures forall i: Index :: i < UTOP_PDX ==> !Present(w.mem[p][i])
    ensures Frame(w.mem[p][UVPT_PDX]) == p
    ensures forall i: Index :: i >= UTOP_PDX && i != UVPT_PDX ==> w.mem[p][i] == v.mem[kd][i]
  {
  }

  lemma MakeDirUser(v: Vm, w: Vm, p: nat, kd: nat)
    requires Shape(v) && Shape(w) && Kinds(v) && Kinds(w) && UserDirs(v) && Owners(v) && UserTables(v)
    requires p < |v.mem| && IsData(v, p) && kd in v.dirs && w == MakeDir(v, p, kd)
    requires forall i: Index :: i < UTOP_PDX ==> !Present(w.mem[p][i])
    requires forall x, j: Index :: x in v.tabs && x < |v.mem| && Present(v.mem[x][j]) ==> Frame(v.mem[x][j]) != p
    ensures UserDirs(w) && Owners(w) && UserTables(w)
  {
    hide Frame, Present, DirImage;
  }

  lemma MakeDirKernel(v: Vm, w: Vm, p: nat, kd: nat)
    requires Shape(v) && Shape(w) && Kinds(v) && Kinds(w) && KernelDirs(v)
    requires p < |v.mem| && IsData(v, p) && kd in v.dirs && w == MakeDir(v, p, kd)
    requires Frame(w.mem[p][UVPT_PDX]) == p
    requires forall i: Index :: i >= UTOP_PDX && i != UVPT_PDX ==> w.mem[p][i] == v.mem[kd][i]
    ensures KernelDirs(w)
  {
    hide Frame, Present, DirImage;
  }

  /** A directory with nothing below UTOP left becomes an ordinary page with one reference. */
  function RetireDir(v: Vm, d: nat): Vm {
    v.(dirs := v.dirs - {d})
  }

  lemma RetireDirInv(v: Vm, d: nat)
    requires Inv(v) && d in v.dirs && forall i: Index :: i < UTOP_PDX ==> !Present(v.mem[d][i])
    ensures Inv(RetireDir(v, d)) && v.pins[d] == 1
  {
    var w := RetireDir(v, d);
    RetireDirCounts(v, d);
    RetireDirStructure(v, d);
    hide Chain, Counts, Partition, Structure;
  }

  lemma RetireDirCounts(v: Vm, d: nat)
    requires Shape(v) && Counts(v) && d in v.dirs && d < |v.mem| && d !in v.tabs
    requires forall i: Index :: i < UTOP_PDX ==> !Present(v.mem[d][i])
    ensures Counts(RetireDir(v, d))
  {
    forall g: nat | g < |v.mem| ensures v.ref[g] == |Refs(RetireDir(v, d), g)| + v.pins[g] {
      RefsSame(v, RetireDir(v, d), g);
    }
  }

  lemma RetireDirStructure(v: Vm, d: nat)
    requires Shape(v) && Structure(v) && d in v.dirs
    requires d < |v.mem| && forall i: Index :: i < UTOP_PDX ==> !Present(v.mem[d][i])
    ensures Structure(RetireDir(v, d))
  {
    hide Frame, Present;
  }

}
