/** The processor fills and empties its TLB on its own, also in the middle of an operation. Each
    operation is laid out here as the sequence of its memory and processor actions, in the order
    of the code, with a fill allowed before, between and after them (section 4.10 of the Intel SDM
    Volume 3A). */
module VmTlb {
  import opened Mmu
  import opened VmOps

  /** One action. Note is bookkeeping only. */
  datatype Act =
    | Take                                   // page_alloc unlinks the head of the free list
    | Give(f: nat)                           // page_free links a page in
    | Count(f: nat)                          // pp_ref++
    | Lower(f: nat)                          // --pp_ref
    | Fill(f: nat, words: FrameWords)        // memset or memcpy of a page
    | Write(slot: Slot, word: Word)          // a store to an entry
    | Flush(va: Word)                        // invlpg
    | Load(d: nat)                           // lcr3
    | Note(dirs: set<nat>, tabs: map<nat, Slot>, ktabs: map<nat, Index>, pins: seq<nat>)

  function Apply(v: Vm, a: Act): (w: Vm)
    requires Shape(v)
    ensures Shape(w) && |w.mem| == |v.mem|
  {
    match a
    case Take => PageAlloc(v, 0).0
    case Give(f) => if f < |v.mem| && PageFree(v, f).Done? then PageFree(v, f).value else v
    case Count(f) => if f < |v.mem| then IncRef(v, f) else v
    case Lower(f) => if f < |v.mem| then v.(ref := v.ref[f := Minus1(v.ref[f])]) else v
    case Fill(f, words) => if f < |v.mem| then v.(mem := v.mem[f := words]) else v
    case Write(s, x) => if s.frame < |v.mem| then Store(v, s, x) else v
    case Flush(va) => Invlpg(v, va)
    case Load(d) => if d < |v.mem| then LoadCr3(v, d) else v
    case Note(dirs, tabs, ktabs, pins) =>
      if |pins| == |v.mem| then v.(dirs := dirs, tabs := tabs, ktabs := ktabs, pins := pins) else v
  }

  function ApplyAll(v: Vm, acts: seq<Act>): (w: Vm)
    requires Shape(v)
    ensures Shape(w) && |w.mem| == |v.mem|
    decreases |acts|
  {
    if acts == [] then v else ApplyAll(Apply(v, acts[0]), acts[1..])
  }

  /** The processor drops cached translations and caches present ones of the loaded directory. */
  ghost predicate Fills(v: Vm, w: Vm) {
    && w == v.(tlb := w.tlb)
    && forall p :: p in w.tlb ==>
         (p in v.tlb && w.tlb[p] == v.tlb[p])
         || (v.cr3 < |v.mem| && Translate(v.mem, v.cr3, p) == Some(w.tlb[p]))
  }

  /** Carrying out the actions, with fills before each of them and at the end, can lead from v to w. */
  ghost predicate Runs(v: Vm, acts: seq<Act>, w: Vm)
    requires Shape(v)
    decreases |acts|
  {
    if acts == [] then Fills(v, w)
    else exists u :: Fills(v, u) && Shape(u) && Runs(Apply(u, acts[0]), acts[1..], w)
  }

  // What the TLB has no influence on

  ghost predicate SameButTlb(v: Vm, w: Vm) { w == v.(tlb := w.tlb) }

  lemma ApplySame(v: Vm, w: Vm, a: Act)
    requires Shape(v) && Shape(w) && SameButTlb(v, w)
    ensures SameButTlb(Apply(v, a), Apply(w, a))
  {
  }

  /** A run ends in the state the actions lead to without any fill, but for the TLB. */
  lemma {:induction false} RunsErase(v: Vm, v0: Vm, acts: seq<Act>, w: Vm)
    requires Shape(v) && Shape(v0) && SameButTlb(v0, v) && Runs(v, acts, w)
    ensures SameButTlb(ApplyAll(v0, acts), w) && Shape(w)
    decreases |acts|
  {
    if acts != [] {
      var u :| Fills(v, u) && Shape(u) && Runs(Apply(u, acts[0]), acts[1..], w);
      ApplySame(v0, u, acts[0]);
      hide Apply, Fills;
      RunsErase(Apply(u, acts[0]), Apply(v0, acts[0]), acts[1..], w);
    }
  }

  lemma RunsEnd(v: Vm, acts: seq<Act>, w: Vm)
    requires Shape(v) && Runs(v, acts, w)
    ensures SameButTlb(ApplyAll(v, acts), w) && Shape(w)
  {
    hide Runs, ApplyAll, Shape;
    RunsErase(v, v, acts, w);
  }

  /** Without any fill is one of the runs. */
  lemma {:induction false} RunsApply(v: Vm, acts: seq<Act>)
    requires Shape(v)
    ensures Runs(v, acts, ApplyAll(v, acts))
    decreases |acts|
  {
    assert Fills(v, v);
    if acts != [] {
      hide Apply, Fills;
      RunsApply(Apply(v, acts[0]), acts[1..]);
    }
  }

  lemma {:induction false} ApplyConcat(v: Vm, a: seq<Act>, b: seq<Act>)
    requires Shape(v)
    ensures ApplyAll(v, a + b) == ApplyAll(ApplyAll(v, a), b)
    decreases |a|
  {
    if a == [] {
      assert a + b == b;
    } else {
      assert (a + b)[0] == a[0] && (a + b)[1..] == a[1..] + b;
      hide Apply;
      ApplyConcat(Apply(v, a[0]), a[1..], b);
    }
  }

  // What may be stale

  /** The pages whose translation in the loaded directory was present and is another one now. */
  ghost function Broken(v: Vm, w: Vm): iset<Page> {
    iset p: Page | v.cr3 < |v.mem| == |w.mem|
      && Translate(v.mem, v.cr3, p).Some? && Translate(w.mem, v.cr3, p) != Translate(v.mem, v.cr3, p)
  }

  /** The pages for which a stale entry may be cached after a, given those before. */
  ghost function After(v: Vm, a: Act, ps: iset<Page>): iset<Page>
    requires Shape(v)
  {
    match a
    case Flush(va) => ps - iset{PageOf(va)}
    case Load(d) => if d < |v.mem| then iset{} else ps
    case _ => ps + Broken(v, Apply(v, a))
  }

  ghost function Stale(v: Vm, acts: seq<Act>, ps: iset<Page>): iset<Page>
    requires Shape(v)
    decreases |acts|
  {
    if acts == [] then ps else Stale(Apply(v, acts[0]), acts[1..], After(v, acts[0], ps))
  }

  /** Every cached translation of a page outside ps is the current one. */
  ghost predicate CoherentBut(v: Vm, ps: iset<Page>) {
    && v.cr3 < |v.mem|
    && forall p :: p in v.tlb && p !in ps ==> Translate(v.mem, v.cr3, p) == Some(v.tlb[p])
  }

  lemma ActCoherent(v: Vm, a: Act, ps: iset<Page>)
    requires Shape(v) && CoherentBut(v, ps)
    ensures CoherentBut(Apply(v, a), After(v, a, ps))
  {
    if !a.Flush? && !a.Load? { ActCpu(v, a); }
    hide Translate;
    if !a.Flush? && !a.Load? { hide Apply; }
  }

  lemma ActCpu(v: Vm, a: Act)
    requires Shape(v) && !a.Flush? && !a.Load?
    ensures Apply(v, a).cr3 == v.cr3 && Apply(v, a).tlb == v.tlb
  {
  }

  lemma AfterSame(v: Vm, w: Vm, a: Act, ps: iset<Page>)
    requires Shape(v) && Shape(w) && SameButTlb(v, w)
    ensures After(v, a, ps) == After(w, a, ps)
  {
    ApplySame(v, w, a);
    hide Apply, Translate;
  }

  lemma {:induction false} StaleSame(v: Vm, w: Vm, acts: seq<Act>, ps: iset<Page>)
    requires Shape(v) && Shape(w) && SameButTlb(v, w)
    ensures Stale(v, acts, ps) == Stale(w, acts, ps)
    decreases |acts|
  {
    if acts != [] {
      ApplySame(v, w, acts[0]);
      AfterSame(v, w, acts[0], ps);
      hide Apply, After, SameButTlb;
      StaleSame(Apply(v, acts[0]), Apply(w, acts[0]), acts[1..], After(v, acts[0], ps));
    }
  }

  /** However the processor fills its TLB meanwhile, only pages in Stale can be cached wrongly. */
  lemma {:induction false} RunsCoherent(v: Vm, acts: seq<Act>, ps: iset<Page>, w: Vm)
    requires Shape(v) && CoherentBut(v, ps) && Runs(v, acts, w)
    ensures CoherentBut(w, Stale(v, acts, ps))
    decreases |acts|
  {
    if acts == [] {
      FillsCoherent(v, w, ps);
    } else {
      var a, rest := acts[0], acts[1..];
      var u :| Fills(v, u) && Shape(u) && Runs(Apply(u, a), rest, w);
      FillsCoherent(v, u, ps);
      ActCoherent(u, a, ps);
      hide Apply, After, CoherentBut;
      RunsCoherent(Apply(u, a), rest, After(u, a, ps), w);
      StaleSame(v, u, acts, ps);
    }
  }

  lemma FillsCoherent(v: Vm, w: Vm, ps: iset<Page>)
    requires CoherentBut(v, ps) && Fills(v, w)
    ensures CoherentBut(w, ps)
  {
    hide Translate;
  }
}
