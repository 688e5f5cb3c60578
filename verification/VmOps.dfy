/** The virtual-memory state of kern/pmap.c and what each of its operations does to it.
    Each function follows the code of the operation it is named after, panics included;
    the class in Kernel.dfy carries the same operations out on arrays. */
module VmOps {
  import opened Bits
  import opened Mmu

  const NULL := -1
  const E_NO_MEM := 4
  const REF_LIMIT := 65536      // pp_ref is 16 bits wide

  // uint16_t arithmetic
  function Plus1(n: nat): nat { if n + 1 == REF_LIMIT then 0 else n + 1 }
  function Minus1(n: nat): nat { if n == 0 then REF_LIMIT - 1 else n - 1 }

  type FrameWords = s: seq<Word> | |s| == NENTRIES witness seq(NENTRIES, _ => 0)

  function ZeroFrame(): FrameWords { seq(NENTRIES, _ => 0) }

  /** A word of physical memory: a pte_t* or pde_t*. */
  datatype Slot = Slot(frame: nat, idx: Index)

  /** Physical memory, the PageInfo array (link and ref by frame number), the free list's
      head, and the processor's cr3 and TLB.

      The last six fields are bookkeeping that no branch reads: the free list as a
      sequence; the pages handed out by page_alloc and not yet counted; the page
      directories; each page table below UTOP with the entry that owns it; each page
      table above UTOP with its directory index; and the explicit references, the
      pp_ref++ that no counted entry accounts for. */
  datatype Vm = Vm(
    mem: seq<FrameWords>, link: seq<int>, ref: seq<nat>, head: int,
    cr3: nat, tlb: map<Page, Word>,
    free: seq<nat>, loose: set<nat>, dirs: set<nat>,
    tabs: map<nat, Slot>, ktabs: map<nat, Index>, pins: seq<nat>)

  datatype Res<T> = Done(value: T) | Panic

  predicate Shape(v: Vm) {
    && 0 < |v.mem| <= MAX_PAGES
    && |v.link| == |v.ref| == |v.pins| == |v.mem|
    && -1 <= v.head < |v.mem|
    && (forall f :: 0 <= f < |v.mem| ==> -1 <= v.link[f] < |v.mem|)
    && (forall f :: 0 <= f < |v.mem| ==> v.ref[f] < REF_LIMIT)
  }

  function WordAt(v: Vm, s: Slot): Word
    requires s.frame < |v.mem|
  {
    v.mem[s.frame][s.idx]
  }

  function Store(v: Vm, s: Slot, w: Word): (r: Vm)
    requires s.frame < |v.mem|
  {
    v.(mem := v.mem[s.frame := v.mem[s.frame][s.idx := w]])
  }

  /** page_alloc: any non-zero flag clears the page. */
  function PageAlloc(v: Vm, flags: int): (r: (Vm, int))
    requires Shape(v)
    ensures Shape(r.0) && |r.0.mem| == |v.mem| && -1 <= r.1 < |v.mem|
  {
    if v.head == NULL then (v, NULL)
    else
      var f := v.head;
      var v1 := v.(head := v.link[f], link := v.link[f := NULL],
                   free := if v.free == [] then [] else v.free[1..], loose := v.loose + {f});
      (if flags != 0 then v1.(mem := v1.mem[f := ZeroFrame()]) else v1, f)
  }

  function PageFree(v: Vm, f: nat): (r: Res<Vm>)
    requires Shape(v) && f < |v.mem|
    ensures r.Done? ==> Shape(r.value) && |r.value.mem| == |v.mem|
  {
    if v.ref[f] == 0 && v.link[f] == NULL then
      Done(v.(link := v.link[f := v.head], head := f, free := [f] + v.free, loose := v.loose - {f}))
    else Panic
  }

  function PageDecref(v: Vm, f: nat): (r: Res<Vm>)
    requires Shape(v) && f < |v.mem|
    ensures r.Done? ==> Shape(r.value) && |r.value.mem| == |v.mem|
  {
    var v1 := v.(ref := v.ref[f := Minus1(v.ref[f])]);
    if v1.ref[f] == 0 then PageFree(v1, f) else Done(v1)
  }

  /** pp->pp_ref++ */
  function IncRef(v: Vm, f: nat): (r: Vm)
    requires Shape(v) && f < |v.mem|
    ensures Shape(r) && |r.mem| == |v.mem|
  {
    v.(ref := v.ref[f := Plus1(v.ref[f])], loose := v.loose - {f})
  }

  /** pp_ref counts modulo 65536. */
  lemma CountWraps(v: Vm, f: nat)
    requires Shape(v) && f < |v.mem|
    ensures IncRef(v, f).ref[f] == (v.ref[f] + 1) % 65536
    ensures PageDecref(v, f).Done? ==> PageDecref(v, f).value.ref[f] == (v.ref[f] + 65535) % 65536
  {
  }

  datatype Walked = At(vm: Vm, slot: Slot) | NoTable(vm: Vm) | WalkPanic

  /** pgdir_walk: the panic is KADDR's, the null pointer NoTable. */
  function PgdirWalk(v: Vm, d: nat, va: Word, create: bool): (r: Walked)
    requires Shape(v) && d < |v.mem|
    ensures !r.WalkPanic? ==> Shape(r.vm) && |r.vm.mem| == |v.mem|
    ensures r.At? ==> r.slot.frame < |v.mem|
  {
    var pde := v.mem[d][PDX(va)];
    if Present(pde) then
      if Frame(pde) >= |v.mem| then WalkPanic else At(v, Slot(Frame(pde), PTX(va)))
    else if !create then NoTable(v)
    else
      var (v1, t) := PageAlloc(v, 1);
      if t == NULL then NoTable(v1)
      else At(InstallTable(v1, d, PDX(va), t), Slot(t, PTX(va)))
  }

  /** The new table's count and the directory entry that points to it. */
  function InstallTable(v: Vm, d: nat, i: Index, t: nat): (r: Vm)
    requires Shape(v) && d < |v.mem| && t < |v.mem|
    ensures Shape(r) && |r.mem| == |v.mem|
  {
    var v1 := Store(IncRef(v, t), Slot(d, i), Entry(t, PTE_PWU));
    if i < UTOP_PDX then v1.(tabs := v1.tabs[t := Slot(d, i)])
    else v1.(ktabs := v1.ktabs[t := i], pins := v1.pins[t := v1.pins[t] + 1])
  }

  datatype Looked = Found(page: nat, slot: Slot) | NotMapped | LookPanic

  /** page_lookup: the entry's present bit is not tested. */
  function PageLookup(v: Vm, d: nat, va: Word): (r: Looked)
    requires Shape(v) && d < |v.mem|
    ensures r.Found? ==> r.page < |v.mem| && r.slot.frame < |v.mem|
  {
    match PgdirWalk(v, d, va, false)
    case WalkPanic => LookPanic
    case NoTable(_) => NotMapped
    case At(_, s) =>
      match Pa2Page(PteAddr(WordAt(v, s)), |v.mem|)
      case None => LookPanic
      case Some(f) => Found(f, s)
  }

  /** tlb_invalidate */
  function Invlpg(v: Vm, va: Word): Vm {
    v.(tlb := v.tlb - {PageOf(va)})
  }

  /** lcr3 */
  function LoadCr3(v: Vm, d: nat): Vm {
    v.(cr3 := d, tlb := map[])
  }

  function PageRemove(v: Vm, d: nat, va: Word): (r: Res<Vm>)
    requires Shape(v) && d < |v.mem|
    ensures r.Done? ==> Shape(r.value) && |r.value.mem| == |v.mem|
  {
    match PageLookup(v, d, va)
    case LookPanic => Panic
    case NotMapped => Done(v)
    case Found(f, s) =>
      match PageDecref(v, f)
      case Panic => Panic
      case Done(v1) => Done(Invlpg(Store(v1, s, 0), va))
  }

  /** page_insert, with its return code. */
  function PageInsert(v: Vm, d: nat, f: nat, va: Word, perm: Perm): (r: Res<(Vm, int)>)
    requires Shape(v) && d < |v.mem| && f < |v.mem|
    ensures r.Done? ==> Shape(r.value.0) && |r.value.0.mem| == |v.mem|
  {
    match PgdirWalk(v, d, va, true)
    case WalkPanic => Panic
    case NoTable(v1) => Done((v1, -E_NO_MEM))
    case At(v1, s) =>
      var v2 := IncRef(v1, f);
      if Present(WordAt(v2, s)) then
        match PageRemove(v2, d, va)
        case Panic => Panic
        case Done(v3) => Done((Store(v3, s, Entry(f, perm)), 0))
      else Done((Store(v2, s, Entry(f, perm)), 0))
  }

  /** check_va2pa, keeping the entry's permissions: the reference walk all claims about
      translations are judged by. An entry naming memory that does not exist counts as absent. */
  function Translate(mem: seq<FrameWords>, d: nat, pg: Page): Opt<Word>
    requires d < |mem|
  {
    var pde := mem[d][pg.pdx];
    if !Present(pde) || Frame(pde) >= |mem| then None
    else
      var pte := mem[Frame(pde)][pg.ptx];
      if !Present(pte) then None else Some(pte)
  }

  /** check_va2pa as the code writes it. */
  lemma TranslateMacros(mem: seq<FrameWords>, d: nat, la: Word, pdxShift: nat, ptxShift: nat)
    requires d < |mem| && pdxShift == 22 && ptxShift == 12
    ensures And(Shr(la, pdxShift), 0x3FF) < 1024 && And(Shr(la, ptxShift), 0x3FF) < 1024
    ensures var pde := mem[d][And(Shr(la, pdxShift), 0x3FF)];
      var table := And(pde, 0xFFFF_F000);
      var r := Translate(mem, d, PageOf(la));
      if And(pde, 1) == 0 || table >= 4096 * |mem| then r == None
      else
        var pte := mem[table / 4096][And(Shr(la, ptxShift), 0x3FF)];
        if And(pte, 1) == 0 then r == None else r == Some(pte)
  {
    hide And, Shr;
    IndexMacroForms(la, pdxShift, ptxShift);
    var pde := mem[d][PDX(la)];
    EntryMacroForms(pde);
    if Present(pde) && Frame(pde) < |mem| {
      EntryMacroForms(mem[Frame(pde)][PTX(la)]);
    }
  }

}
