/** kern/env.c: environment identifiers, the free-environment list and envid2env. */
module EnvIds {
  import opened Bits
  import opened VmInv
  import Mmu

  const NENV := 1024
  const NULL := -1
  const E_BAD_ENV := 2
  const E_NO_MEM := 4
  const E_NO_FREE_ENV := 5

  const PERIOD := 0x7_FFFF            // 2^19 - 1 generations of a slot

  type Slot = i: int | 0 <= i < 1024

  // Identifiers

  /** The unsigned pattern of a 32-bit two's-complement value. */
  function Pattern(x: Int32): nat { if x < 0 then x + 0x1_0000_0000 else x }

  /** ENVX */
  function Envx(id: Int32): Slot { id % 1024 }

  /** (id + (1 << ENVGENSHIFT)) & ~(NENV - 1), made positive */
  function Generation(id: Int32): Int32 {
    var t := Wrap(id + 4096);
    var g := t - t % 1024;
    if g <= 0 then 4096 else g
  }

  /** The id env_alloc gives slot i, whose last id was id. */
  function NextId(id: Int32, i: Slot): Int32 { Generation(id) + i }

  /** The masks of the source on the two's-complement patterns. */
  lemma MaskForms(id: Int32)
    ensures Envx(id) == And(Pattern(id), 0x3FF)
    ensures var t := Wrap(id + 4096); Pattern(t - t % 1024) == And(Pattern(t), 0xFFFF_FC00)
  {
    var t := Wrap(id + 4096);
    Mmu.IndexMask(Pattern(id));
    HighPart(Pattern(t));
    hide And, Wrap;
    PatternParts(id);
    PatternParts(t);
  }

  lemma PatternParts(x: Int32)
    ensures Pattern(x) < 0x1_0000_0000 && Pattern(x) % 1024 == x % 1024
    ensures x - x % 1024 >= -0x8000_0000 && Pattern(x - x % 1024) == Pattern(x) - Pattern(x) % 1024
  {
    if x < 0 { assert (x + 0x1_0000_0000) % 1024 == x % 1024; }
  }

  lemma HighPart(x: nat)
    requires x < 0x1_0000_0000
    ensures And(x, 0xFFFF_FC00) == x - x % 1024
  {
    MaskValues();
    ShiftOutWord(x);
    AndHigh(x, 10, 32);
    ShiftTen(x);
    ShiftTen(x / 1024);
  }

  /** The generation | index of the source is a sum. */
  lemma OrForm(id: Int32, i: Slot)
    ensures NextId(id, i) == Or(Generation(id), i)
  {
    var g := Generation(id) / 1024;
    assert Generation(id) == g * 1024;
    hide Or, Shr, Shl, Generation;
    ShiftTen(g);
    ShiftTen(i);
    OrDisjoint(g, i, 10);
  }

  /** The id slot i has after k allocations; before the first it is 0. */
  function IdAfter(k: nat, i: Slot): Int32 {
    if k == 0 then 0 else 4096 * ((k - 1) % 0x7_FFFF + 1) + i
  }

  /** Allocation number k + 1 of a slot gives it id number k + 1: positive, with the slot's
      index in its low ten bits, and starting over after 2^19 - 1 of them. */
  lemma IdSequence(k: nat, i: Slot)
    ensures NextId(IdAfter(k, i), i) == IdAfter(k + 1, i)
    ensures IdAfter(k + 1, i) > 0 && Envx(IdAfter(k + 1, i)) == i
  {
    if k > 0 {
      var j := (k - 1) % 0x7_FFFF;
      assert k % 0x7_FFFF == if j + 1 == 0x7_FFFF then 0 else j + 1;
      NextGeneration(j + 1, i);
    } else {
      NextGeneration(0, i);
    }
    assert 1 <= k % 0x7_FFFF + 1 <= 0x7_FFFF;
    InSlot(k % 0x7_FFFF + 1, i);
    hide NextId, Envx;
  }

  lemma NextGeneration(g: nat, i: Slot)
    requires g <= 0x7_FFFF
    ensures NextId(if g == 0 then 0 else 4096 * g + i, i) == 4096 * (if g == 0x7_FFFF then 1 else g + 1) + i
  {
    if 0 < g < 0x7_FFFF {
      LowBits(4 * (g + 1), i);
    } else if g == 0x7_FFFF {
      LowBits(-0x20_0000, i);
    }
  }

  lemma InSlot(g: nat, i: Slot)
    requires 1 <= g <= 0x7_FFFF
    ensures 0 < 4096 * g + i < 0x8000_0000 && Envx(4096 * g + i) == i
  {
    LowBits(4 * g, i);
  }

  lemma LowBits(q: int, i: Slot)
    ensures (1024 * q + i) % 1024 == i
  {
  }

  /** Two allocations of a slot get the same id exactly when they are a multiple of 2^19 - 1 apart. */
  lemma IdsRepeat(j: nat, k: nat, i: Slot)
    requires 1 <= j <= k
    ensures IdAfter(j, i) == IdAfter(k, i) <==> (k - j) % 0x7_FFFF == 0
  {
    var a, b := (j - 1) % 0x7_FFFF, (k - 1) % 0x7_FFFF;
    assert (k - j) % 0x7_FFFF == (b - a) % 0x7_FFFF;
  }

  // The environment table

  /** envs[] by field, and env_free_list. count is bookkeeping: how often each slot has been
      allocated; free is the free list as a sequence. */
  datatype Envs = Envs(id: seq<Int32>, used: seq<bool>, parent: seq<Int32>, link: seq<int>, head: int,
                       free: seq<nat>, count: seq<nat>)

  ghost predicate Shape(t: Envs) {
    && |t.id| == |t.used| == |t.parent| == |t.link| == |t.count| == NENV
    && -1 <= t.head < NENV && forall i :: 0 <= i < NENV ==> -1 <= t.link[i] < NENV
  }

  /** The list holds exactly the unused slots, each once; every slot's id is the one its number
      of allocations gives. */
  ghost predicate Good(t: Envs) {
    && Shape(t) && Distinct(t.free) && Follows(t.free, t.link, t.head)
    && (forall i :: 0 <= i < NENV ==> (i in t.free <==> !t.used[i]))
    && (forall i :: 0 <= i < NENV ==> t.id[i] == IdAfter(t.count[i], i) && (t.used[i] ==> t.count[i] > 0))
  }

  /** env_alloc with the outcome of env_setup_vm: the new table, the return code, the slot. */
  function EnvAlloc(t: Envs, vmOk: bool, parent: Int32): (r: (Envs, int, int))
    requires |t.id| == |t.used| == |t.parent| == |t.link| == |t.count| == NENV && -1 <= t.head < NENV
  {
    if t.head == NULL then (t, -E_NO_FREE_ENV, NULL)
    else if !vmOk then (t, -E_NO_MEM, NULL)
    else
      var e := t.head;
      (t.(id := t.id[e := NextId(t.id[e], e)], used := t.used[e := true], parent := t.parent[e := parent],
          head := t.link[e], free := if t.free == [] then [] else t.free[1..],
          count := t.count[e := t.count[e] + 1]), 0, e)
  }

  /** The end of env_free: the slot goes back to the list; its id stays. */
  function EnvRelease(t: Envs, e: Slot): Envs
    requires |t.used| == |t.link| == NENV
  {
    t.(used := t.used[e := false], link := t.link[e := t.head], head := e, free := [e] + t.free)
  }

  /** envid2env: the slot, or the error; cur is curenv. */
  function Envid2Env(t: Envs, envid: Int32, cur: int, checkperm: bool): (int, int)
    requires |t.id| == |t.used| == |t.parent| == NENV && -1 <= cur < NENV
    requires checkperm ==> cur != NULL
  {
    if envid == 0 then (0, cur)
    else
      var e := Envx(envid);
      if !t.used[e] || t.id[e] != envid then (-E_BAD_ENV, NULL)
      else if checkperm && e != cur && t.parent[e] != t.id[cur] then (-E_BAD_ENV, NULL)
      else (0, e)
  }

  /** The table env_init's comment describes: every slot free with id 0, listed in order. */
  function FreshTable(): Envs {
    Envs(seq(NENV, _ => 0), seq(NENV, _ => false), seq(NENV, _ => 0),
         seq(NENV, i => if i == NENV - 1 then NULL else i + 1), 0, Upto(NENV), seq(NENV, _ => 0))
  }

  /** 0, 1, ..., n - 1 */
  function Upto(n: nat): (r: seq<nat>)
    ensures |r| == n && forall i :: 0 <= i < n ==> r[i] == i
  {
    seq(n, i => i)
  }

  lemma FreshGood()
    ensures Good(FreshTable()) && FreshTable().free[0] == 0
  {
    var t := FreshTable();
    InOrder(t.link, 0);
    UptoHas(NENV);
    assert Upto(NENV)[0..] == Upto(NENV);
    hide Upto, Follows;
  }

  lemma UptoHas(n: nat)
    ensures forall i :: 0 <= i < n ==> i in Upto(n)
  {
    forall i | 0 <= i < n ensures i in Upto(n) {
      assert Upto(n)[i] == i;
    }
  }

  lemma {:induction false} InOrder(link: seq<int>, k: nat)
    requires k < NENV == |link| && forall i :: 0 <= i < NENV ==> link[i] == if i == NENV - 1 then NULL else i + 1
    ensures Follows(Upto(NENV)[k..], link, k)
    decreases NENV - k
  {
    var s := Upto(NENV)[k..];
    assert s[0] == k;
    if k == NENV - 1 {
      assert s[1..] == [];
    } else {
      InOrder(link, k + 1);
      assert s[1..] == Upto(NENV)[k + 1..];
    }
  }

  lemma EnvAllocGood(t: Envs, vmOk: bool, parent: Int32)
    requires Good(t)
    ensures var (u, ret, e) := EnvAlloc(t, vmOk, parent);
      && Good(u)
      && (ret == 0 <==> t.free != [] && vmOk)
      && (ret != 0 ==> u == t)
      && (ret == 0 ==> e == t.free[0] && u.used == t.used[e := true] && u.count == t.count[e := t.count[e] + 1])
  {
    if t.head != NULL && vmOk {
      var e := t.head;
      IdSequence(t.count[e], e);
      assert t.free == [e] + t.free[1..];
      assert e in t.free && e !in t.free[1..];
      hide Follows, IdAfter, NextId;
      assert forall i :: i in t.free <==> i == e || i in t.free[1..];
    }
  }

  lemma EnvReleaseGood(t: Envs, e: Slot)
    requires Good(t) && t.used[e]
    ensures Good(EnvRelease(t, e))
  {
    var u := EnvRelease(t, e);
    assert e !in t.free;
    FollowsFrame(t.free, t.link, t.head, e, t.head);
    assert u.free[1..] == t.free;
    hide IdAfter;
    assert forall i :: i in u.free <==> i == e || i in t.free;
  }

  /** The end of env_free: the slot is unused and heads the list, and nothing else changes; so its
      id is refused, with -E_BAD_ENV, and the next allocation takes the slot. */
  lemma ReleaseFrees(t: Envs, e: Slot, cur: int, checkperm: bool, parent: Int32)
    requires Good(t) && t.used[e] && -1 <= cur < NENV && (checkperm ==> cur != NULL)
    ensures var u := EnvRelease(t, e);
      && u.used == t.used[e := false] && u.free == [e] + t.free
      && u.id == t.id && u.parent == t.parent && u.count == t.count
      && Shape(u) && Envid2Env(u, t.id[e], cur, checkperm) == (-2, -1)
      && EnvAlloc(u, true, parent).1 == 0 && EnvAlloc(u, true, parent).2 == e
  {
    EnvReleaseGood(t, e);
    LiveIdsPositive(t, e);
    hide IdAfter, Follows, NextId;
  }

  /** env_alloc, whole: no free slot gives -E_NO_FREE_ENV, a failed address space -E_NO_MEM, and
      nothing else happens; otherwise the head of the list gets the next id of its slot and the
      parent asked for, and no other slot changes. */
  lemma EnvAllocExact(t: Envs, vmOk: bool, parent: Int32)
    requires Good(t)
    ensures t.free == [] ==> EnvAlloc(t, vmOk, parent) == (t, -5, -1)
    ensures t.free != [] && !vmOk ==> EnvAlloc(t, vmOk, parent) == (t, -4, -1)
    ensures t.free != [] && vmOk ==>
      var (u, ret, e) := EnvAlloc(t, vmOk, parent);
      && ret == 0 && e == t.free[0] && 0 <= e < 1024 && u.used == t.used[e := true] && u.parent == t.parent[e := parent]
      && u.id == t.id[e := IdAfter(t.count[e] + 1, e)] && u.count == t.count[e := t.count[e] + 1]
      && u.free == t.free[1..]
  {
    if t.free != [] {
      var e := t.free[0];
      assert t.head == e < NENV;
      IdSequence(t.count[e], e);
    }
    hide IdAfter, NextId;
  }

  /** The id of a slot's k-th allocation: the k-th multiple of 4096, starting over after 2^19 - 1 of
      them, plus the slot. */
  lemma IdValue(k: nat, i: Slot)
    ensures k > 0 ==> IdAfter(k, i) == (if k % 0x7_FFFF == 0 then 0x7_FFFF else k % 0x7_FFFF) * 4096 + i
  {
    if k > 0 {
      var a, b := (k - 1) % 0x7_FFFF, k % 0x7_FFFF;
      assert b == if a + 1 == 0x7_FFFF then 0 else a + 1;
    }
  }

  /** Id 0 stands for the current environment, with or without the permission check. */
  lemma ZeroIsCurrent(t: Envs, cur: int, checkperm: bool)
    requires Shape(t) && -1 <= cur < NENV && (checkperm ==> cur != NULL)
    ensures Envid2Env(t, 0, cur, checkperm) == (0, cur)
  {
  }

  // Runs

  datatype Op = Alloc(vmOk: bool, parent: Int32) | Release(e: Slot)

  predicate Enabled(t: Envs, op: Op) {
    |t.used| == NENV && match op case Alloc(_, _) => true case Release(e) => t.used[e]
  }

  ghost function Step(t: Envs, op: Op): Envs
    requires Shape(t)
  {
    match op
    case Alloc(vmOk, parent) => EnvAlloc(t, vmOk, parent).0
    case Release(e) => EnvRelease(t, e)
  }

  /** A run of enabled allocations and releases leads from t to u. */
  ghost predicate Leads(t: Envs, ops: seq<Op>, u: Envs)
    decreases |ops|
  {
    if ops == [] then t == u
    else Shape(t) && Enabled(t, ops[0]) && Leads(Step(t, ops[0]), ops[1..], u)
  }

  lemma {:induction false} RunGood(t: Envs, ops: seq<Op>, u: Envs, i: Slot)
    requires Good(t) && Leads(t, ops, u)
    ensures Good(u) && t.count[i] <= u.count[i]
    decreases |ops|
  {
    if ops != [] {
      match ops[0] {
        case Alloc(vmOk, parent) => EnvAllocGood(t, vmOk, parent);
        case Release(e) => EnvReleaseGood(t, e);
      }
      var w := Step(t, ops[0]);
      assert t.count[i] <= w.count[i];
      hide Good, Step;
      RunGood(w, ops[1..], u, i);
    }
  }

  /** Every live id is positive and carries its slot. */
  lemma LiveIdsPositive(t: Envs, i: Slot)
    requires Good(t) && t.used[i]
    ensures t.id[i] > 0 && Envx(t.id[i]) == i
  {
    IdSequence(t.count[i] - 1, i);
  }

  /** What envid2env answers: with a non-zero id it succeeds exactly for the one live environment
      that has the id, if with checkperm that is the current one or a child of it. */
  lemma LookupExact(t: Envs, envid: Int32, cur: int, checkperm: bool, i: Slot)
    requires Good(t) && -1 <= cur < NENV && (checkperm ==> cur != NULL) && envid != 0
    ensures Envid2Env(t, envid, cur, checkperm) == (0, i)
      <==> t.used[i] && t.id[i] == envid && (checkperm ==> i == cur || t.parent[i] == t.id[cur])
    ensures (forall j: Slot :: Envid2Env(t, envid, cur, checkperm) != (0, j))
      ==> Envid2Env(t, envid, cur, checkperm) == (-2, -1)
  {
    if t.used[i] { LiveIdsPositive(t, i); }
    hide Good, Envx;
    assert 0 <= Envx(envid) < NENV;
  }

  /** After any run, however long, envid2env finds an environment by an id that was live before if
      and only if its slot is in use and has been allocated a multiple of 2^19 - 1 times since
      (and, with checkperm, is the current environment or a child of it). */
  lemma StaleIdExact(t: Envs, ops: seq<Op>, u: Envs, i: Slot, cur: int, checkperm: bool)
    requires Good(t) && t.used[i] && Leads(t, ops, u) && -1 <= cur < NENV && (checkperm ==> cur != NULL)
    ensures Good(u) && t.count[i] <= u.count[i]
    ensures var (ret, e) := Envid2Env(u, t.id[i], cur, checkperm);
      if u.used[i] && (u.count[i] - t.count[i]) % 0x7_FFFF == 0 && (checkperm ==> i == cur || u.parent[i] == u.id[cur])
      then ret == 0 && e == i
      else ret == -2 && e == -1
  {
    LiveIdsPositive(t, i);
    RunGood(t, ops, u, i);
    if u.count[i] > 0 { IdsRepeat(t.count[i], u.count[i], i); }
    hide IdAfter;
  }

  /** So an id is good for exactly as long as its environment lives, if the slot is allocated again
      fewer than 2^19 - 1 times ... */
  lemma StaleIdsRejected(t: Envs, ops: seq<Op>, u: Envs, i: Slot, cur: int, checkperm: bool)
    requires Good(t) && t.used[i] && Leads(t, ops, u) && -1 <= cur < NENV && (checkperm ==> cur != NULL)
    requires Good(u) && u.count[i] < t.count[i] + PERIOD
    ensures var (ret, e) := Envid2Env(u, t.id[i], cur, checkperm);
      if u.used[i] && u.count[i] == t.count[i] && (checkperm ==> i == cur || u.parent[i] == u.id[cur])
      then ret == 0 && e == i
      else ret == -E_BAD_ENV && e == NULL
  {
    StaleIdExact(t, ops, u, i, cur, checkperm);
    hide Good, Leads, Envid2Env;
  }

  /** ... and no longer: the allocation 2^19 - 1 later revives it. */
  lemma StaleIdReturns(t: Envs, ops: seq<Op>, u: Envs, i: Slot, cur: int)
    requires Good(t) && t.used[i] && Leads(t, ops, u) && -1 <= cur < NENV
    requires Good(u) && u.used[i] && u.count[i] == t.count[i] + PERIOD
    ensures Envid2Env(u, t.id[i], cur, false) == (0, i)
  {
    StaleIdExact(t, ops, u, i, cur, false);
    hide Good, Leads, Envid2Env;
  }

  // The structures themselves

  class EnvTable {
    const envId: array<Int32>
    const envUsed: array<bool>         // env_status != ENV_FREE
    const envParent: array<Int32>
    const envLink: array<int>
    var envFreeList: int
    var curenv: int
    ghost var free: seq<nat>
    ghost var count: seq<nat>

    ghost function State(): Envs
      reads this, envId, envUsed, envParent, envLink
    {
      Envs(envId[..], envUsed[..], envParent[..], envLink[..], envFreeList, free, count)
    }

    ghost predicate Valid()
      reads this, envId, envUsed, envParent, envLink
    {
      && (envId as object) != envParent && (envId as object) != envLink && (envParent as object) != envLink
      && (envUsed as object) != envId && (envUsed as object) != envParent && (envUsed as object) != envLink
      && Good(State()) && -1 <= curenv < NENV
    }

    /** The table env_init's comment describes, with no current environment. */
    constructor ()
      ensures Valid() && State() == FreshTable() && curenv == NULL
      ensures fresh(envId) && fresh(envUsed) && fresh(envParent) && fresh(envLink)
    {
      envId := new Int32[NENV](_ => 0);
      envUsed := new bool[NENV](_ => false);
      envParent := new Int32[NENV](_ => 0);
      envLink := new int[NENV](i => if i == NENV - 1 then NULL else i + 1);
      envFreeList, curenv := 0, NULL;
      free, count := Upto(NENV), seq(NENV, _ => 0);
      new;
      FreshGood();
      assert State() == FreshTable();
    }

    /** env_alloc; vmOk is env_setup_vm's outcome. */
    method Alloc(vmOk: bool, parent: Int32) returns (ret: int, e: int)
      requires Valid()
      modifies this, envId, envUsed, envParent
      ensures Valid() && (State(), ret, e) == EnvAlloc(old(State()), vmOk, parent) && curenv == old(curenv)
    {
      EnvAllocGood(State(), vmOk, parent);
      hide Good;
      GoodShape(State());
      e := envFreeList;
      if e == NULL { return -E_NO_FREE_ENV, NULL; }
      if !vmOk { return -E_NO_MEM, NULL; }
      envId[e] := NextId(envId[e], e);
      envParent[e] := parent;
      envUsed[e] := true;
      envFreeList := envLink[e];
      free := if free == [] then [] else free[1..];
      count := count[e := count[e] + 1];
      ret := 0;
    }

    /** The end of env_free. */
    method Release(e: Slot)
      requires Valid() && envUsed.Length == NENV && envUsed[e]
      modifies this, envUsed, envLink
      ensures Valid() && State() == EnvRelease(old(State()), e) && curenv == old(curenv)
    {
      EnvReleaseGood(State(), e);
      hide Good;
      GoodShape(State());
      envUsed[e] := false;
      envLink[e] := envFreeList;
      envFreeList := e;
      free := [e] + free;
    }

    /** envid2env, writing through the caller's pointer. */
    method Lookup(envid: Int32, checkperm: bool) returns (ret: int, store: int)
      requires Valid() && (checkperm ==> curenv != NULL)
      ensures (ret, store) == Envid2Env(State(), envid, curenv, checkperm)
    {
      if envid == 0 { return 0, curenv; }
      var e := Envx(envid);
      if !envUsed[e] || envId[e] != envid { return -E_BAD_ENV, NULL; }
      if checkperm && e != curenv && envParent[e] != envId[curenv] { return -E_BAD_ENV, NULL; }
      return 0, e;
    }
  }

  lemma GoodShape(t: Envs)
    requires Good(t)
    ensures Shape(t)
  {
  }
}
