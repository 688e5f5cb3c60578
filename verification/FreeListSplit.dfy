/** The reordering at the head of check_page_free_list: two tail pointers walk the free list
    once and relink it in place, low pages first. */
module FreeListSplit {
  import opened Mmu
  import opened VmOps
  import opened VmInv

  /** Where a struct PageInfo** may point: to the local pp1 or pp2, or to a page's pp_link. */
  datatype Cell = Local | LinkOf(f: nat)

  /** pagetype: PDX(page2pa(pp)) >= pdx_limit, with pdx_limit 1 */
  predicate IsHigh(f: nat) { f >= NENTRIES }

  /** The pages of s of one class, in their order in s. */
  function Keep(s: seq<nat>, high: bool): (r: seq<nat>)
    ensures forall f: nat :: f in r <==> f in s && IsHigh(f) == high
    ensures |r| <= |s|
  {
    if s == [] then []
    else if IsHigh(s[0]) == high then [s[0]] + Keep(s[1..], high)
    else Keep(s[1..], high)
  }

  lemma HighIs(f: nat)
    requires f < MAX_PAGES
    ensures IsHigh(f) <==> PDX(Page2Pa(f)) >= 1
  {
  }

  /** Keep leaves a page or drops it, whatever stands before and after, and so keeps the order. */
  lemma {:induction false} KeepConcat(s: seq<nat>, t: seq<nat>, high: bool)
    ensures Keep(s + t, high) == Keep(s, high) + Keep(t, high)
    ensures forall f: nat :: Keep([f], high) == if IsHigh(f) == high then [f] else []
  {
    forall f: nat ensures Keep([f], high) == if IsHigh(f) == high then [f] else [] {
      assert [f][1..] == [];
    }
    if s == [] {
      assert s + t == t;
    } else {
      assert (s + t)[1..] == s[1..] + t;
      KeepConcat(s[1..], t, high);
    }
  }

  lemma {:induction false} KeepSnoc(s: seq<nat>, f: nat, high: bool)
    ensures Keep(s + [f], high) == if IsHigh(f) == high then Keep(s, high) + [f] else Keep(s, high)
  {
    if s != [] {
      assert (s + [f])[1..] == s[1..] + [f];
      KeepSnoc(s[1..], f, high);
    }
  }

  /** s without repetition splits into two lists without repetition and with no page in common. */
  lemma {:induction false} KeepDistinct(s: seq<nat>)
    requires Distinct(s)
    ensures Distinct(Keep(s, false) + Keep(s, true))
  {
    KeepClassDistinct(s, false);
    KeepClassDistinct(s, true);
    var a, b := Keep(s, false), Keep(s, true);
    forall i, j | 0 <= i < j < |a + b| ensures (a + b)[i] != (a + b)[j] {
      if i < |a| <= j { assert a[i] in a && b[j - |a|] in b; }
    }
  }

  lemma {:induction false} KeepClassDistinct(s: seq<nat>, high: bool)
    requires Distinct(s)
    ensures Distinct(Keep(s, high))
  {
    if s != [] {
      KeepClassDistinct(s[1..], high);
      assert forall f :: f in Keep(s[1..], high) ==> f in s[1..];
      assert s[0] !in s[1..];
    }
  }

  // A list under construction

  /** ptr leads through the pages of s in order; the link of the last one is not yet set. */
  ghost predicate Open(s: seq<nat>, link: seq<int>, ptr: int) {
    s == [] || (ptr == s[0] && s[0] < |link| && (|s| > 1 ==> Open(s[1..], link, link[s[0]])))
  }

  function Tail(s: seq<nat>): Cell { if s == [] then Local else LinkOf(s[|s| - 1]) }

  lemma {:induction false} OpenFrame(s: seq<nat>, link: seq<int>, ptr: int, f: nat, x: int)
    requires Open(s, link, ptr) && f < |link| && (f in s ==> s[|s| - 1] == f) && Distinct(s)
    ensures Open(s, link[f := x], ptr)
  {
    if |s| > 1 {
      assert s[0] != s[|s| - 1];
      OpenFrame(s[1..], link, link[s[0]], f, x);
    }
  }

  /** Setting the last link makes the list one page longer ... */
  lemma {:induction false} OpenSnoc(s: seq<nat>, link: seq<int>, ptr: int, f: nat)
    requires s != [] && Open(s, link, ptr) && Distinct(s + [f]) && f < |link|
    ensures s[|s| - 1] < |link| && Open(s + [f], link[s[|s| - 1] := f], ptr)
  {
    assert (s + [f])[1..] == s[1..] + [f];
    assert Distinct(s[1..] + [f]) by {
      forall i, j | 0 <= i < j < |s[1..] + [f]| ensures (s[1..] + [f])[i] != (s[1..] + [f])[j] {
        assert (s[1..] + [f])[i] == (s + [f])[i + 1] && (s[1..] + [f])[j] == (s + [f])[j + 1];
      }
    }
    if |s| > 1 {
      OpenSnoc(s[1..], link, link[s[0]], f);
      assert (s + [f])[0] != (s + [f])[|s| - 1];
    }
  }

  /** ... or joins it to a finished one. */
  lemma {:induction false} OpenJoin(s: seq<nat>, t: seq<nat>, link: seq<int>, ptr: int)
    requires s != [] && Open(s, link, ptr)
    requires s[|s| - 1] < |link| && Follows(t, link, link[s[|s| - 1]])
    ensures Follows(s + t, link, ptr)
  {
    assert (s + t)[1..] == s[1..] + t;
    if |s| > 1 { OpenJoin(s[1..], t, link, link[s[0]]); }
  }

  /** The split is a stable partition of the list, still acyclic and NULL-terminated, whichever
      of the two classes is empty. */
  method Split(link: array<int>, head: int, ghost s: seq<nat>) returns (newHead: int)
    requires Chain(s, link[..], head)
    modifies link
    ensures Chain(Keep(s, false) + Keep(s, true), link[..], newHead)
  {
    var pp1: int, pp2: int := *, *;
    var tp0, tp1 := Local, Local;
    var pp := head;
    ghost var k := 0;
    ListInRange(s, link[..], head);
    assert s[0..] == s;
    while pp != NULL
      invariant k <= |s| && Follows(s[k..], link[..], pp)
      invariant Built(s, k, link[..], pp1, pp2, tp0, tp1)
      invariant forall f :: 0 <= f < link.Length && f !in s ==> link[f] == NULL
      decreases |s| - k
    {
      assert s[k..][0] == s[k] == pp;
      hide Open, Chain, Keep, Distinct, Built;
      Advance(s, k, link[..], pp1, pp2, tp0, tp1, pp);
      if IsHigh(pp) {
        if tp1.Local? { pp2 := pp; } else { link[tp1.f] := pp; }
        tp1 := LinkOf(pp);
      } else {
        if tp0.Local? { pp1 := pp; } else { link[tp0.f] := pp; }
        tp0 := LinkOf(pp);
      }
      pp := link[pp];
      k := k + 1;
    }
    Finish(s, link[..], pp1, pp2, tp0, tp1);
    if tp1.Local? { pp2 := NULL; } else { link[tp1.f] := NULL; }
    if tp0.Local? { pp1 := pp2; } else { link[tp0.f] := pp2; }
    newHead := pp1;
  }

  /** The first k pages of s have been sorted into the two lists under construction. */
  ghost predicate Built(s: seq<nat>, k: nat, link: seq<int>, pp1: int, pp2: int, tp0: Cell, tp1: Cell) {
    && k <= |s| && Distinct(s) && (forall f :: f in s ==> f < |link|)
    && Open(Keep(s[..k], false), link, pp1) && tp0 == Tail(Keep(s[..k], false))
    && Open(Keep(s[..k], true), link, pp2) && tp1 == Tail(Keep(s[..k], true))
  }

  function Put(link: seq<int>, c: Cell, x: int): (r: seq<int>)
    requires c.LinkOf? ==> c.f < |link|
    ensures |r| == |link|
    ensures forall f :: 0 <= f < |link| && !(c.LinkOf? && c.f == f) ==> r[f] == link[f]
  {
    match c case Local => link case LinkOf(f) => link[f := x]
  }

  lemma Advance(s: seq<nat>, k: nat, link: seq<int>, pp1: int, pp2: int, tp0: Cell, tp1: Cell, pp: nat)
    requires k < |s| && Built(s, k, link, pp1, pp2, tp0, tp1) && Follows(s[k..], link, pp)
    ensures var c := if IsHigh(pp) then tp1 else tp0;
      && pp < |link| && (c.LinkOf? ==> c.f < |link| && c.f != pp && c.f in s)
      && var link' := Put(link, c, pp);
      && Follows(s[k + 1..], link', link'[pp])
      && Built(s, k + 1, link', if !IsHigh(pp) && c == Local then pp else pp1,
               if IsHigh(pp) && c == Local then pp else pp2,
               if IsHigh(pp) then tp0 else LinkOf(pp), if IsHigh(pp) then LinkOf(pp) else tp1)
  {
    AdvanceParts(s, k, link, pp1, pp2, tp0, tp1, pp);
    var low, high := Keep(s[..k], false), Keep(s[..k], true);
    hide Open, Distinct, Follows, Keep, Put, Tail, Built;
    if IsHigh(pp) {
      Append(high, low, s[k + 1..], link, pp2, pp1, pp);
      BuiltOne(s, k, Put(link, tp1, pp), pp1, if tp1 == Local then pp else pp2, low, high + [pp]);
      TailEmpty(high);
    } else {
      Append(low, high, s[k + 1..], link, pp1, pp2, pp);
      BuiltOne(s, k, Put(link, tp0, pp), if tp0 == Local then pp else pp1, pp2, low + [pp], high);
      TailEmpty(low);
    }
  }

  lemma TailEmpty(s: seq<nat>)
    ensures Tail(s) == Local <==> s == []
  {
  }

  /** What there is before page pp, the one at k, is sorted in. */
  lemma AdvanceParts(s: seq<nat>, k: nat, link: seq<int>, pp1: int, pp2: int, tp0: Cell, tp1: Cell, pp: nat)
    requires k < |s| && Built(s, k, link, pp1, pp2, tp0, tp1) && Follows(s[k..], link, pp)
    ensures var low, high := Keep(s[..k], false), Keep(s[..k], true);
      && pp < |link| && Distinct(low) && Distinct(high) && Open(low, link, pp1) && Open(high, link, pp2)
      && tp0 == Tail(low) && tp1 == Tail(high) && Follows(s[k + 1..], link, link[pp])
      && (forall f :: f in low ==> f < |link| && f != pp && f in s && f !in high && f !in s[k + 1..])
      && (forall f :: f in high ==> f < |link| && f != pp && f in s && f !in low && f !in s[k + 1..])
      && Keep(s[..k + 1], true) == (if IsHigh(pp) then high + [pp] else high)
      && Keep(s[..k + 1], false) == (if IsHigh(pp) then low else low + [pp])
    ensures Distinct(s) && forall f :: f in s ==> f < |link|
  {
    assert s[k..][0] == s[k] && s[k..][1..] == s[k + 1..];
    assert s[..k + 1] == s[..k] + [s[k]];
    hide Open;
    KeepSnoc(s[..k], pp, true);
    KeepSnoc(s[..k], pp, false);
    PrefixFacts(s, k);
    KeepClassDistinct(s[..k], true);
    KeepClassDistinct(s[..k], false);
    hide Distinct, Keep;
  }

  lemma BuiltOne(s: seq<nat>, k: nat, link: seq<int>, pp1: int, pp2: int, low: seq<nat>, high: seq<nat>)
    requires k < |s| && Distinct(s) && (forall f :: f in s ==> f < |link|)
    requires low == Keep(s[..k + 1], false) && high == Keep(s[..k + 1], true)
    requires Open(low, link, pp1) && Open(high, link, pp2)
    ensures Built(s, k + 1, link, pp1, pp2, Tail(low), Tail(high))
  {
    hide Open, Distinct, Keep;
  }

  /** Page pp goes to the end of list a; list b and the rest of the walk do not notice. */
  lemma Append(a: seq<nat>, b: seq<nat>, rest: seq<nat>, link: seq<int>, pa: int, pb: int, pp: nat)
    requires Distinct(a) && Distinct(b) && Open(a, link, pa) && Open(b, link, pb) && pp < |link| && pp !in a
    requires Follows(rest, link, link[pp])
    requires forall f :: f in a ==> f < |link| && f !in b && f !in rest
    ensures Tail(a).LinkOf? ==> Tail(a).f < |link| && Tail(a).f in a
    ensures var link' := Put(link, Tail(a), pp);
      && Open(a + [pp], link', if a == [] then pp else pa) && Tail(a + [pp]) == LinkOf(pp)
      && Open(b, link', pb) && Follows(rest, link', link'[pp])
  {
    if a != [] {
      var f := a[|a| - 1];
      assert f in a;
      OpenSnoc(a, link, pa, pp);
      OpenFrame(b, link, pb, f, pp);
      FollowsFrame(rest, link, link[pp], f, pp);
    }
  }

  lemma PrefixFacts(s: seq<nat>, k: nat)
    requires k < |s| && Distinct(s)
    ensures Distinct(s[..k]) && s[k] !in s[..k]
    ensures forall f :: f in s[..k] ==> f in s && f !in s[k + 1..]
  {
  }

  lemma Finish(s: seq<nat>, link: seq<int>, pp1: int, pp2: int, tp0: Cell, tp1: Cell)
    requires Built(s, |s|, link, pp1, pp2, tp0, tp1)
    requires forall f :: 0 <= f < |link| && f !in s ==> link[f] == NULL
    ensures (tp1.LinkOf? ==> tp1.f < |link|) && (tp0.LinkOf? ==> tp0.f < |link|)
    ensures var link1 := Put(link, tp1, NULL);
      var second := if tp1.Local? then NULL else pp2;
      var link2 := Put(link1, tp0, second);
      Chain(Keep(s, false) + Keep(s, true), link2, if tp0.Local? then second else pp1)
  {
    var a, b := Keep(s, false), Keep(s, true);
    FinishParts(s, link, pp1, pp2, tp0, tp1);
    hide Open, Distinct, Follows, Keep, Put, Built, Tail, Chain;
    Close(a, b, link, pp1, pp2);
    var second := if b == [] then NULL else pp2;
    var link1 := Put(link, tp1, NULL);
    NullElsewhere(a + b, link, tp1, NULL);
    NullElsewhere(a + b, link1, tp0, second);
    ChainIs(a + b, Put(link1, tp0, second), if a == [] then second else pp1);
  }

  /** Setting the link of a page of s leaves the links of all others alone. */
  lemma NullElsewhere(s: seq<nat>, link: seq<int>, c: Cell, x: int)
    requires c.LinkOf? ==> c.f < |link| && c.f in s
    requires forall f :: 0 <= f < |link| && f !in s ==> link[f] == NULL
    ensures forall f :: 0 <= f < |link| && f !in s ==> Put(link, c, x)[f] == NULL
  {
    hide Put;
  }

  lemma ChainIs(s: seq<nat>, link: seq<int>, head: int)
    requires Distinct(s) && Follows(s, link, head) && forall f: nat :: f < |link| && f !in s ==> link[f] == NULL
    ensures Chain(s, link, head)
  {
    hide Distinct, Follows;
  }

  /** All of s is in the two lists. */
  lemma FinishParts(s: seq<nat>, link: seq<int>, pp1: int, pp2: int, tp0: Cell, tp1: Cell)
    requires Built(s, |s|, link, pp1, pp2, tp0, tp1)
    ensures var a, b := Keep(s, false), Keep(s, true);
      && Distinct(a) && Distinct(b) && Distinct(a + b) && Open(a, link, pp1) && Open(b, link, pp2)
      && tp0 == Tail(a) && tp1 == Tail(b) && (tp0.Local? <==> a == []) && (tp1.Local? <==> b == [])
      && (forall f :: f in a ==> f < |link| && f !in b) && (forall f :: f in b ==> f < |link|)
      && forall f :: f in s <==> f in a || f in b
  {
    assert s[..|s|] == s;
    hide Open;
    KeepDistinct(s);
    KeepClassDistinct(s, true);
    KeepClassDistinct(s, false);
    hide Distinct, Keep;
  }

  /** Terminating list b and joining it to the end of list a. */
  lemma Close(a: seq<nat>, b: seq<nat>, link: seq<int>, pa: int, pb: int)
    requires Distinct(a) && Distinct(b) && Open(a, link, pa) && Open(b, link, pb)
    requires (forall f :: f in a ==> f < |link| && f !in b) && forall f :: f in b ==> f < |link|
    ensures Tail(a).LinkOf? ==> Tail(a).f < |link| && Tail(a).f in a
    ensures Tail(b).LinkOf? ==> Tail(b).f < |link| && Tail(b).f in b
    ensures var second := if b == [] then NULL else pb;
      Follows(a + b, Put(Put(link, Tail(b), NULL), Tail(a), second), if a == [] then second else pa)
  {
    assert b != [] ==> b[|b| - 1] in b;
    var second := if b == [] then NULL else pb;
    var link1 := Put(link, Tail(b), NULL);
    Terminate(a, b, link, pa, pb);
    if a == [] {
      assert a + b == b;
    } else {
      var g := a[|a| - 1];
      assert g in a;
      hide Open, Follows;
      FollowsFrame(b, link1, second, g, second);
      OpenFrame(a, link1, pa, g, second);
      OpenJoin(a, b, link1[g := second], pa);
    }
  }

  lemma Terminate(a: seq<nat>, b: seq<nat>, link: seq<int>, pa: int, pb: int)
    requires Distinct(a) && Distinct(b) && Open(a, link, pa) && Open(b, link, pb)
    requires forall f :: f in b ==> f < |link| && f !in a
    ensures Tail(b).LinkOf? ==> Tail(b).f < |link| && Tail(b).f in b
    ensures var link1 := Put(link, Tail(b), NULL);
      Open(a, link1, pa) && Follows(b, link1, if b == [] then NULL else pb)
  {
    if b != [] {
      var f := b[|b| - 1];
      assert f in b;
      var link1 := link[f := NULL];
      OpenFrame(b, link, pb, f, NULL);
      OpenFrame(a, link, pa, f, NULL);
      OpenJoin(b, [], link1, pb);
      assert b + [] == b;
    }
  }

  /** The reordered list serves the page allocator as well as the old one. */
  lemma SplitKeepsInv(v: Vm, w: Vm)
    requires Inv(v) && Shape(w) && w == v.(link := w.link, head := w.head, free := w.free)
    requires w.free == Keep(v.free, false) + Keep(v.free, true) && Chain(w.free, w.link, w.head)
    ensures Inv(w)
  {
    hide Chain, Counts, Structure;
    CountsFrame(v, w);
    StructureFrame(v, w);
    assert forall f :: f in w.free <==> f in v.free;
  }
}
