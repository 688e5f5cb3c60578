/** kern/kdebug.c: the binary search over a table in which entries of the wanted type are mixed
    with others, and the three nested searches of debuginfo_eip. */
module Stabs {
  const WRAP := 0x1_0000_0000

  const N_FUN := 0x24
  const N_SLINE := 0x44
  const N_SO := 0x64
  const N_SOL := 0x84
  const N_PSYM := 0xA0

  type Addr = a: int | 0 <= a < 0x1_0000_0000

  datatype Stab = Stab(strx: nat, typ: int, desc: int, value: Addr)

  predicate IsType(s: seq<Stab>, i: int, typ: int) { 0 <= i < |s| && s[i].typ == typ }

  /** The backward step to a match: the last entry of the type in [l, m], or l - 1. */
  function StepBack(s: seq<Stab>, l: nat, m: int, typ: int): (k: int)
    requires l - 1 <= m < |s|
    ensures l - 1 <= k <= m
    ensures k >= l ==> s[k].typ == typ
    ensures forall i :: k < i <= m ==> s[i].typ != typ
    decreases m - l
  {
    if m >= l && s[m].typ != typ then StepBack(s, l, m - 1, typ) else m
  }

  /** The loop's variables: its own bounds and key, and what it has stored for the caller. */
  datatype Search = Search(l: int, r: int, addr: Addr, left: int, any: bool)

  /** addr++ */
  function NextKey(a: Addr): Addr { if a + 1 == WRAP then 0 else a + 1 }

  /** One turn of the loop. *region_right always equals r, so r stands for both. */
  function Turn(s: seq<Stab>, q: Search, typ: int): (q': Search)
    requires 0 <= q.l <= q.r < |s|
    ensures q.l <= q'.l && q'.r <= q.r
  {
    var mid := (q.l + q.r) / 2;
    var m := StepBack(s, q.l, mid, typ);
    if m < q.l then q.(l := mid + 1)
    else if s[m].value < q.addr then q.(l := mid + 1, left := m, any := true)
    else if s[m].value > q.addr then q.(r := m - 1, any := true)
    else q.(l := m, left := m, addr := NextKey(q.addr), any := true)
  }

  /** 1 when the next turn finds the key exactly and so may leave both bounds where they are. */
  function Hit(s: seq<Stab>, q: Search, typ: int): nat {
    if 0 <= q.l <= q.r < |s| && StepBack(s, q.l, (q.l + q.r) / 2, typ) >= q.l
       && s[StepBack(s, q.l, (q.l + q.r) / 2, typ)].value == q.addr
    then 1 else 0
  }

  /** The whole loop. It ends for every table, sorted or not. */
  function Loop(s: seq<Stab>, q: Search, typ: int): (q': Search)
    requires 0 <= q.l && q.r < |s|
    ensures q.l <= q'.l && q'.r <= q.r && q'.l > q'.r
    ensures 0 <= q.left ==> 0 <= q'.left
    decreases q.r - q.l + 1, Hit(s, q, typ)
  {
    if q.l > q.r then q else Loop(s, Turn(s, q, typ), typ)
  }

  /** A turn narrows the range, or leaves it with a key that no longer hits. */
  lemma LoopTurn(s: seq<Stab>, q: Search, typ: int)
    requires 0 <= q.l <= q.r < |s|
    ensures var q' := Turn(s, q, typ);
      && Loop(s, q, typ) == Loop(s, q', typ)
      && (q'.r - q'.l < q.r - q.l || (q'.r - q'.l == q.r - q.l && Hit(s, q', typ) < Hit(s, q, typ)))
  {
  }

  /** The final scan for the rightmost match above left. */
  function ScanDown(s: seq<Stab>, l: int, left: int, typ: int): (k: int)
    requires l < |s| && 0 <= left
    ensures k == l || left <= k < l
    ensures k > left ==> s[k].typ == typ
    ensures forall i :: left < i <= l && k < i ==> s[i].typ != typ
    decreases l - left
  {
    if l > left && s[l].typ != typ then ScanDown(s, l - 1, left, typ) else l
  }

  /** Nothing is stored or read below lo. */
  lemma {:induction false} LoopBounds(s: seq<Stab>, q: Search, typ: int, lo: nat)
    requires lo <= q.l && q.r < |s| && lo <= q.left
    ensures var q' := Loop(s, q, typ); lo <= q'.left && (q.left < |s| ==> q'.left < |s|)
    ensures lo <= q.r + 1 ==> lo - 1 <= Loop(s, q, typ).r
    ensures !Loop(s, q, typ).any ==> !q.any && Loop(s, q, typ).left == q.left
    decreases q.r - q.l + 1, Hit(s, q, typ)
  {
    if q.l <= q.r {
      LoopTurn(s, q, typ);
      hide Loop, Hit;
      LoopBounds(s, Turn(s, q, typ), typ, lo);
    }
  }

  /** stab_binsearch: the values left in *region_left and *region_right. */
  function BinSearch(s: seq<Stab>, left: nat, right: int, typ: int, addr: Addr): (result: (int, int))
    requires right < |s|
    ensures left <= right + 1 && left < |s| ==>
      left - 1 <= result.0 < |s| && left - 1 <= result.1 <= right && result.0 <= result.1 + 1
  {
    LoopBounds(s, Search(left, right, addr, left, false), typ, left);
    var q := Loop(s, Search(left, right, addr, left, false), typ);
    if !q.any then (q.left, q.left - 1) else (ScanDown(s, q.r, q.left, typ), q.r)
  }

  /** The two tables agree on entries lo to hi. */
  ghost predicate Agree(s: seq<Stab>, t: seq<Stab>, lo: nat, hi: int) {
    hi < |s| && hi < |t| && forall i :: lo <= i <= hi ==> s[i] == t[i]
  }

  /** stab_binsearch looks at no entry outside the initial range: its answer is the same for every
      table that agrees there, sorted or not. */
  lemma SearchIsLocal(s: seq<Stab>, t: seq<Stab>, left: nat, right: int, typ: int, addr: Addr)
    requires Agree(s, t, left, right)
    ensures BinSearch(s, left, right, typ, addr) == BinSearch(t, left, right, typ, addr)
  {
    var q0 := Search(left, right, addr, left, false);
    LoopLocal(s, t, q0, typ, left, right);
    var q := Loop(s, q0, typ);
    LoopBounds(s, q0, typ, left);
    hide Loop;
    if q.any { ScanLocal(s, t, q.r, q.left, typ, left, right); }
  }

  lemma {:induction false} StepBackLocal(s: seq<Stab>, t: seq<Stab>, l: nat, m: int, typ: int, lo: nat, hi: int)
    requires Agree(s, t, lo, hi) && lo <= l && l - 1 <= m <= hi
    ensures StepBack(s, l, m, typ) == StepBack(t, l, m, typ)
    decreases m - l
  {
    if m >= l && s[m].typ != typ { StepBackLocal(s, t, l, m - 1, typ, lo, hi); }
  }

  lemma {:induction false} ScanLocal(s: seq<Stab>, t: seq<Stab>, l: int, left: nat, typ: int, lo: nat, hi: int)
    requires Agree(s, t, lo, hi) && lo <= left && l <= hi
    ensures ScanDown(s, l, left, typ) == ScanDown(t, l, left, typ)
    decreases l - left
  {
    if l > left && s[l].typ != typ { ScanLocal(s, t, l - 1, left, typ, lo, hi); }
  }

  lemma {:induction false} LoopLocal(s: seq<Stab>, t: seq<Stab>, q: Search, typ: int, lo: nat, hi: int)
    requires Agree(s, t, lo, hi) && lo <= q.l && q.r <= hi
    ensures Loop(s, q, typ) == Loop(t, q, typ)
    decreases q.r - q.l + 1, Hit(s, q, typ)
  {
    if q.l <= q.r {
      TurnLocal(s, t, q, typ, lo, hi);
      LoopTurn(s, q, typ);
      LoopTurn(t, q, typ);
      hide *;
      LoopLocal(s, t, Turn(s, q, typ), typ, lo, hi);
    }
  }

  lemma TurnLocal(s: seq<Stab>, t: seq<Stab>, q: Search, typ: int, lo: nat, hi: int)
    requires Agree(s, t, lo, hi) && lo <= q.l <= q.r <= hi
    ensures Turn(s, q, typ) == Turn(t, q, typ)
    ensures lo <= Turn(s, q, typ).l && Turn(s, q, typ).r <= hi
  {
    StepBackLocal(s, t, q.l, (q.l + q.r) / 2, typ, lo, hi);
  }

  method StabBinsearch(s: seq<Stab>, left: nat, right: int, typ: int, key: Addr)
    returns (regionLeft: int, regionRight: int)
    requires right < |s|
    ensures (regionLeft, regionRight) == BinSearch(s, left, right, typ, key)
  {
    var l: int, r: int, addr: Addr, anyMatches := left, right, key, false;
    regionLeft := left;
    while l <= r
      invariant left <= l && r <= right && 0 <= regionLeft
      invariant Loop(s, Search(l, r, addr, regionLeft, anyMatches), typ)
             == Loop(s, Search(left, right, key, left, false), typ)
      decreases r - l + 1, Hit(s, Search(l, r, addr, regionLeft, anyMatches), typ)
    {
      LoopTurn(s, Search(l, r, addr, regionLeft, anyMatches), typ);
      hide Loop, Hit;
      l, r, addr, regionLeft, anyMatches := OneTurn(s, l, r, addr, regionLeft, anyMatches, typ);
    }
    regionRight := r;
    if !anyMatches {
      regionRight := regionLeft - 1;
    } else {
      regionLeft := RightmostMatch(s, regionRight, regionLeft, typ);
    }
  }

  /** The body of the loop: step back to a match, then compare. */
  method OneTurn(s: seq<Stab>, l: nat, r: int, addr: Addr, left: int, any: bool, typ: int)
    returns (l': int, r': int, addr': Addr, left': int, any': bool)
    requires l <= r < |s|
    ensures Search(l', r', addr', left', any') == Turn(s, Search(l, r, addr, left, any), typ)
    ensures l <= l' && r' <= r && (0 <= left ==> 0 <= left')
  {
    l', r', addr', left', any' := l, r, addr, left, any;
    var trueM := (l + r) / 2;
    var m := SearchBack(s, l, trueM, typ);
    if m < l {
      l' := trueM + 1;
      return;
    }
    any' := true;
    if s[m].value < addr {
      left' := m;
      l' := trueM + 1;
    } else if s[m].value > addr {
      r' := m - 1;
    } else {
      left' := m;
      l' := m;
      addr' := NextKey(addr);
    }
  }

  /** The inner loop: back to an entry of the type. */
  method SearchBack(s: seq<Stab>, l: nat, trueM: int, typ: int) returns (m: int)
    requires l - 1 <= trueM < |s|
    ensures m == StepBack(s, l, trueM, typ)
  {
    m := trueM;
    while m >= l && s[m].typ != typ
      invariant l - 1 <= m <= trueM && StepBack(s, l, m, typ) == StepBack(s, l, trueM, typ)
    {
      m := m - 1;
    }
  }

  /** The last loop: the rightmost match in (left, right], or left. */
  method RightmostMatch(s: seq<Stab>, right: int, left: int, typ: int) returns (l: int)
    requires right < |s| && 0 <= left
    ensures l == ScanDown(s, right, left, typ)
  {
    l := right;
    while l > left && s[l].typ != typ
      invariant l <= right && ScanDown(s, l, left, typ) == ScanDown(s, right, left, typ)
    {
      l := l - 1;
    }
  }

  // The linear scan it replaces

  /** The last entry of the type in [l, r] whose value is at most a, or l - 1. */
  function LastAtMost(s: seq<Stab>, l: nat, r: int, typ: int, a: Addr): (k: int)
    requires l - 1 <= r < |s|
    ensures l - 1 <= k <= r && (k >= l ==> IsType(s, k, typ) && s[k].value <= a)
    ensures forall i :: k < i <= r && IsType(s, i, typ) ==> s[i].value > a
    decreases r - l
  {
    if r < l || (s[r].typ == typ && s[r].value <= a) then r else LastAtMost(s, l, r - 1, typ, a)
  }

  /** The first entry of the type in [l, r], or r + 1. */
  function FirstOf(s: seq<Stab>, l: nat, r: int, typ: int): (k: int)
    requires l <= r + 1 <= |s|
    ensures l <= k <= r + 1 && (k <= r ==> IsType(s, k, typ))
    ensures forall i :: l <= i < k ==> !IsType(s, i, typ)
    decreases r - l
  {
    if l > r || s[l].typ == typ then l else FirstOf(s, l + 1, r, typ)
  }

  /** The answer of a linear scan: the containing entry and the end of its region; without an
      entry of the type, an empty region; with only later entries, what precedes the first. */
  function LinearSearch(s: seq<Stab>, l: nat, r: int, typ: int, a: Addr): (int, int)
    requires l <= r + 1 <= |s|
  {
    var best := LastAtMost(s, l, r, typ, a);
    var first := FirstOf(s, l, r, typ);
    if first > r then (l, l - 1)
    else if best < l then (if first - 1 < l then first - 1 else l, first - 1)
    else (best, FirstOf(s, best + 1, r, typ) - 1)
  }

  /** The entries of the type in [l, r] are in order of value. */
  ghost predicate Sorted(s: seq<Stab>, l: int, r: int, typ: int) {
    forall i, j :: l <= i < j <= r && IsType(s, i, typ) && IsType(s, j, typ) ==> s[i].value <= s[j].value
  }

  /** Some entry of the type in [l, r] has value a. */
  predicate Occurs(s: seq<Stab>, l: int, r: int, typ: int, a: int) {
    exists i :: l <= i <= r && IsType(s, i, typ) && s[i].value == a
  }

  /** The loop's variables when it first finds the key exactly, or when it ends without. */
  function FirstHit(s: seq<Stab>, q: Search, typ: int): (h: Search)
    requires 0 <= q.l && q.r < |s|
    ensures q.l <= h.l && h.r <= q.r
    decreases q.r - q.l + 1
  {
    if q.l > q.r || Hit(s, q, typ) == 1 then q else FirstHit(s, Turn(s, q, typ), typ)
  }

  /** The exact-hit branch moves the key to a + 1 (to 0 from the top address), so no entry in the
      window then left may have that value. */
  predicate KeyKept(s: seq<Stab>, l: nat, r: int, typ: int, a: Addr)
    requires r < |s|
  {
    var h := FirstHit(s, Search(l, r, a, l, false), typ);
    h.l > h.r || KeyFree(s, h, typ, a)
  }

  predicate KeyFree(s: seq<Stab>, q: Search, typ: int, a: Addr) {
    a + 1 < WRAP && !Occurs(s, q.l, q.r, typ, a + 1)
  }

  /** What holds of the loop's variables after any number of turns. */
  ghost predicate Bracket(s: seq<Stab>, l: nat, r: int, typ: int, a: Addr, q: Search) {
    && l <= q.l <= q.r + 1 && q.r <= r < |s|
    && (q.addr == a || (q.addr == a + 1 && !Occurs(s, q.l, q.r, typ, a + 1)))
    && (forall i :: l <= i < q.l && IsType(s, i, typ) ==> s[i].value <= a)
    && (forall i :: q.r < i <= r && IsType(s, i, typ) ==> s[i].value > a)
    && (q.r == r || IsType(s, q.r + 1, typ))
    && (q.left == l || (l <= q.left <= r && IsType(s, q.left, typ) && s[q.left].value <= a))
    && (!q.any ==> q.r == r && q.left == l && forall i :: l <= i < q.l ==> !IsType(s, i, typ))
    && (q.any ==> q.r < r || (l <= q.left <= r && IsType(s, q.left, typ)))
  }

  lemma TurnBrackets(s: seq<Stab>, l: nat, r: int, typ: int, a: Addr, q: Search)
    requires Sorted(s, l, r, typ) && Bracket(s, l, r, typ, a, q) && q.l <= q.r
    requires q.addr == a && Hit(s, q, typ) == 1 ==> KeyFree(s, q, typ, a)
    ensures Bracket(s, l, r, typ, a, Turn(s, q, typ))
  {
    BracketBounds(s, l, r, typ, a, q);
    hide *;
    TurnIs(s, q, typ);
    var mid := (q.l + q.r) / 2;
    StepBackTypes(s, q.l, mid, typ);
    TurnBracketsAt(s, l, r, typ, a, q, mid, StepBack(s, q.l, mid, typ), Turn(s, q, typ));
  }

  lemma TurnBracketsAt(s: seq<Stab>, l: nat, r: int, typ: int, a: Addr, q: Search, mid: int, m: int, q': Search)
    requires Sorted(s, l, r, typ) && Bracket(s, l, r, typ, a, q)
    requires l <= q.l <= mid <= q.r <= r < |s| && m <= mid
    requires q.addr == a && m >= q.l && s[m].value == a ==> KeyFree(s, q, typ, a)
    requires (m >= q.l ==> IsType(s, m, typ)) && forall i :: m < i <= mid ==> !IsType(s, i, typ)
    requires q' ==
      if m < q.l then q.(l := mid + 1)
      else if s[m].value < q.addr then q.(l := mid + 1, left := m, any := true)
      else if s[m].value > q.addr then q.(r := m - 1, any := true)
      else q.(l := m, left := m, addr := NextKey(q.addr), any := true)
    ensures Bracket(s, l, r, typ, a, q')
  {
    hide *;
    if m >= q.l {
      Around(s, l, r, typ, m);
      TurnAtMatch(s, l, r, typ, a, q, mid, m);
    } else {
      TurnNoMatch(s, l, r, typ, a, q, mid);
    }
  }

  lemma StepBackTypes(s: seq<Stab>, l: nat, mid: int, typ: int)
    requires l - 1 <= mid < |s|
    ensures var m := StepBack(s, l, mid, typ);
      && (m >= l ==> IsType(s, m, typ)) && forall i :: m < i <= mid ==> !IsType(s, i, typ)
  {
  }

  lemma TurnIs(s: seq<Stab>, q: Search, typ: int)
    requires 0 <= q.l <= q.r < |s|
    ensures var mid := (q.l + q.r) / 2;
      && q.l <= mid <= q.r
      && var m := StepBack(s, q.l, mid, typ);
      m <= mid && Turn(s, q, typ) ==
        if m < q.l then q.(l := mid + 1)
        else if s[m].value < q.addr then q.(l := mid + 1, left := m, any := true)
        else if s[m].value > q.addr then q.(r := m - 1, any := true)
        else q.(l := m, left := m, addr := NextKey(q.addr), any := true)
    ensures var m := StepBack(s, q.l, (q.l + q.r) / 2, typ);
      Hit(s, q, typ) == if m >= q.l && s[m].value == q.addr then 1 else 0
  {
  }

  lemma BracketBounds(s: seq<Stab>, l: nat, r: int, typ: int, a: Addr, q: Search)
    requires Bracket(s, l, r, typ, a, q)
    ensures l <= q.l && q.r <= r < |s|
  {
  }

  lemma OccursLess(s: seq<Stab>, l: int, r: int, typ: int, a: int)
    requires !Occurs(s, l, r, typ, a)
    ensures forall l', r' :: l <= l' && r' <= r ==> !Occurs(s, l', r', typ, a)
  {
  }

  lemma TurnNoMatch(s: seq<Stab>, l: nat, r: int, typ: int, a: Addr, q: Search, mid: int)
    requires Bracket(s, l, r, typ, a, q) && q.l <= mid <= q.r && forall i :: q.l <= i <= mid ==> !IsType(s, i, typ)
    ensures Bracket(s, l, r, typ, a, q.(l := mid + 1))
  {
    if q.addr != a { OccursLess(s, q.l, q.r, typ, a + 1); }
    hide Occurs;
  }

  /** Sortedness around one entry. */
  lemma Around(s: seq<Stab>, l: nat, r: int, typ: int, m: int)
    requires Sorted(s, l, r, typ) && l <= m <= r && IsType(s, m, typ)
    ensures forall i :: l <= i < m && IsType(s, i, typ) ==> s[i].value <= s[m].value
    ensures forall i :: m < i <= r && IsType(s, i, typ) ==> s[m].value <= s[i].value
  {
  }

  lemma TurnAtMatch(s: seq<Stab>, l: nat, r: int, typ: int, a: Addr, q: Search, mid: int, m: int)
    requires Bracket(s, l, r, typ, a, q) && q.l <= m <= mid <= q.r && IsType(s, m, typ)
    requires q.addr == a && s[m].value == a ==> KeyFree(s, q, typ, a)
    requires forall i :: l <= i < m && IsType(s, i, typ) ==> s[i].value <= s[m].value
    requires forall i :: m < i <= r && IsType(s, i, typ) ==> s[m].value <= s[i].value
    requires forall i :: m < i <= mid ==> !IsType(s, i, typ)
    ensures s[m].value < q.addr ==> Bracket(s, l, r, typ, a, q.(l := mid + 1, left := m, any := true))
    ensures s[m].value > q.addr ==> Bracket(s, l, r, typ, a, q.(r := m - 1, any := true))
    ensures s[m].value == q.addr
      ==> Bracket(s, l, r, typ, a, q.(l := m, left := m, addr := NextKey(q.addr), any := true))
  {
    assert s[m].value == a + 1 ==> Occurs(s, q.l, q.r, typ, a + 1);
    if !Occurs(s, q.l, q.r, typ, a + 1) { OccursLess(s, q.l, q.r, typ, a + 1); }
    hide Occurs;
    if s[m].value < q.addr {
      assert s[m].value <= a;
    } else if s[m].value > q.addr {
      assert s[m].value > a;
    }
  }

  lemma {:induction false} LoopBrackets(s: seq<Stab>, l: nat, r: int, typ: int, a: Addr, q: Search)
    requires Sorted(s, l, r, typ) && Bracket(s, l, r, typ, a, q) && 0 <= q.l && q.r < |s|
    requires q.addr == a ==> var h := FirstHit(s, q, typ); h.l > h.r || KeyFree(s, h, typ, a)
    ensures Bracket(s, l, r, typ, a, Loop(s, q, typ))
    decreases q.r - q.l + 1, Hit(s, q, typ)
  {
    if q.l <= q.r {
      BracketBounds(s, l, r, typ, a, q);
      LoopTurn(s, q, typ);
      FirstHitStep(s, q, typ);
      hide *;
      TurnBrackets(s, l, r, typ, a, q);
      LoopBrackets(s, l, r, typ, a, Turn(s, q, typ));
    }
  }

  lemma FirstHitStep(s: seq<Stab>, q: Search, typ: int)
    requires 0 <= q.l <= q.r < |s|
    ensures Hit(s, q, typ) == 1 || Hit(s, q, typ) == 0
    ensures Hit(s, q, typ) == 1 ==> FirstHit(s, q, typ) == q && Turn(s, q, typ).addr == NextKey(q.addr) != q.addr
    ensures Hit(s, q, typ) == 0 ==>
      var q' := Turn(s, q, typ);
      0 <= q'.l && q'.r < |s| && q'.addr == q.addr && FirstHit(s, q, typ) == FirstHit(s, q', typ)
  {
  }

  /** stab_binsearch gives the answer of the linear scan if the moved key meets no entry. */
  lemma BinSearchIsLinear(s: seq<Stab>, l: nat, r: int, typ: int, a: Addr)
    requires l <= r + 1 <= |s| && Sorted(s, l, r, typ) && KeyKept(s, l, r, typ, a)
    ensures BinSearch(s, l, r, typ, a) == LinearSearch(s, l, r, typ, a)
  {
    var q0 := Search(l, r, a, l, false);
    LoopBrackets(s, l, r, typ, a, q0);
    var q := Loop(s, q0, typ);
    hide Loop, Sorted, KeyKept, Occurs, FirstHit;
    if q.any { LastIsScan(s, l, r, typ, a, q); } else { assert FirstOf(s, l, r, typ) > r; }
  }

  lemma LastIsScan(s: seq<Stab>, l: nat, r: int, typ: int, a: Addr, q: Search)
    requires l <= r + 1 <= |s| && Bracket(s, l, r, typ, a, q) && q.l > q.r && q.any
    ensures (ScanDown(s, q.r, q.left, typ), q.r) == LinearSearch(s, l, r, typ, a)
  {
    hide Occurs;
    var best, first := LastAtMost(s, l, r, typ, a), FirstOf(s, l, r, typ);
    var k := ScanDown(s, q.r, q.left, typ);
    assert q.r < r ==> IsType(s, q.r + 1, typ) && s[q.r + 1].value > a;
    if best >= l {
      assert best <= q.r;
      assert FirstOf(s, best + 1, r, typ) == q.r + 1;
    } else {
      assert first == q.r + 1;
    }
  }

  // When the moved key does meet an entry

  /** The window still holds entry j with the value the key moved to ... */
  ghost predicate Ahead(s: seq<Stab>, r: int, typ: int, a: Addr, q: Search, j: int) {
    && 0 <= q.l <= j <= q.r <= r < |s| && 0 <= q.left && q.any && q.addr == a + 1
    && IsType(s, j, typ) && s[j].value == a + 1
  }

  /** ... or the search has passed such an entry j and stays behind it, the key having moved on,
      possibly past the top address to 0. */
  ghost predicate Passed(s: seq<Stab>, r: int, typ: int, a: Addr, q: Search, j: int) {
    && 0 <= j <= q.left <= q.l && j <= q.r <= r < |s| && q.any
    && (q.addr > a + 1 || (q.addr == 0 && j < q.left))
    && IsType(s, j, typ) && s[j].value == a + 1
  }

  lemma TurnAhead(s: seq<Stab>, l: nat, r: int, typ: int, a: Addr, q: Search, j: int)
    requires Sorted(s, l, r, typ) && l <= q.l && a + 2 < WRAP && Ahead(s, r, typ, a, q, j)
    ensures l <= Turn(s, q, typ).l
    ensures Ahead(s, r, typ, a, Turn(s, q, typ), j) || exists k :: k >= l && Passed(s, r, typ, a, Turn(s, q, typ), k)
  {
    TurnIs(s, q, typ);
    var mid := (q.l + q.r) / 2;
    var m := StepBack(s, q.l, mid, typ);
    StepBackTypes(s, q.l, mid, typ);
    if m >= q.l {
      Around(s, l, r, typ, m);
      if s[m].value == q.addr { assert Passed(s, r, typ, a, Turn(s, q, typ), m); }
    }
  }

  lemma TurnPassed(s: seq<Stab>, l: nat, r: int, typ: int, a: Addr, q: Search, j: int)
    requires Sorted(s, l, r, typ) && l <= j && q.l <= q.r && a + 2 < WRAP && Passed(s, r, typ, a, q, j)
    ensures Passed(s, r, typ, a, Turn(s, q, typ), j) && l <= Turn(s, q, typ).l
  {
    TurnIs(s, q, typ);
    var mid := (q.l + q.r) / 2;
    var m := StepBack(s, q.l, mid, typ);
    StepBackTypes(s, q.l, mid, typ);
    if m >= q.l { Around(s, l, r, typ, j); }
  }

  lemma {:induction false} LoopPasses(s: seq<Stab>, l: nat, r: int, typ: int, a: Addr, q: Search, j: int)
    returns (k: int)
    requires Sorted(s, l, r, typ) && l <= q.l && a + 2 < WRAP && 0 <= q.l && q.r < |s|
    requires Ahead(s, r, typ, a, q, j) || (l <= j && Passed(s, r, typ, a, q, j))
    ensures l <= k && Passed(s, r, typ, a, Loop(s, q, typ), k)
    decreases q.r - q.l + 1, Hit(s, q, typ)
  {
    if q.l > q.r {
      k := j;
    } else {
      LoopTurn(s, q, typ);
      k := j;
      if Ahead(s, r, typ, a, q, j) {
        TurnAhead(s, l, r, typ, a, q, j);
        if !Ahead(s, r, typ, a, Turn(s, q, typ), j) { k :| k >= l && Passed(s, r, typ, a, Turn(s, q, typ), k); }
      } else {
        TurnPassed(s, l, r, typ, a, q, j);
      }
      TurnInside(s, q, typ);
      hide *;
      k := LoopPasses(s, l, r, typ, a, Turn(s, q, typ), k);
    }
  }

  lemma TurnInside(s: seq<Stab>, q: Search, typ: int)
    requires 0 <= q.l <= q.r < |s|
    ensures q.l <= Turn(s, q, typ).l && Turn(s, q, typ).r <= q.r
  {
  }

  /** The key has wrapped from the top address to 0: every further match is above it. */
  ghost predicate Wrapped(s: seq<Stab>, r: int, typ: int, q: Search) {
    && 0 <= q.l == q.left <= q.r + 1 && q.r <= r < |s| && q.l < |s| && q.any && q.addr == 0
    && IsType(s, q.l, typ) && s[q.l].value == WRAP - 1
  }

  lemma {:induction false} LoopWraps(s: seq<Stab>, l: nat, r: int, typ: int, q: Search)
    requires Sorted(s, l, r, typ) && l <= q.l && q.r < |s| && Wrapped(s, r, typ, q)
    ensures Loop(s, q, typ).r == q.l - 1 && Loop(s, q, typ).left == q.l && Loop(s, q, typ).any
    decreases q.r - q.l + 1, Hit(s, q, typ)
  {
    if q.l <= q.r {
      LoopTurn(s, q, typ);
      TurnWrapped(s, l, r, typ, q);
      hide *;
      LoopWraps(s, l, r, typ, Turn(s, q, typ));
    }
  }

  lemma TurnWrapped(s: seq<Stab>, l: nat, r: int, typ: int, q: Search)
    requires Sorted(s, l, r, typ) && l <= q.l <= q.r && Wrapped(s, r, typ, q)
    ensures Wrapped(s, r, typ, Turn(s, q, typ)) && Turn(s, q, typ).l == q.l
  {
    TurnIs(s, q, typ);
    StepBackTypes(s, q.l, (q.l + q.r) / 2, typ);
    Around(s, l, r, typ, q.l);
  }

  /** The first exact hit is part of the run. */
  lemma {:induction false} FirstHitReached(s: seq<Stab>, l: nat, r: int, typ: int, a: Addr, q: Search)
    requires Sorted(s, l, r, typ) && Bracket(s, l, r, typ, a, q) && q.addr == a && 0 <= q.l && q.r < |s|
    ensures var h := FirstHit(s, q, typ);
      && Bracket(s, l, r, typ, a, h) && h.addr == a && 0 <= h.l && h.r < |s|
      && Loop(s, h, typ) == Loop(s, q, typ) && (h.l <= h.r ==> Hit(s, h, typ) == 1)
    decreases q.r - q.l + 1, Hit(s, q, typ)
  {
    if q.l <= q.r && Hit(s, q, typ) == 0 {
      BracketBounds(s, l, r, typ, a, q);
      LoopTurn(s, q, typ);
      FirstHitStep(s, q, typ);
      hide *;
      TurnBrackets(s, l, r, typ, a, q);
      FirstHitReached(s, l, r, typ, a, Turn(s, q, typ));
    } else if q.l <= q.r {
      FirstHitStep(s, q, typ);
    }
  }

  /** After a first hit whose window still holds the moved key the result is another entry, or none. */
  lemma HitMisleads(s: seq<Stab>, l: nat, r: int, typ: int, a: Addr, h: Search)
    requires Sorted(s, l, r, typ) && Bracket(s, l, r, typ, a, h) && 0 <= h.l <= h.r < |s| && h.addr == a
    requires Hit(s, h, typ) == 1 && !KeyFree(s, h, typ, a) && a != WRAP - 2
    ensures var q := Loop(s, h, typ);
      && q.any && 0 <= q.left && q.r < |s| && LastAtMost(s, l, r, typ, a) >= l
      && ScanDown(s, q.r, q.left, typ) != LastAtMost(s, l, r, typ, a)
  {
    BracketBounds(s, l, r, typ, a, h);
    if a + 1 == WRAP {
      var m := StepBack(s, h.l, (h.l + h.r) / 2, typ);
      WrapEnds(s, l, r, typ, h, m);
      ScanNone(s, m, typ);
      hide Loop, Hit, StepBack, Bracket;
      HitIsBelow(s, l, r, typ, a, m);
    } else {
      HitPasses(s, l, r, typ, a, h);
    }
  }

  lemma HitPasses(s: seq<Stab>, l: nat, r: int, typ: int, a: Addr, h: Search)
    requires Sorted(s, l, r, typ) && Bracket(s, l, r, typ, a, h) && 0 <= h.l <= h.r < |s| && h.addr == a
    requires Hit(s, h, typ) == 1 && !KeyFree(s, h, typ, a) && a + 2 < WRAP
    ensures var q := Loop(s, h, typ);
      && q.any && 0 <= q.left && q.r < |s| && LastAtMost(s, l, r, typ, a) >= l
      && ScanDown(s, q.r, q.left, typ) > LastAtMost(s, l, r, typ, a)
  {
    BracketBounds(s, l, r, typ, a, h);
    TurnIs(s, h, typ);
    LoopTurn(s, h, typ);
    StepBackTypes(s, h.l, (h.l + h.r) / 2, typ);
    var m := StepBack(s, h.l, (h.l + h.r) / 2, typ);
    var q1 := Turn(s, h, typ);
    hide Loop, Hit, Turn, StepBack, Bracket;
    HitIsBelow(s, l, r, typ, a, m);
    var j :| h.l <= j <= h.r && IsType(s, j, typ) && s[j].value == a + 1;
    Around(s, l, r, typ, j);
    var k := LoopPasses(s, l, r, typ, a, q1, j);
    PassedMisses(s, l, r, typ, a, Loop(s, q1, typ), k);
  }

  lemma HitIsBelow(s: seq<Stab>, l: nat, r: int, typ: int, a: Addr, m: int)
    requires l <= m <= r < |s| && IsType(s, m, typ) && s[m].value == a
    ensures m <= LastAtMost(s, l, r, typ, a)
  {
  }

  lemma PassedMisses(s: seq<Stab>, l: nat, r: int, typ: int, a: Addr, q: Search, k: int)
    requires Sorted(s, l, r, typ) && l <= k && Passed(s, r, typ, a, q, k)
    ensures ScanDown(s, q.r, q.left, typ) > LastAtMost(s, l, r, typ, a)
  {
    Around(s, l, r, typ, k);
  }

  /** A turn that does not hit keeps the entry with the moved key in the window. */
  lemma TurnStaysAhead(s: seq<Stab>, l: nat, r: int, typ: int, a: Addr, q: Search, j: int)
    requires Sorted(s, l, r, typ) && l <= q.l && Ahead(s, r, typ, a, q, j) && Hit(s, q, typ) == 0
    ensures Ahead(s, r, typ, a, Turn(s, q, typ), j)
  {
    TurnIs(s, q, typ);
    var mid := (q.l + q.r) / 2;
    var m := StepBack(s, q.l, mid, typ);
    StepBackTypes(s, q.l, mid, typ);
    if m >= q.l { Around(s, l, r, typ, m); }
  }

  /** So the search comes to hit an entry with the moved key. */
  lemma {:induction false} AheadHits(s: seq<Stab>, l: nat, r: int, typ: int, a: Addr, q: Search, j: int)
    requires Sorted(s, l, r, typ) && l <= q.l && q.r < |s| && Ahead(s, r, typ, a, q, j)
    ensures var g := FirstHit(s, q, typ);
      && q.l <= g.l <= g.r <= r && g.any && g.addr == a + 1 && Hit(s, g, typ) == 1 && Loop(s, g, typ) == Loop(s, q, typ)
    decreases q.r - q.l + 1
  {
    LoopTurn(s, q, typ);
    FirstHitStep(s, q, typ);
    if Hit(s, q, typ) == 0 {
      TurnStaysAhead(s, l, r, typ, a, q, j);
      hide Loop, Hit, FirstHit, Sorted;
      AheadHits(s, l, r, typ, a, Turn(s, q, typ), j);
    }
  }

  /** The entry the search hits from q on. */
  function HitAt(s: seq<Stab>, q: Search, typ: int): int
    requires 0 <= q.l && q.r < |s|
  {
    var g := FirstHit(s, q, typ);
    if g.l <= g.r then StepBack(s, g.l, (g.l + g.r) / 2, typ) else -1
  }

  /** Once the key has wrapped at entry m, the search ends just before m. */
  lemma WrapEnds(s: seq<Stab>, l: nat, r: int, typ: int, g: Search, m: int)
    requires Sorted(s, l, r, typ) && l <= g.l <= g.r <= r < |s| && g.addr == WRAP - 1 && Hit(s, g, typ) == 1
    requires m == StepBack(s, g.l, (g.l + g.r) / 2, typ)
    ensures l <= m <= r && IsType(s, m, typ) && s[m].value == WRAP - 1
    ensures var q := Loop(s, g, typ); q.any && q.r == m - 1 && q.left == m
  {
    TurnIs(s, g, typ);
    LoopTurn(s, g, typ);
    StepBackTypes(s, g.l, (g.l + g.r) / 2, typ);
    hide Loop, Hit, Turn, StepBack;
    LoopWraps(s, l, r, typ, Turn(s, g, typ));
  }

  /** The key below the top address can be moved twice and wrap; then the search ends before the
      entry of the second hit, which is the right end if the entry there is of the type and at or
      below the key. */
  predicate WrapsBack(s: seq<Stab>, l: nat, r: int, typ: int, a: Addr)
    requires r < |s|
  {
    a == WRAP - 2 &&
    var h := FirstHit(s, Search(l, r, a, l, false), typ);
    h.l <= h.r &&
    var m := HitAt(s, Turn(s, h, typ), typ);
    m > l && IsType(s, m - 1, typ) && s[m - 1].value <= a
  }

  /** stab_binsearch gives the answer of the linear scan exactly when the window left at the first
      exact hit holds no entry with the value the key moves to, or the wrap makes up for it. */
  lemma BinSearchExact(s: seq<Stab>, l: nat, r: int, typ: int, a: Addr)
    requires l <= r + 1 <= |s| && Sorted(s, l, r, typ)
    ensures BinSearch(s, l, r, typ, a) == LinearSearch(s, l, r, typ, a)
      <==> KeyKept(s, l, r, typ, a) || WrapsBack(s, l, r, typ, a)
  {
    WrapsBackIs(s, l, r, typ, a);
    hide *;
    if KeyKept(s, l, r, typ, a) {
      BinSearchIsLinear(s, l, r, typ, a);
    } else if a == WRAP - 2 {
      TopButOne(s, l, r, typ, a);
    } else {
      LostMisleads(s, l, r, typ, a);
    }
  }

  lemma WrapsBackIs(s: seq<Stab>, l: nat, r: int, typ: int, a: Addr)
    requires r < |s|
    ensures a != WRAP - 2 ==> !WrapsBack(s, l, r, typ, a)
    ensures a == WRAP - 2 && !KeyKept(s, l, r, typ, a) ==>
      var m := HitAt(s, Turn(s, FirstHit(s, Search(l, r, a, l, false), typ), typ), typ);
      (WrapsBack(s, l, r, typ, a) <==> m > l && IsType(s, m - 1, typ) && s[m - 1].value <= a)
  {
    hide FirstHit, HitAt, Turn, KeyFree, IsType;
  }

  lemma LostWindow(s: seq<Stab>, l: nat, r: int, typ: int, a: Addr)
    requires l <= r + 1 <= |s| && !KeyKept(s, l, r, typ, a)
    ensures var h := FirstHit(s, Search(l, r, a, l, false), typ);
      h.l <= h.r && !KeyFree(s, h, typ, a)
  {
    hide FirstHit, KeyFree;
  }

  lemma LostMisleads(s: seq<Stab>, l: nat, r: int, typ: int, a: Addr)
    requires l <= r + 1 <= |s| && Sorted(s, l, r, typ) && !KeyKept(s, l, r, typ, a) && a != WRAP - 2
    ensures BinSearch(s, l, r, typ, a) != LinearSearch(s, l, r, typ, a)
  {
    var q0 := Search(l, r, a, l, false);
    StartBrackets(s, l, r, typ, a);
    FirstHitReached(s, l, r, typ, a, q0);
    LostWindow(s, l, r, typ, a);
    hide FirstHit, Loop, Sorted, KeyFree, KeyKept, Hit, Bracket;
    HitMisleads(s, l, r, typ, a, FirstHit(s, q0, typ));
    MissIsNotLinear(s, l, r, typ, a);
  }

  lemma StartBrackets(s: seq<Stab>, l: nat, r: int, typ: int, a: Addr)
    requires l <= r + 1 <= |s|
    ensures Bracket(s, l, r, typ, a, Search(l, r, a, l, false))
  {
  }

  /** For the key below the top address, when its window holds an entry at the top address. */
  lemma TopButOne(s: seq<Stab>, l: nat, r: int, typ: int, a: Addr)
    requires l <= r + 1 <= |s| && Sorted(s, l, r, typ) && a == WRAP - 2 && !KeyKept(s, l, r, typ, a)
    ensures var m := HitAt(s, Turn(s, FirstHit(s, Search(l, r, a, l, false), typ), typ), typ);
      && l < m <= r && BinSearch(s, l, r, typ, a) == (m - 1, m - 1)
      && (BinSearch(s, l, r, typ, a) == LinearSearch(s, l, r, typ, a) <==> IsType(s, m - 1, typ) && s[m - 1].value <= a)
  {
    hide *;
    var q0 := Search(l, r, a, l, false);
    StartBrackets(s, l, r, typ, a);
    FirstHitReached(s, l, r, typ, a, q0);
    LostWindow(s, l, r, typ, a);
    TopFrom(s, l, r, typ, a, FirstHit(s, q0, typ));
  }

  lemma TopFrom(s: seq<Stab>, l: nat, r: int, typ: int, a: Addr, h: Search)
    requires a == WRAP - 2 && l <= r + 1 <= |s| && Sorted(s, l, r, typ) && Bracket(s, l, r, typ, a, h)
    requires 0 <= h.l <= h.r < |s| && h.addr == a && Hit(s, h, typ) == 1 && !KeyFree(s, h, typ, a)
    requires Loop(s, h, typ) == Loop(s, Search(l, r, a, l, false), typ)
    ensures var m := HitAt(s, Turn(s, h, typ), typ);
      && l < m <= r && BinSearch(s, l, r, typ, a) == (m - 1, m - 1)
      && (BinSearch(s, l, r, typ, a) == LinearSearch(s, l, r, typ, a) <==> IsType(s, m - 1, typ) && s[m - 1].value <= a)
  {
    hide *;
    var m := SecondHit(s, l, r, typ, h);
    EndsBefore(s, l, r, typ, a, h, m);
    JustBefore(s, l, r, typ, m);
  }

  lemma EndsBefore(s: seq<Stab>, l: nat, r: int, typ: int, a: Addr, h: Search, m: int)
    requires r < |s| && 0 <= m <= |s| && 0 <= h.l && h.r < |s| && Loop(s, h, typ) == Loop(s, Search(l, r, a, l, false), typ)
    requires var q := Loop(s, h, typ); q.any && q.r == m - 1 && q.left == m
    ensures BinSearch(s, l, r, typ, a) == (m - 1, m - 1)
  {
    ScanNone(s, m, typ);
    hide Loop, ScanDown;
  }

  lemma ScanNone(s: seq<Stab>, m: nat, typ: int)
    requires m <= |s|
    ensures ScanDown(s, m - 1, m, typ) == m - 1
  {
  }

  lemma SecondHit(s: seq<Stab>, l: nat, r: int, typ: int, h: Search) returns (m: int)
    requires Sorted(s, l, r, typ) && Bracket(s, l, r, typ, WRAP - 2, h) && 0 <= h.l <= h.r < |s| && h.addr == WRAP - 2
    requires Hit(s, h, typ) == 1 && !KeyFree(s, h, typ, WRAP - 2)
    ensures m == HitAt(s, Turn(s, h, typ), typ) && l < m <= r && IsType(s, m, typ) && s[m].value == WRAP - 1
    ensures var q := Loop(s, h, typ); q.any && q.r == m - 1 && q.left == m
    ensures LastAtMost(s, l, r, typ, WRAP - 2) >= l
  {
    HitTurns(s, l, r, typ, WRAP - 2, h);
    var q1 := Turn(s, h, typ);
    hide *;
    var j := FirstAhead(s, l, r, typ, h, q1);
    AheadHits(s, l, r, typ, WRAP - 2, q1, j);
    var g := FirstHit(s, q1, typ);
    m := StepBack(s, g.l, (g.l + g.r) / 2, typ);
    HitAtIs(s, q1, typ, g);
    WrapEnds(s, l, r, typ, g, m);
    AboveHit(s, l, r, typ, m);
  }

  lemma HitAtIs(s: seq<Stab>, q: Search, typ: int, g: Search)
    requires 0 <= q.l && q.r < |s| && g == FirstHit(s, q, typ) && g.l <= g.r
    ensures HitAt(s, q, typ) == StepBack(s, g.l, (g.l + g.r) / 2, typ)
  {
    hide FirstHit, StepBack;
  }

  lemma AboveHit(s: seq<Stab>, l: nat, r: int, typ: int, m: int)
    requires Sorted(s, l, r, typ) && l <= r + 1 <= |s| && l <= m <= r && s[m].value == WRAP - 1
    requires LastAtMost(s, l, r, typ, WRAP - 2) >= l && IsType(s, m, typ)
    ensures l < m
  {
    Around(s, l, r, typ, m);
  }

  /** The turn that hits. */
  lemma HitTurns(s: seq<Stab>, l: nat, r: int, typ: int, a: Addr, h: Search)
    requires Bracket(s, l, r, typ, a, h) && 0 <= h.l <= h.r < |s| && h.addr == a && Hit(s, h, typ) == 1
    ensures l <= h.l && h.r <= r < |s| && Loop(s, h, typ) == Loop(s, Turn(s, h, typ), typ)
    ensures var m, q := StepBack(s, h.l, (h.l + h.r) / 2, typ), Turn(s, h, typ);
      && h.l <= m <= h.r && IsType(s, m, typ) && s[m].value == a && m <= LastAtMost(s, l, r, typ, a)
      && q == h.(l := m, left := m, addr := NextKey(a), any := true)
  {
    BracketBounds(s, l, r, typ, a, h);
    TurnIs(s, h, typ);
    LoopTurn(s, h, typ);
    StepBackTypes(s, h.l, (h.l + h.r) / 2, typ);
    var m := StepBack(s, h.l, (h.l + h.r) / 2, typ);
    hide Loop, Hit, Turn, Bracket, StepBack;
    HitIsBelow(s, l, r, typ, a, m);
  }

  lemma FirstAhead(s: seq<Stab>, l: nat, r: int, typ: int, h: Search, q: Search) returns (j: int)
    requires Sorted(s, l, r, typ) && l <= h.l && h.r <= r < |s| && !KeyFree(s, h, typ, WRAP - 2)
    requires l <= q.l <= h.r && IsType(s, q.l, typ) && s[q.l].value == WRAP - 2
    requires q == h.(l := q.l, left := q.l, addr := WRAP - 1, any := true)
    ensures Ahead(s, r, typ, WRAP - 2, q, j)
  {
    j :| h.l <= j <= h.r && IsType(s, j, typ) && s[j].value == WRAP - 1;
    Around(s, l, r, typ, j);
  }

  /** Ending just before an entry at the top address is right exactly if the entry there is the answer. */
  lemma JustBefore(s: seq<Stab>, l: nat, r: int, typ: int, m: int)
    requires l < m <= r < |s| && Sorted(s, l, r, typ) && IsType(s, m, typ) && s[m].value == WRAP - 1
    requires LastAtMost(s, l, r, typ, WRAP - 2) >= l
    ensures LinearSearch(s, l, r, typ, WRAP - 2) == (m - 1, m - 1) <==> IsType(s, m - 1, typ) && s[m - 1].value <= WRAP - 2
  {
    Around(s, l, r, typ, m);
    LinearHit(s, l, r, typ, WRAP - 2);
    var best := LastAtMost(s, l, r, typ, WRAP - 2);
    hide LinearSearch;
    if best == m - 1 { assert FirstOf(s, m, r, typ) == m; }
  }

  lemma MissIsNotLinear(s: seq<Stab>, l: nat, r: int, typ: int, a: Addr)
    requires l <= r + 1 <= |s| && LastAtMost(s, l, r, typ, a) >= l
    ensures LinearSearch(s, l, r, typ, a).0 == LastAtMost(s, l, r, typ, a)
  {
    LinearHit(s, l, r, typ, a);
  }

  /** In particular when no entry of the type has the value a + 1 anywhere in the range, or none
      has the value a. */
  lemma NoSuccessorKeeps(s: seq<Stab>, l: nat, r: int, typ: int, a: Addr)
    requires l <= r + 1 <= |s|
    requires !Occurs(s, l, r, typ, a) || (a + 1 < WRAP && !Occurs(s, l, r, typ, a + 1))
    ensures KeyKept(s, l, r, typ, a)
  {
    FirstHitInside(s, Search(l, r, a, l, false), typ, l, r);
    var h := FirstHit(s, Search(l, r, a, l, false), typ);
    hide FirstHit;
    if h.l <= h.r {
      var m := StepBack(s, h.l, (h.l + h.r) / 2, typ);
      assert IsType(s, m, typ) && s[m].value == a;
      assert Occurs(s, l, r, typ, a);
      OccursLess(s, l, r, typ, a + 1);
    }
  }

  lemma {:induction false} FirstHitInside(s: seq<Stab>, q: Search, typ: int, l: nat, r: int)
    requires l <= q.l && q.r <= r < |s|
    ensures var h := FirstHit(s, q, typ);
      l <= h.l && h.r <= r && h.addr == q.addr && (h.l <= h.r ==> Hit(s, h, typ) == 1)
    decreases q.r - q.l + 1
  {
    if q.l <= q.r {
      FirstHitStep(s, q, typ);
      TurnInside(s, q, typ);
      LoopTurn(s, q, typ);
      if Hit(s, q, typ) == 0 {
        hide *;
        FirstHitInside(s, Turn(s, q, typ), typ, l, r);
      }
    }
  }

  /** The loop notices every range that has an entry of the type. */
  lemma {:induction false} LoopNotices(s: seq<Stab>, q: Search, typ: int)
    requires 0 <= q.l && q.r < |s|
    ensures Loop(s, q, typ).any <==> q.any || exists i :: q.l <= i <= q.r && IsType(s, i, typ)
    decreases q.r - q.l + 1, Hit(s, q, typ)
  {
    if q.l <= q.r {
      LoopTurn(s, q, typ);
      TurnNotices(s, q, typ);
      hide Loop, Turn, Hit, IsType;
      LoopNotices(s, Turn(s, q, typ), typ);
    }
  }

  lemma TurnNotices(s: seq<Stab>, q: Search, typ: int)
    requires 0 <= q.l <= q.r < |s|
    ensures var q' := Turn(s, q, typ);
      q'.any || (exists i :: q'.l <= i <= q'.r && IsType(s, i, typ))
      <==> q.any || exists i :: q.l <= i <= q.r && IsType(s, i, typ)
  {
    var mid := (q.l + q.r) / 2;
    var m := StepBack(s, q.l, mid, typ);
    TurnIs(s, q, typ);
    StepBackTypes(s, q.l, mid, typ);
    hide Turn, StepBack, Hit;
    if m < q.l && exists i :: q.l <= i <= q.r && IsType(s, i, typ) {
      var i :| q.l <= i <= q.r && IsType(s, i, typ);
      assert i > mid;
    }
  }

  /** left > right is the documented sign that no entry contains the key. It is given exactly
      when the range holds no entry of the type at all, whatever the table and the key ... */
  lemma EmptyRegionMeans(s: seq<Stab>, l: nat, r: int, typ: int, a: Addr)
    requires l <= r + 1 <= |s|
    ensures var (left, right) := BinSearch(s, l, r, typ, a);
      left > right <==> forall i :: l <= i <= r ==> !IsType(s, i, typ)
  {
    LoopNotices(s, Search(l, r, a, l, false), typ);
    LoopBounds(s, Search(l, r, a, l, false), typ, l);
    hide Loop, Hit, IsType;
  }

  /** ... so in a sorted range it can be trusted exactly when there is no entry of the type or one
      lies at or below the key: a key before all entries gets a region that looks like an answer. */
  lemma EmptyRegionTrusted(s: seq<Stab>, l: nat, r: int, typ: int, a: Addr)
    requires l <= r + 1 <= |s| && Sorted(s, l, r, typ)
    ensures var (left, right) := BinSearch(s, l, r, typ, a);
      (left > right <==> LastAtMost(s, l, r, typ, a) < l)
      <==> FirstOf(s, l, r, typ) > r || s[FirstOf(s, l, r, typ)].value <= a
  {
    FirstMeans(s, l, r, typ);
    FirstAtMost(s, l, r, typ, a);
    hide *;
    EmptyRegionMeans(s, l, r, typ, a);
  }

  lemma FirstMeans(s: seq<Stab>, l: nat, r: int, typ: int)
    requires l <= r + 1 <= |s|
    ensures l <= FirstOf(s, l, r, typ) && (FirstOf(s, l, r, typ) > r <==> forall i :: l <= i <= r ==> !IsType(s, i, typ))
  {
  }

  /** In a sorted range some entry is at or below the key exactly if the first one is. */
  lemma FirstAtMost(s: seq<Stab>, l: nat, r: int, typ: int, a: Addr)
    requires l <= r + 1 <= |s| && Sorted(s, l, r, typ)
    ensures LastAtMost(s, l, r, typ, a) >= l
      <==> FirstOf(s, l, r, typ) <= r && s[FirstOf(s, l, r, typ)].value <= a
  {
    var first, best := FirstOf(s, l, r, typ), LastAtMost(s, l, r, typ, a);
    assert first <= r ==> IsType(s, first, typ);
    if best >= l {
      assert IsType(s, best, typ) && first <= best;
      assert s[first].value <= s[best].value;
    }
    hide Sorted, FirstOf, LastAtMost;
  }

  /** Two functions one byte apart: asked for the first, the search returns the second. */
  lemma AdjacentStarts()
    ensures var s := [Stab(0, N_FUN, 0, 10), Stab(0, N_FUN, 0, 11)];
      BinSearch(s, 0, 1, N_FUN, 10) == (1, 1) && LinearSearch(s, 0, 1, N_FUN, 10) == (0, 0)
  {
    var s := [Stab(0, N_FUN, 0, 10), Stab(0, N_FUN, 0, 11)];
    var q0 := Search(0, 1, 10, 0, false);
    var q1, q2, q3 := Turn(s, q0, N_FUN), Search(0, 1, 11, 0, true), Search(1, 1, 11, 0, true);
    assert q1 == q2;
    assert Turn(s, q2, N_FUN) == q3;
    var q4 := Search(1, 1, 12, 1, true);
    assert Turn(s, q3, N_FUN) == q4;
    var q5 := Search(2, 1, 12, 1, true);
    assert Turn(s, q4, N_FUN) == q5;
    assert Loop(s, q4, N_FUN) == Loop(s, q5, N_FUN) == q5;
    assert Loop(s, q0, N_FUN) == Loop(s, q2, N_FUN) == Loop(s, q3, N_FUN) == Loop(s, q4, N_FUN);
  }

  // debuginfo_eip

  /** What debuginfo_eip finds: -1; or a first search that leads it below the table; or the
      entries its fields are read from. eip_fn_name and eip_fn_addr come from entry lfun when
      lfun <= rfun, eip_line from entry lline when lline <= rline (0 here should
      lline be below the table), and eip_file from entry file when lfile <= file. */
  datatype Info =
    | NotFound
    | Stray
    | Info(lfile: nat, rfile: int, lfun: nat, rfun: int, lline: int, rline: int,
           fnAddr: Addr, file: int, narg: nat, line: int)

  predicate FileEntry(t: Stab) { t.typ == N_SOL || (t.typ == N_SO && t.value != 0) }

  /** The backward search for the file name, not below lfile. */
  function FileBack(s: seq<Stab>, lfile: nat, i: int): (k: int)
    requires i < |s|
    ensures k <= i && (k >= lfile ==> FileEntry(s[k]))
    ensures forall j :: lfile <= j <= i && k < j ==> !FileEntry(s[j])
    decreases i - lfile + 1
  {
    if i >= lfile && !FileEntry(s[i]) then FileBack(s, lfile, i - 1) else i
  }

  /** The parameter entries that follow the function's own. */
  function Params(s: seq<Stab>, i: nat, rfun: int): (n: nat)
    requires rfun < |s|
    ensures n > 0 ==> i + n <= rfun
    ensures forall k :: i <= k < i + n ==> s[k].typ == N_PSYM
    ensures i + n < rfun ==> s[i + n].typ != N_PSYM
    decreases rfun - i
  {
    if i < rfun && s[i].typ == N_PSYM then
      1 + Params(s, i + 1, rfun)
    else 0
  }

  /** debuginfo_eip on one table, the string-table checks aside. A first N_SO entry above addr
      makes lfile -1, which the test for 0 lets through. */
  function DebugInfo(s: seq<Stab>, addr: Addr): Info {
    if s == [] then NotFound
    else
      var (lfile, rfile) := BinSearch(s, 0, |s| - 1, N_SO, addr);
      if lfile == 0 then NotFound
      else if lfile < 0 then Stray
      else InFile(s, addr, lfile, rfile)
  }

  function InFile(s: seq<Stab>, addr: Addr, lfile: nat, rfile: int): Info
    requires 0 < lfile < |s| && rfile < |s| && lfile <= rfile + 1
  {
    var (lfun, rfun) := BinSearch(s, lfile, rfile, N_FUN, addr);
    if lfun <= rfun then
      var fnAddr := s[lfun].value;
      InRange(s, Sub(addr, fnAddr), lfile, rfile, lfun, rfun, lfun, rfun, fnAddr)
    else
      InRange(s, addr, lfile, rfile, lfun, rfun, lfile, rfile, addr)
  }

  function InRange(s: seq<Stab>, key: Addr, lfile: nat, rfile: int, lfun: nat, rfun: int,
                   l: nat, r: int, fnAddr: Addr): Info
    requires rfun < |s| && l < |s| && r < |s| && l <= r + 1
  {
    var (lline, rline) := BinSearch(s, l, r, N_SLINE, key);
    Info(lfile, rfile, lfun, rfun, lline, rline, fnAddr, FileBack(s, lfile, lline),
         if lfun < rfun then Params(s, lfun + 1, rfun) else 0,
         if 0 <= lline <= rline then s[lline].desc else 0)
  }

  /** addr -= fn_addr in 32 bits */
  function Sub(a: Addr, b: Addr): Addr { if a >= b then a - b else a - b + WRAP }

  method DebuginfoEip(s: seq<Stab>, eip: Addr) returns (info: Info)
    ensures info == DebugInfo(s, eip)
  {
    hide BinSearch, FileBack, Params;
    if s == [] { return NotFound; }
    var addr := eip;
    var lfile, rfile := StabBinsearch(s, 0, |s| - 1, N_SO, addr);
    if lfile == 0 { return NotFound; }
    if lfile < 0 { return Stray; }
    var lfun, rfun := StabBinsearch(s, lfile, rfile, N_FUN, addr);
    var fnAddr, lline, rline;
    if lfun <= rfun {
      fnAddr := s[lfun].value;
      addr := Sub(addr, fnAddr);
      lline, rline := lfun, rfun;
    } else {
      fnAddr := addr;
      lline, rline := lfile, rfile;
    }
    lline, rline := StabBinsearch(s, lline, rline, N_SLINE, addr);
    var line := if 0 <= lline <= rline then s[lline].desc else 0;
    var file := SearchFile(s, lfile, lline);
    var narg := 0;
    if lfun < rfun { narg := CountParams(s, lfun + 1, rfun); }
    info := Info(lfile, rfile, lfun, rfun, lline, rline, fnAddr, file, narg, line);
  }

  method SearchFile(s: seq<Stab>, lfile: nat, lline: int) returns (file: int)
    requires lline < |s|
    ensures file == FileBack(s, lfile, lline)
  {
    file := lline;
    while file >= lfile && s[file].typ != N_SOL && (s[file].typ != N_SO || s[file].value == 0)
      invariant file <= lline && FileBack(s, lfile, file) == FileBack(s, lfile, lline)
    {
      file := file - 1;
    }
  }

  method CountParams(s: seq<Stab>, start: nat, rfun: int) returns (narg: nat)
    requires start <= rfun < |s|
    ensures narg == Params(s, start, rfun)
  {
    narg := 0;
    var i := start;
    while i < rfun && s[i].typ == N_PSYM
      invariant start <= i <= rfun && narg + Params(s, i, rfun) == Params(s, start, rfun)
      decreases rfun - i
    {
      i, narg := i + 1, narg + 1;
    }
  }

  /** The test for lfile 0 lets a negative lfile through. Below the top address that happens exactly
      if the table opens with a file entry above the address; for the top address, if it opens with
      a file entry at the address and has no other one in its lower half. */
  lemma StrayExact(s: seq<Stab>, addr: Addr)
    requires s != [] && Sorted(s, 0, |s| - 1, N_SO)
    ensures DebugInfo(s, addr).Stray? <==>
      if addr + 1 < WRAP then IsType(s, 0, N_SO) && s[0].value > addr
      else IsType(s, 0, N_SO) && s[0].value == addr && forall i :: 1 <= i <= (|s| - 1) / 2 ==> !IsType(s, i, N_SO)
  {
    StrayMeans(s, addr);
    FirstAbove(s, addr);
    hide DebugInfo, BinSearch;
    if KeyKept(s, 0, |s| - 1, N_SO, addr) {
      BinSearchIsLinear(s, 0, |s| - 1, N_SO, addr);
      if addr + 1 == WRAP { TopKept(s); }
      hide LastAtMost, FirstOf, Sorted, KeyKept;
    } else {
      hide LastAtMost, FirstOf, LinearSearch, Sorted;
      StrayLost(s, addr);
    }
  }

  lemma StrayMeans(s: seq<Stab>, addr: Addr)
    requires s != []
    ensures DebugInfo(s, addr).Stray? <==> BinSearch(s, 0, |s| - 1, N_SO, addr).0 < 0
  {
    hide BinSearch, FileBack, Params;
  }

  lemma FirstAbove(s: seq<Stab>, addr: Addr)
    requires s != [] && Sorted(s, 0, |s| - 1, N_SO)
    ensures FirstOf(s, 0, |s| - 1, N_SO) == 0 <==> IsType(s, 0, N_SO)
    ensures IsType(s, 0, N_SO) && s[0].value > addr ==> LastAtMost(s, 0, |s| - 1, N_SO, addr) == -1
    ensures IsType(s, 0, N_SO) && s[0].value <= addr ==> LastAtMost(s, 0, |s| - 1, N_SO, addr) >= 0
  {
  }

  /** A table that opens with an entry at the top address is hit in the first turn. */
  lemma TopHit(s: seq<Stab>)
    requires s != [] && Sorted(s, 0, |s| - 1, N_SO) && IsType(s, 0, N_SO) && s[0].value == WRAP - 1
    ensures var q0 := Search(0, |s| - 1, WRAP - 1, 0, false);
      FirstHit(s, q0, N_SO) == q0 && Hit(s, q0, N_SO) == 1
  {
    var mid := (|s| - 1) / 2;
    StepBackTypes(s, 0, mid, N_SO);
    var m := StepBack(s, 0, mid, N_SO);
    if m > 0 { assert s[0].value <= s[m].value; }
  }

  lemma TopKept(s: seq<Stab>)
    requires s != [] && Sorted(s, 0, |s| - 1, N_SO) && KeyKept(s, 0, |s| - 1, N_SO, WRAP - 1)
    ensures !(IsType(s, 0, N_SO) && s[0].value == WRAP - 1)
  {
    if IsType(s, 0, N_SO) && s[0].value == WRAP - 1 { TopHit(s); }
  }

  /** When the moved key does meet an entry, or wraps. */
  lemma StrayLost(s: seq<Stab>, addr: Addr)
    requires s != [] && Sorted(s, 0, |s| - 1, N_SO) && !KeyKept(s, 0, |s| - 1, N_SO, addr)
    ensures BinSearch(s, 0, |s| - 1, N_SO, addr).0 < 0 <==>
      if addr + 1 < WRAP then IsType(s, 0, N_SO) && s[0].value > addr
      else IsType(s, 0, N_SO) && s[0].value == addr && forall i :: 1 <= i <= (|s| - 1) / 2 ==> !IsType(s, i, N_SO)
  {
    var r := |s| - 1;
    var q0 := Search(0, r, addr, 0, false);
    FirstHitReached(s, 0, r, N_SO, addr, q0);
    var h := FirstHit(s, q0, N_SO);
    HitEntry(s, 0, r, N_SO, addr, h);
    if addr == WRAP - 2 {
      TopButOne(s, 0, r, N_SO, addr);
      hide BinSearch, FirstHit, Loop;
    } else if addr == WRAP - 1 {
      StrayTop(s, h);
    } else {
      var j :| h.l <= j <= h.r && IsType(s, j, N_SO) && s[j].value == addr + 1;
      PassedPositive(s, r, addr, h);
      hide FirstHit, Loop;
    }
  }

  lemma HitEntry(s: seq<Stab>, l: nat, r: int, typ: int, a: Addr, h: Search)
    requires Sorted(s, l, r, typ) && Bracket(s, l, r, typ, a, h) && 0 <= h.l <= h.r < |s| && h.addr == a && Hit(s, h, typ) == 1
    ensures IsType(s, l, typ) ==> s[l].value <= a
    ensures LastAtMost(s, l, r, typ, a) >= l
  {
    BracketBounds(s, l, r, typ, a, h);
    StepBackTypes(s, h.l, (h.l + h.r) / 2, typ);
    var m := StepBack(s, h.l, (h.l + h.r) / 2, typ);
    Around(s, l, r, typ, m);
    HitIsBelow(s, l, r, typ, a, m);
  }

  lemma StrayTop(s: seq<Stab>, h: Search)
    requires s != [] && Sorted(s, 0, |s| - 1, N_SO)
    requires h == FirstHit(s, Search(0, |s| - 1, WRAP - 1, 0, false), N_SO) && h.l <= h.r && 0 <= h.l && h.r <= |s| - 1
    requires h.addr == WRAP - 1 && Hit(s, h, N_SO) == 1
    requires Loop(s, h, N_SO) == Loop(s, Search(0, |s| - 1, WRAP - 1, 0, false), N_SO)
    ensures BinSearch(s, 0, |s| - 1, N_SO, WRAP - 1).0 < 0 <==>
      IsType(s, 0, N_SO) && s[0].value == WRAP - 1 && forall i :: 1 <= i <= (|s| - 1) / 2 ==> !IsType(s, i, N_SO)
  {
    var m := StepBack(s, h.l, (h.l + h.r) / 2, N_SO);
    WrapEnds(s, 0, |s| - 1, N_SO, h, m);
    ScanNone(s, m, N_SO);
    assert BinSearch(s, 0, |s| - 1, N_SO, WRAP - 1).0 == m - 1;
    hide BinSearch, Loop;
    if IsType(s, 0, N_SO) && s[0].value == WRAP - 1 {
      TopHit(s);
      StepBackTypes(s, 0, (|s| - 1) / 2, N_SO);
    }
  }

  lemma PassedPositive(s: seq<Stab>, r: int, addr: Addr, h: Search)
    requires Sorted(s, 0, r, N_SO) && Bracket(s, 0, r, N_SO, addr, h) && 0 <= h.l <= h.r < |s| && h.addr == addr
    requires r < |s| && Hit(s, h, N_SO) == 1 && addr + 2 < WRAP && !KeyFree(s, h, N_SO, addr)
    requires Loop(s, h, N_SO) == Loop(s, Search(0, r, addr, 0, false), N_SO)
    ensures BinSearch(s, 0, r, N_SO, addr).0 >= 0
  {
    BracketBounds(s, 0, r, N_SO, addr, h);
    HitPasses(s, 0, r, N_SO, addr, h);
    HitEntry(s, 0, r, N_SO, addr, h);
    hide Loop, Bracket, Hit, Sorted, KeyFree, FirstHit;
  }

  /** Which searches debuginfo_eip makes: for the file among all entries (type 0x64); in the file for
      the function (0x24); for the line (0x44) in the function, with the address relative to its
      start, or in the whole file if there is no function. */
  lemma InfoSearches(s: seq<Stab>, addr: Addr)
    requires s != []
    ensures var i, file := DebugInfo(s, addr), BinSearch(s, 0, |s| - 1, 0x64, addr);
      && (i.NotFound? <==> file.0 == 0)
      && (i.Stray? <==> file.0 < 0)
      && (file.0 > 0 ==> file.1 < |s| && i.Info? && (i.lfile, i.rfile) == file)
    ensures var i := DebugInfo(s, addr);
      i.Info? ==>
        && i.rfile < |s| && (i.lfun, i.rfun) == BinSearch(s, i.lfile, i.rfile, 0x24, addr)
        && (i.lfun <= i.rfun ==>
              && i.rfun < |s|
              && (i.lline, i.rline)
                 == BinSearch(s, i.lfun, i.rfun, 0x44, (addr - s[i.lfun].value) % 0x1_0000_0000))
        && (i.lfun > i.rfun ==> (i.lline, i.rline) == BinSearch(s, i.lfile, i.rfile, 0x44, addr))
  {
    SubIs();
    hide BinSearch, FileBack, Params, Sub;
  }

  lemma SubIs()
    ensures forall a: Addr, b: Addr :: Sub(a, b) == (a - b) % 0x1_0000_0000
  {
    forall a: Addr, b: Addr ensures Sub(a, b) == (a - b) % 0x1_0000_0000 {
      if a < b { assert (a - b) % 0x1_0000_0000 == a - b + 0x1_0000_0000; }
    }
  }

  /** What the fields are: the function's start and the number of parameter entries (type 0xa0) right
      behind its own; the line number of the line entry; and the nearest file entry (0x84, or 0x64
      with a value) at or before the line, if there is one in the file. */
  lemma InfoFields(s: seq<Stab>, addr: Addr)
    requires DebugInfo(s, addr).Info?
    ensures var i := DebugInfo(s, addr);
      && i.lfile < |s| && i.lline < |s|
      && (i.lfun <= i.rfun ==> i.lfun < |s| && i.fnAddr == s[i.lfun].value)
      && (i.lfun > i.rfun ==> i.fnAddr == addr)
      && (0 <= i.lline <= i.rline ==> i.line == s[i.lline].desc)
      && (i.lline < 0 || i.lline > i.rline ==> i.line == 0)
    ensures var i := DebugInfo(s, addr);
      && (i.lfun < i.rfun ==>
            && i.lfun + 1 + i.narg <= i.rfun < |s|
            && (forall k :: i.lfun < k <= i.lfun + i.narg ==> s[k].typ == 0xa0)
            && (i.lfun + 1 + i.narg == i.rfun || s[i.lfun + 1 + i.narg].typ != 0xa0))
      && (i.lfun >= i.rfun ==> i.narg == 0)
    ensures var i := DebugInfo(s, addr);
      && i.file <= i.lline
      && (i.file >= i.lfile ==> s[i.file].typ == 0x84 || (s[i.file].typ == 0x64 && s[i.file].value != 0))
      && forall k :: i.lfile <= k <= i.lline && k > i.file ==>
           s[k].typ != 0x84 && !(s[k].typ == 0x64 && s[k].value != 0)
  {
    hide *;
    InfoIs(s, addr);
    var i := DebugInfo(s, addr);
    FileBackIs(s, i.lfile, i.lline);
    if i.lfun < i.rfun { ParamsAre(s, i.lfun + 1, i.rfun); }
  }

  lemma InfoIs(s: seq<Stab>, addr: Addr)
    requires DebugInfo(s, addr).Info?
    ensures var i := DebugInfo(s, addr);
      && i.lfile < |s| && i.lline < |s| && i.rfun < |s|
      && (i.lfun <= i.rfun ==> i.lfun < |s| && i.fnAddr == s[i.lfun].value)
      && (i.lfun > i.rfun ==> i.fnAddr == addr)
      && i.line == (if 0 <= i.lline <= i.rline then s[i.lline].desc else 0)
      && i.narg == (if i.lfun < i.rfun then Params(s, i.lfun + 1, i.rfun) else 0)
      && i.file == FileBack(s, i.lfile, i.lline)
  {
    hide BinSearch, Sub, FileBack, Params;
  }

  lemma FileBackIs(s: seq<Stab>, lfile: nat, i: int)
    requires i < |s|
    ensures var k := FileBack(s, lfile, i);
      && k <= i
      && (k >= lfile ==> s[k].typ == 0x84 || (s[k].typ == 0x64 && s[k].value != 0))
      && forall j :: lfile <= j <= i && j > k ==> s[j].typ != 0x84 && !(s[j].typ == 0x64 && s[j].value != 0)
  {
    var k := FileBack(s, lfile, i);
    forall j | lfile <= j <= i && j > k ensures s[j].typ != 0x84 && !(s[j].typ == 0x64 && s[j].value != 0) {
      assert !FileEntry(s[j]);
    }
    hide FileBack;
  }

  lemma ParamsAre(s: seq<Stab>, i: nat, rfun: int)
    requires rfun < |s| && i <= rfun
    ensures var n := Params(s, i, rfun);
      && i + n <= rfun
      && (forall k :: i <= k < i + n ==> s[k].typ == 0xa0)
      && (i + n == rfun || s[i + n].typ != 0xa0)
  {
    hide Params;
  }

  /** What the line search found: eip_line is set exactly if the region searched has a line entry.
      The comment asks for -1 otherwise; the code goes on and returns 0. */
  lemma LineSetExact(s: seq<Stab>, addr: Addr)
    requires DebugInfo(s, addr).Info?
    ensures var i := DebugInfo(s, addr);
      var l, r := if i.lfun <= i.rfun then i.lfun else i.lfile, if i.lfun <= i.rfun then i.rfun else i.rfile;
      i.lline <= i.rline <==> exists k :: l <= k <= r && IsType(s, k, N_SLINE)
  {
    var i := DebugInfo(s, addr);
    var l, r := if i.lfun <= i.rfun then i.lfun else i.lfile, if i.lfun <= i.rfun then i.rfun else i.rfile;
    var key := if i.lfun <= i.rfun then Sub(addr, i.fnAddr) else addr;
    LineSearched(s, addr);
    hide DebugInfo, BinSearch;
    EmptyRegionMeans(s, l, r, N_SLINE, key);
  }

  lemma LineSearched(s: seq<Stab>, addr: Addr)
    requires DebugInfo(s, addr).Info?
    ensures var i := DebugInfo(s, addr);
      var l, r := if i.lfun <= i.rfun then i.lfun else i.lfile, if i.lfun <= i.rfun then i.rfun else i.rfile;
      && l <= r + 1 <= |s|
      && (i.lline, i.rline) == BinSearch(s, l, r, N_SLINE, if i.lfun <= i.rfun then Sub(addr, i.fnAddr) else addr)
  {
    hide BinSearch, FileBack, Params, Sub;
  }

  /** A sorted range whose last entry of the type at or below the key is best, the next one of the
      type lying just behind last. */
  ghost predicate Nearest(s: seq<Stab>, l: nat, r: int, typ: int, a: Addr, best: int, last: int) {
    && l <= r + 1 <= |s| && Sorted(s, l, r, typ)
    && best == LastAtMost(s, l, r, typ, a) >= l && last == FirstOf(s, best + 1, r, typ) - 1
  }

  /** The moved key does no harm in the search of [l, r]: the condition of BinSearchExact. */
  predicate Harmless(s: seq<Stab>, l: nat, r: int, typ: int, a: Addr)
    requires r < |s|
  {
    KeyKept(s, l, r, typ, a) || WrapsBack(s, l, r, typ, a)
  }

  lemma NearestExact(s: seq<Stab>, l: nat, r: int, typ: int, a: Addr, best: int, last: int)
    requires Nearest(s, l, r, typ, a, best, last)
    ensures l <= best <= last <= r < |s| && s[best].value <= a
    ensures BinSearch(s, l, r, typ, a) == (best, last) <==> Harmless(s, l, r, typ, a)
  {
    NearestParts(s, l, r, typ, a, best, last);
    HarmlessIs(s, l, r, typ, a);
    hide *;
    BinSearchExact(s, l, r, typ, a);
    LinearHit(s, l, r, typ, a);
  }

  lemma HarmlessIs(s: seq<Stab>, l: nat, r: int, typ: int, a: Addr)
    requires r < |s|
    ensures Harmless(s, l, r, typ, a) <==> KeyKept(s, l, r, typ, a) || WrapsBack(s, l, r, typ, a)
  {
  }

  lemma NearestParts(s: seq<Stab>, l: nat, r: int, typ: int, a: Addr, best: int, last: int)
    requires Nearest(s, l, r, typ, a, best, last)
    ensures l <= r + 1 <= |s| && Sorted(s, l, r, typ)
    ensures best == LastAtMost(s, l, r, typ, a) >= l && last == FirstOf(s, best + 1, r, typ) - 1
  {
  }

  lemma LinearHit(s: seq<Stab>, l: nat, r: int, typ: int, a: Addr)
    requires l <= r + 1 <= |s| && LastAtMost(s, l, r, typ, a) >= l
    ensures var best := LastAtMost(s, l, r, typ, a);
      && l <= best <= r && s[best].value <= a && best + 1 <= FirstOf(s, best + 1, r, typ) <= r + 1
      && LinearSearch(s, l, r, typ, a) == (best, FirstOf(s, best + 1, r, typ) - 1)
  {
    var best := LastAtMost(s, l, r, typ, a);
    assert IsType(s, best, typ);
    hide IsType, LastAtMost, FirstOf;
  }

  /** The six bounds debuginfo_eip has found. */
  ghost predicate Found(i: Info, lf: int, rf: int, fn: int, rfn: int, ln: int, rln: int) {
    i.Info? && (i.lfile, i.rfile, i.lfun, i.rfun, i.lline, i.rline) == (lf, rf, fn, rfn, ln, rln)
  }

  /** Three searches, each inside what the one before is to find: with an entry at or below the key
      at every level, debuginfo_eip finds the nearest file, function and line and the ends of their
      regions exactly if the file is not the table's first entry and the moved key does no harm in
      any of the three searches. */
  lemma NestedExact(s: seq<Stab>, addr: Addr, lf: nat, rf: int, fn: nat, rfn: int, ln: nat, rln: int)
    requires Nearest(s, 0, |s| - 1, N_SO, addr, lf, rf)
    requires Nearest(s, lf, rf, N_FUN, addr, fn, rfn)
    requires fn < |s| && s[fn].value <= addr && Nearest(s, fn, rfn, N_SLINE, addr - s[fn].value, ln, rln)
    ensures rf < |s| && rfn < |s|
    ensures Found(DebugInfo(s, addr), lf, rf, fn, rfn, ln, rln)
      <==> lf > 0 && Harmless(s, 0, |s| - 1, N_SO, addr) && Harmless(s, lf, rf, N_FUN, addr)
           && Harmless(s, fn, rfn, N_SLINE, addr - s[fn].value)
  {
    hide *;
    NearestExact(s, 0, |s| - 1, N_SO, addr, lf, rf);
    NearestExact(s, lf, rf, N_FUN, addr, fn, rfn);
    NearestExact(s, fn, rfn, N_SLINE, addr - s[fn].value, ln, rln);
    FoundIs(s, addr, lf, rf, fn, rfn, ln, rln);
  }

  lemma FoundIs(s: seq<Stab>, addr: Addr, lf: nat, rf: int, fn: nat, rfn: int, ln: nat, rln: int)
    requires lf <= fn <= ln <= rln <= rfn <= rf < |s| && s[fn].value <= addr
    ensures Found(DebugInfo(s, addr), lf, rf, fn, rfn, ln, rln)
      <==> lf > 0 && BinSearch(s, 0, |s| - 1, N_SO, addr) == (lf, rf) && BinSearch(s, lf, rf, N_FUN, addr) == (fn, rfn)
           && BinSearch(s, fn, rfn, N_SLINE, addr - s[fn].value) == (ln, rln)
  {
    hide BinSearch, FileBack, Params;
  }

  /** Then the regions are nested, and eip_fn_addr is the nearest function's. */
  lemma NestedSearches(s: seq<Stab>, addr: Addr, lf: nat, rf: int, fn: nat, rfn: int, ln: nat, rln: int)
    requires Nearest(s, 0, |s| - 1, N_SO, addr, lf, rf) && lf > 0 && Harmless(s, 0, |s| - 1, N_SO, addr)
    requires Nearest(s, lf, rf, N_FUN, addr, fn, rfn) && rf < |s| && Harmless(s, lf, rf, N_FUN, addr)
    requires fn < |s| && s[fn].value <= addr && Nearest(s, fn, rfn, N_SLINE, addr - s[fn].value, ln, rln)
    requires rfn < |s| && Harmless(s, fn, rfn, N_SLINE, addr - s[fn].value)
    ensures var i := DebugInfo(s, addr);
      && i.Info? && i.lfile == lf && i.lfun == fn && i.lline == ln && i.fnAddr == s[fn].value
      && i.lfile <= i.lfun <= i.lline <= i.rline <= i.rfun <= i.rfile < |s|
  {
    hide *;
    NestedExact(s, addr, lf, rf, fn, rfn, ln, rln);
    NearestExact(s, 0, |s| - 1, N_SO, addr, lf, rf);
    NearestExact(s, lf, rf, N_FUN, addr, fn, rfn);
    NearestExact(s, fn, rfn, N_SLINE, addr - s[fn].value, ln, rln);
    FoundParts(DebugInfo(s, addr), lf, rf, fn, rfn, ln, rln);
    FunctionAddress(s, addr);
  }

  lemma FoundParts(i: Info, lf: int, rf: int, fn: int, rfn: int, ln: int, rln: int)
    requires Found(i, lf, rf, fn, rfn, ln, rln)
    ensures i.Info? && (i.lfile, i.rfile, i.lfun, i.rfun, i.lline, i.rline) == (lf, rf, fn, rfn, ln, rln)
  {
  }

  lemma FunctionAddress(s: seq<Stab>, addr: Addr)
    requires DebugInfo(s, addr).Info?
    ensures var i := DebugInfo(s, addr); i.lfun <= i.rfun ==> i.lfun < |s| && i.fnAddr == s[i.lfun].value
  {
    hide BinSearch, FileBack, Params;
  }

  /** The concrete failure: an entry at or below the key at every level, and a function above it. */
  lemma NestedFails()
    ensures var s := [Stab(0, 0, 0, 0), Stab(0, N_SO, 0, 5), Stab(0, N_FUN, 0, 10), Stab(0, N_SLINE, 0, 0),
                      Stab(0, N_FUN, 0, 11), Stab(0, N_SLINE, 0, 0)];
      BinSearch(s, 1, 5, N_FUN, 10) == (4, 5) && s[4].value > 10 && LastAtMost(s, 1, 5, N_FUN, 10) == 2
  {
    var s := [Stab(0, 0, 0, 0), Stab(0, N_SO, 0, 5), Stab(0, N_FUN, 0, 10), Stab(0, N_SLINE, 0, 0),
              Stab(0, N_FUN, 0, 11), Stab(0, N_SLINE, 0, 0)];
    var q0, q1 := Search(1, 5, 10, 1, false), Search(2, 5, 11, 2, true);
    var q2, q3, q4 := Search(4, 5, 11, 2, true), Search(4, 5, 12, 4, true), Search(5, 5, 12, 4, true);
    var q5 := Search(6, 5, 12, 4, true);
    assert StepBack(s, 1, 3, N_FUN) == StepBack(s, 1, 2, N_FUN) == 2;
    assert Turn(s, q0, N_FUN) == q1;
    assert StepBack(s, 2, 3, N_FUN) == 2;
    assert Turn(s, q1, N_FUN) == q2;
    assert Turn(s, q2, N_FUN) == q3;
    assert Turn(s, q3, N_FUN) == q4;
    assert StepBack(s, 5, 5, N_FUN) == 4;
    assert Turn(s, q4, N_FUN) == q5;
    assert Loop(s, q4, N_FUN) == q5;
    assert Loop(s, q0, N_FUN) == Loop(s, q1, N_FUN) == Loop(s, q2, N_FUN) == Loop(s, q3, N_FUN) == Loop(s, q4, N_FUN);
    assert ScanDown(s, 5, 4, N_FUN) == 4;
  }
}
