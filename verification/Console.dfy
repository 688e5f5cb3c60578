/** The console input ring of kern/console.c. It has no full test: the write that would fill
    it makes it look empty. */
module Console {
  const CONSBUFSIZE := 512
  type Byte = b: int | 0 <= b < 256

  /** What the ring holds, seen from outside: every character stored so far, and how many of
      the last ones are still to be read. */
  datatype Ring = Ring(input: seq<Byte>, pending: nat)

  function Content(r: Ring): seq<Byte>
    requires r.pending <= |r.input|
  {
    r.input[|r.input| - r.pending..]
  }

  ghost predicate Sound(r: Ring) { r.pending < CONSBUFSIZE && r.pending <= |r.input| }

  /** cons.buf[cons.wpos++] = c: a 512th outstanding character makes the count 0 again. */
  function Put(r: Ring, c: Byte): Ring {
    Ring(r.input + [c], if r.pending + 1 == CONSBUFSIZE then 0 else r.pending + 1)
  }

  /** The characters an interrupt routine delivers up to its -1: zeros are dropped, the rest
      stored as bytes. */
  function Feed(r: Ring, cs: seq<int>): Ring
    decreases |cs|
  {
    if cs == [] then r
    else Feed(if cs[0] == 0 then r else Put(r, cs[0] % 256), cs[1..])
  }

  /** cons_getc after its polling: the character read, or 0. */
  function Get(r: Ring): (Ring, int) {
    if r.pending == 0 || r.pending > |r.input| then (r, 0)
    else (r.(pending := r.pending - 1), r.input[|r.input| - r.pending])
  }

  lemma FeedOne(r: Ring, c: int)
    ensures Feed(r, [c]) == if c == 0 then r else Put(r, c % 256)
  {
    var r1 := if c == 0 then r else Put(r, c % 256);
    assert [c][1..] == [];
    assert Feed(r1, []) == r1;
  }

  class Cons {
    const buf: array<Byte>
    var rpos: nat
    var wpos: nat
    ghost var input: seq<Byte>         // every character stored so far

    /** The distance from rpos to wpos around the ring. */
    ghost function Pending(): nat
      reads this
    {
      if rpos <= wpos then wpos - rpos else if wpos + CONSBUFSIZE >= rpos then wpos + CONSBUFSIZE - rpos else 0
    }

    ghost predicate Valid()
      reads this, buf
    {
      && buf.Length == CONSBUFSIZE && rpos < CONSBUFSIZE && wpos < CONSBUFSIZE
      && Pending() <= |input|
      && forall k :: 1 <= k <= Pending() ==> buf[Back(wpos, k)] == input[|input| - k]
    }

    ghost function Abs(): Ring
      reads this
    {
      Ring(input, Pending())
    }

    constructor ()
      ensures Valid() && Abs() == Ring([], 0)
    {
      buf := new Byte[CONSBUFSIZE];
      rpos, wpos, input := 0, 0, [];
    }

    /** cons_intr: proc delivers the characters cs and then -1. */
    method Intr(cs: seq<int>)
      requires Valid()
      modifies this, buf
      ensures Valid() && Abs() == Feed(old(Abs()), cs)
    {
      var i := 0;
      while i < |cs|
        invariant Valid() && 0 <= i <= |cs| && Feed(Abs(), cs[i..]) == Feed(old(Abs()), cs)
      {
        assert cs[i..][1..] == cs[i + 1..];
        if cs[i] != 0 { Store(cs[i] % 256); }
        i := i + 1;
      }
      assert cs[|cs|..] == [];
    }

    method Store(c: Byte)
      requires Valid()
      modifies this, buf
      ensures Valid() && Abs() == Put(old(Abs()), c)
    {
      buf[wpos] := c;
      wpos := wpos + 1;
      if wpos == CONSBUFSIZE { wpos := 0; }
      input := input + [c];
      forall k | 1 <= k <= Pending() ensures buf[Back(wpos, k)] == input[|input| - k] {
        if k > 1 {
          assert Back(wpos, k) == Back(old(wpos), k - 1) != old(wpos);
          assert old(buf[Back(wpos, k - 1)]) == old(input)[|old(input)| - (k - 1)];
        }
      }
    }

    /** cons_getc, with what polling the two devices delivers. */
    method Getc(serial: seq<int>, kbd: seq<int>) returns (c: int)
      requires Valid()
      modifies this, buf
      ensures Valid() && (Abs(), c) == Get(Feed(Feed(old(Abs()), serial), kbd))
    {
      Intr(serial);
      Intr(kbd);
      if rpos != wpos {
        assert Back(wpos, Pending()) == rpos;
        c := buf[rpos];
        rpos := rpos + 1;
        if rpos == CONSBUFSIZE { rpos := 0; }
        return c;
      }
      return 0;
    }
  }

  /** k positions before wpos around the ring. */
  function Back(wpos: nat, k: nat): int {
    if k <= wpos then wpos - k else wpos + CONSBUFSIZE - k
  }

  // Runs

  /** Interrupts deliver characters; readers call cons_getc. */
  datatype Event = Deliver(c: int) | Read

  /** The ring after a run, with what the reads returned. */
  function Play(r: Ring, es: seq<Event>): (Ring, seq<int>)
    decreases |es|
  {
    if es == [] then (r, [])
    else match es[0]
      case Deliver(c) => Play(Feed(r, [c]), es[1..])
      case Read =>
        var (r1, c) := Get(r);
        var (r2, out) := Play(r1, es[1..]);
        (r2, [c] + out)
  }

  /** The same run of an unbounded first-in-first-out queue. */
  function Fifo(q: seq<Byte>, es: seq<Event>): (seq<Byte>, seq<int>)
    decreases |es|
  {
    if es == [] then (q, [])
    else match es[0]
      case Deliver(c) => Fifo(if c == 0 then q else q + [c % 256], es[1..])
      case Read =>
        var (q2, out) := Fifo(if q == [] then q else q[1..], es[1..]);
        (q2, [if q == [] then 0 else q[0]] + out)
  }

  /** At no point of the run does the queue hold more than 511 characters. */
  ghost predicate Fits(q: seq<Byte>, es: seq<Event>)
    decreases |es|
  {
    |q| < CONSBUFSIZE && (es != [] ==> match es[0]
      case Deliver(c) => Fits(if c == 0 then q else q + [c % 256], es[1..])
      case Read => Fits(if q == [] then q else q[1..], es[1..]))
  }

  /** As long as at most 511 characters are outstanding the ring is exactly a FIFO queue. */
  lemma {:induction false} RingIsFifo(r: Ring, es: seq<Event>)
    requires Sound(r) && Fits(Content(r), es)
    ensures var (r', out) := Play(r, es); Sound(r') && (Content(r'), out) == Fifo(Content(r), es)
    decreases |es|
  {
    if es != [] {
      match es[0]
      case Deliver(c) =>
        FeedOne(r, c);
        var r1 := Feed(r, [c]);
        assert r1 == if c == 0 then r else Put(r, c % 256);
        if c != 0 {
          assert Fits(Content(r) + [c % 256], es[1..]);
          assert Content(r1) == Content(r) + [c % 256];
        }
        RingIsFifo(r1, es[1..]);
      case Read =>
        var (r1, _) := Get(r);
        if r.pending > 0 { assert Content(r1) == Content(r)[1..]; }
        RingIsFifo(r1, es[1..]);
    }
  }

  function Delivered(cs: seq<int>): seq<Event> {
    if cs == [] then [] else [Deliver(cs[0])] + Delivered(cs[1..])
  }

  /** What an interrupt routine delivers at once is the run of its characters. */
  lemma {:induction false} FeedIsRun(r: Ring, cs: seq<int>)
    ensures Play(r, Delivered(cs)).0 == Feed(r, cs)
    decreases |cs|
  {
    if cs != [] {
      FeedOne(r, cs[0]);
      assert Delivered(cs)[0] == Deliver(cs[0]) && Delivered(cs)[1..] == Delivered(cs[1..]);
      FeedIsRun(Feed(r, [cs[0]]), cs[1..]);
    }
  }

  /** After the run the ring holds what the queue holds. */
  ghost predicate Agrees(r: Ring, q: seq<Byte>, es: seq<Event>) {
    var r' := Play(r, es).0;
    r'.pending <= |r'.input| && Content(r') == Fifo(q, es).0
  }

  /** The ring agrees with the queue all along a run exactly if at no point more than 511
      characters are outstanding. */
  lemma RingIsFifoExact(r: Ring, es: seq<Event>)
    requires Sound(r)
    ensures (forall k: nat :: k <= |es| ==> Agrees(r, Content(r), es[..k])) <==> Fits(Content(r), es)
  {
    if Fits(Content(r), es) {
      forall k: nat | k <= |es| ensures Agrees(r, Content(r), es[..k]) {
        FitsPrefix(Content(r), es, k);
        RingIsFifo(r, es[..k]);
      }
    } else if forall k: nat :: k <= |es| ==> Agrees(r, Content(r), es[..k]) {
      AgreementFits(r, es);
    }
  }

  lemma {:induction false} FitsPrefix(q: seq<Byte>, es: seq<Event>, k: nat)
    requires Fits(q, es) && k <= |es|
    ensures Fits(q, es[..k])
    decreases k
  {
    if k > 0 {
      assert es[..k][0] == es[0] && es[..k][1..] == es[1..][..k - 1];
      FitsPrefix(QueueAfter(q, es[0]), es[1..], k - 1);
    }
  }

  function QueueAfter(q: seq<Byte>, e: Event): seq<Byte> {
    match e
    case Deliver(c) => if c == 0 then q else q + [c % 256]
    case Read => if q == [] then q else q[1..]
  }

  function RingAfter(r: Ring, e: Event): Ring {
    match e
    case Deliver(c) => Feed(r, [c])
    case Read => Get(r).0
  }

  lemma {:induction false} AgreementFits(r: Ring, es: seq<Event>)
    requires Sound(r) && forall k: nat :: k <= |es| ==> Agrees(r, Content(r), es[..k])
    ensures Fits(Content(r), es)
    decreases |es|
  {
    if es != [] {
      var q, r1, q1 := Content(r), RingAfter(r, es[0]), QueueAfter(Content(r), es[0]);
      EventAccounts(r, es);
      assert Agrees(r, q, es[..1]);
      assert es[..1] == [es[0]];
      OneEvent(r, q, es[0]);
      forall k: nat | k <= |es| - 1 ensures Agrees(r1, Content(r1), es[1..][..k]) {
        assert Agrees(r, q, es[..k + 1]);
        assert es[..k + 1][0] == es[0] && es[..k + 1][1..] == es[1..][..k];
        FirstEvent(r, q, es[..k + 1]);
      }
      hide Feed, Get, Play, Fifo, Agrees;
      AgreementFits(r1, es[1..]);
    }
  }

  lemma FirstEvent(r: Ring, q: seq<Byte>, es: seq<Event>)
    requires es != []
    ensures Agrees(r, q, es) <==> Agrees(RingAfter(r, es[0]), QueueAfter(q, es[0]), es[1..])
  {
    hide Feed, Get;
  }

  lemma OneEvent(r: Ring, q: seq<Byte>, e: Event)
    requires Agrees(r, q, [e])
    ensures var r1 := RingAfter(r, e); r1.pending <= |r1.input| && Content(r1) == QueueAfter(q, e)
  {
    FirstEvent(r, q, [e]);
    assert [e][1..] == [];
  }

  /** The characters a run writes to the ring, in order. */
  function Written(es: seq<Event>): seq<Byte>
    decreases |es|
  {
    if es == [] then []
    else (if es[0].Deliver? && es[0].c != 0 then [es[0].c % 256] else []) + Written(es[1..])
  }

  /** Successful reads of a run. */
  function Taken(r: Ring, es: seq<Event>): nat
    decreases |es|
  {
    if es == [] then 0
    else match es[0]
      case Deliver(c) => Taken(Feed(r, [c]), es[1..])
      case Read => (if r.pending == 0 then 0 else 1) + Taken(Get(r).0, es[1..])
  }

  /** How often a run fills the ring and so loses what was unread. */
  function Overflows(r: Ring, es: seq<Event>): nat
    decreases |es|
  {
    if es == [] then 0
    else match es[0]
      case Deliver(c) =>
        (if c != 0 && r.pending + 1 == CONSBUFSIZE then 1 else 0) + Overflows(Feed(r, [c]), es[1..])
      case Read => Overflows(Get(r).0, es[1..])
  }

  /** Over every run what has been stored is what was written, in order, and each overflow makes
      512 characters unreadable. */
  lemma {:induction false} RunAccounts(r: Ring, es: seq<Event>)
    requires Sound(r)
    ensures var r' := Play(r, es).0;
      && Sound(r') && r'.input == r.input + Written(es)
      && r'.pending + Taken(r, es) + 512 * Overflows(r, es) == r.pending + |Written(es)|
    decreases |es|
  {
    if es != [] {
      var r1 := if es[0].Deliver? then Feed(r, [es[0].c]) else Get(r).0;
      EventAccounts(r, es);
      hide *;
      RunAccounts(r1, es[1..]);
    }
  }

  lemma {:induction false} EventAccounts(r: Ring, es: seq<Event>)
    requires Sound(r) && es != []
    ensures var r1 := if es[0].Deliver? then Feed(r, [es[0].c]) else Get(r).0;
      && Sound(r1) && Play(r, es).0 == Play(r1, es[1..]).0
      && r1.input + Written(es[1..]) == r.input + Written(es)
      && r1.pending + |Written(es[1..])| + Taken(r, es) + 512 * Overflows(r, es)
         == r.pending + |Written(es)| + Taken(r1, es[1..]) + 512 * Overflows(r1, es[1..])
  {
    var rest := es[1..];
    match es[0]
    case Deliver(c) =>
      FeedOne(r, c);
      var w: seq<Byte> := if c != 0 then [c % 256] else [];
      assert Written(es) == w + Written(rest);
      assert Feed(r, [c]).input == r.input + w;
      assert (r.input + w) + Written(rest) == r.input + (w + Written(rest));
    case Read =>
      assert Written(es) == Written(rest);
  }

  /** From the empty ring: readable are exactly the last (written - read) mod 512 of the
      characters written, in order. */
  lemma {:induction false} RingHoldsLatest(es: seq<Event>)
    ensures var r := Play(Ring([], 0), es).0;
      var w := Written(es);
      var n := (|w| - Taken(Ring([], 0), es)) % 512;
      n <= |w| && Sound(r) && Content(r) == w[|w| - n..]
  {
    hide *;
    var r, w := Play(Ring([], 0), es).0, Written(es);
    EmptySound();
    RunAccounts(Ring([], 0), es);
    SoundParts(r);
    assert [] + w == w;
    Remainder(|w| - Taken(Ring([], 0), es), r.pending, Overflows(Ring([], 0), es));
    ContentIs(r);
  }

  lemma EmptySound()
    ensures Sound(Ring([], 0))
  {
  }

  lemma SoundParts(r: Ring)
    requires Sound(r)
    ensures r.pending < 512 && r.pending <= |r.input|
  {
  }

  lemma ContentIs(r: Ring)
    requires r.pending <= |r.input|
    ensures Content(r) == r.input[|r.input| - r.pending..]
  {
  }

  lemma Remainder(x: int, p: nat, k: nat)
    requires p < 512 && x == p + 512 * k
    ensures x % 512 == p
  {
  }

  /** With 511 characters outstanding one more empties the ring. */
  lemma OverflowLosesAll(r: Ring, c: int)
    requires Sound(r) && r.pending == CONSBUFSIZE - 1 && c != 0
    ensures Sound(Feed(r, [c])) && Content(Feed(r, [c])) == [] && Get(Feed(r, [c])).1 == 0
  {
    FeedOne(r, c);
  }
}
