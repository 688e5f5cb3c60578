/** The two consumers of vprintfmt's characters: the batching buffer of lib/printf.c and the
    bounded buffer of vsnprintf (C99 section 7.19.6.5). */
module Printf {
  import opened Mmu
  import opened Numbers
  import opened Format

  const E_INVAL := 3

  function Concat(ss: seq<string>): string {
    if ss == [] then [] else Concat(ss[..|ss| - 1]) + ss[|ss| - 1]
  }

  lemma ConcatSnoc(ss: seq<string>, s: string)
    ensures Concat(ss + [s]) == Concat(ss) + s
  {
    assert (ss + [s])[..|ss|] == ss;
  }

  /** All calls of sys_cputs but the last are for 255 characters, and the last for fewer. */
  ghost predicate Batched(ss: seq<string>) {
    ss != [] && |ss[|ss| - 1]| < 255 && forall k :: 0 <= k < |ss| - 1 ==> |ss[k]| == 255
  }

  /** struct printbuf; payloads is what has been given to sys_cputs. */
  class PrintBuf {
    var idx: nat
    var cnt: nat
    const buf: array<char>
    ghost var payloads: seq<string>
    ghost var stream: string           // every character given to putch

    ghost predicate Valid()
      reads this, buf
    {
      && buf.Length == 256 && idx < 255 && cnt == |stream|
      && Concat(payloads) + buf[..idx] == stream && forall k :: 0 <= k < |payloads| ==> |payloads[k]| == 255
    }

    constructor ()
      ensures Valid() && fresh(buf) && stream == "" && payloads == []
    {
      buf := new char[256];
      idx, cnt, payloads, stream := 0, 0, [], "";
    }

    method SysCputs(n: nat)
      requires n <= buf.Length
      modifies this`payloads
      ensures payloads == old(payloads) + [buf[..n]]
    {
      payloads := payloads + [buf[..n]];
    }

    method Putch(ch: char)
      requires Valid()
      modifies this, buf
      ensures Valid() && stream == old(stream) + [ch]
    {
      buf[idx] := ch;
      idx := idx + 1;
      stream := stream + [ch];
      assert buf[..idx] == old(buf[..idx]) + [ch];
      if idx == 255 {
        ConcatSnoc(payloads, buf[..idx]);
        SysCputs(idx);
        idx := 0;
      }
      cnt := cnt + 1;
    }

    /** The rest of vcprintf: text is what vprintfmt gives to putch. */
    method Vcprintf(text: string) returns (n: nat)
      requires Valid() && stream == "" && payloads == []
      modifies this, buf
      ensures n == |text| && Concat(payloads) == text && Batched(payloads)
    {
      for k := 0 to |text|
        invariant Valid() && stream == text[..k]
      {
        Putch(text[k]);
      }
      ConcatSnoc(payloads, buf[..idx]);
      SysCputs(idx);
      n := cnt;
      assert text[..|text|] == text;
    }
  }

  /** struct sprintbuf over a caller's array: room is ebuf, pos is buf. */
  class SprintBuf {
    const mem: array<char>
    const room: nat                    // index of the last byte, kept for the NUL
    var pos: nat
    var cnt: nat
    ghost var stream: string

    ghost predicate Valid()
      reads this, mem
    {
      && room < mem.Length && cnt == |stream|
      && pos == (if |stream| < room then |stream| else room)
      && mem[..pos] == stream[..pos]
    }

    constructor (m: array<char>, n: nat)
      requires 1 <= n <= m.Length
      ensures mem == m && room == n - 1 && Valid() && stream == ""
    {
      mem, room, pos, cnt, stream := m, n - 1, 0, 0, "";
    }

    method Sprintputch(ch: char)
      requires Valid()
      modifies this, mem
      ensures Valid() && stream == old(stream) + [ch]
      ensures old(pos) <= pos && forall k :: pos <= k < mem.Length ==> mem[k] == old(mem[k])
    {
      cnt := cnt + 1;
      stream := stream + [ch];
      if pos < room {
        mem[pos] := ch;
        pos := pos + 1;
      }
    }
  }

  /** vsnprintf on a caller's array with the text vprintfmt produces: the first n - 1 characters
      at most, a NUL, nothing behind it, and the full length as the result. */
  method Vsnprintf(buf: array?<char>, n: int, text: string) returns (ret: int)
    requires buf != null && n >= 1 ==> n <= buf.Length
    modifies buf
    ensures buf == null || n < 1 ==> ret == -3 && (buf != null ==> buf[..] == old(buf[..]))
    ensures buf != null && n >= 1 ==>
      var k := if |text| < n - 1 then |text| else n - 1;
      && ret == |text| && k < buf.Length && buf[..k] == text[..k] && buf[k] == '\0'
      && forall i :: k < i < buf.Length ==> buf[i] == old(buf[i])
  {
    if buf == null || n < 1 { return -E_INVAL; }
    var b := new SprintBuf(buf, n);
    for k := 0 to |text|
      invariant b.Valid() && b.stream == text[..k] && b.mem == buf && b.room == n - 1 && fresh(b)
      invariant forall i :: b.pos <= i < buf.Length ==> buf[i] == old(buf[i])
    {
      b.Sprintputch(text[k]);
    }
    assert text[..|text|] == text;
    buf[b.pos] := '\0';
    ret := b.cnt;
  }

  // The whole calls: a format and its arguments

  /** No string the arguments name holds a NUL, nor does the format: they are C strings. */
  ghost predicate CStrings(fmt: string, str: Word -> string) {
    (forall k :: 0 <= k < |fmt| ==> fmt[k] != '\0') && forall w, k :: 0 <= k < |str(w)| ==> str(w)[k] != '\0'
  }

  /** cprintf: what the formatting emits is exactly what the payloads hold, and its length is the
      result. */
  method Cprintf(fmt: string, args: seq<Word>, str: Word -> string) returns (cnt: nat, b: PrintBuf)
    requires CStrings(fmt, str)
    ensures fresh(b) && cnt == |Text(fmt, 0, args, str)| && Concat(b.payloads) == Text(fmt, 0, args, str)
    ensures Batched(b.payloads)
  {
    var putch := new Stream();
    Vprintfmt(putch, fmt, args, str);
    b := new PrintBuf();
    cnt := b.Vcprintf(putch.out);
  }

  /** snprintf: the buffer holds the start of what the formatting emits. */
  method Snprintf(buf: array?<char>, n: int, fmt: string, args: seq<Word>, str: Word -> string) returns (rc: int)
    requires CStrings(fmt, str) && (buf != null && n >= 1 ==> n <= buf.Length)
    modifies buf
    ensures buf == null || n < 1 ==> rc == -3 && (buf != null ==> buf[..] == old(buf[..]))
    ensures buf != null && n >= 1 ==>
      var text := Text(fmt, 0, args, str);
      var k := if |text| < n - 1 then |text| else n - 1;
      && rc == |text| && k < buf.Length && buf[..k] == text[..k] && buf[k] == '\0'
      && forall i :: k < i < buf.Length ==> buf[i] == old(buf[i])
  {
    var putch := new Stream();
    Vprintfmt(putch, fmt, args, str);
    rc := Vsnprintf(buf, n, putch.out);
  }
}
