/** Pipes (fs/pipe.c): one page used as a ring of bytes. */
module Pipes {

  const PAGE_SIZE: int := 4096
  const CAPACITY: int := 4095

  type Bytes = seq<int>

  /** How a call goes on: finished, at the end because the other side is gone, interrupted by a signal,
      or asleep until the other side moves. */
  datatype Outcome = Finished | OtherGone | Interrupted | Asleep

  /** & (PAGE_SIZE - 1), also of a difference that wrapped around. */
  function Mask(x: int): int { x % PAGE_SIZE }

  lemma MaskIs(x: int)
    requires -PAGE_SIZE < x <= PAGE_SIZE
    ensures Mask(x) == if x == PAGE_SIZE then 0 else if x < 0 then x + PAGE_SIZE else x
  {
  }

  /** The bytes of a ring from `tail` up to `head`. */
  function Ring(b: Bytes, tail: int, head: int): (s: Bytes)
    requires |b| == PAGE_SIZE && 0 <= head < PAGE_SIZE && 0 <= tail < PAGE_SIZE
    ensures |s| <= CAPACITY && |s| == if tail <= head then head - tail else head - tail + PAGE_SIZE
  {
    if tail <= head then b[tail..head] else b[tail..] + b[..head]
  }

  function Min(a: int, b: int): int { if a < b then a else b }

  /** Taking a run of bytes that does not wrap around. */
  lemma TakeRun(b: Bytes, tail: int, head: int, n: int)
    requires |b| == PAGE_SIZE && 0 <= head < PAGE_SIZE && 0 <= tail < PAGE_SIZE
    requires 0 <= n <= |Ring(b, tail, head)| && tail + n <= PAGE_SIZE
    ensures b[tail..tail + n] == Ring(b, tail, head)[..n]
    ensures Ring(b, if tail + n == PAGE_SIZE then 0 else tail + n, head) == Ring(b, tail, head)[n..]
  {
  }

  /** Putting a run of bytes into free room that does not wrap around. */
  lemma PutRun(b: Bytes, c: Bytes, tail: int, head: int, n: int, s: Bytes)
    requires |b| == |c| == PAGE_SIZE && 0 <= head < PAGE_SIZE && 0 <= tail < PAGE_SIZE
    requires 0 <= n == |s| <= CAPACITY - |Ring(b, tail, head)| && head + n <= PAGE_SIZE
    requires forall i :: 0 <= i < PAGE_SIZE ==> c[i] == if head <= i < head + n then s[i - head] else b[i]
    ensures Ring(c, tail, if head + n == PAGE_SIZE then 0 else head + n) == Ring(b, tail, head) + s
  {
    var r, t := Ring(c, tail, if head + n == PAGE_SIZE then 0 else head + n), Ring(b, tail, head) + s;
    assert |r| == |t|;
    forall k | 0 <= k < |r|
      ensures r[k] == t[k]
    {
      assert tail + k < PAGE_SIZE || tail + k - PAGE_SIZE < PAGE_SIZE;
    }
  }

  class Pipe {
    const page: array<int>
    var head: int
    var tail: int
    var users: int                    // i_count: 2 while both sides are open

    constructor ()
      ensures Valid() && Contents() == [] && users == 2 && fresh(page)
    {
      page := new int[PAGE_SIZE];
      head, tail, users := 0, 0, 2;
    }

    ghost predicate Valid()
      reads this`head, this`tail
    {
      page.Length == PAGE_SIZE && 0 <= head < PAGE_SIZE && 0 <= tail < PAGE_SIZE
    }

    ghost function Contents(): (s: Bytes)
      requires Valid()
      reads this`head, this`tail, page
      ensures |s| <= CAPACITY
    {
      Ring(page[..], tail, head)
    }

    /** PIPE_SIZE */
    function Size(): (n: int)
      requires Valid()
      reads this`head, this`tail, page
      ensures n == |Contents()|
    {
      MaskIs(head - tail);
      Mask(head - tail)
    }

    /** One turn of the outer loop of read_pipe on a pipe that is not empty. */
    method TakeSome(count: int) returns (got: Bytes)
      requires Valid() && count > 0 && Contents() != []
      modifies this`tail
      ensures Valid() && 0 < |got| <= count && old(Contents()) == got + Contents()
    {
      var size := Size();
      var chars := PAGE_SIZE - tail;
      if chars > count {
        chars := count;
      }
      if chars > size {
        chars := size;
      }
      TakeRun(page[..], tail, head, chars);
      MaskIs(tail + chars);
      hide Mask, Ring;
      size := tail;
      tail := tail + chars;
      tail := Mask(tail);
      got := CopyOut(size, chars);
    }

    /** put_fs_byte of `n` bytes from place `first` on. */
    method CopyOut(first: int, n: int) returns (got: Bytes)
      requires 0 <= first && 0 <= n && first + n <= page.Length
      ensures got == page[first..first + n]
    {
      got := [];
      var chars, size := n, first;
      while chars > 0
        invariant 0 <= chars <= n && size + chars == first + n && got == page[first..size]
      {
        got := got + [page[size]];
        chars, size := chars - 1, size + 1;
      }
    }

    /** read_pipe between two sleeps; `signal` says whether one is pending. */
    method ReadPipe(count0: int, signal: bool) returns (got: Bytes, o: Outcome)
      requires Valid()
      modifies this`tail
      ensures Valid() && old(Contents()) == got + Contents()
      ensures |got| == if count0 <= 0 then 0 else Min(count0, |old(Contents())|)
      ensures o == if |got| >= count0 then Finished else if users != 2 then OtherGone
                   else if signal then Interrupted else Asleep
    {
      hide Ring, Mask, Contents;
      got := [];
      var count := count0;
      while count > 0
        invariant Valid() && old(Contents()) == got + Contents()
        invariant count == count0 - |got| && (count0 > 0 ==> count >= 0) && (count0 <= 0 ==> got == [])
        decreases count
        modifies this`tail
      {
        var size := Size();
        if size == 0 {
          return got, if users != 2 then OtherGone else if signal then Interrupted else Asleep;
        }
        var more := TakeSome(count);
        got := got + more;
        count := count - |more|;
      }
      o := Finished;
    }

    method PutSome(s: Bytes) returns (chars: int)
      requires Valid() && s != [] && |Contents()| < CAPACITY
      modifies this`head, page
      ensures Valid() && 0 < chars <= |s| && Contents() == old(Contents()) + s[..chars]
    {
      var size := PAGE_SIZE - 1 - Size();
      chars := PAGE_SIZE - head;
      if chars > |s| {
        chars := |s|;
      }
      if chars > size {
        chars := size;
      }
      ghost var b, h := page[..], head;
      MaskIs(head + chars);
      hide Mask, Ring;
      size := head;
      head := head + chars;
      head := Mask(head);
      var i := 0;
      while i < chars
        invariant 0 <= i <= chars && size == h + i
        invariant forall k {:trigger page[k]} :: 0 <= k < PAGE_SIZE ==>
          page[k] == if h <= k < h + i then s[k - h] else b[k]
        modifies page
      {
        page[size] := s[i];
        size, i := size + 1, i + 1;
      }
      PutRun(b, page[..], tail, h, chars, s[..chars]);
    }

    /** write_pipe between two sleeps. */
    method WritePipe(s: Bytes) returns (written: int, o: Outcome)
      requires Valid()
      modifies this`head, page
      ensures Valid() && written == Min(|s|, CAPACITY - |old(Contents())|)
      ensures Contents() == old(Contents()) + s[..written]
      ensures o == if written == |s| then Finished else if users != 2 then OtherGone else Asleep
    {
      hide Ring, Mask, Contents;
      written := 0;
      while written < |s|
        invariant Valid() && 0 <= written <= |s| && Contents() == old(Contents()) + s[..written]
        modifies this`head, page
      {
        var size := PAGE_SIZE - 1 - Size();
        if size == 0 {
          return written, if users != 2 then OtherGone else Asleep;
        }
        var chars := PutSome(s[written..]);
        assert s[..written] + s[written..][..chars] == s[..written + chars];
        written := written + chars;
      }
      o := Finished;
    }
  }

  // -------------------------------------------------------------------- runs

  /** A write, a read with or without a signal pending, or one side leaving. */
  datatype Op = Write(s: Bytes) | Read(count: int, signal: bool) | Leave

  /** The bytes in the pipe, all that was read and written so far, and how many sides are open. */
  datatype Stream = Stream(ring: Bytes, got: Bytes, put: Bytes, users: int)

  function Step(t: Stream, op: Op): (u: Stream)
    requires |t.ring| <= CAPACITY
    ensures |u.ring| <= CAPACITY
  {
    match op
    case Write(s) =>
      var n := Min(|s|, CAPACITY - |t.ring|);
      t.(ring := t.ring + s[..n], put := t.put + s[..n])
    case Read(count, _) =>
      var n := if count <= 0 then 0 else Min(count, |t.ring|);
      t.(ring := t.ring[n..], got := t.got + t.ring[..n])
    case Leave => t.(users := t.users - 1)
  }

  /** How the call goes on, seen from the stream. */
  function Ending(t: Stream, op: Op): Outcome {
    match op
    case Write(s) =>
      if |s| <= CAPACITY - |t.ring| then Finished else if t.users != 2 then OtherGone else Asleep
    case Read(count, signal) =>
      if count <= |t.ring| || count <= 0 then Finished
      else if t.users != 2 then OtherGone else if signal then Interrupted else Asleep
    case Leave => Finished
  }

  function Run(start: Stream, ops: seq<Op>): (t: Stream)
    requires |start.ring| <= CAPACITY
    ensures |t.ring| <= CAPACITY
  {
    if ops == [] then start else Step(Run(start, ops[..|ops| - 1]), ops[|ops| - 1])
  }

  /** First in, first out: however reads and writes alternate, what was read and then the ring is what
      was there and what was written. */
  lemma {:induction false} FirstInFirstOut(start: Stream, ops: seq<Op>)
    requires |start.ring| <= CAPACITY && start.got == start.put == []
    ensures var t := Run(start, ops); t.got + t.ring == start.ring + t.put
  {
    if ops == [] {
      assert [] + start.ring == start.ring + [];
    } else {
      FirstInFirstOut(start, ops[..|ops| - 1]);
      StepKeepsOrder(start.ring, Run(start, ops[..|ops| - 1]), ops[|ops| - 1]);
    }
  }

  lemma StepKeepsOrder(was: Bytes, t: Stream, op: Op)
    requires |t.ring| <= CAPACITY && t.got + t.ring == was + t.put
    ensures var u := Step(t, op); u.got + u.ring == was + u.put
  {
    match op
    case Write(s) =>
      var more := s[..Min(|s|, CAPACITY - |t.ring|)];
      Append(t.got, t.ring, more);
      Append(was, t.put, more);
    case Read(count, _) => Shift(t.got, t.ring, if count <= 0 then 0 else Min(count, |t.ring|));
    case Leave =>
  }

  lemma Append(a: Bytes, b: Bytes, c: Bytes)
    ensures a + (b + c) == a + b + c
  {
  }

  lemma Shift(a: Bytes, b: Bytes, n: int)
    requires 0 <= n <= |b|
    ensures a + b[..n] + b[n..] == a + b
  {
  }

  lemma Oldest(ring: Bytes, got: Bytes, left: Bytes)
    requires ring == got + left
    ensures got == ring[..|got|] && left == ring[|got|..]
  {
  }

  /** One call on the pipe itself. */
  method Call(p: Pipe, op: Op, ghost t: Stream) returns (got: Bytes, put: Bytes, o: Outcome)
    requires p.Valid() && p.Contents() == t.ring && p.users == t.users
    modifies p, p.page
    ensures p.Valid() && o == Ending(t, op)
    ensures Step(t, op) == Stream(p.Contents(), t.got + got, t.put + put, p.users)
  {
    hide Pipe.Contents;
    got, put, o := [], [], Finished;
    match op {
      case Write(s) =>
        var n;
        n, o := p.WritePipe(s);
        put := s[..n];
      case Read(count, signal) =>
        got, o := p.ReadPipe(count, signal);
        Oldest(t.ring, got, p.Contents());
      case Leave =>
        p.users := p.users - 1;
    }
    assert t.got + [] == t.got && t.put + [] == t.put;
  }

  /** Any run of calls on a real pipe, by any number of readers and writers: its head, its tail and its
      page never hold more than 4095 bytes, every call ends as the stream says, and what was read and
      then the pipe is what was there and what was written. */
  method Session(p: Pipe, ops: seq<Op>) returns (got: Bytes, put: Bytes, endings: seq<Outcome>)
    requires p.Valid()
    modifies p, p.page
    ensures p.Valid() && |p.Contents()| <= CAPACITY
    ensures got + p.Contents() == old(p.Contents()) + put
    ensures Run(Stream(old(p.Contents()), [], [], old(p.users)), ops) == Stream(p.Contents(), got, put, p.users)
    ensures |endings| == |ops| && forall i :: 0 <= i < |ops| ==>
      endings[i] == Ending(Run(Stream(old(p.Contents()), [], [], old(p.users)), ops[..i]), ops[i])
  {
    hide Pipe.Contents, Step, Ending;
    ghost var start := Stream(p.Contents(), [], [], p.users);
    got, put, endings := [], [], [];
    while |endings| < |ops|
      invariant |endings| <= |ops| && p.Valid()
      invariant Run(start, ops[..|endings|]) == Stream(p.Contents(), got, put, p.users)
      invariant forall i :: 0 <= i < |endings| ==> endings[i] == Ending(Run(start, ops[..i]), ops[i])
    {
      var n := |endings|;
      var read, written, o := Call(p, ops[n], Run(start, ops[..n]));
      assert ops[..n + 1][..n] == ops[..n];
      got, put, endings := got + read, put + written, endings + [o];
    }
    assert ops[..|endings|] == ops;
    FirstInFirstOut(start, ops);
  }
}
