/** Terminals on the heap (kernel/chr_drv/tty_io.c): three ring buffers of 1024 characters. */
module Ttys {
  import opened LineEdit

  /** & (TTY_BUF_SIZE - 1), also of a difference that wrapped around. */
  function Mask(x: int): int { x % TTY_BUF_SIZE }

  lemma MaskIs(x: int)
    requires -TTY_BUF_SIZE <= x <= TTY_BUF_SIZE
    ensures Mask(x) == if x == TTY_BUF_SIZE then 0 else if -TTY_BUF_SIZE < x < 0 then x + TTY_BUF_SIZE
                       else if x == -TTY_BUF_SIZE then 0 else x
  {
  }

  /** The characters of a ring from `tail` on. */
  function Ring(b: seq<int>, tail: int, head: int): (s: seq<int>)
    requires |b| == TTY_BUF_SIZE && 0 <= head < TTY_BUF_SIZE && 0 <= tail < TTY_BUF_SIZE
    ensures |s| <= ROOM
  {
    if tail <= head then b[tail..head] else b[tail..] + b[..head]
  }

  lemma RingGet(b: seq<int>, tail: int, head: int)
    requires |b| == TTY_BUF_SIZE && 0 <= head < TTY_BUF_SIZE && 0 <= tail < TTY_BUF_SIZE && tail != head
    ensures Ring(b, tail, head) == [b[tail]] + Ring(b, if tail == ROOM then 0 else tail + 1, head)
  {
  }

  class Queue {
    const buf: array<int>
    var head: int
    var tail: int
    var data: int

    constructor ()
      ensures Valid() && Contents() == [] && data == 0 && fresh(buf)
    {
      buf := new int[TTY_BUF_SIZE];
      head, tail, data := 0, 0, 0;
    }

    ghost predicate Valid()
      reads this`head, this`tail
    {
      buf.Length == TTY_BUF_SIZE && 0 <= head < TTY_BUF_SIZE && 0 <= tail < TTY_BUF_SIZE
    }

    ghost function Contents(): (s: seq<int>)
      requires Valid()
      reads this`head, this`tail, buf
      ensures |s| <= ROOM
    {
      Ring(buf[..], tail, head)
    }

    function Empty(): (e: bool)
      requires Valid()
      reads this`head, this`tail, buf
      ensures e <==> Contents() == []
    {
      tail == head
    }

    function Full(): (f: bool)
      requires Valid()
      reads this`head, this`tail, buf
      ensures f <==> |Contents()| == ROOM
    {
      MaskIs(tail - head - 1);
      hide Mask;
      Mask(tail - head - 1) == 0
    }

    method Putch(c: int)
      requires Valid()
      modifies this`head, buf
      ensures Valid() && Contents() == PutRing(old(Contents()), c)
    {
      MaskIs(head + 1);
      hide Mask;
      buf[head] := c;
      head := head + 1;
      head := Mask(head);
    }

    method Getch() returns (c: int)
      requires Valid() && Contents() != []
      modifies this`tail
      ensures Valid() && old(Contents()) == [c] + Contents()
    {
      RingGet(buf[..], tail, head);
      MaskIs(tail + 1);
      hide Mask, Ring;
      c := buf[tail];
      tail := tail + 1;
      tail := Mask(tail);
    }

    /** LAST */
    method Last() returns (c: int)
      requires Valid() && Contents() != []
      ensures c == Contents()[|Contents()| - 1]
    {
      MaskIs(head - 1);
      hide Mask;
      c := buf[Mask(head - 1)];
    }

    /** DEC of the head */
    method Dec()
      requires Valid() && Contents() != []
      modifies this`head
      ensures Valid() && Contents() == old(Contents())[..|old(Contents())| - 1]
    {
      MaskIs(head - 1);
      hide Mask;
      head := Mask(head - 1);
    }
  }

  /** How a reader goes on. */
  datatype Reading = Asleep | Done

  class Line {
    const readQ: Queue
    const writeQ: Queue
    const secondary: Queue
    var stopped: bool
    var out: seq<int>                // what the console driver was given
    var signals: seq<int>            // the control characters that became signals

    constructor ()
      ensures Valid() && Abs() == Tty([], [], 0, [], false, [])
      ensures fresh(readQ) && fresh(writeQ) && fresh(secondary)
      ensures fresh(readQ.buf) && fresh(writeQ.buf) && fresh(secondary.buf)
    {
      readQ := new Queue();
      writeQ := new Queue();
      secondary := new Queue();
      stopped, out, signals := false, [], [];
    }

    /** Three rings of their own; nothing waits to be written. */
    ghost predicate Valid()
      reads this, readQ, writeQ, secondary, readQ.buf, writeQ.buf, secondary.buf
    {
      && readQ != writeQ && readQ != secondary && writeQ != secondary
      && readQ.buf != writeQ.buf && readQ.buf != secondary.buf && writeQ.buf != secondary.buf
      && readQ.Valid() && writeQ.Valid() && secondary.Valid() && writeQ.Contents() == []
    }

    ghost function Abs(): Tty
      requires Valid()
      reads this, readQ, writeQ, secondary, readQ.buf, writeQ.buf, secondary.buf
    {
      Tty(readQ.Contents(), secondary.Contents(), secondary.data, out, stopped, signals)
    }

    /** tty->write: the console driver takes all that waits. */
    method Flush()
      requires writeQ.Valid()
      modifies this`out, writeQ`tail
      ensures writeQ.Valid() && writeQ.Contents() == [] && out == old(out) + old(writeQ.Contents())
    {
      ghost var all := writeQ.Contents();
      while !writeQ.Empty()
        invariant writeQ.Valid() && out + writeQ.Contents() == old(out) + all
        decreases |writeQ.Contents()|
      {
        var c := writeQ.Getch();
        out := out + [c];
      }
    }

    /** The echo of one or two characters, or of none. */
    method Emit(s: seq<int>)
      requires Valid() && |s| <= 2
      modifies this`out, writeQ`head, writeQ`tail, writeQ.buf
      ensures Valid() && Abs() == old(Abs()).(out := old(out) + s)
    {
      hide Queue.Contents, Ring;
      if |s| > 0 {
        writeQ.Putch(s[0]);
      }
      if |s| > 1 {
        writeQ.Putch(s[1]);
      }
      Flush();
    }

    /** A character from the keyboard. */
    method Key(c: int)
      requires Valid()
      modifies readQ`head, readQ.buf
      ensures Valid() && Abs() == old(Abs()).(read := PutRing(old(Abs()).read, c))
    {
      readQ.Putch(c);
    }

    /** The last character of the line goes, from the screen too. */
    method Erase(m: Mode, c: int)
      requires Valid() && Abs().sec != [] && c == Abs().sec[|Abs().sec| - 1]
      modifies this`out, writeQ`head, writeQ`tail, writeQ.buf, secondary`head
      ensures Valid()
      ensures var t := old(Abs());
        Abs() == t.(sec := t.sec[..|t.sec| - 1], out := if m.echo then t.out + Rub(c) else t.out)
    {
      hide Queue.Contents, Ring, PutRing;
      if m.echo {
        Emit(Rub(c));
      }
      secondary.Dec();
    }

    /** The loop for the kill character. */
    method KillLine(m: Mode)
      requires Valid()
      modifies this`out, writeQ`head, writeQ`tail, writeQ.buf, secondary`head
      ensures Valid()
      ensures var t := old(Abs()); var k := LineStart(m, t.sec);
        Abs() == t.(sec := t.sec[..k], out := if m.echo then t.out + Rubs(t.sec[k..]) else t.out)
    {
      hide Queue.Contents, Ring, PutRing, Rub, Rubs, LineStart;
      ghost var t, k, n := Abs(), LineStart(m, Abs().sec), |Abs().sec|;
      ghost var rubbed: seq<int> := [];
      assert t.sec[..n] == t.sec;
      while !secondary.Empty()
        invariant Valid() && k <= n <= |t.sec|
        invariant Abs() == t.(sec := t.sec[..n], out := if m.echo then t.out + rubbed else t.out)
        invariant rubbed + Rubs(t.sec[k..n]) == Rubs(t.sec[k..])
        decreases n
      {
        var c := secondary.Last();
        assert c == t.sec[n - 1];
        if Ends(m, c) {
          break;
        }
        RubsStep(t.out, rubbed, t.sec, k, n);
        rubbed := rubbed + Rub(c);
        Erase(m, c);
        assert t.sec[..n][..n - 1] == t.sec[..n - 1];
        n := n - 1;
      }
      assert n == k;
      NoRubs(t.sec, k);
    }

    /** A character that is none of the special ones. */
    method Accept(m: Mode, c: int)
      requires Valid()
      modifies this`out, writeQ`head, writeQ`tail, writeQ.buf, secondary`head, secondary`data, secondary.buf
      ensures Valid()
      ensures var t := old(Abs());
        Abs() == t.(data := t.data + (if Ends(m, c) then 1 else 0),
                    out := if m.echo then t.out + Echo(m, c) else t.out,
                    sec := PutRing(t.sec, c))
    {
      hide Queue.Contents, Ring, PutRing;
      if Ends(m, c) {
        secondary.data := secondary.data + 1;
      }
      if m.echo {
        Emit(Echo(m, c));
      }
      secondary.Putch(c);
    }

    /** One turn of the loop of copy_to_cooked. */
    method Turn(m: Mode)
      requires Valid() && Abs().read != []
      modifies this`out, this`stopped, this`signals, readQ`tail, writeQ`head, writeQ`tail, writeQ.buf
      modifies secondary`head, secondary`data, secondary.buf
      ensures Valid() && Abs() == Cook1(m, old(Abs()))
    {
      hide Queue.Contents, Ring, PutRing, Echo, Rub, Rubs, LineStart, Translate;
      ghost var t := Abs();
      var raw := readQ.Getch();
      assert raw == t.read[0] && Abs() == t.(read := t.read[1..]);
      var i := Translate(m, raw);
      if i.Ignored? {
        return;
      }
      var c := i.c;
      if m.canon {
        if c == m.kill {
          KillLine(m);
          return;
        }
        if c == m.erase {
          if secondary.Empty() {
            return;
          }
          var last := secondary.Last();
          if Ends(m, last) {
            return;
          }
          Erase(m, last);
          return;
        }
        if c == m.stop {
          stopped := true;
          return;
        }
        if c == m.start {
          stopped := false;
          return;
        }
      }
      if m.isig && (c == m.intr || c == m.quit || c == m.susp) {
        signals := signals + [c];
        return;
      }
      Accept(m, c);
    }

    method CopyToCooked(m: Mode)
      requires Valid()
      modifies this`out, this`stopped, this`signals, readQ`tail, writeQ`head, writeQ`tail, writeQ.buf
      modifies secondary`head, secondary`data, secondary.buf
      ensures Valid() && Abs() == CookAll(m, old(Abs()))
    {
      hide Queue.Contents, Ring, Cook1;
      while !readQ.Empty() && !secondary.Full()
        invariant Valid() && CookAll(m, Abs()) == CookAll(m, old(Abs()))
        decreases |Abs().read|
      {
        OneLess(m, Abs());
        Turn(m);
      }
    }

    /** The next character for a reader. */
    method Next(m: Mode) returns (c: int)
      requires Valid() && Abs().sec != []
      modifies secondary`tail, secondary`data
      ensures Valid() && c == old(Abs()).sec[0] && Abs() == After(m, old(Abs()), 1)
    {
      ghost var t := Abs();
      OneTaken(m, t.sec);
      hide Queue.Contents, Ring;
      c := secondary.Getch();
      if c == m.eof || c == 10 {
        secondary.data := secondary.data - 1;
      }
    }

    /** The inner loop of tty_read. */
    method TakeChars(m: Mode, nr0: int) returns (got: seq<int>, eof: bool)
      requires Valid() && nr0 > 0 && Abs().sec != []
      modifies secondary`tail, secondary`data
      ensures Valid()
      ensures var t := old(Abs()); var k := Take(m, t.sec, nr0);
        Abs() == After(m, t, k.n) && eof == k.atEof && got == t.sec[..if eof then k.n - 1 else k.n]
    {
      hide Queue.Contents, Ring, Take, After, PutRing, Lines, Mask;
      got := [];
      ghost var t, n := Abs(), 0;
      NoneTaken(m, t);
      while true
        invariant Valid() && 0 <= n < |t.sec| && n < nr0 && got == t.sec[..n]
        invariant Abs() == After(m, t, n)
        invariant Take(m, t.sec, nr0) == More(n, Take(m, t.sec[n..], nr0 - n))
        decreases nr0 - n
      {
        TakeStep(m, t, n, nr0 - n);
        var c := Next(m);
        assert Abs() == After(m, t, n + 1) && c == t.sec[n];
        n := n + 1;
        if c == m.eof && m.canon {
          return got, true;
        }
        got := got + [c];
        if |got| == nr0 || secondary.Empty() {
          return got, false;
        }
        TakeMore(m, t.sec, n - 1, nr0);
      }
    }

    /** tty_read between two sleeps: what the user gets, and whether the call goes on sleeping. */
    method TtyRead(m: Mode, nr: int) returns (got: seq<int>, r: Reading)
      requires Valid()
      modifies secondary`tail, secondary`data
      ensures Valid()
      ensures var t := old(Abs());
        if nr <= 0 then got == [] && r == Done && Abs() == t
        else if Waits(m, t) then got == [] && r == Asleep && Abs() == t
        else
          var k := Take(m, t.sec, nr);
          && got == (if k.atEof then t.sec[..k.n - 1] else t.sec[..k.n])
          && Abs() == After(m, t, k.n)
          && (r == Done <==> m.canon || k.n == nr)
    {
      if nr <= 0 {
        return [], Done;
      }
      if secondary.Empty() || (m.canon && !readQ.Full() && secondary.data == 0) {
        return [], Asleep;
      }
      var eof;
      hide Queue.Contents, Ring;
      got, eof := TakeChars(m, nr);
      r := if m.canon || |got| == nr then Done else Asleep;
    }

    /** tty_write to the console. */
    method TtyWrite(o: OutMode, s: seq<int>) returns (n: int)
      requires Valid()
      modifies this`out, writeQ`head, writeQ`tail, writeQ.buf
      ensures Valid() && n == |s|
      ensures Abs() == old(Abs()).(out := old(out) + PutAll([], PostAll(o, s)))
    {
      hide Queue.Contents, Ring, PutRing, PutAll, PostAll;
      var i, crFlag := 0, false;
      NothingWritten(o, s);
      while i < |s|
        invariant 0 <= i <= |s| && writeQ.Valid()
        invariant crFlag ==> i < |s| && |Post(o, s[i])| == 2
        invariant writeQ.Contents() ==
          if crFlag then PutRing(PutAll([], PostAll(o, s[..i])), 13) else PutAll([], PostAll(o, s[..i]))
        decreases |s| - i, !crFlag
        modifies writeQ`head, writeQ.buf
      {
        WriteStep(o, s, i);
        var c := s[i];
        if o.opost {
          if c == 13 && o.ocrnl {
            c := 10;
          } else if c == 10 && o.onlret {
            c := 13;
          }
          if c == 10 && !crFlag && o.onlcr {
            crFlag := true;
            writeQ.Putch(13);
            continue;
          }
          if o.olcuc {
            c := Upper(o, c);
          }
        }
        i := i + 1;
        crFlag := false;
        writeQ.Putch(c);
      }
      assert s[..i] == s;
      Flush();
      n := |s|;
    }
  }

  lemma OneLess(m: Mode, t: Tty)
    requires t.read != []
    ensures |Cook1(m, t).read| < |t.read|
  {
  }

  /** A terminal from whose ring `n` characters were taken. */
  ghost function After(m: Mode, t: Tty, n: nat): Tty
    requires n <= |t.sec|
  {
    t.(sec := t.sec[n..], data := t.data - Lines(m, t.sec[..n]))
  }

  function More(n: nat, r: Taken): Taken { Taken(n + r.n, r.atEof) }

  lemma NoneTaken(m: Mode, t: Tty)
    ensures t.sec[0..] == t.sec && t.sec[..0] == [] && After(m, t, 0) == t
  {
  }

  lemma OneTaken(m: Mode, s: seq<int>)
    requires s != []
    ensures Lines(m, s[..1]) == if Ends(m, s[0]) then 1 else 0
  {
    assert s[..1][..0] == [];
    assert Lines(m, s[..1][..0]) == 0;
  }

  lemma TakeStep(m: Mode, t: Tty, n: nat, nr: int)
    requires n < |t.sec| && nr > 0
    ensures After(m, t, n).sec == t.sec[n..] && After(m, After(m, t, n), 1) == After(m, t, n + 1)
    ensures After(m, t, n + 1).sec == t.sec[n + 1..]
    ensures t.sec[..n + 1] == t.sec[..n] + [t.sec[n]] && t.sec[n..][0] == t.sec[n]
    ensures var r, s := Take(m, t.sec[n..], nr), t.sec;
      if m.canon && s[n] == m.eof then r == Taken(1, true)
      else if nr == 1 || n + 1 == |s| then r == Taken(1, false)
      else r == More(1, Take(m, s[n + 1..], nr - 1))
  {
    var s := t.sec;
    assert s[..n + 1][..n] == s[..n];
    assert s[n..][1..] == s[n + 1..];
    OneTaken(m, s[n..]);
  }

  lemma TakeMore(m: Mode, s: seq<int>, n: nat, nr: int)
    requires n + 1 < |s| && n + 1 < nr && !(m.canon && s[n] == m.eof)
    ensures Take(m, s[n..], nr - n) == More(1, Take(m, s[n + 1..], nr - (n + 1)))
    ensures More(n, Take(m, s[n..], nr - n)) == More(n + 1, Take(m, s[n + 1..], nr - (n + 1)))
  {
    assert s[n..][1..] == s[n + 1..];
  }

  lemma PutFew(ring: seq<int>, p: seq<int>)
    requires 1 <= |p| <= 2
    ensures PutAll(ring, p) == if |p| == 1 then PutRing(ring, p[0]) else PutRing(PutRing(ring, p[0]), p[1])
  {
    assert PutAll(ring, []) == ring;
    assert [p[0]][..0] == [];
    assert PutAll(ring, [p[0]]) == PutRing(ring, p[0]);
    if |p| == 1 {
      assert p == [p[0]];
    } else {
      assert p[..1] == [p[0]];
    }
  }

  lemma NothingWritten(o: OutMode, s: seq<int>)
    ensures PutAll([], PostAll(o, s[..0])) == []
  {
  }

  lemma WriteStep(o: OutMode, s: seq<int>, i: int)
    requires 0 <= i < |s|
    ensures var p, ring := Post(o, s[i]), PutAll([], PostAll(o, s[..i]));
      && 1 <= |p| <= 2
      && PutAll([], PostAll(o, s[..i + 1])) ==
         if |p| == 1 then PutRing(ring, p[0]) else PutRing(PutRing(ring, p[0]), p[1])
  {
    var p, q := Post(o, s[i]), PostAll(o, s[..i]);
    assert s[..i + 1][..i] == s[..i];
    PutAllSplit([], q, p);
    assert PostAll(o, s[..i + 1]) == q + p;
    PutFew(PutAll([], q), p);
  }

  lemma NoRubs(s: seq<int>, k: int)
    requires 0 <= k <= |s|
    ensures Rubs(s[k..k]) == []
  {
  }

  lemma RubsStep(out: seq<int>, rubbed: seq<int>, s: seq<int>, k: int, n: int)
    requires 0 <= k < n <= |s|
    ensures rubbed + Rub(s[n - 1]) + Rubs(s[k..n - 1]) == rubbed + Rubs(s[k..n])
    ensures out + rubbed + Rub(s[n - 1]) == out + (rubbed + Rub(s[n - 1]))
  {
    assert s[k..n][..n - k - 1] == s[k..n - 1];
  }
}
