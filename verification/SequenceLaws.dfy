/** What every control sequence of kernel/chr_drv/console.c does to the cursor and to each cell of the grid,
    in numbers: `k` is the parameter, with 1 for one that is omitted or zero. */
module SequenceLaws {
  import opened Terminal
  import opened ScreenLaws

  /** ESC [ n c */
  function Csi(n: nat, c: int): seq<int> { [27, '[' as int] + Digits(n) + [c] }

  /** A character that can end a control sequence. */
  predicate Final1(c: int) { c != ';' as int && !('0' as int <= c <= '9' as int) }

  function Open(t: Term, npar: int, p0: int, p1: int): Term { Read(t, npar, p0, p1).(state := NORMAL) }

  lemma CsiIs(t: Term, n: nat, c: int)
    requires WfTerm(t) && t.state == NORMAL && n < WORD && Final1(c)
    ensures WfTerm(Open(t, 0, n, 0)) && Write(t, Csi(n, c)) == Control(Open(t, 0, n, 0), c)
  {
    hide Row, Write, Put, Digits, Control;
    ParameterRead(t, n);
    WriteSplit(t, [27, '[' as int] + Digits(n), [c]);
    FinalByte(Read(t, 0, n, 0), c);
  }

  lemma AddressIs(t: Term, row: nat, col: nat, c: int)
    requires WfTerm(t) && t.state == NORMAL && row < WORD && col < WORD && Final1(c)
    ensures WfTerm(Open(t, 1, row, col))
    ensures Write(t, Address(row, col) + [c]) == Control(Open(t, 1, row, col), c)
  {
    hide Row, Write, Put, Digits, Control;
    AddressRead(t, row, col);
    WriteSplit(t, Address(row, col), [c]);
    FinalByte(Read(t, 1, row, col), c);
  }

  /** ESC [ c means the same as ESC [ 0 c, for every control sequence. */
  lemma OmittedIsZero(t: Term, c: int)
    requires WfTerm(t) && t.state == NORMAL && Final1(c) && c != '[' as int && c != '?' as int
    ensures Write(t, [27, '[' as int, c]) == Write(t, Csi(0, c))
  {
    hide Row, Write, Put, Digits, Control;
    CsiIs(t, 0, c);
    var open := t.(state := SQUARE);
    Introduced(t);
    WriteSplit(t, [27, '[' as int], [c]);
    assert [27, '[' as int] + [c] == [27, '[' as int, c];
    WriteOne(open, c);
    OpenedBy(open, c);
    assert seq(NPAR, _ => 0)[0 := 0][1 := 0] == seq(NPAR, _ => 0);
  }

  lemma OpenedBy(t: Term, c: int)
    requires WfTerm(t) && t.state == SQUARE && Final1(c) && c != '[' as int && c != '?' as int
    ensures WfTerm(t.(par := seq(NPAR, _ => 0), npar := 0, ques := false, state := NORMAL))
    ensures Put(t, c) == Control(t.(par := seq(NPAR, _ => 0), npar := 0, ques := false, state := NORMAL), c)
  {
    hide Row, Control;
  }

  /** The cursor went to (x, y), and nothing else that shows or lasts has changed. */
  predicate OnlyCursor(t: Term, u: Term, x: int, y: int) {
    && (u.x, u.y) == (x, y) && u.g == t.g && u.state == NORMAL
    && (u.cols, u.lines, u.top, u.bottom) == (t.cols, t.lines, t.top, t.bottom)
    && (u.attr, u.defAttr, u.erase, u.savedX, u.savedY) == (t.attr, t.defAttr, t.erase, t.savedX, t.savedY)
  }

  // ------------------------------------------------------- cursor movement

  /** Where the cursor ends when (nx, ny), not yet reduced to 32 bits, is asked for. */
  lemma Lands(t: Term, o: Term, nx: int, ny: int, ux: int, uy: int)
    requires WfTerm(t) && WfTerm(o) && o == t.(par := o.par, npar := o.npar, ques := o.ques, state := NORMAL)
    requires 0 <= ux < 0x1_0000_0000 && ux in {nx, nx + 0x1_0000_0000, nx - 0x1_0000_0000}
    requires 0 <= uy < 0x1_0000_0000 && uy in {ny, ny + 0x1_0000_0000, ny - 0x1_0000_0000}
    ensures var r := Goto(o, nx, ny);
      if ux <= t.cols && uy < t.lines then OnlyCursor(t, r, ux, uy) else OnlyCursor(t, r, t.x, t.y)
  {
    hide WfTerm, Row;
    Reduced(nx, ux);
    Reduced(ny, uy);
  }

  lemma Reduced(n: int, u: int)
    requires 0 <= u < 0x1_0000_0000 && u in {n, n + 0x1_0000_0000, n - 0x1_0000_0000}
    ensures n % WORD == u
  {
  }

  /** The terminal just before a control function with parameter n; its parameter is then changed to q. */
  function Before(t: Term, n: nat, q: int): Term
    requires WfTerm(t) && n < WORD && 0 <= q < WORD
  {
    var o := Open(t, 0, n, 0);
    o.(par := o.par[0 := q])
  }

  lemma BeforeKeeps(t: Term, n: nat, q: int)
    requires WfTerm(t) && n < WORD && 0 <= q < WORD
    ensures var o := Before(t, n, q);
      WfTerm(o) && o == t.(par := o.par, npar := o.npar, ques := o.ques, state := NORMAL)
    ensures WfTerm(Open(t, 0, n, 0))
  {
    hide Row;
  }

  /** ESC [ n A: k rows up, or nowhere when there are not so many; the difference is taken in 32 bits. */
  lemma CursorUp(t: Term, n: nat)
    requires WfTerm(t) && t.state == NORMAL && n < WORD
    ensures var k := if n == 0 then 1 else n;
      OnlyCursor(t, Write(t, Csi(n, 'A' as int)), t.x,
                 if k <= t.y then t.y - k
                 else if k > t.y + 0x1_0000_0000 - t.lines then t.y + 0x1_0000_0000 - k else t.y)
  {
    hide Row, Write, Csi, Goto, OnlyCursor;
    CsiIs(t, n, 'A' as int);
    var k := if n == 0 then 1 else n;
    BeforeKeeps(t, n, k);
    Lands(t, Before(t, n, k), t.x, t.y - k, t.x, if k <= t.y then t.y - k else t.y + 0x1_0000_0000 - k);
  }

  /** ESC [ n B and ESC [ n e: k rows down. */
  lemma CursorDown(t: Term, n: nat, c: int)
    requires WfTerm(t) && t.state == NORMAL && n < WORD && c in {'B' as int, 'e' as int}
    ensures var k := if n == 0 then 1 else n;
      OnlyCursor(t, Write(t, Csi(n, c)), t.x,
                 if t.y + k < t.lines then t.y + k
                 else if t.y + k >= 0x1_0000_0000 then t.y + k - 0x1_0000_0000 else t.y)
  {
    hide Row, Write, Csi, Goto, OnlyCursor;
    CsiIs(t, n, c);
    var k := if n == 0 then 1 else n;
    BeforeKeeps(t, n, k);
    Lands(t, Before(t, n, k), t.x, t.y + k, t.x,
          if t.y + k < 0x1_0000_0000 then t.y + k else t.y + k - 0x1_0000_0000);
  }

  /** ESC [ n C and ESC [ n a: k columns to the right. */
  lemma CursorRight(t: Term, n: nat, c: int)
    requires WfTerm(t) && t.state == NORMAL && n < WORD && c in {'C' as int, 'a' as int}
    ensures var k := if n == 0 then 1 else n;
      OnlyCursor(t, Write(t, Csi(n, c)),
                 if t.x + k <= t.cols then t.x + k
                 else if t.x + k >= 0x1_0000_0000 then t.x + k - 0x1_0000_0000 else t.x, t.y)
  {
    hide Row, Write, Csi, Goto, OnlyCursor;
    CsiIs(t, n, c);
    var k := if n == 0 then 1 else n;
    BeforeKeeps(t, n, k);
    Lands(t, Before(t, n, k), t.x + k, t.y,
          if t.x + k < 0x1_0000_0000 then t.x + k else t.x + k - 0x1_0000_0000, t.y);
  }

  /** ESC [ n D: k columns to the left. */
  lemma CursorLeft(t: Term, n: nat)
    requires WfTerm(t) && t.state == NORMAL && n < WORD
    ensures var k := if n == 0 then 1 else n;
      OnlyCursor(t, Write(t, Csi(n, 'D' as int)),
                 if k <= t.x then t.x - k
                 else if k >= t.x + 0x1_0000_0000 - t.cols then t.x + 0x1_0000_0000 - k else t.x, t.y)
  {
    hide Row, Write, Csi, Goto, OnlyCursor;
    CsiIs(t, n, 'D' as int);
    var k := if n == 0 then 1 else n;
    BeforeKeeps(t, n, k);
    Lands(t, Before(t, n, k), t.x - k, t.y, if k <= t.x then t.x - k else t.x + 0x1_0000_0000 - k, t.y);
  }

  /** ESC [ n E: column 0, k rows down; where there is no such row, nowhere. */
  lemma NextLines(t: Term, n: nat)
    requires WfTerm(t) && t.state == NORMAL && n < WORD
    ensures var k, u := if n == 0 then 1 else n, Write(t, Csi(n, 'E' as int));
      if t.y + k < t.lines then OnlyCursor(t, u, 0, t.y + k)
      else if t.y + k >= 0x1_0000_0000 then OnlyCursor(t, u, 0, t.y + k - 0x1_0000_0000)
      else OnlyCursor(t, u, t.x, t.y)
  {
    hide Row, Write, Csi, Goto, OnlyCursor;
    CsiIs(t, n, 'E' as int);
    var k := if n == 0 then 1 else n;
    BeforeKeeps(t, n, k);
    Lands(t, Before(t, n, k), 0, t.y + k, 0,
          if t.y + k < 0x1_0000_0000 then t.y + k else t.y + k - 0x1_0000_0000);
  }

  /** ESC [ n F: column 0, k rows up. */
  lemma PreviousLines(t: Term, n: nat)
    requires WfTerm(t) && t.state == NORMAL && n < WORD
    ensures var k, u := if n == 0 then 1 else n, Write(t, Csi(n, 'F' as int));
      if k <= t.y then OnlyCursor(t, u, 0, t.y - k)
      else if k > t.y + 0x1_0000_0000 - t.lines then OnlyCursor(t, u, 0, t.y + 0x1_0000_0000 - k)
      else OnlyCursor(t, u, t.x, t.y)
  {
    hide Row, Write, Csi, Goto, OnlyCursor;
    CsiIs(t, n, 'F' as int);
    var k := if n == 0 then 1 else n;
    BeforeKeeps(t, n, k);
    Lands(t, Before(t, n, k), 0, t.y - k, 0, if k <= t.y then t.y - k else t.y + 0x1_0000_0000 - k);
  }

  lemma Places(o: Term, c: int)
    requires WfTerm(o)
    ensures var p, q := LessOne(o.par[0]), LessOne(o.par[1]);
      && WfTerm(o.(par := o.par[0 := p])) && WfTerm(o.(par := o.par[0 := p][1 := q]))
      && (c in {'G' as int, '`' as int} ==> Control(o, c) == Goto(o.(par := o.par[0 := p]), p, o.y))
      && (c in {'H' as int, 'f' as int} ==> Control(o, c) == Goto(o.(par := o.par[0 := p][1 := q]), q, p))
  {
    hide Row, Goto;
  }

  /** ESC [ n G and ESC [ n `: column k, counted from 1. */
  lemma ColumnReached(t: Term, n: nat, c: int)
    requires WfTerm(t) && t.state == NORMAL && n < WORD && c in {'G' as int, '`' as int}
    ensures var k := if n == 0 then 1 else n;
      OnlyCursor(t, Write(t, Csi(n, c)), if k - 1 <= t.cols then k - 1 else t.x, t.y)
  {
    hide Row, Write, Csi, Goto, OnlyCursor, WfTerm, Control;
    CsiIs(t, n, c);
    var k := if n == 0 then 1 else n;
    BeforeKeeps(t, n, k - 1);
    InRow(t);
    Places(Open(t, 0, n, 0), c);
    Lands(t, Before(t, n, k - 1), k - 1, t.y, k - 1, t.y);
  }

  /** ESC [ row ; col H and f: that place, counted from 1, when it is on the grid or just behind a row. */
  lemma PlaceReached(t: Term, row: nat, col: nat, c: int)
    requires WfTerm(t) && t.state == NORMAL && row < WORD && col < WORD && c in {'H' as int, 'f' as int}
    ensures var r, q := (if row == 0 then 1 else row) - 1, (if col == 0 then 1 else col) - 1;
      var u := Write(t, Address(row, col) + [c]);
      if r < t.lines && q <= t.cols then OnlyCursor(t, u, q, r) else OnlyCursor(t, u, t.x, t.y)
  {
    hide Row, Write, Address, Goto, OnlyCursor, WfTerm, Control;
    AddressIs(t, row, col, c);
    InRow(t);
    Places(Open(t, 1, row, col), c);
    var r, q := (if row == 0 then 1 else row) - 1, (if col == 0 then 1 else col) - 1;
    var o := Open(t, 1, row, col);
    PairKeeps(t, o, r, q);
    Lands(t, o.(par := o.par[0 := r][1 := q]), q, r, q, r);
  }

  lemma PairKeeps(t: Term, o: Term, r: int, q: int)
    requires WfTerm(t) && WfTerm(o) && o == t.(par := o.par, npar := o.npar, ques := o.ques, state := NORMAL)
    requires 0 <= r < WORD && 0 <= q < WORD
    ensures WfTerm(o.(par := o.par[0 := r][1 := q]))
  {
    hide Row;
  }

  // -------------------------------------------------------- saved positions

  /** What the two pairs of sequences do to a terminal. */
  lemma SavedIs(t: Term)
    requires WfTerm(t) && t.state == NORMAL
    ensures var o := Open(t, 0, 0, 0);
      && WfTerm(o) && Write(t, Csi(0, 's' as int)) == o.(savedX := t.x, savedY := t.y)
      && Write(t, Csi(0, 'u' as int)) == Goto(o, t.savedX, t.savedY)
  {
    hide Row, Write, Csi, Goto, WfTerm;
    CsiIs(t, 0, 's' as int);
    CsiIs(t, 0, 'u' as int);
  }

  lemma EscSavedIs(t: Term)
    requires WfTerm(t) && t.state == NORMAL
    ensures Write(t, [27, '7' as int]) == t.(savedX := t.x, savedY := t.y)
    ensures Write(t, [27, '8' as int]) == Goto(t, t.savedX, t.savedY)
    ensures 0 <= t.savedX < WORD && 0 <= t.savedY < WORD
  {
    hide Row, Write, Goto;
    EscIs(t, '7' as int);
    EscIs(t, '8' as int);
    assert t.(state := ESC).(state := NORMAL) == t;
  }

  /** ESC [ s and ESC 7 remember the cursor. */
  lemma CursorSaved(t: Term)
    requires WfTerm(t) && t.state == NORMAL
    ensures OnlyCursor(t.(savedX := t.x, savedY := t.y), Write(t, Csi(0, 's' as int)), t.x, t.y)
    ensures OnlyCursor(t.(savedX := t.x, savedY := t.y), Write(t, [27, '7' as int]), t.x, t.y)
  {
    hide Row, Write, Csi, Goto, WfTerm;
    SavedIs(t);
    EscSavedIs(t);
  }

  /** ESC [ u and ESC 8 go back there. */
  lemma CursorRestored(t: Term)
    requires WfTerm(t) && t.state == NORMAL
    ensures var onGrid := t.savedX <= t.cols && t.savedY < t.lines;
      var x, y := if onGrid then t.savedX else t.x, if onGrid then t.savedY else t.y;
      OnlyCursor(t, Write(t, Csi(0, 'u' as int)), x, y) && OnlyCursor(t, Write(t, [27, '8' as int]), x, y)
  {
    hide Row, Write, Csi, Goto, WfTerm, OnlyCursor;
    SavedIs(t);
    EscSavedIs(t);
    Lands(t, Open(t, 0, 0, 0), t.savedX, t.savedY, t.savedX, t.savedY);
    Lands(t, t, t.savedX, t.savedY, t.savedX, t.savedY);
  }

  /** Whatever text without escapes is written in between, saving and going back returns to the place. */
  lemma SaveThenRestore(t: Term, s: seq<int>)
    requires WfTerm(t) && t.state == NORMAL && 27 !in s
    ensures var u := Write(Write(Write(t, [27, '7' as int]), s), [27, '8' as int]); (u.x, u.y) == (t.x, t.y)
  {
    hide Row, Write;
    CursorSaved(t);
    var v := Write(t, [27, '7' as int]);
    TextKeepsSaved(v, s);
    CursorRestored(Write(v, s));
  }

  lemma {:induction false} TextKeepsSaved(t: Term, s: seq<int>)
    requires WfTerm(t) && t.state == NORMAL && 27 !in s
    ensures var u := Write(t, s);
      u.state == NORMAL && (u.savedX, u.savedY, u.cols, u.lines) == (t.savedX, t.savedY, t.cols, t.lines)
  {
    hide Row, Plain;
    if s != [] {
      TextKeepsSaved(t, s[..|s| - 1]);
      PlainKeepsSaved(Write(t, s[..|s| - 1]), s[|s| - 1]);
    }
  }

  lemma PlainKeepsSaved(t: Term, c: int)
    requires WfTerm(t) && t.state == NORMAL && c != 27
    ensures var u := Plain(t, c); u.state == NORMAL && (u.savedX, u.savedY) == (t.savedX, t.savedY)
  {
    hide Row, Up, Word;
  }

  lemma EscIs(t: Term, c: int)
    requires WfTerm(t) && t.state == NORMAL
    ensures Write(t, [27, c]) == Escape(t.(state := ESC), c)
  {
    hide Row, Escape, Write;
    WriteSplit(t, [27], [c]);
    assert [27] + [c] == [27, c];
    WriteOne(t, 27);
    WriteOne(t.(state := ESC), c);
    EscFirst(t);
  }

  lemma EscFirst(t: Term)
    requires WfTerm(t) && t.state == NORMAL
    ensures Put(t, 27) == t.(state := ESC)
  {
    hide Row;
  }

  // -------------------------------------------------- single characters

  /** What a cell shows after a scroll of the region up or down by one row. */
  function FromBelow(t: Term, r: int, c: int): Cell
    requires WfTerm(t) && 0 <= r < t.lines && 0 <= c < t.cols
  {
    if t.top <= r < t.bottom - 1 then CellAt(t, r + 1, c) else if r == t.bottom - 1 then t.erase else CellAt(t, r, c)
  }

  function FromAbove(t: Term, r: int, c: int): Cell
    requires WfTerm(t) && 0 <= r < t.lines && 0 <= c < t.cols
  {
    if t.top < r < t.bottom then CellAt(t, r - 1, c) else if r == t.top then t.erase else CellAt(t, r, c)
  }

  predicate ScrolledUp(t: Term, u: Term)
    requires WfTerm(t) && WfTerm(u) && (u.cols, u.lines) == (t.cols, t.lines)
  {
    forall r, c :: 0 <= r < t.lines && 0 <= c < t.cols ==> CellAt(u, r, c) == FromBelow(t, r, c)
  }

  predicate ScrolledDown(t: Term, u: Term)
    requires WfTerm(t) && WfTerm(u) && (u.cols, u.lines) == (t.cols, t.lines)
  {
    forall r, c :: 0 <= r < t.lines && 0 <= c < t.cols ==> CellAt(u, r, c) == FromAbove(t, r, c)
  }

  /** The next row, or a scroll on the last row of the region or below it. */
  ghost predicate LineFed(t: Term, u: Term)
    requires WfTerm(t) && WfTerm(u) && (u.cols, u.lines) == (t.cols, t.lines)
  {
    if t.y + 1 < t.bottom then OnlyCursor(t, u, t.x, t.y + 1)
    else OnlyCursor(t.(g := u.g), u, t.x, t.y) && ScrolledUp(t, u)
  }

  lemma ScrollsUp(t: Term)
    requires WfTerm(t)
    ensures ScrolledUp(t, ScrollUp(t, t.top, t.bottom))
  {
    hide Row, CellAt, ScrollUp, WfTerm;
    ScrollsOnly(t);
    forall r, c | 0 <= r < t.lines && 0 <= c < t.cols
      ensures CellAt(ScrollUp(t, t.top, t.bottom), r, c) == FromBelow(t, r, c)
    {
      ScrollUpRows(t, t.top, t.bottom, r, c);
    }
  }

  lemma ScrollsDown(t: Term)
    requires WfTerm(t)
    ensures ScrolledDown(t, ScrollDown(t, t.top, t.bottom))
  {
    hide Row, CellAt, ScrollDown, WfTerm;
    ScrollsOnly(t);
    forall r, c | 0 <= r < t.lines && 0 <= c < t.cols
      ensures CellAt(ScrollDown(t, t.top, t.bottom), r, c) == FromAbove(t, r, c)
    {
      ScrollDownRows(t, t.top, t.bottom, r, c);
    }
  }

  lemma LineFeedIs(t: Term)
    requires WfTerm(t) && t.state == NORMAL
    ensures LineFed(t, LineFeed(t))
  {
    hide Row, ScrollUp;
    if t.y + 1 >= t.bottom {
      ScrollsOnly(t);
      ScrollsUp(t);
    }
  }

  /** A scroll changes the grid only. */
  lemma ScrollsOnly(t: Term)
    requires WfTerm(t)
    ensures 0 <= t.top < t.bottom <= t.lines
    ensures var u, v := ScrollUp(t, t.top, t.bottom), ScrollDown(t, t.top, t.bottom);
      u == t.(g := u.g) && v == t.(g := v.g)
  {
    hide Row, Up, Down;
  }

  lemma ReverseIs(t: Term)
    requires WfTerm(t) && t.state == NORMAL
    ensures var u := ReverseIndex(t);
      if t.y > t.top then OnlyCursor(t, u, t.x, t.y - 1)
      else OnlyCursor(t.(g := u.g), u, t.x, t.y) && ScrolledDown(t, u)
  {
    hide Row, ScrollDown;
    if t.y <= t.top {
      ScrollsOnly(t);
      ScrollsDown(t);
    }
  }

  /** What a character does between sequences, and after ESC. */
  lemma Puts(t: Term)
    requires WfTerm(t) && t.state == NORMAL
    ensures Put(t, 10) == Put(t, 11) == Put(t, 12) == LineFeed(t)
    ensures Put(t, 9) == Tab(t) && Put(t, 127) == Delete(t)
    ensures Put(t, 13) == t.(x := 0) && Put(t, 8) == if t.x > 0 then t.(x := t.x - 1) else t
    ensures WfTerm(t.(state := ESC))
    ensures Escape(t.(state := ESC), 'D' as int) == LineFeed(t)
    ensures Escape(t.(state := ESC), 'M' as int) == ReverseIndex(t)
  {
    hide Row, LineFeed, Tab, Delete, ReverseIndex;
    assert t.(state := ESC).(state := NORMAL) == t;
  }

  /** Line feed, vertical tab and form feed, and ESC D. */
  lemma LineFeeds(t: Term, c: int)
    requires WfTerm(t) && t.state == NORMAL && 10 <= c <= 12
    ensures LineFed(t, Write(t, [c])) && LineFed(t, Write(t, [27, 'D' as int]))
  {
    hide *;
    Puts(t);
    WriteOne(t, c);
    EscIs(t, 'D' as int);
    LineFeedIs(t);
  }

  /** ESC M: the row before, or a scroll back on the first row of the region or above it. */
  lemma ReverseLineFeeds(t: Term)
    requires WfTerm(t) && t.state == NORMAL
    ensures var u := Write(t, [27, 'M' as int]);
      if t.y > t.top then OnlyCursor(t, u, t.x, t.y - 1)
      else OnlyCursor(t.(g := u.g), u, t.x, t.y) && ScrolledDown(t, u)
  {
    hide *;
    Puts(t);
    EscIs(t, 'M' as int);
    ReverseIs(t);
  }

  /** ESC E: the beginning of the next row, without a scroll; on the last row nothing. */
  lemma NextLine(t: Term)
    requires WfTerm(t) && t.state == NORMAL
    ensures var u := Write(t, [27, 'E' as int]);
      if t.y + 1 < t.lines then OnlyCursor(t, u, 0, t.y + 1) else OnlyCursor(t, u, t.x, t.y)
  {
    hide Row, Write, WfTerm, Goto, OnlyCursor;
    EscIs(t, 'E' as int);
    InRow(t);
    assert t.(state := ESC).(state := NORMAL) == t;
    Lands(t, t, 0, t.y + 1, 0, t.y + 1);
  }

  /** Carriage return and backspace. */
  lemma BackInRow(t: Term)
    requires WfTerm(t) && t.state == NORMAL
    ensures OnlyCursor(t, Write(t, [13]), 0, t.y)
    ensures OnlyCursor(t, Write(t, [8]), if t.x > 0 then t.x - 1 else 0, t.y)
  {
    hide Row, Write, Put, WfTerm;
    Puts(t);
    WriteOne(t, 13);
    WriteOne(t, 8);
    InRow(t);
  }

  lemma InRow(t: Term)
    requires WfTerm(t)
    ensures 0 <= t.x <= t.cols && 8 <= t.cols <= 255 && 0 <= t.y < t.lines <= 255
  {
    hide Row;
  }

  /** Delete: the cell before the cursor becomes blank. */
  lemma Deletes(t: Term, r: int, c: int)
    requires WfTerm(t) && t.state == NORMAL && 0 <= r < t.lines && 0 <= c < t.cols
    ensures var u := Write(t, [127]);
      && OnlyCursor(t.(g := u.g), u, if t.x > 0 then t.x - 1 else 0, t.y)
      && CellAt(u, r, c) == if r == t.y && c == t.x - 1 then t.erase else CellAt(t, r, c)
  {
    hide *;
    Puts(t);
    WriteOne(t, 127);
    InRow(t);
    if t.x > 0 { DeletesAt(t, r, c); } else { DeletesNot(t); }
  }

  lemma DeletesNot(t: Term)
    requires WfTerm(t) && t.state == NORMAL && t.x == 0
    ensures Delete(t) == t && OnlyCursor(t.(g := t.g), t, 0, t.y)
  {
    hide WfTerm;
  }

  lemma DeletesAt(t: Term, r: int, c: int)
    requires WfTerm(t) && t.state == NORMAL && 0 <= r < t.lines && 0 <= c < t.cols && t.x > 0
    ensures var u := Delete(t);
      && OnlyCursor(t.(g := u.g), u, t.x - 1, t.y)
      && CellAt(u, r, c) == if r == t.y && c == t.x - 1 then t.erase else CellAt(t, r, c)
  {
    hide Row, WfTerm;
    InRow(t);
    AtBounds(t);
    Place(t, r, c);
    Cells(t, r, c);
  }

  /** Cells of different rows are different places; the rows before come first. */
  lemma Cells(t: Term, r: int, c: int)
    requires WfTerm(t) && 0 <= r < t.lines && 0 <= c < t.cols
    ensures 0 <= Row(t.cols, r) + c < |t.g|
    ensures r < t.y ==> Row(t.cols, r) + t.cols <= Row(t.cols, t.y)
    ensures r > t.y ==> Row(t.cols, t.y) + t.cols <= Row(t.cols, r)
  {
    hide Row;
    Rows(t.cols, r, t.lines);
    if r < t.y { Rows(t.cols, r, t.y); } else { Rows(t.cols, t.y, r); }
  }

  /** Horizontal tab: the next column divisible by eight, behind the row at most; beyond it the same place of
      the next row. */
  lemma TabStops(t: Term)
    requires WfTerm(t) && t.state == NORMAL
    ensures var u, nx := Write(t, [9]), t.x / 8 * 8 + 8;
      if nx <= t.cols then OnlyCursor(t, u, nx, t.y) else LineFed(t.(x := nx - t.cols), u)
  {
    hide *;
    Puts(t);
    WriteOne(t, 9);
    var nx := t.x / 8 * 8 + 8;
    TabIs(t, nx);
    Shifted(t, nx);
    if nx > t.cols { LineFeedIs(t.(x := nx - t.cols)); }
  }

  lemma TabIs(t: Term, nx: int)
    requires WfTerm(t) && t.state == NORMAL && nx == t.x / 8 * 8 + 8
    ensures t.cols < nx <= t.cols + 8 || OnlyCursor(t, Tab(t), nx, t.y)
    ensures t.cols < nx ==> WfTerm(t.(x := nx - t.cols)) && Tab(t) == LineFeed(t.(x := nx - t.cols))
  {
    hide LineFeed, WfTerm;
    InRow(t);
    assert t.x + (8 - t.x % 8) == nx;
    Shifted(t, nx);
  }

  lemma Shifted(t: Term, nx: int)
    requires WfTerm(t)
    ensures t.cols < nx <= t.cols + 8 ==> WfTerm(t.(x := nx - t.cols))
  {
    hide Row;
  }

  /** A character shows at the cursor; behind the end of a row it acts like carriage return and line feed first. */
  lemma CharacterShows(t: Term, ch: int, r: int, c: int)
    requires WfTerm(t) && t.state == NORMAL && 31 < ch < 127 && 0 <= r < t.lines && 0 <= c < t.cols
    ensures var u := Write(t, [ch]);
      if t.x < t.cols then
        && OnlyCursor(t.(g := u.g), u, t.x + 1, t.y)
        && CellAt(u, r, c) ==
           if r == t.y && c == t.x then ch + 256 * (t.attr.bits & 0xff) as int else CellAt(t, r, c)
      else u == Write(Write(t, [13, 10]), [ch])
  {
    hide *;
    InRow(t);
    WriteOne(t, ch);
    if t.x < t.cols {
      Shows(t, ch, r, c);
    } else {
      Wraps(t, ch);
    }
  }

  lemma Shows(t: Term, ch: int, r: int, c: int)
    requires WfTerm(t) && t.state == NORMAL && 31 < ch < 127 && 0 <= r < t.lines && 0 <= c < t.cols && t.x < t.cols
    ensures var u := Put(t, ch);
      && OnlyCursor(t.(g := u.g), u, t.x + 1, t.y)
      && CellAt(u, r, c) ==
         if r == t.y && c == t.x then ch + 256 * (t.attr.bits & 0xff) as int else CellAt(t, r, c)
  {
    hide Row, Put, WfTerm;
    PrintLands(t, ch);
    Place(t, r, c);
    Cells(Put(t, ch), r, c);
  }

  lemma Wraps(t: Term, ch: int)
    requires WfTerm(t) && t.state == NORMAL && 31 < ch < 127 && t.x == t.cols
    ensures Put(t, ch) == Write(Write(t, [13, 10]), [ch])
  {
    hide Row, Write, WfTerm, ScrollUp;
    var v := t.(x := 0);
    Puts(t);
    WriteOne(t, 13);
    WriteOne(v, 10);
    Puts(v);
    WriteSplit(t, [13], [10]);
    assert [13] + [10] == [13, 10];
    ScrollsOnly(v);
    InRow(v);
    WriteOne(LineFeed(v), ch);
  }

  /** Of a word of video memory the low byte is the character and the high byte the attributes. */
  lemma WordBytes(c: int, a: Attr)
    requires 0 <= c < 256
    ensures Word(c, a) % 256 == c && Word(c, a) / 256 == (a.bits & 0xff) as int
  {
  }

  // ----------------------------------------------------- erasing and editing

  /** The row `r` and column `c` of the place of a cell are its coordinates. */
  lemma Place(t: Term, r: int, c: int)
    requires WfTerm(t) && 0 <= r < t.lines && 0 <= c < t.cols
    ensures var i := Row(t.cols, r) + c;
      && 0 <= i < |t.g| && CellAt(t, r, c) == t.g[i]
      && (i < At(t) <==> r < t.y || (r == t.y && c < t.x))
      && (Row(t.cols, t.y) <= i < Row(t.cols, t.y) + t.cols <==> r == t.y)
      && (Row(t.cols, t.y) <= i <==> r >= t.y)
  {
    hide Row;
    Cells(t, r, c);
    InRow(t);
  }

  /** ESC [ p J: 0 from the cursor on, 1 what is before the cursor, 2 everything; other numbers nothing. */
  lemma DisplayErased(t: Term, p: nat)
    requires WfTerm(t) && t.state == NORMAL && p < WORD
    ensures var u := Write(t, Csi(p, 'J' as int));
      && OnlyCursor(t.(g := u.g), u, t.x, t.y)
      && forall r, c :: 0 <= r < t.lines && 0 <= c < t.cols ==>
           CellAt(u, r, c) ==
           if p == 2 || (p == 0 && (r > t.y || (r == t.y && c >= t.x)))
                     || (p == 1 && (r < t.y || (r == t.y && c < t.x))) then t.erase else CellAt(t, r, c)
  {
    hide Row, Write, Csi;
    CsiIs(t, p, 'J' as int);
    forall r, c | 0 <= r < t.lines && 0 <= c < t.cols
      ensures CellAt(Write(t, Csi(p, 'J' as int)), r, c) ==
              if p == 2 || (p == 0 && (r > t.y || (r == t.y && c >= t.x)))
                        || (p == 1 && (r < t.y || (r == t.y && c < t.x))) then t.erase else CellAt(t, r, c)
    {
      Place(t, r, c);
    }
  }

  /** ESC [ p K: 0 the row from the cursor on, 1 what is before it in the row, 2 the row. */
  lemma LineErased(t: Term, p: nat)
    requires WfTerm(t) && t.state == NORMAL && p < WORD
    ensures var u := Write(t, Csi(p, 'K' as int));
      && OnlyCursor(t.(g := u.g), u, t.x, t.y)
      && forall r, c :: 0 <= r < t.lines && 0 <= c < t.cols ==>
           CellAt(u, r, c) ==
           if r == t.y && (p == 2 || (p == 0 && c >= t.x) || (p == 1 && c < t.x)) then t.erase else CellAt(t, r, c)
  {
    hide Row, Write, Csi;
    CsiIs(t, p, 'K' as int);
    forall r, c | 0 <= r < t.lines && 0 <= c < t.cols
      ensures CellAt(Write(t, Csi(p, 'K' as int)), r, c) ==
              if r == t.y && (p == 2 || (p == 0 && c >= t.x) || (p == 1 && c < t.x)) then t.erase
              else CellAt(t, r, c)
    {
      Place(t, r, c);
    }
  }

  lemma Edited(t: Term, n: nat, c: int, e: Edit, k: nat)
    requires WfTerm(t) && t.state == NORMAL && n < WORD
    requires e == (if c == 'L' as int then InsLine else if c == 'M' as int then DelLine
                   else if c == 'P' as int then DelChar else InsChar)
                     && c in {'L' as int, 'M' as int, 'P' as int, '@' as int}
    requires var limit := if e == InsLine || e == DelLine then t.lines else t.cols;
      k == if n == 0 then 1 else if n > limit then limit else n
    ensures var u := Write(t, Csi(n, c)); OnlyCursor(t.(g := u.g), u, t.x, t.y) && u.g == AtOnce(t, e, k)
  {
    hide Row, Write, Csi, EditMany, Up, Down, WfTerm, Control;
    CsiIs(t, n, c);
    InRow(t);
    var o := Open(t, 0, n, 0);
    Edits(o);
    EditsAddUp(o, e, k);
  }

  lemma Edits(o: Term)
    requires WfTerm(o)
    ensures o.lines > 0 && o.cols > 0 && o.par[0] >= 0
    ensures Control(o, 'L' as int) == EditMany(o, InsLine, Clamp(o.par[0], o.lines))
    ensures Control(o, 'M' as int) == EditMany(o, DelLine, Clamp(o.par[0], o.lines))
    ensures Control(o, 'P' as int) == EditMany(o, DelChar, Clamp(o.par[0], o.cols))
    ensures Control(o, '@' as int) == EditMany(o, InsChar, Clamp(o.par[0], o.cols))
  {
    hide Row, EditMany;
  }

  /** ESC [ n L: k blank rows open at the cursor; the rows below move down. */
  lemma LinesOpened(t: Term, n: nat, r: int, c: int)
    requires WfTerm(t) && t.state == NORMAL && n < WORD && 0 <= r < t.lines && 0 <= c < t.cols
    ensures var u, k := Write(t, Csi(n, 'L' as int)), if n == 0 then 1 else if n > t.lines then t.lines else n;
      && OnlyCursor(t.(g := u.g), u, t.x, t.y)
      && CellAt(u, r, c) ==
         if r < t.y then CellAt(t, r, c) else if r < t.y + k then t.erase else CellAt(t, r - k, c)
  {
    hide Row, WfTerm, Write, Csi, EditMany;
    var k := if n == 0 then 1 else if n > t.lines then t.lines else n;
    InRow(t);
    Edited(t, n, 'L' as int, InsLine, k);
    Place(t, r, c);
    RowsApart(t, k, r, c);
  }

  /** ESC [ n M: k rows from the cursor on are dropped; the rows below move up. */
  lemma LinesDropped(t: Term, n: nat, r: int, c: int)
    requires WfTerm(t) && t.state == NORMAL && n < WORD && 0 <= r < t.lines && 0 <= c < t.cols
    ensures var u, k := Write(t, Csi(n, 'M' as int)), if n == 0 then 1 else if n > t.lines then t.lines else n;
      && OnlyCursor(t.(g := u.g), u, t.x, t.y)
      && CellAt(u, r, c) ==
         if r < t.y then CellAt(t, r, c) else if r + k < t.lines then CellAt(t, r + k, c) else t.erase
  {
    hide Row, WfTerm, Write, Csi, EditMany;
    var k := if n == 0 then 1 else if n > t.lines then t.lines else n;
    InRow(t);
    Edited(t, n, 'M' as int, DelLine, k);
    Place(t, r, c);
    RowsApart(t, k, r, c);
  }

  /** k rows are k times the length of a row. */
  lemma RowsApart(t: Term, k: nat, r: int, c: int)
    requires WfTerm(t) && 0 <= r < t.lines && 0 <= c < t.cols
    ensures Row(t.cols, r + k) == Row(t.cols, r) + Row(t.cols, k)
      && Row(t.cols, r - k) == Row(t.cols, r) - Row(t.cols, k)
    ensures Row(t.cols, k) >= 0
    ensures Row(t.cols, r) + Row(t.cols, k) + c < |t.g| <==> r + k < t.lines
    ensures Row(t.cols, t.y) + Row(t.cols, k) <= Row(t.cols, r) + c <==> r >= t.y + k
  {
    RowSum(t.cols, r, k);
    RowSum(t.cols, r - k, k);
    RowSum(t.cols, t.y, k);
    hide Row;
    Rows(t.cols, 0, k);
    if r + k < t.lines { Rows(t.cols, r + k, t.lines); } else { RowOrder(t.cols, t.lines, r + k); }
    if t.y + k <= r { RowOrder(t.cols, t.y + k, r); } else { Rows(t.cols, r, t.y + k); }
  }

  lemma RowSum(cols: int, a: int, b: int)
    ensures Row(cols, a + b) == Row(cols, a) + Row(cols, b)
  {
    assert (a + b) * cols == a * cols + b * cols;
  }

  /** ESC [ n P: k characters from the cursor on are dropped; the rest of the row moves left. */
  lemma CharsDropped(t: Term, n: nat, r: int, c: int)
    requires WfTerm(t) && t.state == NORMAL && n < WORD && 0 <= r < t.lines && 0 <= c < t.cols
    ensures var u, k := Write(t, Csi(n, 'P' as int)), if n == 0 then 1 else if n > t.cols then t.cols else n;
      && OnlyCursor(t.(g := u.g), u, t.x, t.y)
      && CellAt(u, r, c) ==
         if r != t.y || c < t.x then CellAt(t, r, c) else if c + k < t.cols then CellAt(t, r, c + k) else t.erase
  {
    hide Row, WfTerm, Write, Csi, EditMany;
    var k := if n == 0 then 1 else if n > t.cols then t.cols else n;
    InRow(t);
    Edited(t, n, 'P' as int, DelChar, k);
    Place(t, r, c);
  }

  /** ESC [ n @: k blanks open at the cursor; the rest of the row moves right. */
  lemma CharsOpened(t: Term, n: nat, r: int, c: int)
    requires WfTerm(t) && t.state == NORMAL && n < WORD && 0 <= r < t.lines && 0 <= c < t.cols
    ensures var u, k := Write(t, Csi(n, '@' as int)), if n == 0 then 1 else if n > t.cols then t.cols else n;
      && OnlyCursor(t.(g := u.g), u, t.x, t.y)
      && CellAt(u, r, c) ==
         if r != t.y || c < t.x then CellAt(t, r, c) else if c < t.x + k then t.erase else CellAt(t, r, c - k)
  {
    hide Row, WfTerm, Write, Csi, EditMany;
    var k := if n == 0 then 1 else if n > t.cols then t.cols else n;
    InRow(t);
    Edited(t, n, '@' as int, InsChar, k);
    Place(t, r, c);
  }

  // --------------------------------------------- attributes, region, settings

  /** Blinking, bold and the rest; the low nibble of the attributes is the foreground, the next one the background. */
  predicate FlagsShow(a: bv32, d: bv32, b: bv32, n: int) {
    && (n == 0 ==> b == 0x07) && (n in {1, 4} ==> b == 0x0f) && (n == 27 ==> b == d)
    && (n == 5 ==> b & 0x0f == a & 0x0f && b & 0xf0 == (a & 0x70) | 0x80)
    && (n == 25 ==> b & 0x0f == a & 0x0f && b & 0xf0 == a & 0x70)
    && (n == 22 ==> b & 0x0f == a & 0x07 && b & 0xf0 == a & 0xf0)
    && (n == 24 ==> b & 0x0f == a & 0x0e && b & 0xf0 == a & 0xf0)
    && (n == 7 && a < 0x100 ==> b & 0x0f == a >> 4 && (b >> 4) & 0x0f == a & 0x0f)
  }

  /** 30 to 38 choose the foreground, 40 to 48 the background, 39 and 49 take it from the default. */
  predicate ColoursShow(a: bv32, d: bv32, b: bv32, n: int) {
    && (n == 39 ==> b & 0x0f == d & 0x0f && b & 0xf0 == a & 0xf0)
    && (n == 49 ==> b & 0x0f == a & 0x0f && b & 0xf0 == d & 0xf0)
    && (30 <= n <= 38 ==> b & 0x0f == (n - 30) as bv32 && b & 0xf0 == a & 0xf0)
    && (40 <= n <= 48 ==> (b >> 4) & 0x0f == (n - 40) as bv32 && b & 0x0f == a & 0x0f)
    && (n !in {0, 1, 4, 5, 7, 22, 24, 25, 27, 39, 49} && !(30 <= n <= 38) && !(40 <= n <= 48) ==> b == a)
  }

  /** ESC [ n m changes the attributes only, and them as above. */
  lemma RenditionShows(t: Term, n: nat)
    requires WfTerm(t) && t.state == NORMAL && n < WORD
    ensures var u := Write(t, Csi(n, 'm' as int));
      && OnlyCursor(t.(attr := u.attr), u, t.x, t.y)
      && FlagsShow(t.attr.bits, t.defAttr.bits, u.attr.bits, n)
      && ColoursShow(t.attr.bits, t.defAttr.bits, u.attr.bits, n)
  {
    hide *;
    RenditionOf(t, n);
    RenditionBits(t.attr, t.defAttr, n);
    if 30 <= n <= 38 {
      ForegroundBits(t.attr, t.defAttr, n);
    } else if 40 <= n <= 48 {
      BackgroundBits(t.attr, t.defAttr, n);
    } else {
      DefaultBits(t.attr, t.defAttr, n);
    }
  }

  lemma RenditionBits(attr: Attr, def: Attr, n: nat)
    ensures FlagsShow(attr.bits, def.bits, Rendition(attr, def, n).bits, n)
  {
    hide *;
    if n == 5 { BlinkBits(attr, def); }
    else if n == 7 { NegativeBits(attr, def); }
    else if n == 22 { BoldBits(attr, def); }
    else if n == 24 { UnderlineBits(attr, def); }
    else if n == 25 { SteadyBits(attr, def); }
    else { OtherBits(attr, def, n); }
  }

  lemma BlinkBits(attr: Attr, def: Attr)
    ensures FlagsShow(attr.bits, def.bits, Rendition(attr, def, 5).bits, 5)
  {
  }

  lemma NegativeBits(attr: Attr, def: Attr)
    ensures FlagsShow(attr.bits, def.bits, Rendition(attr, def, 7).bits, 7)
  {
  }

  lemma BoldBits(attr: Attr, def: Attr)
    ensures FlagsShow(attr.bits, def.bits, Rendition(attr, def, 22).bits, 22)
  {
  }

  lemma UnderlineBits(attr: Attr, def: Attr)
    ensures FlagsShow(attr.bits, def.bits, Rendition(attr, def, 24).bits, 24)
  {
  }

  lemma SteadyBits(attr: Attr, def: Attr)
    ensures FlagsShow(attr.bits, def.bits, Rendition(attr, def, 25).bits, 25)
  {
  }

  lemma OtherBits(attr: Attr, def: Attr, n: nat)
    requires n !in {5, 7, 22, 24, 25}
    ensures FlagsShow(attr.bits, def.bits, Rendition(attr, def, n).bits, n)
  {
  }

  lemma DefaultBits(attr: Attr, def: Attr, n: nat)
    requires !(30 <= n <= 38) && !(40 <= n <= 48)
    ensures ColoursShow(attr.bits, def.bits, Rendition(attr, def, n).bits, n)
  {
    if n == 39 || n == 49 { Halves(attr.bits, def.bits); }
  }

  lemma ForegroundBits(attr: Attr, def: Attr, n: nat)
    requires 30 <= n <= 38
    ensures ColoursShow(attr.bits, def.bits, Rendition(attr, def, n).bits, n)
  {
    Small(n - 30);
    Nibble(attr.bits, (n - 30) as bv32);
  }

  lemma BackgroundBits(attr: Attr, def: Attr, n: nat)
    requires 40 <= n <= 48
    ensures ColoursShow(attr.bits, def.bits, Rendition(attr, def, n).bits, n)
  {
    Small(n - 40);
    Nibble(attr.bits, (n - 40) as bv32);
  }

  lemma Small(n: int)
    requires 0 <= n <= 8
    ensures n as bv32 <= 8
  {
    if n == 0 { assert n as bv32 == 0; } else if n == 1 { assert n as bv32 == 1; }
    else if n == 2 { assert n as bv32 == 2; } else if n == 3 { assert n as bv32 == 3; }
    else if n == 4 { assert n as bv32 == 4; } else if n == 5 { assert n as bv32 == 5; }
    else if n == 6 { assert n as bv32 == 6; } else if n == 7 { assert n as bv32 == 7; }
    else { assert n as bv32 == 8; }
  }

  lemma Nibble(a: bv32, k: bv32)
    requires k <= 8
    ensures ((a & 0xf0) | k) & 0xf0 == a & 0xf0 && ((a & 0xf0) | k) & 0x0f == k
    ensures ((a & 0x0f) | (k << 4)) & 0x0f == a & 0x0f && (((a & 0x0f) | (k << 4)) >> 4) & 0x0f == k
  {
  }

  lemma Halves(a: bv32, d: bv32)
    ensures ((a & 0xf0) | (d & 0x0f)) & 0x0f == d & 0x0f && ((a & 0xf0) | (d & 0x0f)) & 0xf0 == a & 0xf0
    ensures ((a & 0x0f) | (d & 0xf0)) & 0x0f == a & 0x0f && ((a & 0x0f) | (d & 0xf0)) & 0xf0 == d & 0xf0
  {
  }

  /** ESC [ n ; m m does what ESC [ n m and then ESC [ m m do. */
  lemma RenditionsInOrder(t: Term, n: nat, m: nat)
    requires WfTerm(t) && t.state == NORMAL && n < WORD && m < WORD
    ensures var u := Write(t, Address(n, m) + ['m' as int]);
      && OnlyCursor(t.(attr := u.attr), u, t.x, t.y)
      && u.attr == Write(Write(t, Csi(n, 'm' as int)), Csi(m, 'm' as int)).attr
  {
    hide Row, Write, Csi, Address, Rendition, WfTerm;
    RenditionOf(t, n);
    RenditionOf(Write(t, Csi(n, 'm' as int)), m);
    RenditionsOf(t, n, m);
  }

  lemma RenditionsOf(t: Term, n: nat, m: nat)
    requires WfTerm(t) && t.state == NORMAL && n < WORD && m < WORD
    ensures var u := Write(t, Address(n, m) + ['m' as int]);
      && OnlyCursor(t.(attr := u.attr), u, t.x, t.y)
      && u.attr == Rendition(Rendition(t.attr, t.defAttr, n), t.defAttr, m)
  {
    hide Row, Write, Address, Rendition, Renditions;
    AddressIs(t, n, m, 'm' as int);
    assert Open(t, 1, n, m).par[..2] == [n, m];
    Renders(t.attr, t.defAttr, n, m);
  }

  lemma RenditionOf(t: Term, n: nat)
    requires WfTerm(t) && t.state == NORMAL && n < WORD
    ensures var u := Write(t, Csi(n, 'm' as int));
      OnlyCursor(t.(attr := u.attr), u, t.x, t.y) && u.attr == Rendition(t.attr, t.defAttr, n)
  {
    hide Row, Write, Csi, Rendition, Renditions;
    CsiIs(t, n, 'm' as int);
    assert Open(t, 0, n, 0).par[..1] == [n];
    Renders(t.attr, t.defAttr, n, 0);
  }

  lemma Renders(attr: Attr, def: Attr, n: int, m: int)
    ensures Renditions(attr, def, [n]) == Rendition(attr, def, n)
    ensures Renditions(attr, def, [n, m]) == Rendition(Rendition(attr, def, n), def, m)
  {
    hide Rendition;
    assert [n][..0] == [] && [n, m][..1] == [n];
  }

  /** ESC [ first ; last r: the region becomes these rows, counted from 1; 0 stands for the first and for the last row
      of the screen.  What is no region changes nothing. */
  lemma RegionSet(t: Term, first: nat, last: nat)
    requires WfTerm(t) && t.state == NORMAL && first < WORD && last < WORD
    ensures var u := Write(t, Address(first, last) + ['r' as int]);
      var a, b := if first == 0 then 0 else first - 1, if last == 0 then t.lines else last;
      if a < b <= t.lines then OnlyCursor(t.(top := a, bottom := b), u, t.x, t.y) else OnlyCursor(t, u, t.x, t.y)
  {
    hide Row, Write, Address, WfTerm;
    AddressIs(t, first, last, 'r' as int);
    InRow(t);
  }

  /** ESC c makes the whole screen the region; ESC P S makes the attributes the default and those of blanks. */
  lemma SettingsMade(t: Term)
    requires WfTerm(t) && t.state == NORMAL
    ensures OnlyCursor(t.(top := 0, bottom := t.lines), Write(t, [27, 'c' as int]), t.x, t.y)
    ensures var u := Write(t, [27, 'P' as int, 'S' as int]);
      && OnlyCursor(t.(defAttr := t.attr, erase := u.erase), u, t.x, t.y)
      && u.erase == t.erase % 256 + 256 * (t.attr.bits & 0xff) as int
  {
    hide Row, Write;
    EscIs(t, 'c' as int);
    EscIs(t, 'P' as int);
    WriteSplit(t, [27, 'P' as int], ['S' as int]);
    assert [27, 'P' as int] + ['S' as int] == [27, 'P' as int, 'S' as int];
    WriteOne(Write(t, [27, 'P' as int]), 'S' as int);
  }

  /** The characters that mean something behind ESC, and at the end of a control sequence. */
  const LETTERS: seq<int> := ['[' as int, 'E' as int, 'M' as int, 'D' as int, '7' as int, '8' as int,
                              '(' as int, ')' as int, 'P' as int, '#' as int, 'c' as int]
  const FINALS: seq<int> := ['G' as int, '`' as int, 'A' as int, 'B' as int, 'e' as int, 'C' as int, 'a' as int,
                             'D' as int, 'E' as int, 'F' as int, 'd' as int, 'H' as int, 'f' as int, 'J' as int,
                             'K' as int, 'L' as int, 'M' as int, 'P' as int, '@' as int, 'm' as int, 'r' as int,
                             's' as int, 'u' as int]

  /** Every other character ends a sequence without any effect. */
  lemma Ignored(t: Term, n: nat, c: int)
    requires WfTerm(t) && t.state == NORMAL && n < WORD && Final1(c)
    ensures c !in FINALS ==> OnlyCursor(t, Write(t, Csi(n, c)), t.x, t.y)
    ensures c !in LETTERS ==> OnlyCursor(t, Write(t, [27, c]), t.x, t.y)
  {
    hide Row, Write, Csi, Goto, EraseDisplay, EraseLine, EditMany, Renditions;
    CsiIs(t, n, c);
    EscIs(t, c);
  }
}
