/** What the control functions of kernel/chr_drv/console.c mean on the grid. */
module ScreenLaws {
  import opened Terminal

  function CellAt(t: Term, r: int, c: int): Cell
    requires WfTerm(t) && 0 <= r < t.lines && 0 <= c < t.cols
  {
    hide Row;
    Rows(t.cols, r, t.lines);
    t.g[Row(t.cols, r) + c]
  }

  /** A scroll drops row `top`, moves the rows below it up and blanks row `bottom` - 1. */
  lemma ScrollUpRows(t: Term, top: int, bottom: int, r: int, c: int)
    requires WfTerm(t) && 0 <= top < bottom <= t.lines && 0 <= r < t.lines && 0 <= c < t.cols
    ensures CellAt(ScrollUp(t, top, bottom), r, c) ==
            if top <= r < bottom - 1 then CellAt(t, r + 1, c) else if r == bottom - 1 then t.erase else CellAt(t, r, c)
  {
    hide Row;
    Rows(t.cols, r, t.lines);
    Rows(t.cols, bottom - 1, bottom);
    RowOrder(t.cols, bottom, t.lines);
    if r < top { Rows(t.cols, r, top); } else { Rows(t.cols, top, r); }
    if r < bottom - 1 { Rows(t.cols, r, bottom - 1); } else { Rows(t.cols, bottom - 1, r); }
  }

  lemma ScrollDownRows(t: Term, top: int, bottom: int, r: int, c: int)
    requires WfTerm(t) && 0 <= top < bottom <= t.lines && 0 <= r < t.lines && 0 <= c < t.cols
    ensures CellAt(ScrollDown(t, top, bottom), r, c) ==
            if top < r < bottom then CellAt(t, r - 1, c) else if r == top then t.erase else CellAt(t, r, c)
  {
    hide Row;
    Rows(t.cols, r, t.lines);
    RowStep(t.cols, r - 1);
    RowOrder(t.cols, bottom, t.lines);
    RowOrder(t.cols, 0, top);
    if r < top { Rows(t.cols, r, top); } else { Rows(t.cols, top, r); }
    if r < bottom { Rows(t.cols, r, bottom); } else { Rows(t.cols, bottom, r); }
  }

  // ------------------------------------------------------ editing functions

  lemma DownTwice(g: Grid, a: int, b: int, c: int, d: int, blank: Cell)
    requires 0 <= a <= b <= |g| && 0 <= c && 0 <= d
    ensures Down(Down(g, a, b, c, blank), a, b, d, blank) == Down(g, a, b, c + d, blank)
  {
  }

  lemma UpTwice(g: Grid, a: int, b: int, c: int, d: int, blank: Cell)
    requires 0 <= a <= b <= |g| && 0 <= c && 0 <= d
    ensures Up(Up(g, a, b, c, blank), a, b, d, blank) == Up(g, a, b, c + d, blank)
  {
  }

  /** `n` edits as one block move by `n` units. */
  function AtOnce(t: Term, e: Edit, n: nat): Grid
    requires WfTerm(t)
  {
    hide Row;
    Rows(t.cols, t.y, t.lines);
    Rows(t.cols, 0, n);
    var row, x := Row(t.cols, t.y), t.x;
    match e
    case InsChar => Down(t.g, row + x, row + t.cols, n, t.erase)
    case DelChar => Up(t.g, row + x, row + t.cols, n, t.erase)
    case InsLine => Down(t.g, row, |t.g|, Row(t.cols, n), t.erase)
    case DelLine => Up(t.g, row, |t.g|, Row(t.cols, n), t.erase)
  }

  lemma OneMore(t: Term, e: Edit, n: nat)
    requires WfTerm(t)
    ensures EditOnce(t.(g := AtOnce(t, e, n)), e).g == AtOnce(t, e, n + 1)
  {
    hide Row, Up, Down;
    Rows(t.cols, t.y, t.lines);
    Rows(t.cols, 0, n);
    var row, x := Row(t.cols, t.y), t.x;
    RowStep(t.cols, n);
    match e
    case InsChar => DownTwice(t.g, row + x, row + t.cols, n, 1, t.erase);
    case DelChar => UpTwice(t.g, row + x, row + t.cols, n, 1, t.erase);
    case InsLine => DownTwice(t.g, row, |t.g|, Row(t.cols, n), t.cols, t.erase);
    case DelLine => UpTwice(t.g, row, |t.g|, Row(t.cols, n), t.cols, t.erase);
  }

  /** Repeating an edit `n` times moves its block by `n` units in one go. */
  lemma {:induction false} EditsAddUp(t: Term, e: Edit, n: nat)
    requires WfTerm(t)
    ensures EditMany(t, e, n).g == AtOnce(t, e, n)
  {
    hide Row, EditOnce;
    if n == 0 {
      RowStep(t.cols, 0);
    } else {
      hide AtOnce;
      EditsAddUp(t, e, n - 1);
      assert EditMany(t, e, n - 1) == t.(g := AtOnce(t, e, n - 1));
      OneMore(t, e, n - 1);
    }
  }

  /** Deleting what was inserted restores the block, except for what was pushed over its end. */
  lemma DeleteAfterInsert(t: Term, n: nat, e: Edit, back: Edit)
    requires WfTerm(t) && t.x < t.cols && (e, back) in {(InsChar, DelChar), (InsLine, DelLine)}
    ensures var first := if e == InsChar then At(t) else Row(t.cols, t.y);
            var end := if e == InsChar then Row(t.cols, t.y) + t.cols else |t.g|;
            var gone := if e == InsChar then n else Row(t.cols, n);
      EditMany(EditMany(t, e, n), back, n) ==
        t.(g := Blank(t.g, if first + gone <= end then end - gone else first, end, t.erase))
  {
    hide Row;
    Rows(t.cols, t.y, t.lines);
    Rows(t.cols, 0, n);
    EditsAddUp(t, e, n);
    EditsAddUp(EditMany(t, e, n), back, n);
  }

  // ------------------------------------------------------------ whole runs

  lemma {:induction false} WriteSplit(t: Term, s: seq<int>, u: seq<int>)
    requires WfTerm(t)
    ensures Write(t, s + u) == Write(Write(t, s), u)
  {
    hide Row, Put;
    if u == [] {
      assert s + u == s;
    } else {
      assert (s + u)[..|s + u| - 1] == s + u[..|u| - 1];
      WriteSplit(t, s, u[..|u| - 1]);
    }
  }

  lemma WriteOne(t: Term, c: int)
    requires WfTerm(t)
    ensures Write(t, [c]) == Put(t, c)
  {
    hide Row, Put;
    assert [c][..0] == [] && Write(t, []) == t;
  }

  /** No branch of con_write handles these states. */
  predicate Deaf(t: Term) { t.state !in {NORMAL, ESC, SQUARE, GETPARS, GOTPARS, SETTERM} }

  lemma {:induction false} DeafStays(t: Term, s: seq<int>)
    requires WfTerm(t) && Deaf(t)
    ensures Write(t, s) == t
  {
    hide Row;
    if s != [] { DeafStays(t, s[..|s| - 1]); }
  }

  /** Nothing written has any effect exactly in these states. */
  lemma DeafIff(t: Term)
    requires WfTerm(t)
    ensures (forall s :: Write(t, s) == t) <==> Deaf(t)
  {
    hide Row;
    if Deaf(t) {
      forall s
        ensures Write(t, s) == t
      {
        DeafStays(t, s);
      }
    } else {
      WriteOne(t, 27);
      assert Put(t, 27).state != t.state;
    }
  }

  /** The characters after ESC, and after ESC [, that leave the console deaf. */
  predicate Traps(state: int, c: int) {
    || (state == ESC && c in {'(' as int, ')' as int, '#' as int})
    || (state == SQUARE && c == '[' as int)
  }

  lemma PlainRests(t: Term, c: int)
    requires WfTerm(t)
    ensures Plain(t, c).state == if c == 27 then ESC else t.state
  {
    hide Row, Up;
  }

  lemma EscapeRests(t: Term, c: int)
    requires WfTerm(t) && t.state == ESC
    ensures var u := Escape(t, c); Deaf(u) <==> Traps(ESC, c)
    ensures Escape(t, c).state != ESC && (Escape(t, c).state == SQUARE <==> c == '[' as int)
  {
    hide Row, Up, Down;
  }

  lemma FinalRests(t: Term, c: int)
    requires WfTerm(t)
    ensures Final(t, c).state == NORMAL
  {
    hide Row, Blank, Renditions, Clamp;
  }

  lemma FirstStep(t: Term, c: int)
    requires WfTerm(t)
    ensures !Deaf(t) ==> (Deaf(Put(t, c)) <==> Traps(t.state, c))
    ensures Put(t, c).state == ESC <==> t.state == NORMAL && c == 27
    ensures Put(t, c).state == SQUARE <==> t.state == ESC && c == '[' as int
  {
    hide Row, Plain, Escape, Final, Word;
    PlainRests(t, c);
    if t.state == ESC { EscapeRests(t, c); }
    FinalRests(t, c);
    if t.state == SQUARE { FinalRests(t.(par := seq(NPAR, _ => 0), npar := 0, state := GETPARS, ques := false), c); }
  }

  /** ESC c and ESC [ c leave the console deaf for these characters and no others. */
  lemma BecomesDeaf(t: Term, c: int)
    requires WfTerm(t) && t.state == NORMAL
    ensures Deaf(Write(t, [27, c])) <==> c in {'(' as int, ')' as int, '#' as int}
    ensures Deaf(Write(t, [27, '[' as int, c])) <==> c == '[' as int
  {
    hide Row, Put;
    assert [27, c][..1] == [27] && [27, '[' as int, c][..2] == [27, '[' as int] && [27, '[' as int][..1] == [27];
    WriteOne(t, 27);
    FirstStep(t, 27);
    FirstStep(Put(t, 27), c);
    FirstStep(Put(t, 27), '[' as int);
    FirstStep(Write(t, [27, '[' as int]), c);
  }

  /** One of the four sequences starts at place `i` of a stream, where no other sequence is under way. */
  predicate DeafensAt(t: Term, s: seq<int>, i: int)
    requires WfTerm(t)
  {
    && 0 <= i && i + 2 <= |s| && Write(t, s[..i]).state == NORMAL && s[i] == 27
    && (s[i + 1] in {'(' as int, ')' as int, '#' as int}
        || (i + 3 <= |s| && s[i + 1] == '[' as int && s[i + 2] == '[' as int))
  }

  /** How the console came to be where it is after a stream. */
  lemma {:induction false} Reached(t: Term, s: seq<int>)
    requires WfTerm(t) && t.state == NORMAL
    ensures var st := Write(t, s).state;
      && (st == ESC ==> |s| >= 1 && s[|s| - 1] == 27 && Write(t, s[..|s| - 1]).state == NORMAL)
      && (st == SQUARE ==> |s| >= 2 && s[|s| - 2..] == [27, '[' as int] && Write(t, s[..|s| - 2]).state == NORMAL)
  {
    hide Row, Put;
    if s != [] {
      var before := s[..|s| - 1];
      Reached(t, before);
      FirstStep(Write(t, before), s[|s| - 1]);
      if |s| >= 2 { assert before[..|before| - 1] == s[..|s| - 2]; }
    }
  }

  /** A stream leaves the console deaf exactly when ESC (, ESC ), ESC # or ESC [ [ starts in it where no
      other sequence is under way. */
  lemma {:induction false} StreamDeafensIff(t: Term, s: seq<int>)
    requires WfTerm(t) && t.state == NORMAL
    ensures Deaf(Write(t, s)) <==> exists i :: DeafensAt(t, s, i)
  {
    hide Row, Put;
    if i :| DeafensAt(t, s, i) { Deafened(t, s, i); }
    if Deaf(Write(t, s)) {
      assert s != [];
      var before, c := s[..|s| - 1], s[|s| - 1];
      StreamDeafensIff(t, before);
      if Deaf(Write(t, before)) {
        var i :| DeafensAt(t, before, i);
        assert s[..i] == before[..i];
        assert DeafensAt(t, s, i);
      } else {
        FirstStep(Write(t, before), c);
        Reached(t, before);
        var i := if Write(t, before).state == ESC then |s| - 2 else |s| - 3;
        assert s[..i] == before[..i];
        assert DeafensAt(t, s, i);
      }
    }
  }

  lemma Deafened(t: Term, s: seq<int>, i: int)
    requires WfTerm(t) && DeafensAt(t, s, i)
    ensures Deaf(Write(t, s))
  {
    hide Row, Put;
    var u, n := Write(t, s[..i]), if s[i + 1] == '[' as int then 3 else 2;
    assert s == s[..i] + s[i..i + n] + s[i + n..];
    BecomesDeaf(u, s[i + n - 1]);
    assert s[i..i + n] == if n == 3 then [27, '[' as int, s[i + 2]] else [27, s[i + 1]];
    WriteSplit(t, s[..i], s[i..i + n]);
    WriteSplit(t, s[..i] + s[i..i + n], s[i + n..]);
    DeafStays(Write(u, s[i..i + n]), s[i + n..]);
  }

  predicate Printable(s: seq<int>) { forall i :: 0 <= i < |s| ==> 31 < s[i] < 127 }

  /** Text that fits behind the cursor lands there, in order, and nothing else changes. */
  lemma {:induction false} TextLands(t: Term, s: seq<int>)
    requires WfTerm(t) && t.state == NORMAL && Printable(s) && t.x + |s| <= t.cols
    ensures var u := Write(t, s); u == t.(g := u.g, x := t.x + |s|)
    ensures forall i :: 0 <= i < |t.g| ==>
      Write(t, s).g[i] == if At(t) <= i < At(t) + |s| then Word(s[i - At(t)], t.attr) else t.g[i]
  {
    hide Row, Word, Put;
    if s != [] {
      TextLands(t, s[..|s| - 1]);
      PrintLands(Write(t, s[..|s| - 1]), s[|s| - 1]);
    }
  }

  lemma PrintLands(t: Term, c: int)
    requires WfTerm(t) && t.state == NORMAL && 31 < c < 127 && t.x < t.cols
    ensures 0 <= At(t) < |t.g| && Put(t, c) == t.(g := t.g[At(t) := Word(c, t.attr)], x := t.x + 1)
  {
    hide Row, Word;
    AtBounds(t);
  }

  /** Rows outside the scroll region. */
  predicate Outside(t: Term, i: int) {
    !(Row(t.cols, t.top) <= i < Row(t.cols, t.bottom))
  }

  predicate Shielded(t: Term, u: Term)
    requires WfTerm(t) && WfTerm(u)
  {
    && (u.cols, u.lines, u.top, u.bottom, u.state) == (t.cols, t.lines, t.top, t.bottom, NORMAL)
    && u.top <= u.y < u.bottom
    && forall i :: 0 <= i < |t.g| && Outside(t, i) ==> u.g[i] == t.g[i]
  }

  lemma PlainShields(t: Term, u: Term, c: int)
    requires WfTerm(t) && WfTerm(u) && Shielded(t, u) && c != 27
    ensures Shielded(t, Plain(u, c))
  {
    hide Row, Word;
    Rows(u.cols, u.top, u.y);
    Rows(u.cols, u.y, u.bottom);
    Rows(u.cols, u.top, u.y + 1);
    if u.y + 1 < u.bottom { Rows(u.cols, u.y + 1, u.bottom); }
  }

  /** Text without escapes, written from inside the scroll region, stays inside it: the rows outside
      keep every cell. */
  lemma {:induction false} RegionShields(t: Term, s: seq<int>)
    requires WfTerm(t) && t.state == NORMAL && t.top <= t.y < t.bottom && 27 !in s
    ensures Shielded(t, Write(t, s))
  {
    hide Row, Plain, Outside;
    if s != [] {
      RegionShields(t, s[..|s| - 1]);
      PlainShields(t, Write(t, s[..|s| - 1]), s[|s| - 1]);
    }
  }

  // ------------------------------------------------------- cursor addresses

  /** Decimal digits, most significant first. */
  function Digits(n: nat): seq<int> {
    if n < 10 then [n + '0' as int] else Digits(n / 10) + [n % 10 + '0' as int]
  }

  lemma DigitStep(t: Term, d: int)
    requires WfTerm(t) && t.state == GETPARS && 0 <= d < 10 && 10 * t.par[t.npar] + d < WORD
    ensures Put(t, d + '0' as int) == t.(par := t.par[t.npar := 10 * t.par[t.npar] + d])
  {
    hide Row, Control;
  }

  /** Reading digits is the inverse of writing them. */
  lemma {:induction false} DigitsRead(t: Term, n: nat)
    requires WfTerm(t) && t.state == GETPARS && t.par[t.npar] == 0 && n < WORD
    ensures Write(t, Digits(n)) == t.(par := t.par[t.npar := n])
  {
    hide Row, Put;
    if n < 10 {
      DigitStep(t, n);
      WriteOne(t, n + '0' as int);
    } else {
      DigitsRead(t, n / 10);
      var u := t.(par := t.par[t.npar := n / 10]);
      DigitStep(u, n % 10);
      WriteOne(u, n % 10 + '0' as int);
      WriteSplit(t, Digits(n / 10), [n % 10 + '0' as int]);
      assert u.par[t.npar := n] == t.par[t.npar := n];
    }
  }

  function Address(row: nat, col: nat): seq<int> {
    [27, '[' as int] + Digits(row) + [';' as int] + Digits(col)
  }

  lemma FirstDigit(n: nat)
    ensures |Digits(n)| > 0 && '0' as int <= Digits(n)[0] <= '9' as int
  {
  }

  /** ESC [ */
  lemma Introduced(t: Term)
    requires WfTerm(t) && t.state == NORMAL
    ensures Write(t, [27, '[' as int]) == t.(state := SQUARE)
  {
    hide Row;
    assert [27, '[' as int][..1] == [27];
    WriteOne(t, 27);
  }

  /** After ESC [ a digit is read as if the parameters had been cleared before. */
  lemma {:induction false} SameFromSquare(open: Term, zero: Term, d: seq<int>)
    requires WfTerm(open) && open.state == SQUARE && |d| > 0 && '0' as int <= d[0] <= '9' as int
    requires zero == open.(state := GETPARS, npar := 0, ques := false, par := seq(NPAR, _ => 0))
    ensures Write(open, d) == Write(zero, d)
  {
    hide Row, Control;
    if |d| == 1 {
      assert d[..0] == [];
    } else {
      hide Put;
      SameFromSquare(open, zero, d[..|d| - 1]);
    }
  }

  function Read(t: Term, npar: int, p0: int, p1: int): Term {
    t.(state := GETPARS, npar := npar, ques := false, par := seq(NPAR, _ => 0)[0 := p0][1 := p1])
  }

  /** The state reached by ESC [ n. */
  lemma ParameterRead(t: Term, n: nat)
    requires WfTerm(t) && t.state == NORMAL && n < WORD
    ensures Write(t, [27, '[' as int] + Digits(n)) == Read(t, 0, n, 0)
  {
    hide Row, Put, Write, Digits;
    var open, zero := t.(state := SQUARE), t.(state := GETPARS, npar := 0, ques := false, par := seq(NPAR, _ => 0));
    Introduced(t);
    FirstDigit(n);
    WriteSplit(t, [27, '[' as int], Digits(n));
    SameFromSquare(open, zero, Digits(n));
    DigitsRead(zero, n);
    assert zero.par[0 := n] == seq(NPAR, _ => 0)[0 := n][1 := 0];
  }

  /** The state reached by ESC [ row ; col. */
  lemma AddressRead(t: Term, row: nat, col: nat)
    requires WfTerm(t) && t.state == NORMAL && row < WORD && col < WORD
    ensures Write(t, Address(row, col)) == Read(t, 1, row, col)
  {
    hide Row, Write, Digits, Control;
    ParameterRead(t, row);
    WriteSplit(t, [27, '[' as int] + Digits(row), [';' as int]);
    WriteOne(Read(t, 0, row, 0), ';' as int);
    assert Put(Read(t, 0, row, 0), ';' as int) == Read(t, 1, row, 0);
    WriteSplit(t, [27, '[' as int] + Digits(row) + [';' as int], Digits(col));
    DigitsRead(Read(t, 1, row, 0), col);
  }

  lemma FinalByte(v: Term, c: int)
    requires WfTerm(v) && v.state == GETPARS && !v.ques && c != ';' as int && !('0' as int <= c <= '9' as int)
    ensures Write(v, [c]) == Control(v.(state := NORMAL), c)
  {
    hide Row, Control, Write;
    WriteOne(v, c);
  }

  /** ESC [ row ; col H, counted from 1, puts the cursor exactly there, for every cell of the grid. */
  lemma AddressLands(t: Term, row: nat, col: nat)
    requires WfTerm(t) && t.state == NORMAL && 1 <= row <= t.lines && 1 <= col <= t.cols
    ensures var u := Write(t, Address(row, col) + ['H' as int]);
      (u.y, u.x) == (row - 1, col - 1) && u.g == t.g && u.state == NORMAL
  {
    hide Row, Write, Put, Digits;
    AddressRead(t, row, col);
    WriteSplit(t, Address(row, col), ['H' as int]);
    FinalByte(Read(t, 1, row, col), 'H' as int);
  }

  /** ESC [ n d should reach row n, counted from 1, and row 1 when n is omitted or zero.  It goes one row
      further, since the guard of the decrement is the wrong way round.  It reaches row n exactly when the
      cursor stands there already and row n + 1 does not exist; for a row beyond the last it stays. */
  lemma LineAddressIsOff(t: Term, n: nat)
    requires WfTerm(t) && t.state == NORMAL && n < WORD
    ensures var u := Write(t, [27, '[' as int] + Digits(n) + ['d' as int]);
      && u.y == (if 1 <= n < t.lines then n else t.y)
      && (u.y == OrOne(n) - 1 <==> t.y == OrOne(n) - 1 && (n == 0 || n == t.lines))
  {
    hide Row, Write, Put, Digits;
    ParameterRead(t, n);
    WriteSplit(t, [27, '[' as int] + Digits(n), ['d' as int]);
    FinalByte(Read(t, 0, n, 0), 'd' as int);
  }

  /** The same without a parameter: the row never changes, which is right only on row 1. */
  lemma LineAddressOmitted(t: Term)
    requires WfTerm(t) && t.state == NORMAL
    ensures var u := Write(t, [27, '[' as int, 'd' as int]); u.y == t.y && (u.y == 0 <==> t.y == 0)
  {
    hide Row, Write, Put;
    var open, d := t.(state := SQUARE), 'd' as int;
    Introduced(t);
    WriteSplit(t, [27, '[' as int], [d]);
    assert [27, '[' as int] + [d] == [27, '[' as int, d];
    WriteOne(open, d);
    LineAddressOpen(open);
  }

  lemma LineAddressOpen(t: Term)
    requires WfTerm(t) && t.state == SQUARE
    ensures Put(t, 'd' as int).y == t.y
  {
    hide Row;
  }
}
