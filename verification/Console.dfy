/** The console driver (kernel/chr_drv/console.c): a window into video memory that moves when the
    whole screen scrolls.  Addresses are counted in 16-bit cells from the start of video memory. */
module Consoles {
  import opened Terminal

  /** The character byte of a cell replaced by byte `k` of the adapter's name. */
  function Labelled(c: Cell, desc: seq<int>, k: int): Cell {
    if 0 <= k < |desc| then c - c % 256 + desc[k] else c
  }

  /** The name is in the character bytes; the attributes stay. */
  lemma NameShows(c: Cell, desc: seq<int>, k: int)
    requires 0 <= k < |desc| && 0 <= desc[k] < 256
    ensures Labelled(c, desc, k) % 256 == desc[k] && Labelled(c, desc, k) / 256 == c / 256
  {
    assert c - c % 256 == 256 * (c / 256);
    Halved(c / 256, desc[k]);
  }

  lemma Halved(q: int, r: int)
    requires 0 <= r < 256
    ensures (256 * q + r) / 256 == q && (256 * q + r) % 256 == r
  {
  }

  /** What a block move by `c` cells leaves at address `j`: the block is [a, b). */
  function UpAt(m: seq<Cell>, j: int, a: int, b: int, c: int, blank: Cell): Cell
    requires 0 <= j < |m| && 0 <= c && b <= |m|
  {
    if a <= j < b - c then m[j + c] else if a <= j < b then blank else m[j]
  }

  function DownAt(m: seq<Cell>, j: int, a: int, b: int, c: int, blank: Cell): Cell
    requires 0 <= j < |m| && 0 <= c && 0 <= a
  {
    if a + c <= j < b then m[j - c] else if a <= j < b then blank else m[j]
  }

  /** Seen through the window, which may have moved from `o` to `p`, the block move is `Up`. */
  lemma WindowUp(m: seq<Cell>, m2: seq<Cell>, o: int, p: int, size: int, a: int, b: int, c: int, blank: Cell)
    requires |m| == |m2| && 0 <= o && 0 <= p && 0 <= size && o + size <= |m| && p + size <= |m|
    requires 0 <= a && 0 <= c && b <= size
    requires forall i :: p <= i < p + size ==> m2[i] == UpAt(m, i - p + o, o + a, o + b, c, blank)
    ensures m2[p..p + size] == Up(m[o..o + size], a, b, c, blank)
  {
    var before, after := m[o..o + size], m2[p..p + size];
    forall k | 0 <= k < size
      ensures after[k] == Up(before, a, b, c, blank)[k]
    {
      assert m2[p + k] == UpAt(m, k + o, o + a, o + b, c, blank);
    }
  }

  lemma UpNothing(g: seq<Cell>, a: int, blank: Cell)
    requires 0 <= a <= |g|
    ensures Up(g, a, a, 1, blank) == g
  {
  }

  lemma WindowDown(m: seq<Cell>, m2: seq<Cell>, o: int, size: int, a: int, b: int, c: int, blank: Cell)
    requires |m| == |m2| && 0 <= o && 0 <= size && o + size <= |m|
    requires 0 <= a && 0 <= c && b <= size
    requires forall i :: o <= i < o + size ==> m2[i] == DownAt(m, i, o + a, o + b, c, blank)
    ensures m2[o..o + size] == Down(m[o..o + size], a, b, c, blank)
  {
    var before, after := m[o..o + size], m2[o..o + size];
    forall k | 0 <= k < size
      ensures after[k] == Down(before, a, b, c, blank)[k]
    {
      assert m2[o + k] == DownAt(m, k + o, o + a, o + b, c, blank);
    }
  }

  lemma ScrolledUp(t: Term, m: seq<Cell>, m2: seq<Cell>, o: int, p: int, top: int, bottom: int)
    requires WfTerm(t) && 0 <= top < bottom <= t.lines && |m| == |m2|
    requires 0 <= o && 0 <= p && o + |t.g| <= |m| && p + |t.g| <= |m| && t.g == m[o..o + |t.g|]
    requires 0 <= Row(t.cols, top) && Row(t.cols, bottom) <= Row(t.cols, t.lines)
    requires forall i :: p <= i < p + |t.g| ==>
      m2[i] == UpAt(m, i - p + o, o + Row(t.cols, top), o + Row(t.cols, bottom), t.cols, t.erase)
    ensures ScrollUp(t, top, bottom) == t.(g := m2[p..p + |t.g|])
  {
    hide Row, Up;
    WindowUp(m, m2, o, p, |t.g|, Row(t.cols, top), Row(t.cols, bottom), t.cols, t.erase);
  }

  lemma ScrolledDown(t: Term, m: seq<Cell>, m2: seq<Cell>, o: int, top: int, bottom: int)
    requires WfTerm(t) && 0 <= top < bottom <= t.lines && |m| == |m2|
    requires 0 <= o && o + |t.g| <= |m| && t.g == m[o..o + |t.g|]
    requires 0 <= Row(t.cols, top) && Row(t.cols, bottom) <= Row(t.cols, t.lines)
    requires forall i :: o <= i < o + |t.g| ==>
      m2[i] == DownAt(m, i, o + Row(t.cols, top), o + Row(t.cols, bottom), t.cols, t.erase)
    ensures ScrollDown(t, top, bottom) == t.(g := m2[o..o + |t.g|])
  {
    hide Row, Down;
    WindowDown(m, m2, o, |t.g|, Row(t.cols, top), Row(t.cols, bottom), t.cols, t.erase);
  }

  lemma WindowBlank(m: seq<Cell>, m2: seq<Cell>, o: int, size: int, a: int, b: int, blank: Cell)
    requires |m| == |m2| && 0 <= o && 0 <= size && o + size <= |m|
    requires forall i :: o <= i < o + size ==> m2[i] == if o + a <= i < o + b then blank else m[i]
    ensures m2[o..o + size] == Blank(m[o..o + size], a, b, blank)
  {
  }

  /** The number of long words in `cells` cells. */
  function Longs(cells: int): int { cells / 2 }

  lemma EvenRow(cols: int, rows: int)
    requires cols % 2 == 0
    ensures 2 * Longs(Row(cols, rows)) == Row(cols, rows)
  {
    assert Row(cols, rows) == 2 * (rows * (cols / 2));
  }

  lemma RowGap(cols: int, a: int, b: int)
    ensures Row(cols, b - a - 1) == Row(cols, b) - Row(cols, a) - cols
  {
  }

  class Console {
    const cols: int
    const lines: int
    const vmem: array<Cell>
    const par: array<int>
    var origin: int
    var scrEnd: int
    var pos: int
    var x: int
    var y: int
    var top: int
    var bottom: int
    var state: int
    var npar: int
    var ques: bool
    var attr: Attr
    var defAttr: Attr
    var erase: Cell
    var savedX: int
    var savedY: int

    /** The window is `lines` rows long and inside video memory, and `pos` is the cursor's cell. */
    ghost predicate Framed()
      reads this
    {
      && Config(cols, lines) && vmem != par
      && 0 <= origin && scrEnd == origin + Row(cols, lines) && scrEnd <= vmem.Length
      && pos == origin + Row(cols, y) + x
    }

    ghost function Abs(): Term
      reads this, vmem, par
      requires Framed()
    {
      RowOrder(cols, 0, lines);
      RowStep(cols, 0);
      Term(cols, lines, vmem[..][origin..scrEnd], x, y, top, bottom, state, npar, par[..], ques,
           attr, defAttr, erase, savedX, savedY)
    }

    ghost predicate Valid()
      reads this, vmem, par
    {
      Framed() && WfTerm(Abs())
    }

    /** con_init on video memory holding `image`; `desc` names the adapter in the first row. */
    constructor (columns: int, rows: int, image: seq<Cell>, desc: seq<int>, ox: int, oy: int)
      requires Config(columns, rows) && Row(columns, rows) <= |image| && |desc| == 4
      requires 0 <= ox <= columns && 0 <= oy < rows
      ensures Valid() && fresh(vmem) && fresh(par) && vmem.Length == |image| && (cols, lines) == (columns, rows)
      ensures Abs() == Term(columns, rows, Abs().g, ox, oy, 0, rows, NORMAL, 0, seq(NPAR, _ => 0), false,
                            Attr(0x07), Attr(0x07), 0x0720, 0, 0)
      ensures forall i :: 0 <= i < Row(columns, rows) ==> Abs().g[i] == Labelled(image[i], desc, i - (columns - 4))
    {
      hide Row;
      RowStep(columns, 0);
      RowOrder(columns, 1, rows);
      RowOrder(columns, 0, oy);
      RowOrder(columns, oy, rows);
      cols, lines := columns, rows;
      vmem := new Cell[|image|](i requires 0 <= i < |image| => Labelled(image[i], desc, i - (columns - 4)));
      par := new int[NPAR](_ => 0);
      origin, scrEnd, pos := 0, Row(columns, rows), Row(columns, oy) + ox;
      x, y, top, bottom, state, npar, ques := ox, oy, 0, rows, NORMAL, 0, false;
      attr, defAttr, erase, savedX, savedY := Attr(0x07), Attr(0x07), 0x0720, 0, 0;
    }

    // ------------------------------------------------- string instructions

    /** rep movsl, forwards: the source lies `gap` cells after the destination. */
    method CopyUp(dst: int, gap: nat, longs: nat)
      requires 0 <= dst && dst + gap + 2 * longs <= vmem.Length
      modifies vmem
      ensures forall i {:trigger vmem[i]} :: 0 <= i < vmem.Length ==>
        vmem[i] == if dst <= i < dst + 2 * longs then old(vmem[i + gap]) else old(vmem[i])
    {
      var edi, esi, ecx := dst, dst + gap, longs;
      while ecx > 0
        invariant esi == edi + gap && edi == dst + 2 * (longs - ecx)
        invariant forall i {:trigger vmem[i]} :: dst <= i < edi ==> vmem[i] == old(vmem[i + gap])
        invariant forall i {:trigger vmem[i]} :: 0 <= i < vmem.Length && !(dst <= i < edi) ==> vmem[i] == old(vmem[i])
      {
        assert vmem[esi] == old(vmem[edi + gap]) && vmem[esi + 1] == old(vmem[edi + 1 + gap]);
        vmem[edi], vmem[edi + 1] := vmem[esi], vmem[esi + 1];
        edi, esi, ecx := edi + 2, esi + 2, ecx - 1;
      }
    }

    /** rep movsl, backwards: `dst` is the last long word written, the source lies `gap` cells before. */
    method CopyDown(dst: int, gap: nat, longs: nat)
      requires dst + 2 <= vmem.Length && 0 <= dst - gap + 2 - 2 * longs
      modifies vmem
      ensures forall i {:trigger vmem[i]} :: 0 <= i < vmem.Length ==>
        vmem[i] == if dst + 2 - 2 * longs <= i < dst + 2 then old(vmem[i - gap]) else old(vmem[i])
    {
      var edi, esi, ecx := dst, dst - gap, longs;
      while ecx > 0
        invariant esi == edi - gap && edi == dst - 2 * (longs - ecx)
        invariant forall i {:trigger vmem[i]} :: edi + 2 <= i < dst + 2 ==> vmem[i] == old(vmem[i - gap])
        invariant forall i {:trigger vmem[i]} :: 0 <= i < vmem.Length && !(edi + 2 <= i < dst + 2) ==>
          vmem[i] == old(vmem[i])
      {
        assert vmem[esi] == old(vmem[edi - gap]) && vmem[esi + 1] == old(vmem[edi + 1 - gap]);
        vmem[edi], vmem[edi + 1] := vmem[esi], vmem[esi + 1];
        edi, esi, ecx := edi - 2, esi - 2, ecx - 1;
      }
    }

    /** rep stosw, forwards. */
    method Fill(start: int, count: nat)
      requires 0 <= start && start + count <= vmem.Length
      modifies vmem
      ensures forall i {:trigger vmem[i]} :: 0 <= i < vmem.Length ==>
        vmem[i] == if start <= i < start + count then erase else old(vmem[i])
    {
      var n := 0;
      while n < count
        invariant 0 <= n <= count
        invariant forall i {:trigger vmem[i]} :: 0 <= i < vmem.Length ==>
          vmem[i] == if start <= i < start + n then erase else old(vmem[i])
      {
        vmem[start + n] := erase;
        n := n + 1;
      }
    }

    /** rep stosw, backwards. */
    method FillDown(last: int, count: nat)
      requires last < vmem.Length && count <= last + 1
      modifies vmem
      ensures forall i {:trigger vmem[i]} :: 0 <= i < vmem.Length ==>
        vmem[i] == if last - count < i <= last then erase else old(vmem[i])
    {
      var n := 0;
      while n < count
        invariant 0 <= n <= count
        invariant forall i {:trigger vmem[i]} :: 0 <= i < vmem.Length ==>
          vmem[i] == if last - n < i <= last then erase else old(vmem[i])
      {
        vmem[last - n] := erase;
        n := n + 1;
      }
    }

    // ------------------------------------------------------------ scrolling

    /** The cells of [a, b) move up by one row: rep movsl, then rep stosw. */
    method BlockUp(a: int, b: int, words: int)
      requires 0 <= a && 0 <= cols && b <= vmem.Length && words == b - a - cols >= 0 && 2 * Longs(words) == words
      modifies vmem
      ensures forall i :: 0 <= i < vmem.Length ==> vmem[..][i] == UpAt(old(vmem[..]), i, a, b, cols, erase)
    {
      hide Longs;
      CopyUp(a, cols, Longs(words));
      Fill(a + words, cols);
    }

    method BlockDown(a: int, b: int, words: int)
      requires 0 <= a && 0 <= cols && b <= vmem.Length && words == b - a - cols >= 0 && 2 * Longs(words) == words
      requires words >= 2 || words == 0
      modifies vmem
      ensures forall i :: 0 <= i < vmem.Length ==> vmem[..][i] == DownAt(old(vmem[..]), i, a, b, cols, erase)
    {
      hide Longs;
      CopyDown(b - 2, cols, Longs(words));
      assert forall i {:trigger vmem[i]} :: 0 <= i < vmem.Length ==>
        vmem[i] == if a + cols <= i < b then old(vmem[i - cols]) else old(vmem[i]);
      FillDown(b - 2 - words + 1, cols);
    }

    /** The screen [o, o + words + cols) moves to the start of video memory, one row up. */
    method BlockBack(o: int, words: int)
      requires 0 <= o && 0 <= cols && words >= 0 && o + cols + words <= vmem.Length && 2 * Longs(words) == words
      modifies vmem
      ensures forall i :: 0 <= i < words + cols ==>
        vmem[..][i] == UpAt(old(vmem[..]), i - 0 + o, o, o + words + cols, cols, erase)
    {
      hide Longs;
      CopyUp(0, o + cols, Longs(words));
      Fill(words, cols);
    }

    /** The row behind the screen [o, e) becomes its last one. */
    method BlockOn(o: int, e: int)
      requires 0 <= o && 0 <= cols && o + cols <= e && e + cols <= vmem.Length
      modifies vmem
      ensures forall i :: o + cols <= i < e + cols ==>
        vmem[..][i] == UpAt(old(vmem[..]), i - (o + cols) + o, o, e, cols, erase)
    {
      Fill(e, cols);
    }

    /** The whole screen scrolls: the window moves on, back to the start of video memory if it must. */
    method Advance()
      requires Valid() && top == 0 && bottom == lines
      modifies this`origin, this`scrEnd, this`pos, vmem
      ensures Framed() && Abs() == ScrollUp(old(Abs()), top, bottom)
    {
      hide Row, Longs, ScrollUp, UpAt;
      ghost var o, m := origin, vmem[..];
      Rows(cols, lines - 1, lines);
      EvenRow(cols, lines - 1);
      RowGap(cols, 0, lines);
      origin := origin + cols;
      pos := pos + cols;
      scrEnd := scrEnd + cols;
      if scrEnd > vmem.Length {
        BlockBack(origin - cols, Row(cols, lines - 1));
        scrEnd := scrEnd - origin;
        pos := pos - origin;
        origin := 0;
      } else {
        BlockOn(origin - cols, scrEnd - cols);
      }
      ScrolledUp(old(Abs()), m, vmem[..], o, origin, top, bottom);
    }

    /** Only a part of the screen scrolls: its rows are copied. */
    method CopyRegion()
      requires Valid()
      modifies vmem
      ensures Framed() && Abs() == ScrollUp(old(Abs()), top, bottom)
    {
      hide Row, Longs, ScrollUp;
      Rows(cols, top, bottom);
      Rows(cols, bottom, lines);
      RowGap(cols, top, bottom);
      EvenRow(cols, bottom - top - 1);
      BlockUp(origin + Row(cols, top), origin + Row(cols, bottom), Row(cols, bottom - top - 1));
      ScrolledUp(old(Abs()), old(vmem[..]), vmem[..], origin, origin, top, bottom);
    }

    method ScrUp()
      requires Valid()
      modifies this`origin, this`scrEnd, this`pos, vmem
      ensures Framed() && Abs() == ScrollUp(old(Abs()), top, bottom)
    {
      if top == 0 && bottom == lines {
        Advance();
      } else {
        CopyRegion();
      }
    }

    method ScrDown()
      requires Valid()
      modifies vmem
      ensures Framed() && Abs() == ScrollDown(old(Abs()), top, bottom)
    {
      hide Row, Longs, ScrollDown;
      if bottom <= top {
        assert false;
      }
      Rows(cols, top, bottom);
      Rows(cols, bottom, lines);
      RowGap(cols, top, bottom);
      Rows(cols, 0, bottom - top - 1);
      EvenRow(cols, bottom - top - 1);
      BlockDown(origin + Row(cols, top), origin + Row(cols, bottom), Row(cols, bottom - top - 1));
      ScrolledDown(old(Abs()), old(vmem[..]), vmem[..], origin, top, bottom);
    }

    // ------------------------------------------------------ cursor movement

    method GotoXY(nx: int, ny: int)
      requires Valid()
      modifies this`x, this`y, this`pos
      ensures Valid() && Abs() == Goto(old(Abs()), nx, ny)
    {
      hide Row;
      if nx % WORD > cols || ny % WORD >= lines {
        return;
      }
      x := nx % WORD;
      y := ny % WORD;
      pos := origin + Row(cols, y) + x;
    }

    method Lf()
      requires Valid()
      modifies this`y, this`origin, this`scrEnd, this`pos, vmem
      ensures Valid() && Abs() == LineFeed(old(Abs()))
    {
      hide Row, Up;
      RowStep(cols, y);
      if y + 1 < bottom {
        y := y + 1;
        pos := pos + cols;
        return;
      }
      ScrUp();
    }

    method Ri()
      requires Valid()
      modifies this`y, this`pos, vmem
      ensures Valid() && Abs() == ReverseIndex(old(Abs()))
    {
      hide Row, Down;
      RowStep(cols, y - 1);
      if y > top {
        y := y - 1;
        pos := pos - cols;
        return;
      }
      ScrDown();
    }

    method Cr()
      requires Valid()
      modifies this`x, this`pos
      ensures Valid() && Abs() == old(Abs()).(x := 0)
    {
      hide Row;
      pos := pos - x;
      x := 0;
    }

    method Del()
      requires Valid()
      modifies this`x, this`pos, vmem
      ensures Valid() && Abs() == Delete(old(Abs()))
    {
      hide Row;
      AtBounds(Abs());
      if x != 0 {
        pos := pos - 1;
        x := x - 1;
        vmem[pos] := erase;
      }
    }

    /** A printable character, on the next row when the cursor stands behind the last column. */
    method Show(c: int)
      requires Valid()
      modifies this`x, this`y, this`origin, this`scrEnd, this`pos, vmem
      ensures Valid() && Abs() == Print(old(Abs()), c)
    {
      hide Row, LineFeed;
      if x >= cols {
        x := x - cols;
        pos := pos - cols;
        Lf();
      }
      AtBounds(Abs());
      vmem[pos] := Word(c, attr);
      pos := pos + 1;
      x := x + 1;
    }

    method HorizontalTab()
      requires Valid()
      modifies this`x, this`y, this`origin, this`scrEnd, this`pos, vmem
      ensures Valid() && Abs() == Tab(old(Abs()))
    {
      hide Row, LineFeed;
      var c := 8 - x % 8;
      x := x + c;
      pos := pos + c;
      if x > cols {
        x := x - cols;
        pos := pos - cols;
        Lf();
      }
    }

    // --------------------------------------------------- erasing and editing

    /** rep stosw inside the window. */
    method FillWindow(a: int, count: int)
      requires Valid() && 0 <= a && 0 <= count && a + count <= Row(cols, lines)
      modifies vmem
      ensures Valid() && Abs() == old(Abs()).(g := Blank(old(Abs()).g, a, a + count, erase))
    {
      hide Row, Blank;
      Fill(origin + a, count);
      WindowBlank(old(vmem[..]), vmem[..], origin, Row(cols, lines), a, a + count, erase);
      assert Abs().g == Blank(old(Abs()).g, a, a + count, erase);
    }

    method CsiJ(p: int)
      requires Valid()
      modifies vmem
      ensures Valid() && Abs() == EraseDisplay(old(Abs()), p)
    {
      hide Row, Blank;
      AtBounds(Abs());
      var count, start;
      if p == 0 {
        count, start := scrEnd - pos, pos;
      } else if p == 1 {
        count, start := pos - origin, origin;
      } else if p == 2 {
        count, start := Row(cols, lines), origin;
      } else {
        return;
      }
      FillWindow(start - origin, count);
    }

    method CsiK(p: int)
      requires Valid()
      modifies vmem
      ensures Valid() && Abs() == EraseLine(old(Abs()), p)
    {
      hide Row, Blank;
      AtBounds(Abs());
      var count, start;
      if p == 0 {
        if x >= cols {
          return;
        }
        count, start := cols - x, pos;
      } else if p == 1 {
        count, start := if x < cols then x else cols, pos - x;
      } else if p == 2 {
        count, start := cols, pos - x;
      } else {
        return;
      }
      FillWindow(start - origin, count);
    }

    /** The loop of delete_char over [at, end). */
    method ShiftLeft(at: int, end: int)
      requires 0 <= at < end <= vmem.Length
      modifies vmem
      ensures forall i :: 0 <= i < vmem.Length ==> vmem[..][i] == UpAt(old(vmem[..]), i, at, end, 1, erase)
    {
      ghost var m := vmem[..];
      var p := at;
      while p + 1 < end
        invariant at <= p < end
        invariant forall k {:trigger vmem[k]} :: 0 <= k < vmem.Length ==>
          vmem[k] == if at <= k < p then m[k + 1] else m[k]
      {
        assert vmem[p + 1] == m[p + 1];
        vmem[p] := vmem[p + 1];
        p := p + 1;
      }
      vmem[p] := erase;
    }

    /** The loop of insert_char over [at, end). */
    method ShiftRight(at: int, end: int)
      requires 0 <= at <= end <= vmem.Length
      modifies vmem
      ensures forall i :: 0 <= i < vmem.Length ==> vmem[..][i] == DownAt(old(vmem[..]), i, at, end, 1, erase)
    {
      ghost var m := vmem[..];
      var carry, p := erase, at;
      while p < end
        invariant at <= p <= end
        invariant carry == if p == at then erase else m[p - 1]
        invariant forall k {:trigger vmem[k]} :: 0 <= k < vmem.Length ==>
          vmem[k] == if at < k < p then m[k - 1] else if k == at < p then erase else m[k]
      {
        assert vmem[p] == m[p];
        carry, vmem[p] := vmem[p], carry;
        p := p + 1;
      }
    }

    method RemoveChar()
      requires Valid()
      modifies vmem
      ensures Valid() && Abs() == DeleteChar(old(Abs()))
    {
      hide Row, Up;
      AtBounds(Abs());
      if x >= cols {
        UpNothing(Abs().g, Row(cols, y) + x, erase);
        return;
      }
      CloseGap();
    }

    /** The rest of the row moves over the cursor's cell. */
    method CloseGap()
      requires Framed() && 0 <= x < cols && 0 <= Row(cols, y) && Row(cols, y) + cols <= Row(cols, lines)
      modifies vmem
      ensures Framed() && Abs() == old(Abs()).(g := Up(old(Abs()).g, Row(cols, y) + x, Row(cols, y) + cols, 1, erase))
    {
      hide Row, Up;
      ShiftLeft(pos, pos - x + cols);
      WindowUp(old(vmem[..]), vmem[..], origin, origin, Row(cols, lines), Row(cols, y) + x, Row(cols, y) + cols, 1,
        erase);
    }

    method AddChar()
      requires Valid()
      modifies vmem
      ensures Valid() && Abs() == InsertChar(old(Abs()))
    {
      hide Row, Down;
      AtBounds(Abs());
      ghost var from, to := Row(cols, y) + x, Row(cols, y) + cols;
      ShiftRight(pos, pos - x + cols);
      WindowDown(old(vmem[..]), vmem[..], origin, Row(cols, lines), from, to, 1, erase);
      assert Abs().g == Down(old(Abs()).g, from, to, 1, erase);
    }

    method AddLine()
      requires Valid()
      modifies this`top, this`bottom, vmem
      ensures Valid() && Abs() == InsertLine(old(Abs()))
    {
      hide Row, Down;
      var oldTop, oldBottom := top, bottom;
      top, bottom := y, lines;
      ScrDown();
      top, bottom := oldTop, oldBottom;
    }

    method RemoveLine()
      requires Valid()
      modifies this`top, this`bottom, this`origin, this`scrEnd, this`pos, vmem
      ensures Valid() && Abs() == DeleteLine(old(Abs()))
    {
      hide Row, Up;
      var oldTop, oldBottom := top, bottom;
      top, bottom := y, lines;
      ScrUp();
      top, bottom := oldTop, oldBottom;
    }

    method EditStep(e: Edit)
      requires Valid()
      modifies this`top, this`bottom, this`origin, this`scrEnd, this`pos, vmem
      ensures Valid() && Abs() == EditOnce(old(Abs()), e)
    {
      hide Row, Up, Down;
      match e
      case InsChar => AddChar();
      case DelChar => RemoveChar();
      case InsLine => AddLine();
      case DelLine => RemoveLine();
    }

    /** csi_at, csi_L, csi_P, csi_M */
    method CsiEdit(e: Edit, n: int, limit: int)
      requires Valid() && n >= 0 && limit >= 1
      modifies this`top, this`bottom, this`origin, this`scrEnd, this`pos, vmem
      ensures Valid() && Abs() == EditMany(old(Abs()), e, Clamp(n, limit))
    {
      hide Row, EditOnce, WfTerm;
      var nr := if n > limit then limit else if n == 0 then 1 else n;
      ghost var t, done := Abs(), 0;
      while nr > 0
        invariant nr >= 0 && done + nr == Clamp(n, limit)
        invariant Valid() && Abs() == EditMany(t, e, done)
      {
        EditStep(e);
        nr, done := nr - 1, done + 1;
      }
    }

    method CsiM()
      requires Valid()
      modifies this`attr
      ensures Valid() && Abs() == old(Abs()).(attr := Renditions(old(attr), defAttr, par[..npar + 1]))
    {
      hide Row, Rendition;
      var i := 0;
      while i <= npar
        invariant 0 <= i <= npar + 1
        invariant attr == Renditions(old(attr), defAttr, par[..i])
      {
        assert par[..i + 1][..i] == par[..i];
        attr := Rendition(attr, defAttr, par[i]);
        i := i + 1;
      }
    }

    // ----------------------------------------------------- the state machine

    method Ordinary(c: int)
      requires Valid()
      modifies this, vmem
      ensures Valid() && Abs() == Plain(old(Abs()), c)
    {
      hide Row, Print, Tab, LineFeed, Delete;
      if 31 < c < 127 {
        Show(c);
      } else if c == 27 {
        state := ESC;
      } else if c == 10 || c == 11 || c == 12 {
        Lf();
      } else if c == 13 {
        Cr();
      } else if c == 127 {
        Del();
      } else if c == 8 {
        if x > 0 {
          x := x - 1;
          pos := pos - 1;
        }
      } else if c == 9 {
        HorizontalTab();
      }
    }

    method Escaped(c: int)
      requires Valid()
      modifies this, vmem
      ensures Valid() && Abs() == Escape(old(Abs()), c)
    {
      hide Row, LineFeed, ReverseIndex, Goto;
      state := NORMAL;
      match c as int {
        case 91 => state := SQUARE;          // [
        case 69 => GotoXY(0, y + 1);         // E
        case 77 => Ri();                     // M
        case 68 => Lf();                     // D
        case 55 => savedX, savedY := x, y;   // 7
        case 56 => GotoXY(savedX, savedY);   // 8
        case 40 => state := SETGRAPH;        // (
        case 41 => state := SETGRAPH;        // )
        case 80 => state := SETTERM;         // P
        case 35 => state := STUCK;           // #
        case 99 => top, bottom := 0, lines;  // c
        case _ =>
      }
    }

    /** Where a motion goes; its parameters are adjusted on the way. */
    method Destination(c: int) returns (moves: bool, nx: int, ny: int)
      requires Valid()
      modifies par
      ensures Valid() && Motion(old(Abs()), c) == if moves then Goto(Abs(), nx, ny) else Abs()
    {
      hide Row, Goto;
      moves, nx, ny := true, x, y;
      if c == 'G' as int || c == '`' as int {
        par[0] := LessOne(par[0]);
        nx, ny := par[0], y;
      } else if c == 'A' as int {
        par[0] := OrOne(par[0]);
        nx, ny := x, y - par[0];
      } else if c == 'B' as int || c == 'e' as int {
        par[0] := OrOne(par[0]);
        nx, ny := x, y + par[0];
      } else if c == 'C' as int || c == 'a' as int {
        par[0] := OrOne(par[0]);
        nx, ny := x + par[0], y;
      } else if c == 'D' as int {
        par[0] := OrOne(par[0]);
        nx, ny := x - par[0], y;
      } else if c == 'E' as int {
        par[0] := OrOne(par[0]);
        nx, ny := 0, y + par[0];
      } else if c == 'F' as int {
        par[0] := OrOne(par[0]);
        nx, ny := 0, y - par[0];
      } else if c == 'd' as int {
        par[0] := if par[0] == 0 then WORD - 1 else par[0];
        nx, ny := x, par[0];
      } else if c == 'H' as int || c == 'f' as int {
        par[0], par[1] := LessOne(par[0]), LessOne(par[1]);
        nx, ny := par[1], par[0];
      } else {
        moves := false;
      }
    }

    method Moved(c: int)
      requires Valid()
      modifies this`x, this`y, this`pos, par
      ensures Valid() && Abs() == Motion(old(Abs()), c)
    {
      hide Row, Goto, Motion, WfTerm;
      var moves, nx, ny := Destination(c);
      if moves {
        GotoXY(nx, ny);
      }
    }

    method CsiR()
      requires Valid()
      modifies this, par
      ensures Valid() && Abs() == Control(old(Abs()), 'r' as int)
    {
      hide Row, Motion, EraseDisplay, EraseLine, EditMany, Renditions;
      par[0] := LessOne(par[0]);
      par[1] := if par[1] == 0 then lines else par[1];
      if par[0] < par[1] <= lines {
        top, bottom := par[0], par[1];
      }
    }

    method Controlled(c: int)
      requires Valid()
      modifies this, vmem, par
      ensures Valid() && Abs() == Control(old(Abs()), c)
    {
      hide Row, Motion, EraseDisplay, EraseLine, EditMany, Renditions;
      if c == 'J' as int {
        CsiJ(par[0]);
      } else if c == 'K' as int {
        CsiK(par[0]);
      } else if c == 'L' as int {
        CsiEdit(InsLine, par[0], lines);
      } else if c == 'M' as int {
        CsiEdit(DelLine, par[0], lines);
      } else if c == 'P' as int {
        CsiEdit(DelChar, par[0], cols);
      } else if c == '@' as int {
        CsiEdit(InsChar, par[0], cols);
      } else if c == 'm' as int {
        CsiM();
      } else if c == 'r' as int {
        CsiR();
      } else if c == 's' as int {
        savedX, savedY := x, y;
      } else if c == 'u' as int {
        GotoXY(savedX, savedY);
      } else {
        Moved(c);
      }
    }

    method Collect(c: int)
      requires Valid()
      modifies this, vmem, par
      ensures Valid() && Abs() == Parameters(old(Abs()), c)
    {
      hide Row, Control;
      if c == ';' as int && npar < NPAR - 1 {
        npar := npar + 1;
      } else if '0' as int <= c <= '9' as int {
        par[npar] := (10 * par[npar] + c - '0' as int) % WORD;
      } else {
        state := GOTPARS;
        Finished(c);
      }
    }

    method Finished(c: int)
      requires Valid()
      modifies this, vmem, par
      ensures Valid() && Abs() == Final(old(Abs()), c)
    {
      hide Row, Control;
      state := NORMAL;
      if ques {
        ques := false;
      } else {
        Controlled(c);
      }
    }

    method Bracketed(c: int)
      requires Valid()
      modifies this, vmem, par
      ensures Valid() && Abs() == Bracket(old(Abs()), c)
    {
      hide Row, Parameters;
      npar := 0;
      while npar < NPAR
        invariant 0 <= npar <= NPAR && Framed()
        invariant Abs() == old(Abs()).(npar := npar, par := par[..])
        invariant forall i :: 0 <= i < npar ==> par[i] == 0
        modifies this`npar, par
      {
        par[npar] := 0;
        npar := npar + 1;
      }
      assert par[..] == seq(NPAR, _ => 0);
      npar := 0;
      state := GETPARS;
      if c == '[' as int {
        state := FUNCKEY;
        return;
      }
      ques := c == '?' as int;
      if !ques {
        Collect(c);
      }
    }

    method PutChar(c: int)
      requires Valid()
      modifies this, vmem, par
      ensures Valid() && Abs() == Put(old(Abs()), c)
    {
      hide Row, Plain, Escape, Bracket, Parameters, Final;
      if state == NORMAL {
        Ordinary(c);
      } else if state == ESC {
        Escaped(c);
      } else if state == SQUARE {
        Bracketed(c);
      } else if state == GETPARS {
        Collect(c);
      } else if state == GOTPARS {
        Finished(c);
      } else if state == SETTERM {
        state := NORMAL;
        if c == 'S' as int {
          defAttr := attr;
          erase := Word(erase, defAttr);
        }
      }
    }

    /** con_write: the characters waiting in the write queue, then the cursor is set once more. */
    method ConWrite(s: seq<int>)
      requires Valid()
      modifies this, vmem, par
      ensures Valid() && Abs() == Write(old(Abs()), s)
    {
      hide Row, Put, WfTerm;
      var i := 0;
      while i < |s|
        invariant 0 <= i <= |s|
        invariant Valid() && Abs() == Write(old(Abs()), s[..i])
      {
        assert s[..i + 1][..i] == s[..i];
        PutChar(s[i]);
        i := i + 1;
      }
      assert s[..i] == s;
      SameCell();
    }

    /** The last gotoxy of con_write moves nothing. */
    method SameCell()
      requires Valid()
      modifies this`x, this`y, this`pos
      ensures Valid() && Abs() == old(Abs()) && pos == old(pos)
    {
      GotoXY(x, y);
    }
  }
}
