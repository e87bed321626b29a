/** A character terminal as a plain grid (the meaning of kernel/chr_drv/console.c).
    Control functions are those of section 8.3 of ECMA-48, as far as the console knows them. */
module Terminal {

  const WORD: int := 0x1_0000_0000     // unsigned long
  const NPAR: int := 16
  const STUCK: int := 0xffff_ffff      // what -1 becomes in an unsigned state

  const NORMAL: int := 0
  const ESC: int := 1
  const SQUARE: int := 2
  const GETPARS: int := 3
  const GOTPARS: int := 4              // passed through only
  const FUNCKEY: int := 5
  const SETTERM: int := 6
  const SETGRAPH: int := 7

  /** Attribute bits; the screen keeps the low byte. */
  datatype Attr = Attr(bits: bv32)

  /** A 16-bit word of video memory: a character and the low byte of the attributes. */
  type Cell = int

  function Word(c: int, a: Attr): Cell { c % 256 + 256 * ((a.bits & 0xff) as int) }

  type Grid = seq<Cell>

  /** The grid is stored row by row; `cols` and `lines` never change. */
  datatype Term = Term(
    cols: int, lines: int, g: Grid, x: int, y: int, top: int, bottom: int,
    state: int, npar: int, par: seq<int>, ques: bool,
    attr: Attr, defAttr: Attr, erase: Cell, savedX: int, savedY: int)

  predicate Config(cols: int, lines: int) { 8 <= cols <= 255 && cols % 2 == 0 && 1 <= lines <= 255 }

  predicate WfTerm(t: Term) {
    && Config(t.cols, t.lines) && |t.g| == Row(t.cols, t.lines)
    && 0 <= t.x <= t.cols && 0 <= t.y < t.lines && 0 <= t.top < t.bottom <= t.lines
    && 0 <= t.npar < NPAR && |t.par| == NPAR && (forall i :: 0 <= i < NPAR ==> 0 <= t.par[i] < WORD)
    && 0 <= t.savedX < WORD && 0 <= t.savedY < WORD
  }

  /** The size stays, the cursor is on the grid or just behind a row, the region is proper. */
  predicate Kept(t: Term, r: Term) { WfTerm(r) && r.cols == t.cols && r.lines == t.lines }

  /** Where row `r` starts. */
  function Row(cols: int, r: int): int { r * cols }

  lemma RowOrder(cols: int, a: int, b: int)
    requires cols >= 0 && a <= b
    ensures Row(cols, a) <= Row(cols, b)
  {
    assert (b - a) * cols >= 0;
  }

  lemma RowStep(cols: int, a: int)
    ensures Row(cols, a + 1) == Row(cols, a) + cols && Row(cols, 0) == 0
  {
  }

  lemma Rows(cols: int, a: int, b: int)
    requires cols >= 0 && 0 <= a <= b
    ensures 0 <= Row(cols, a) <= Row(cols, b) && Row(cols, 0) == 0
    ensures a < b ==> Row(cols, a) + cols <= Row(cols, b)
    ensures Row(cols, a + 1) == Row(cols, a) + cols
  {
    hide Row;
    RowOrder(cols, 0, a);
    RowOrder(cols, a, b);
    RowStep(cols, a);
    if a < b { RowOrder(cols, a + 1, b); }
  }

  // ------------------------------------------------------------- the grid

  /** Cells [a, b) move up by `c` cells; the last `c` of them become blank. */
  function Up(g: Grid, a: int, b: int, c: int, blank: Cell): (r: Grid)
    requires 0 <= a && 0 <= c && b <= |g|
    ensures |r| == |g|
  {
    seq(|g|, i requires 0 <= i < |g| => if a <= i < b - c then g[i + c] else if a <= i < b then blank else g[i])
  }

  function Down(g: Grid, a: int, b: int, c: int, blank: Cell): (r: Grid)
    requires 0 <= a && 0 <= c && b <= |g|
    ensures |r| == |g|
  {
    seq(|g|, i requires 0 <= i < |g| => if a + c <= i < b then g[i - c] else if a <= i < b then blank else g[i])
  }

  function Blank(g: Grid, a: int, b: int, blank: Cell): (r: Grid)
    ensures |r| == |g|
  {
    seq(|g|, i requires 0 <= i < |g| => if a <= i < b then blank else g[i])
  }

  // ------------------------------------------------------- cursor movement

  function Goto(t: Term, nx: int, ny: int): (r: Term)
    requires WfTerm(t)
    ensures Kept(t, r)
  {
    var ux, uy := nx % WORD, ny % WORD;
    if ux > t.cols || uy >= t.lines then t else t.(x := ux, y := uy)
  }

  function ScrollUp(t: Term, top: int, bottom: int): (r: Term)
    requires WfTerm(t) && 0 <= top < bottom <= t.lines
    ensures Kept(t, r)
  {
    hide Row;
    Rows(t.cols, top, bottom);
    Rows(t.cols, bottom, t.lines);
    t.(g := Up(t.g, Row(t.cols, top), Row(t.cols, bottom), t.cols, t.erase))
  }

  function ScrollDown(t: Term, top: int, bottom: int): (r: Term)
    requires WfTerm(t) && 0 <= top < bottom <= t.lines
    ensures Kept(t, r)
  {
    hide Row;
    Rows(t.cols, top, bottom);
    Rows(t.cols, bottom, t.lines);
    t.(g := Down(t.g, Row(t.cols, top), Row(t.cols, bottom), t.cols, t.erase))
  }

  function LineFeed(t: Term): (r: Term)
    requires WfTerm(t)
    ensures Kept(t, r)
  {
    hide Row;
    if t.y + 1 < t.bottom then t.(y := t.y + 1) else ScrollUp(t, t.top, t.bottom)
  }

  function ReverseIndex(t: Term): (r: Term)
    requires WfTerm(t)
    ensures Kept(t, r)
  {
    hide Row;
    if t.y > t.top then t.(y := t.y - 1) else ScrollDown(t, t.top, t.bottom)
  }

  function At(t: Term): int { Row(t.cols, t.y) + t.x }

  lemma AtBounds(t: Term)
    requires WfTerm(t)
    ensures 0 <= Row(t.cols, t.y) && Row(t.cols, t.y) + t.cols <= |t.g|
    ensures 0 <= At(t) <= |t.g| && (t.x < t.cols ==> At(t) < |t.g|)
  {
    Rows(t.cols, t.y, t.lines);
  }

  // ------------------------------------------------------------ characters

  function Print(t: Term, c: int): (r: Term)
    requires WfTerm(t)
    ensures Kept(t, r)
  {
    hide Row;
    var u := if t.x >= t.cols then LineFeed(t.(x := t.x - t.cols)) else t;
    AtBounds(u);
    u.(g := u.g[At(u) := Word(c, u.attr)], x := u.x + 1)
  }

  function Tab(t: Term): (r: Term)
    requires WfTerm(t)
    ensures Kept(t, r)
  {
    hide Row;
    var nx := t.x + (8 - t.x % 8);
    if nx > t.cols then LineFeed(t.(x := nx - t.cols)) else t.(x := nx)
  }

  function Delete(t: Term): (r: Term)
    requires WfTerm(t)
    ensures Kept(t, r)
  {
    hide Row;
    if t.x == 0 then t
    else
      AtBounds(t);
      t.(x := t.x - 1, g := t.g[At(t) - 1 := t.erase])
  }

  function Plain(t: Term, c: int): (r: Term)
    requires WfTerm(t)
    ensures Kept(t, r)
  {
    hide Row;
    if 31 < c < 127 then Print(t, c)
    else if c == 27 then t.(state := ESC)
    else if c == 10 || c == 11 || c == 12 then LineFeed(t)
    else if c == 13 then t.(x := 0)
    else if c == 127 then Delete(t)
    else if c == 8 then (if t.x > 0 then t.(x := t.x - 1) else t)
    else if c == 9 then Tab(t)
    else t
  }

  function Escape(t: Term, ch: int): (r: Term)
    requires WfTerm(t)
    ensures Kept(t, r)
  {
    hide Row;
    var u := t.(state := NORMAL);
    if ch == '[' as int then t.(state := SQUARE)
    else if ch == 'E' as int then Goto(u, 0, u.y + 1)
    else if ch == 'M' as int then ReverseIndex(u)
    else if ch == 'D' as int then LineFeed(u)
    else if ch == '7' as int then u.(savedX := u.x, savedY := u.y)
    else if ch == '8' as int then Goto(u, u.savedX, u.savedY)
    else if ch == '(' as int || ch == ')' as int then t.(state := SETGRAPH)
    else if ch == 'P' as int then t.(state := SETTERM)
    else if ch == '#' as int then t.(state := STUCK)
    else if ch == 'c' as int then u.(top := 0, bottom := u.lines)
    else u
  }

  // ------------------------------------------------------- control functions

  function EraseDisplay(t: Term, p: int): (r: Term)
    requires WfTerm(t)
    ensures Kept(t, r)
  {
    hide Row;
    if p == 0 then t.(g := Blank(t.g, At(t), |t.g|, t.erase))
    else if p == 1 then t.(g := Blank(t.g, 0, At(t), t.erase))
    else if p == 2 then t.(g := Blank(t.g, 0, |t.g|, t.erase))
    else t
  }

  function EraseLine(t: Term, p: int): (r: Term)
    requires WfTerm(t)
    ensures Kept(t, r)
  {
    hide Row;
    var row := Row(t.cols, t.y);
    if p == 0 then (if t.x >= t.cols then t else t.(g := Blank(t.g, row + t.x, row + t.cols, t.erase)))
    else if p == 1 then t.(g := Blank(t.g, row, row + t.x, t.erase))
    else if p == 2 then t.(g := Blank(t.g, row, row + t.cols, t.erase))
    else t
  }

  function InsertChar(t: Term): (r: Term)
    requires WfTerm(t)
    ensures Kept(t, r)
  {
    hide Row;
    AtBounds(t);
    t.(g := Down(t.g, At(t), Row(t.cols, t.y) + t.cols, 1, t.erase))
  }

  function DeleteChar(t: Term): (r: Term)
    requires WfTerm(t)
    ensures Kept(t, r)
  {
    hide Row;
    AtBounds(t);
    t.(g := Up(t.g, At(t), Row(t.cols, t.y) + t.cols, 1, t.erase))
  }

  function InsertLine(t: Term): (r: Term)
    requires WfTerm(t)
    ensures Kept(t, r)
  {
    hide Row;
    ScrollDown(t, t.y, t.lines)
  }

  function DeleteLine(t: Term): (r: Term)
    requires WfTerm(t)
    ensures Kept(t, r)
  {
    hide Row;
    ScrollUp(t, t.y, t.lines)
  }

  datatype Edit = InsChar | DelChar | InsLine | DelLine

  function EditOnce(t: Term, e: Edit): (r: Term)
    requires WfTerm(t)
    ensures Kept(t, r)
  {
    hide Row;
    match e
    case InsChar => InsertChar(t)
    case DelChar => DeleteChar(t)
    case InsLine => InsertLine(t)
    case DelLine => DeleteLine(t)
  }

  function EditMany(t: Term, e: Edit, n: nat): (r: Term)
    requires WfTerm(t)
    ensures WfTerm(r) && r == t.(g := r.g)
  {
    if n == 0 then t else EditOnce(EditMany(t, e, n - 1), e)
  }

  /** A count parameter: at least 1, at most `limit`. */
  function Clamp(n: int, limit: int): int { if n > limit then limit else if n == 0 then 1 else n }

  /** Select graphic rendition, for one parameter. */
  function Rendition(attr: Attr, def: Attr, p: int): Attr {
    var a, d := attr.bits, def.bits;
    if p == 0 then Attr(0x07)
    else if p == 1 then Attr(0x0f)
    else if p == 4 then Attr(0x0f)
    else if p == 5 then Attr(a | 0x80)
    else if p == 7 then Attr((a << 4) | (a >> 4))
    else if p == 22 then Attr(a & 0xf7)
    else if p == 24 then Attr(a & 0xfe)
    else if p == 25 then Attr(a & 0x7f)
    else if p == 27 then def
    else if p == 39 then Attr((a & 0xf0) | (d & 0x0f))
    else if p == 49 then Attr((a & 0x0f) | (d & 0xf0))
    else if 30 <= p <= 38 then Attr((a & 0xf0) | ((p - 30) as bv32))
    else if 40 <= p <= 48 then Attr((a & 0x0f) | (((p - 40) as bv32) << 4))
    else attr
  }

  function Renditions(attr: Attr, def: Attr, par: seq<int>): Attr {
    hide Rendition;
    if par == [] then attr else Rendition(Renditions(attr, def, par[..|par| - 1]), def, par[|par| - 1])
  }

  function OrOne(p: int): int { if p == 0 then 1 else p }
  function LessOne(p: int): int { if p == 0 then 0 else p - 1 }

  /** The control functions that only move the cursor. */
  function Motion(t: Term, ch: int): (r: Term)
    requires WfTerm(t)
    ensures Kept(t, r)
  {
    hide Row;
    var p0, p1 := t.par[0], t.par[1];
    if ch == 'G' as int || ch == '`' as int then Goto(t.(par := t.par[0 := LessOne(p0)]), LessOne(p0), t.y)
    else if ch == 'A' as int then Goto(t.(par := t.par[0 := OrOne(p0)]), t.x, t.y - OrOne(p0))
    else if ch == 'B' as int || ch == 'e' as int then Goto(t.(par := t.par[0 := OrOne(p0)]), t.x, t.y + OrOne(p0))
    else if ch == 'C' as int || ch == 'a' as int then Goto(t.(par := t.par[0 := OrOne(p0)]), t.x + OrOne(p0), t.y)
    else if ch == 'D' as int then Goto(t.(par := t.par[0 := OrOne(p0)]), t.x - OrOne(p0), t.y)
    else if ch == 'E' as int then Goto(t.(par := t.par[0 := OrOne(p0)]), 0, t.y + OrOne(p0))
    else if ch == 'F' as int then Goto(t.(par := t.par[0 := OrOne(p0)]), 0, t.y - OrOne(p0))
    else if ch == 'd' as int then
      var q := if p0 == 0 then WORD - 1 else p0;      // only a zero is decremented
      Goto(t.(par := t.par[0 := q]), t.x, q)
    else if ch == 'H' as int || ch == 'f' as int then
      Goto(t.(par := t.par[0 := LessOne(p0)][1 := LessOne(p1)]), LessOne(p1), LessOne(p0))
    else t
  }

  /** A control sequence is complete: `ch` says which function, `t.par` has the parameters. */
  function Control(t: Term, ch: int): (r: Term)
    requires WfTerm(t)
    ensures Kept(t, r)
  {
    hide Row, Motion;
    var p0, p1 := t.par[0], t.par[1];
    if ch == 'J' as int then EraseDisplay(t, p0)
    else if ch == 'K' as int then EraseLine(t, p0)
    else if ch == 'L' as int then EditMany(t, InsLine, Clamp(p0, t.lines))
    else if ch == 'M' as int then EditMany(t, DelLine, Clamp(p0, t.lines))
    else if ch == 'P' as int then EditMany(t, DelChar, Clamp(p0, t.cols))
    else if ch == '@' as int then EditMany(t, InsChar, Clamp(p0, t.cols))
    else if ch == 'm' as int then t.(attr := Renditions(t.attr, t.defAttr, t.par[..t.npar + 1]))
    else if ch == 'r' as int then
      var q0, q1 := LessOne(p0), if p1 == 0 then t.lines else p1;
      var u := t.(par := t.par[0 := q0][1 := q1]);
      if q0 < q1 <= t.lines then u.(top := q0, bottom := q1) else u
    else if ch == 's' as int then t.(savedX := t.x, savedY := t.y)
    else if ch == 'u' as int then Goto(t, t.savedX, t.savedY)
    else Motion(t, ch)
  }

  function Final(t: Term, ch: int): (r: Term)
    requires WfTerm(t)
    ensures Kept(t, r)
  {
    hide Row;
    if t.ques then t.(state := NORMAL, ques := false) else Control(t.(state := NORMAL), ch)
  }

  function Parameters(t: Term, ch: int): (r: Term)
    requires WfTerm(t)
    ensures Kept(t, r)
  {
    hide Row;
    if ch == ';' as int && t.npar < NPAR - 1 then t.(npar := t.npar + 1)
    else if '0' as int <= ch <= '9' as int then
      t.(par := t.par[t.npar := (10 * t.par[t.npar] + ch - '0' as int) % WORD])
    else Final(t, ch)
  }

  function Bracket(t: Term, ch: int): (r: Term)
    requires WfTerm(t)
    ensures Kept(t, r)
  {
    hide Row;
    var u := t.(par := seq(NPAR, _ => 0), npar := 0, state := GETPARS);
    if ch == '[' as int then u.(state := FUNCKEY)
    else if ch == '?' as int then u.(ques := true)
    else Parameters(u.(ques := false), ch)
  }

  /** One character. */
  function Put(t: Term, ch: int): (r: Term)
    requires WfTerm(t)
    ensures Kept(t, r)
  {
    hide Row;
    if t.state == NORMAL then Plain(t, ch)
    else if t.state == ESC then Escape(t, ch)
    else if t.state == SQUARE then Bracket(t, ch)
    else if t.state == GETPARS then Parameters(t, ch)
    else if t.state == GOTPARS then Final(t, ch)
    else if t.state == SETTERM then
      var u := t.(state := NORMAL);
      if ch == 'S' as int then u.(defAttr := u.attr, erase := Word(u.erase, u.attr)) else u
    else t
  }

  /** A run of characters. */
  function Write(t: Term, s: seq<int>): (r: Term)
    requires WfTerm(t)
    ensures Kept(t, r)
  {
    if s == [] then t else Put(Write(t, s[..|s| - 1]), s[|s| - 1])
  }
}
