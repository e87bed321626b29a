/** Physical memory seen as one value: the page directory, the contents of every
    page frame and the use count of every frame above LOW_MEM.

    Page tables and user pages are frames of the same pool, so that a page table
    is never also a user page, and a user page is at one offset only, has to be
    kept true by every step.  The map `role` records what each frame in use is for. */
module Paging {
  import opened Collections

  const LOW: int := 256            // first frame above LOW_MEM
  const FRAMES: int := 4096        // frames in 16 megabytes
  const PAGES: int := 3840         // PAGING_PAGES
  const PER_TASK: int := 16        // directory entries of one task slot
  const TASKS: int := 64
  const USED: int := 100           // count of a frame that is never handed out
  const BOOT_PAGES: int := 160     // pages that a child of task 0 copies

  type Frame = f: seq<int> | |f| == 1024 witness seq(1024, _ => 0)

  function ZeroFrame(): Frame { seq(1024, _ => 0) }

  datatype Mem = Mem(dir: seq<int>, low: seq<Frame>, frames: seq<Frame>, cnt: seq<int>, start: int, high: int)

  /** What a frame is used for: the page table behind directory entry `d`, the
      kernel, or a user page found at table entry `e` of directory entry `i` of every task that has it. */
  datatype Role = Table(d: int) | Kernel | Page(i: int, e: int)

  // ----------------------------------------------------- words of a table

  predicate Present(w: int) { w % 2 == 1 }
  predicate Writable(w: int) { w % 4 >= 2 }
  function FrameOf(w: int): int { w / 4096 }
  function ReadOnly(w: int): int { if Writable(w) then w - 2 else w }
  function ReadWrite(w: int): int { if Writable(w) then w else w + 2 }

  lemma Split4096(q: int, r: int)
    requires 0 <= r < 4096
    ensures (4096 * q + r) / 4096 == q
  {
  }

  lemma Split4(q: int, r: int)
    requires 0 <= r < 4
    ensures (4 * q + r) % 4 == r
  {
  }

  lemma Split2(q: int, r: int)
    requires 0 <= r < 2
    ensures (2 * q + r) % 2 == r
  {
  }

  /** A word put together from frame, other flags, the writable bit and the present bit. */
  lemma WordParts(p: int, a: int, rw: int, on: int)
    requires 0 <= a < 1024 && 0 <= rw < 2 && 0 <= on < 2
    ensures var w := 4096 * p + 4 * a + 2 * rw + on;
      FrameOf(w) == p && (Present(w) <==> on == 1) && (Writable(w) <==> rw == 1)
  {
    var w := 4096 * p + 4 * a + 2 * rw + on;
    Split4096(p, 4 * a + 2 * rw + on);
    assert w == 4096 * p + (4 * a + 2 * rw + on);
    Split4(1024 * p + a, 2 * rw + on);
    assert w == 4 * (1024 * p + a) + (2 * rw + on);
    Split2(2048 * p + 2 * a + rw, on);
    assert w == 2 * (2048 * p + 2 * a + rw) + on;
  }

  lemma ProtectLaws(w: int)
    ensures Present(ReadOnly(w)) == Present(w) && FrameOf(ReadOnly(w)) == FrameOf(w) && !Writable(ReadOnly(w))
    ensures Present(ReadWrite(w)) == Present(w) && FrameOf(ReadWrite(w)) == FrameOf(w) && Writable(ReadWrite(w))
  {
    var p, r := w / 4096, w % 4096;
    var a, b := r / 4, r % 4;
    var rw, on := b / 2, b % 2;
    assert w == 4096 * p + 4 * a + 2 * rw + on;
    WordParts(p, a, rw, on);
    WordParts(p, a, 0, on);
    WordParts(p, a, 1, on);
  }

  lemma FreshWordLaws(p: int, flags: int)
    requires 0 <= flags < 4096 && flags % 4 == 3
    ensures Present(p * 4096 + flags) && FrameOf(p * 4096 + flags) == p && Writable(p * 4096 + flags)
  {
    WordParts(p, flags / 4, 1, 1);
    assert p * 4096 + flags == 4096 * p + 4 * (flags / 4) + 2 * 1 + 1;
  }

  predicate Dirty(w: int) { w / 64 % 2 == 1 }
  function MarkDirty(w: int): int { if Dirty(w) then w else w + 64 }

  lemma Split64(q: int, r: int)
    requires 0 <= r < 64
    ensures (64 * q + r) / 64 == q
  {
  }

  lemma CleanBit(p: int, a: int, r: int)
    requires 0 <= a < 1024 && 0 <= r < 4 && a / 16 == 63
    ensures Dirty(4096 * p + 4 * a + r)
  {
    var b := a - 16 * 63;
    Split64(64 * p + 63, 4 * b + r);
    assert 4096 * p + 4 * a + r == 64 * (64 * p + 63) + (4 * b + r);
    Split2(32 * p + 31, 1);
    assert 64 * p + 63 == 2 * (32 * p + 31) + 1;
  }

  lemma DirtyLaws(w: int)
    ensures Present(MarkDirty(w)) == Present(w) && FrameOf(MarkDirty(w)) == FrameOf(w)
      && Writable(MarkDirty(w)) == Writable(w)
  {
    var p, r := w / 4096, w % 4096;
    var a, b := r / 4, r % 4;
    var rw, on := b / 2, b % 2;
    assert w == 4096 * p + 4 * a + 2 * rw + on;
    WordParts(p, a, rw, on);
    if a / 16 == 63 {
      CleanBit(p, a, b);
    } else {
      WordParts(p, a + 16, rw, on);
    }
  }

  /** What the bits of a table entry mean: the frame is in the upper twenty, bit 0 says present, bit 1 writable and
      bit 6 dirty; protecting, unprotecting and marking change one bit. */
  lemma EntryBits(p: int, hi: int, dirty: int, mid: int, rw: int, on: int)
    requires 0 <= hi < 32 && 0 <= mid < 16 && 0 <= dirty < 2 && 0 <= rw < 2 && 0 <= on < 2
    ensures var w := 4096 * p + 128 * hi + 64 * dirty + 4 * mid + 2 * rw + on;
      && FrameOf(w) == p && (Present(w) <==> on == 1) && (Writable(w) <==> rw == 1) && (Dirty(w) <==> dirty == 1)
      && ReadOnly(w) == w - 2 * rw && ReadWrite(w) == w + 2 * (1 - rw) && MarkDirty(w) == w + 64 * (1 - dirty)
  {
    var w := 4096 * p + 128 * hi + 64 * dirty + 4 * mid + 2 * rw + on;
    WordParts(p, 32 * hi + 16 * dirty + mid, rw, on);
    assert w == 4096 * p + 4 * (32 * hi + 16 * dirty + mid) + 2 * rw + on;
    Split64(64 * p + 2 * hi + dirty, 4 * mid + 2 * rw + on);
    assert w == 64 * (64 * p + 2 * hi + dirty) + (4 * mid + 2 * rw + on);
    Split2(32 * p + hi, dirty);
    assert 64 * p + 2 * hi + dirty == 2 * (32 * p + hi) + dirty;
  }

  // ------------------------------------------------------------ reading

  predicate Shape(m: Mem) {
    && |m.dir| == 1024 && |m.low| == LOW && |m.frames| == PAGES && |m.cnt| == PAGES
    && LOW <= m.start <= m.high <= FRAMES
  }

  function FrameAt(m: Mem, p: int): Frame
    requires Shape(m)
  {
    if 0 <= p < LOW then m.low[p] else if p < FRAMES && p >= LOW then m.frames[p - LOW] else ZeroFrame()
  }

  function TableOf(m: Mem, d: int): int
    requires Shape(m) && 0 <= d < 1024
  {
    FrameOf(m.dir[d])
  }

  predicate HasTable(m: Mem, d: int)
    requires Shape(m)
  {
    0 <= d < 1024 && Present(m.dir[d])
  }

  function Entry(m: Mem, d: int, e: int): int
    requires Shape(m) && 0 <= d < 1024 && 0 <= e < 1024
  {
    FrameAt(m, TableOf(m, d))[e]
  }

  predicate Mapped(m: Mem, d: int, e: int)
    requires Shape(m)
  {
    0 <= d < 1024 && 0 <= e < 1024 && Present(m.dir[d]) && Present(Entry(m, d, e))
  }

  /** The frame behind page `e` of directory entry `d`. */
  function Mapping(m: Mem, d: int, e: int): Option<int>
    requires Shape(m)
  {
    if Mapped(m, d, e) then Some(FrameOf(Entry(m, d, e))) else None
  }

  /** What a program sees at page `e` of directory entry `d`. */
  function View(m: Mem, d: int, e: int): Option<Frame>
    requires Shape(m)
  {
    if Mapped(m, d, e) then Some(FrameAt(m, FrameOf(Entry(m, d, e)))) else None
  }

  /** The task slots that have frame `p` at offset (i, e). */
  function Users(m: Mem, p: int, i: int, e: int): set<int>
    requires Shape(m)
  {
    set s | 1 <= s < TASKS && Mapping(m, PER_TASK * s + i, e) == Some(p)
  }

  predicate Managed(m: Mem, p: int) { m.start <= p < m.high }

  function Cnt(m: Mem, p: int): int
    requires Shape(m) && LOW <= p < FRAMES
  {
    m.cnt[p - LOW]
  }

  // ---------------------------------------------------------- the invariant

  ghost predicate TablesOk(m: Mem, role: map<int, Role>)
    requires Shape(m)
  {
    && (forall d :: PER_TASK <= d < 1024 && HasTable(m, d) ==> TableOf(m, d) in role && role[TableOf(m, d)] == Table(d))
    && (forall p :: p in role && role[p].Table? ==>
          PER_TASK <= role[p].d < 1024 && HasTable(m, role[p].d) && TableOf(m, role[p].d) == p)
  }

  /** Every mapped page of a task above 0 is either a frame below LOW_MEM, read-only,
      or a user page at its own offset; it is writable only when nobody shares it. */
  ghost predicate EntryOk(m: Mem, role: map<int, Role>, d: int, e: int)
    requires Shape(m) && 0 <= d < 1024 && 0 <= e < 1024
  {
    var p := FrameOf(Entry(m, d, e));
    || (0 <= p < LOW && !Writable(Entry(m, d, e)))
    || (p in role && role[p] == Page(d % PER_TASK, e) && Managed(m, p) && (Writable(Entry(m, d, e)) ==> Cnt(m, p) == 1))
  }

  ghost predicate EntriesOk(m: Mem, role: map<int, Role>)
    requires Shape(m)
  {
    forall d, e :: PER_TASK <= d < 1024 && Mapped(m, d, e) ==> EntryOk(m, role, d, e)
  }

  /** The use count of every frame is the number of references to it. */
  ghost predicate CountsOk(m: Mem, role: map<int, Role>)
    requires Shape(m)
  {
    && (forall p :: p in role ==> Managed(m, p) && CountOk(m, role, p))
    && (forall p :: Managed(m, p) && p !in role ==> Cnt(m, p) == 0)
    && (forall p :: LOW <= p < FRAMES && !Managed(m, p) ==> Cnt(m, p) == USED)
  }

  ghost predicate CountOk(m: Mem, role: map<int, Role>, p: int)
    requires Shape(m) && Managed(m, p) && p in role
  {
    match role[p]
    case Table(_) => Cnt(m, p) == 1
    case Kernel => Cnt(m, p) == 1
    case Page(i, e) => 0 <= i < PER_TASK && 0 <= e < 1024 && Cnt(m, p) == |Users(m, p, i, e)| > 0
  }

  /** Task 0 runs on tables below LOW_MEM; what its children copy of them is below LOW_MEM too. */
  ghost predicate BootOk(m: Mem)
    requires Shape(m)
  {
    && HasTable(m, 0) && 0 <= TableOf(m, 0) < LOW
    && forall e :: 0 <= e < BOOT_PAGES && Mapped(m, 0, e) ==> 0 <= FrameOf(Entry(m, 0, e)) < LOW
  }

  ghost predicate Inv(m: Mem, role: map<int, Role>) {
    Shape(m) && TablesOk(m, role) && EntriesOk(m, role) && CountsOk(m, role) && BootOk(m)
  }

  // -------------------------------------------------------------- primitives

  function SetEntry(m: Mem, d: int, e: int, w: int): Mem
    requires Shape(m) && 0 <= d < 1024 && 0 <= e < 1024 && LOW <= TableOf(m, d) < FRAMES
  {
    var t := TableOf(m, d) - LOW;
    m.(frames := m.frames[t := m.frames[t][e := w]])
  }

  function SetCount(m: Mem, p: int, n: int): Mem
    requires Shape(m) && LOW <= p < FRAMES
  {
    m.(cnt := m.cnt[p - LOW := n])
  }

  function SetFrame(m: Mem, p: int, f: Frame): Mem
    requires Shape(m) && LOW <= p < FRAMES
  {
    m.(frames := m.frames[p - LOW := f])
  }

  lemma EntryAfterSet(m: Mem, role: map<int, Role>, d: int, e: int, w: int, d': int, e': int)
    requires Shape(m) && TablesOk(m, role) && CountsOk(m, role) && BootOk(m)
    requires PER_TASK <= d < 1024 && HasTable(m, d) && 0 <= e < 1024
    requires (PER_TASK <= d' < 1024 && HasTable(m, d')) || d' == 0
    requires 0 <= e' < 1024
    ensures LOW <= TableOf(m, d) < FRAMES
    ensures Entry(SetEntry(m, d, e, w), d', e') == if d' == d && e' == e then w else Entry(m, d', e')
  {
    assert TableOf(m, d) in role && role[TableOf(m, d)] == Table(d);
    if d' != 0 { assert role[TableOf(m, d')] == Table(d'); }
  }

  // ------------------------------------------------- what a step may change

  /** A page of a task above 0, or of the part of task 0 that children copy. */
  predicate InScope(d: int, e: int) { (PER_TASK <= d < 1024 && 0 <= e < 1024) || (d == 0 && 0 <= e < BOOT_PAGES) }

  ghost predicate SameConfig(m: Mem, t: Mem) { t.low == m.low && t.start == m.start && t.high == m.high }

  /** From `m` to `t` no task sees a difference, except at directory entries in [lo, hi). */
  ghost predicate Quiet(m: Mem, t: Mem, lo: int, hi: int)
    requires Shape(m) && Shape(t)
  {
    && SameConfig(m, t)
    && (forall d :: 0 <= d < 1024 && !(lo <= d < hi) ==> t.dir[d] == m.dir[d])
    && forall d, e :: InScope(d, e) && !(lo <= d < hi) ==>
         Mapping(t, d, e) == Mapping(m, d, e) && View(t, d, e) == View(m, d, e)
  }

  /** The frames that the kernel holds are the same and hold the same. */
  ghost predicate SameKernel(m: Mem, role: map<int, Role>, t: Mem, role': map<int, Role>)
    requires Shape(m) && Shape(t)
  {
    && (forall p :: p in role && role[p] == Kernel ==>
      p in role' && role'[p] == Kernel && FrameAt(t, p) == FrameAt(m, p))
    && (forall p :: p in role' && role'[p] == Kernel ==> p in role && role[p] == Kernel)
  }

  lemma QuietTrans(m: Mem, t: Mem, u: Mem, lo: int, hi: int)
    requires Shape(m) && Shape(t) && Shape(u) && Quiet(m, t, lo, hi) && Quiet(t, u, lo, hi)
    ensures Quiet(m, u, lo, hi)
  {
  }

  lemma QuietWiden(m: Mem, t: Mem, lo: int, hi: int, lo': int, hi': int)
    requires Shape(m) && Shape(t) && Quiet(m, t, lo, hi) && (lo >= hi || (lo' <= lo && hi <= hi'))
    ensures Quiet(m, t, lo', hi')
  {
  }

  // ------------------------------------------------------------ kernel frames

  function Alloc(m: Mem, p: int): Mem
    requires Shape(m) && Managed(m, p)
  {
    SetFrame(SetCount(m, p, 1), p, ZeroFrame())
  }

  /** Writing to a frame that is no page table changes no table entry. */
  lemma EntryAfterFrame(m: Mem, role: map<int, Role>, p: int, f: Frame, d: int, e: int)
    requires Shape(m) && TablesOk(m, role) && BootOk(m)
    requires LOW <= p < FRAMES && (p in role ==> !role[p].Table?)
    requires InScope(d, e) && HasTable(m, d)
    ensures Entry(SetFrame(m, p, f), d, e) == Entry(m, d, e)
  {
  }

  lemma FrameQuiet(m: Mem, role: map<int, Role>, p: int, f: Frame)
    requires Inv(m, role)
    requires Managed(m, p) && (p in role ==> role[p] == Kernel)
    ensures Quiet(m, SetFrame(m, p, f), 0, 0)
  {
    var t := SetFrame(m, p, f);
    forall d, e | InScope(d, e)
      ensures Mapping(t, d, e) == Mapping(m, d, e) && View(t, d, e) == View(m, d, e)
    {
      if HasTable(m, d) {
        EntryAfterFrame(m, role, p, f, d, e);
        assert PER_TASK <= d && Mapped(m, d, e) ==> EntryOk(m, role, d, e);
      }
    }
  }

  /** Directory and table entries are the same. */
  ghost predicate SameEntries(m: Mem, t: Mem)
    requires Shape(m) && Shape(t)
  {
    && SameConfig(m, t) && t.dir == m.dir
    && forall d, e :: InScope(d, e) && HasTable(m, d) ==> Entry(t, d, e) == Entry(m, d, e)
  }

  lemma UsersSame(m: Mem, t: Mem, p: int, i: int, e: int)
    requires Shape(m) && Shape(t)
    requires forall s :: 1 <= s < TASKS ==>
      (Mapping(t, PER_TASK * s + i, e) == Some(p) <==> Mapping(m, PER_TASK * s + i, e) == Some(p))
    ensures Users(t, p, i, e) == Users(m, p, i, e)
  {
  }

  /** A step that moves only kernel frames, or the contents of user pages, keeps the invariant. */
  lemma KernelStep(m: Mem, role: map<int, Role>, t: Mem, role': map<int, Role>)
    requires Inv(m, role) && Shape(t) && SameEntries(m, t)
    requires forall p :: p in role && role[p] != Kernel ==> p in role' && role'[p] == role[p] && Cnt(t, p) == Cnt(m, p)
    requires forall p :: p in role' && role'[p] != Kernel ==> p in role && role[p] != Kernel
    requires forall p :: p in role' && role'[p] == Kernel ==> Managed(t, p) && Cnt(t, p) == 1
    requires forall p :: Managed(m, p) && p !in role' ==> Cnt(t, p) == 0
    requires forall p :: LOW <= p < FRAMES && !Managed(m, p) ==> Cnt(t, p) == Cnt(m, p)
    ensures Inv(t, role')
  {
    forall d, e | PER_TASK <= d < 1024 && Mapped(t, d, e) ensures EntryOk(t, role', d, e) {
      assert InScope(d, e) && EntryOk(m, role, d, e);
    }
    forall p | p in role' ensures Managed(t, p) && CountOk(t, role', p) {
      if role'[p] != Kernel {
        assert CountOk(m, role, p);
        if role[p].Page? { MappingFollows(m, t); UsersSame(m, t, p, role[p].i, role[p].e); }
      }
    }
    forall e | 0 <= e < BOOT_PAGES && Mapped(t, 0, e) ensures 0 <= FrameOf(Entry(t, 0, e)) < LOW {
      assert InScope(0, e);
    }
    TablesKept(m, role, t, role');
  }

  lemma MappingFollows(m: Mem, t: Mem)
    requires Shape(m) && Shape(t) && SameEntries(m, t)
    ensures forall d, e :: PER_TASK <= d < 1024 && 0 <= e < 1024 ==> Mapping(t, d, e) == Mapping(m, d, e)
  {
    forall d, e | PER_TASK <= d < 1024 && 0 <= e < 1024 ensures Mapping(t, d, e) == Mapping(m, d, e) {
      assert InScope(d, e);
    }
  }

  /** Handing an unused frame to the kernel, cleared. */
  lemma AllocStep(m: Mem, role: map<int, Role>, p: int)
    requires Inv(m, role) && Managed(m, p) && p !in role
    ensures Inv(Alloc(m, p), role[p := Kernel]) && Quiet(m, Alloc(m, p), 0, 0)
    ensures FrameAt(Alloc(m, p), p) == ZeroFrame()
    ensures forall q :: q != p && LOW <= q < FRAMES ==> FrameAt(Alloc(m, p), q) == FrameAt(m, q)
  {
    var f, t := SetFrame(m, p, ZeroFrame()), Alloc(m, p);
    FrameQuiet(m, role, p, ZeroFrame());
    forall d, e | InScope(d, e) && HasTable(m, d) ensures Entry(t, d, e) == Entry(m, d, e) {
      EntryAfterFrame(m, role, p, ZeroFrame(), d, e);
      assert Entry(t, d, e) == Entry(f, d, e);
    }
    QuietCounts(m, f, t);
    KernelStep(m, role, t, role[p := Kernel]);
  }

  /** Filling a frame that the kernel holds. */
  lemma FillStep(m: Mem, role: map<int, Role>, p: int, f: Frame)
    requires Inv(m, role) && p in role && role[p] == Kernel
    ensures Managed(m, p)
    ensures Inv(SetFrame(m, p, f), role) && Quiet(m, SetFrame(m, p, f), 0, 0)
  {
    var t := SetFrame(m, p, f);
    FrameQuiet(m, role, p, f);
    forall d, e | InScope(d, e) && HasTable(m, d) ensures Entry(t, d, e) == Entry(m, d, e) {
      EntryAfterFrame(m, role, p, f, d, e);
    }
    KernelStep(m, role, t, role);
  }

  /** The kernel gives a frame back. */
  lemma FreeStep(m: Mem, role: map<int, Role>, p: int)
    requires Inv(m, role) && p in role && role[p] == Kernel
    ensures Managed(m, p)
    ensures Inv(SetCount(m, p, 0), role - {p}) && Quiet(m, SetCount(m, p, 0), 0, 0)
  {
    var t := SetCount(m, p, 0);
    QuietCounts(m, m, t);
    forall d, e | InScope(d, e) && HasTable(m, d) ensures Entry(t, d, e) == Entry(m, d, e) { }
    KernelStep(m, role, t, role - {p});
  }

  /** Counts play no part in what is mapped. */
  lemma QuietCounts(m: Mem, t: Mem, u: Mem)
    requires Shape(m) && Shape(t) && Quiet(m, t, 0, 0) && |u.cnt| == |t.cnt| && u == t.(cnt := u.cnt)
    ensures Quiet(m, u, 0, 0)
  {
    forall d, e | InScope(d, e)
      ensures Mapping(u, d, e) == Mapping(t, d, e) && View(u, d, e) == View(t, d, e)
    {
    }
  }

  // ---------------------------------------------------------------- page tables

  function SetDir(m: Mem, d: int, w: int): Mem
    requires Shape(m) && 0 <= d < 1024
  {
    m.(dir := m.dir[d := w])
  }

  function PutTable(m: Mem, d: int, p: int): Mem
    requires Shape(m) && 0 <= d < 1024
  {
    SetDir(m, d, p * 4096 + 7)
  }

  function TakeTable(m: Mem, d: int, p: int): Mem
    requires Shape(m) && 0 <= d < 1024 && LOW <= p < FRAMES
  {
    SetDir(SetCount(m, p, 0), d, 0)
  }

  /** A cleared kernel frame becomes the page table of an empty directory entry. */
  lemma PlugTable(m: Mem, role: map<int, Role>, d: int, p: int)
    requires Inv(m, role) && PER_TASK <= d < 1024 && !HasTable(m, d)
    requires p in role && role[p] == Kernel && FrameAt(m, p) == ZeroFrame()
    ensures Inv(PutTable(m, d, p), role[p := Table(d)])
    ensures Quiet(m, PutTable(m, d, p), d, d + 1)
    ensures HasTable(PutTable(m, d, p), d)
    ensures forall e :: 0 <= e < 1024 ==> !Mapped(PutTable(m, d, p), d, e)
  {
    var t, role' := PutTable(m, d, p), role[p := Table(d)];
    FreshWordLaws(p, 7);
    assert CountOk(m, role, p);
    assert HasTable(t, d) && TableOf(t, d) == p;
    SameElsewhere(m, t, d);
    assert forall e :: 0 <= e < 1024 ==> Entry(t, d, e) == 0;
    DirStep(m, role, t, role', d);
  }

  lemma SameElsewhere(m: Mem, t: Mem, d: int)
    requires Shape(m) && Shape(t) && SameConfig(m, t) && t.frames == m.frames
    requires forall d' :: 0 <= d' < 1024 && d' != d ==> t.dir[d'] == m.dir[d']
    ensures forall d', e :: InScope(d', e) && d' != d && HasTable(m, d') ==> Entry(t, d', e) == Entry(m, d', e)
    ensures forall d' :: 0 <= d' < 1024 && d' != d ==>
      HasTable(t, d') == HasTable(m, d') && TableOf(t, d') == TableOf(m, d')
  {
  }

  /** The empty page table of a directory entry is taken away. */
  lemma DropTable(m: Mem, role: map<int, Role>, d: int)
    requires Inv(m, role) && PER_TASK <= d < 1024 && HasTable(m, d)
    requires forall e :: 0 <= e < 1024 ==> !Mapped(m, d, e)
    ensures var p := TableOf(m, d);
      && p in role && Managed(m, p) && Cnt(m, p) == 1
      && Inv(TakeTable(m, d, p), role - {p})
      && Quiet(m, TakeTable(m, d, p), d, d + 1)
      && !HasTable(TakeTable(m, d, p), d)
  {
    var p := TableOf(m, d);
    assert role[p] == Table(d) && CountOk(m, role, p);
    var t, role' := TakeTable(m, d, p), role - {p};
    SameElsewhere(m, t, d);
    assert !HasTable(t, d);
    TablesAfterDrop(m, role, t, d);
    DirStep(m, role, t, role', d);
  }

  lemma TablesAfterDrop(m: Mem, role: map<int, Role>, t: Mem, d: int)
    requires Inv(m, role) && Shape(t) && PER_TASK <= d < 1024 && HasTable(m, d) && !HasTable(t, d)
    requires forall d' :: 0 <= d' < 1024 && d' != d ==>
      HasTable(t, d') == HasTable(m, d') && TableOf(t, d') == TableOf(m, d')
    ensures TablesOk(t, role - {TableOf(m, d)})
  {
    assert role[TableOf(m, d)] == Table(d);
  }

  /** A step that only turns an empty directory entry into an empty table or back. */
  lemma DirStep(m: Mem, role: map<int, Role>, t: Mem, role': map<int, Role>, d: int)
    requires Inv(m, role) && Shape(t) && SameConfig(m, t) && PER_TASK <= d < 1024
    requires forall d' :: 0 <= d' < 1024 && d' != d ==> t.dir[d'] == m.dir[d']
    requires forall e :: 0 <= e < 1024 ==> !Mapped(m, d, e) && !Mapped(t, d, e)
    requires forall d', e :: InScope(d', e) && d' != d && HasTable(m, d') ==> Entry(t, d', e) == Entry(m, d', e)
    requires t.frames == m.frames && TablesOk(t, role')
    requires forall p :: p in role && role[p].Page? ==> p in role' && role'[p] == role[p] && Cnt(t, p) == Cnt(m, p)
    requires forall p :: p in role' && role'[p].Page? ==> p in role && role[p].Page?
    requires forall p :: p in role' && !role'[p].Page? ==> Managed(t, p) && Cnt(t, p) == 1
    requires forall p :: Managed(m, p) && p !in role' ==> Cnt(t, p) == 0
    requires forall p :: LOW <= p < FRAMES && !Managed(m, p) ==> Cnt(t, p) == Cnt(m, p)
    ensures Inv(t, role') && Quiet(m, t, d, d + 1)
  {
    forall d', e | PER_TASK <= d' < 1024 && 0 <= e < 1024 ensures Mapping(t, d', e) == Mapping(m, d', e) {
      if d' == d { assert !Mapped(m, d, e) && !Mapped(t, d, e); } else { assert InScope(d', e); }
    }
    forall d', e | PER_TASK <= d' < 1024 && Mapped(t, d', e) ensures EntryOk(t, role', d', e) {
      assert d' != d && InScope(d', e) && EntryOk(m, role, d', e);
    }
    forall p | p in role' ensures Managed(t, p) && CountOk(t, role', p) {
      if role'[p].Page? {
        assert CountOk(m, role, p);
        UsersSame(m, t, p, role[p].i, role[p].e);
      }
    }
    forall p | LOW <= p < FRAMES && !Managed(t, p) ensures Cnt(t, p) == USED {
      assert !Managed(m, p);
    }
    forall e | 0 <= e < BOOT_PAGES && Mapped(t, 0, e) ensures 0 <= FrameOf(Entry(t, 0, e)) < LOW {
      assert InScope(0, e);
    }
  }

  // -------------------------------------------------------------- table entries

  /** From `m` to `t` no task sees a difference, except at page `e` of directory entry `d`. */
  ghost predicate QuietBut(m: Mem, t: Mem, d: int, e: int)
    requires Shape(m) && Shape(t)
  {
    && SameConfig(m, t) && t.dir == m.dir
    && forall d', e' :: InScope(d', e') && (d' != d || e' != e) ==>
         Mapping(t, d', e') == Mapping(m, d', e') && View(t, d', e') == View(m, d', e')
  }

  /** The page is one of a task above 0 that has a table for it. */
  predicate Settable(m: Mem, d: int, e: int)
    requires Shape(m)
  {
    PER_TASK <= d < 1024 && 0 <= e < 1024 && HasTable(m, d)
  }

  /** Storing one table entry shows at that entry only. */
  lemma SetEntryQuiet(m: Mem, role: map<int, Role>, d: int, e: int, w: int)
    requires Inv(m, role) && Settable(m, d, e)
    ensures TableOf(m, d) in role && role[TableOf(m, d)] == Table(d) && LOW <= TableOf(m, d) < FRAMES
    ensures var t := SetEntry(m, d, e, w);
      && QuietBut(m, t, d, e)
      && Entry(t, d, e) == w
      && (forall d', e' :: InScope(d', e') && HasTable(m, d') && (d' != d || e' != e) ==>
        Entry(t, d', e') == Entry(m, d', e'))
      && (forall q :: 0 <= q < FRAMES && q != TableOf(m, d) ==> FrameAt(t, q) == FrameAt(m, q))
  {
    assert TableOf(m, d) in role;
    var t := SetEntry(m, d, e, w);
    forall d', e' | InScope(d', e') && HasTable(m, d')
      ensures Entry(t, d', e') == if d' == d && e' == e then w else Entry(m, d', e')
    {
      EntryAfterSet(m, role, d, e, w, d', e');
    }
    forall d', e' | InScope(d', e') && (d' != d || e' != e)
      ensures Mapping(t, d', e') == Mapping(m, d', e') && View(t, d', e') == View(m, d', e')
    {
      assert PER_TASK <= d' && Mapped(m, d', e') ==> EntryOk(m, role, d', e');
    }
  }

  lemma SlotOf(d: int)
    requires PER_TASK <= d < 1024
    ensures 1 <= d / PER_TASK < TASKS && d == PER_TASK * (d / PER_TASK) + d % PER_TASK && 0 <= d % PER_TASK < PER_TASK
  {
  }

  /** How the users of a frame change when one entry does: not at all when that
      entry maps another frame before and after. */
  lemma UsersUntouched(m: Mem, t: Mem, d: int, e: int, q: int, i: int, e': int)
    requires Shape(m) && Shape(t) && QuietBut(m, t, d, e)
    requires 0 <= i < PER_TASK && 0 <= e' < 1024
    requires (Mapping(t, d, e) == Some(q) <==> Mapping(m, d, e) == Some(q))
    ensures Users(t, q, i, e') == Users(m, q, i, e')
  {
    forall s | 1 <= s < TASKS
      ensures Mapping(t, PER_TASK * s + i, e') == Some(q) <==> Mapping(m, PER_TASK * s + i, e') == Some(q)
    {
      assert InScope(PER_TASK * s + i, e');
    }
  }

  lemma UserJoins(m: Mem, t: Mem, d: int, e: int, q: int)
    requires Shape(m) && Shape(t) && QuietBut(m, t, d, e) && PER_TASK <= d < 1024 && 0 <= e < 1024
    requires Mapping(t, d, e) == Some(q) && Mapping(m, d, e) != Some(q)
    ensures Users(t, q, d % PER_TASK, e) == Users(m, q, d % PER_TASK, e) + {d / PER_TASK}
    ensures d / PER_TASK !in Users(m, q, d % PER_TASK, e)
  {
    SlotOf(d);
    forall s | 1 <= s < TASKS && s != d / PER_TASK
      ensures Mapping(t, PER_TASK * s + d % PER_TASK, e) == Mapping(m, PER_TASK * s + d % PER_TASK, e)
    {
      assert InScope(PER_TASK * s + d % PER_TASK, e);
    }
  }

  lemma UserLeaves(m: Mem, t: Mem, d: int, e: int, q: int)
    requires Shape(m) && Shape(t) && QuietBut(m, t, d, e) && PER_TASK <= d < 1024 && 0 <= e < 1024
    requires Mapping(m, d, e) == Some(q) && Mapping(t, d, e) != Some(q)
    ensures Users(t, q, d % PER_TASK, e) == Users(m, q, d % PER_TASK, e) - {d / PER_TASK}
    ensures d / PER_TASK in Users(m, q, d % PER_TASK, e)
  {
    SlotOf(d);
    forall s | 1 <= s < TASKS && s != d / PER_TASK
      ensures Mapping(t, PER_TASK * s + d % PER_TASK, e) == Mapping(m, PER_TASK * s + d % PER_TASK, e)
    {
      assert InScope(PER_TASK * s + d % PER_TASK, e);
    }
  }

  /** A mapped page above LOW_MEM is among the users of its frame. */
  lemma MappedIsUser(m: Mem, role: map<int, Role>, d: int, e: int)
    requires Inv(m, role) && Settable(m, d, e) && Mapped(m, d, e)
    ensures EntryOk(m, role, d, e)
    ensures FrameOf(Entry(m, d, e)) >= LOW ==>
      var p := FrameOf(Entry(m, d, e));
      p in role && role[p] == Page(d % PER_TASK, e) && CountOk(m, role, p)
        && d / PER_TASK in Users(m, p, d % PER_TASK, e)
  {
    SlotOf(d);
    assert EntryOk(m, role, d, e);
  }

  lemma TwoIn<T>(s: set<T>, a: T, b: T)
    requires a in s && b in s && |s| == 1
    ensures a == b
  {
    assert |s - {a}| == 0;
  }

  /** A frame with use count 1 is mapped by one page only. */
  lemma SoleUser(m: Mem, role: map<int, Role>, d: int, e: int, d': int, e': int)
    requires Inv(m, role) && Settable(m, d, e) && Mapped(m, d, e) && Settable(m, d', e') && Mapped(m, d', e')
    requires FrameOf(Entry(m, d, e)) == FrameOf(Entry(m, d', e')) >= LOW
    requires Cnt(m, FrameOf(Entry(m, d, e))) == 1
    ensures d' == d && e' == e
  {
    MappedIsUser(m, role, d, e);
    MappedIsUser(m, role, d', e');
    SlotOf(d);
    SlotOf(d');
    TwoIn(Users(m, FrameOf(Entry(m, d, e)), d % PER_TASK, e), d / PER_TASK, d' / PER_TASK);
  }

  /** A frame that the kernel holds has no users. */
  lemma KernelHasNoUsers(m: Mem, role: map<int, Role>, p: int, i: int, e: int)
    requires Inv(m, role) && p in role && !role[p].Page? && 0 <= i < PER_TASK && 0 <= e < 1024
    ensures Users(m, p, i, e) == {}
  {
    assert Managed(m, p);
    forall s | 1 <= s < TASKS ensures Mapping(m, PER_TASK * s + i, e) != Some(p) {
      assert Mapped(m, PER_TASK * s + i, e) ==> EntryOk(m, role, PER_TASK * s + i, e);
    }
  }

  /** Mapping a frame that the kernel holds at an empty page of a task. */
  lemma PlugPage(m: Mem, role: map<int, Role>, d: int, e: int, p: int, flags: int)
    requires Inv(m, role) && Settable(m, d, e) && !Mapped(m, d, e)
    requires p in role && role[p] == Kernel
    requires 0 <= flags < 4096 && flags % 4 == 3
    ensures LOW <= TableOf(m, d) < FRAMES
    ensures var t := SetEntry(m, d, e, p * 4096 + flags);
      && Inv(t, role[p := Page(d % PER_TASK, e)])
      && QuietBut(m, t, d, e)
      && Mapping(t, d, e) == Some(p) && View(t, d, e) == Some(FrameAt(m, p))
  {
    var w := p * 4096 + flags;
    FreshWordLaws(p, flags);
    SetEntryQuiet(m, role, d, e, w);
    SlotOf(d);
    PlugInv(m, role, SetEntry(m, d, e, w), d, e, p);
  }

  lemma PlugInv(m: Mem, role: map<int, Role>, t: Mem, d: int, e: int, p: int)
    requires Inv(m, role) && Settable(m, d, e) && !Mapped(m, d, e)
    requires Shape(t) && QuietBut(m, t, d, e) && t.cnt == m.cnt && Mapping(t, d, e) == Some(p)
    requires forall d', e' :: InScope(d', e') && HasTable(m, d') && (d' != d || e' != e) ==>
      Entry(t, d', e') == Entry(m, d', e')
    requires p in role && role[p] == Kernel
    ensures Inv(t, role[p := Page(d % PER_TASK, e)])
  {
    var role' := role[p := Page(d % PER_TASK, e)];
    PlugEdges(m, role, t, d, e, p);
    TablesKept(m, role, t, role');
    hide TablesOk, EntriesOk, CountsOk, BootOk;
    PlugEntries(m, role, t, d, e, p);
  }

  lemma PlugEdges(m: Mem, role: map<int, Role>, t: Mem, d: int, e: int, p: int)
    requires Inv(m, role) && Settable(m, d, e) && !Mapped(m, d, e)
    requires Shape(t) && QuietBut(m, t, d, e) && t.cnt == m.cnt && Mapping(t, d, e) == Some(p)
    requires p in role && role[p] == Kernel
    ensures CountsOk(t, role[p := Page(d % PER_TASK, e)]) && BootOk(t) && t.dir == m.dir
  {
    var role' := role[p := Page(d % PER_TASK, e)];
    PlugCounts(m, role, t, d, e, p);
    forall q | LOW <= q < FRAMES && !Managed(m, q)
      ensures Cnt(t, q) == Cnt(m, q) == USED
    {
    }
    KeptAtTheEdges(m, t, d, e);
    hide TablesOk, EntriesOk, BootOk;
    assert forall q :: Managed(t, q) && q !in role' ==> Managed(m, q) && Cnt(t, q) == 0;
  }

  lemma PlugEntries(m: Mem, role: map<int, Role>, t: Mem, d: int, e: int, p: int)
    requires Inv(m, role) && Settable(m, d, e) && !Mapped(m, d, e)
    requires Shape(t) && QuietBut(m, t, d, e) && t.cnt == m.cnt && Mapping(t, d, e) == Some(p)
    requires forall d', e' :: InScope(d', e') && HasTable(m, d') && (d' != d || e' != e) ==>
      Entry(t, d', e') == Entry(m, d', e')
    requires p in role && role[p] == Kernel
    ensures EntriesOk(t, role[p := Page(d % PER_TASK, e)])
  {
    SlotOf(d);
    assert Managed(m, p) && CountOk(m, role, p);
    EntriesAfterSet(m, role, t, role[p := Page(d % PER_TASK, e)], d, e);
  }

  lemma PlugCounts(m: Mem, role: map<int, Role>, t: Mem, d: int, e: int, p: int)
    requires Inv(m, role) && Settable(m, d, e) && !Mapped(m, d, e)
    requires Shape(t) && QuietBut(m, t, d, e) && t.cnt == m.cnt
    requires p in role && role[p] == Kernel && Mapping(t, d, e) == Some(p)
    ensures forall q :: q in role ==> Managed(t, q) && CountOk(t, role[p := Page(d % PER_TASK, e)], q)
  {
    var role' := role[p := Page(d % PER_TASK, e)];
    SlotOf(d);
    forall q | q in role ensures Managed(t, q) && CountOk(t, role', q) {
      assert Managed(m, q) && CountOk(m, role, q);
      if q == p {
        KernelHasNoUsers(m, role, p, d % PER_TASK, e);
        UserJoins(m, t, d, e, p);
        assert Users(t, p, d % PER_TASK, e) == {d / PER_TASK};
      } else if role[q].Page? {
        UsersUntouched(m, t, d, e, q, role[q].i, role[q].e);
      }
    }
  }

  /** Entries other than the changed one stay in order when frames keep their roles
      and no frame with a writable entry elsewhere changes its count. */
  lemma EntriesAfterSet(m: Mem, role: map<int, Role>, t: Mem, role': map<int, Role>, d: int, e: int)
    requires Inv(m, role) && Settable(m, d, e) && Shape(t) && QuietBut(m, t, d, e)
    requires forall d', e' :: InScope(d', e') && HasTable(m, d') && (d' != d || e' != e) ==>
      Entry(t, d', e') == Entry(m, d', e')
    requires Mapped(t, d, e) ==> EntryOk(t, role', d, e)
    requires forall d', e' ::
      (InScope(d', e') && Mapped(m, d', e') && (d' != d || e' != e) && FrameOf(Entry(m, d', e')) >= LOW) ==>
      var q := FrameOf(Entry(m, d', e'));
      q in role' && q in role && role'[q] == role[q] && Managed(m, q)
        && (Writable(Entry(m, d', e')) ==> Cnt(t, q) == Cnt(m, q))
    ensures EntriesOk(t, role')
  {
    forall d', e' | PER_TASK <= d' < 1024 && Mapped(t, d', e') ensures EntryOk(t, role', d', e') {
      if d' != d || e' != e { assert InScope(d', e') && Mapped(m, d', e') && EntryOk(m, role, d', e'); }
    }
  }

  /** The parts of the invariant that no entry of a task above 0 touches. */
  lemma KeptAtTheEdges(m: Mem, t: Mem, d: int, e: int)
    requires Shape(m) && BootOk(m) && Shape(t) && QuietBut(m, t, d, e) && PER_TASK <= d
    requires forall p :: LOW <= p < FRAMES && !Managed(m, p) ==> Cnt(t, p) == Cnt(m, p) == USED
    ensures BootOk(t)
    ensures forall p :: LOW <= p < FRAMES && !Managed(t, p) ==> Cnt(t, p) == USED
  {
    forall e' | 0 <= e' < BOOT_PAGES && Mapped(t, 0, e') ensures 0 <= FrameOf(Entry(t, 0, e')) < LOW {
      assert InScope(0, e') && Mapping(t, 0, e') == Mapping(m, 0, e');
    }
    forall p | LOW <= p < FRAMES && !Managed(t, p) ensures Cnt(t, p) == USED {
      assert !Managed(m, p);
    }
  }

  /** A page is taken from a task: its entry is cleared and the count of its frame drops. */
  function Unplugged(m: Mem, d: int, e: int): Mem
    requires Shape(m) && 0 <= d < 1024 && 0 <= e < 1024 && LOW <= TableOf(m, d) < FRAMES
  {
    var p := FrameOf(Entry(m, d, e));
    var t := SetEntry(m, d, e, 0);
    if LOW <= p < FRAMES then SetCount(t, p, Cnt(m, p) - 1) else t
  }

  function RoleAfterUnplug(m: Mem, role: map<int, Role>, p: int): map<int, Role>
    requires Shape(m)
  {
    if LOW <= p < FRAMES && Cnt(m, p) == 1 then role - {p} else role
  }

  lemma Unplug(m: Mem, role: map<int, Role>, d: int, e: int)
    requires Inv(m, role) && Settable(m, d, e) && Mapped(m, d, e)
    ensures LOW <= TableOf(m, d) < FRAMES && 0 <= FrameOf(Entry(m, d, e))
    ensures FrameOf(Entry(m, d, e)) >= LOW ==>
      Managed(m, FrameOf(Entry(m, d, e))) && Cnt(m, FrameOf(Entry(m, d, e))) > 0
    ensures var t := Unplugged(m, d, e);
      && Inv(t, RoleAfterUnplug(m, role, FrameOf(Entry(m, d, e))))
      && QuietBut(m, t, d, e)
      && !Mapped(t, d, e)
      && SameKernel(m, role, t, RoleAfterUnplug(m, role, FrameOf(Entry(m, d, e))))
  {
    hide TablesOk, EntriesOk, CountsOk, BootOk, QuietBut, SameKernel, Unplugged;
    var p := FrameOf(Entry(m, d, e));
    UnpluggedFrame(m, role, d, e);
    UnpluggedLooks(m, role, d, e);
    var t := Unplugged(m, d, e);
    UnplugInv(m, role, t, RoleAfterUnplug(m, role, p), d, e);
    KernelKept(m, role, t, RoleAfterUnplug(m, role, p), TableOf(m, d));
  }

  lemma UnpluggedFrame(m: Mem, role: map<int, Role>, d: int, e: int)
    requires Inv(m, role) && Settable(m, d, e) && Mapped(m, d, e)
    ensures var p := FrameOf(Entry(m, d, e));
      && 0 <= p && (p >= LOW ==> Managed(m, p) && p < FRAMES && Cnt(m, p) > 0)
      && (p in role ==> role[p] != Kernel)
  {
    MappedIsUser(m, role, d, e);
    if FrameOf(Entry(m, d, e)) in role { assert Managed(m, FrameOf(Entry(m, d, e))); }
  }

  lemma UnpluggedLooks(m: Mem, role: map<int, Role>, d: int, e: int)
    requires Inv(m, role) && Settable(m, d, e) && Mapped(m, d, e)
    ensures LOW <= TableOf(m, d) < FRAMES && TableOf(m, d) in role && role[TableOf(m, d)] == Table(d)
    ensures var t, p := Unplugged(m, d, e), FrameOf(Entry(m, d, e));
      && Shape(t) && QuietBut(m, t, d, e) && !Mapped(t, d, e)
      && (forall d', e' :: InScope(d', e') && HasTable(m, d') && (d' != d || e' != e) ==>
            Entry(t, d', e') == Entry(m, d', e'))
      && (forall q :: LOW <= q < FRAMES && q != p ==> Cnt(t, q) == Cnt(m, q))
      && (LOW <= p < FRAMES ==> Cnt(t, p) == Cnt(m, p) - 1)
      && (forall q :: 0 <= q < FRAMES && q != TableOf(m, d) ==> FrameAt(t, q) == FrameAt(m, q))
  {
    hide TablesOk, EntriesOk, CountsOk, BootOk, QuietBut;
    SetEntryQuiet(m, role, d, e, 0);
    var u, t := SetEntry(m, d, e, 0), Unplugged(m, d, e);
    QuietButCounts(m, u, t, d, e);
    assert forall q :: 0 <= q < FRAMES ==> FrameAt(t, q) == FrameAt(u, q);
  }

  lemma KernelKept(m: Mem, role: map<int, Role>, t: Mem, role': map<int, Role>, p: int)
    requires Inv(m, role) && Shape(t) && p in role && role[p].Table?
    requires forall q :: 0 <= q < FRAMES && q != p ==> FrameAt(t, q) == FrameAt(m, q)
    requires forall q :: q in role && role[q] == Kernel ==> q in role' && role'[q] == Kernel
    requires forall q :: q in role' && role'[q] == Kernel ==> q in role && role[q] == Kernel
    ensures SameKernel(m, role, t, role')
  {
    forall q | q in role && role[q] == Kernel ensures FrameAt(t, q) == FrameAt(m, q) {
      assert Managed(m, q);
    }
  }

  lemma UnplugInv(m: Mem, role: map<int, Role>, t: Mem, role': map<int, Role>, d: int, e: int)
    requires Inv(m, role) && Settable(m, d, e) && Mapped(m, d, e) && Shape(t)
    requires QuietBut(m, t, d, e) && !Mapped(t, d, e)
    requires forall d', e' :: InScope(d', e') && HasTable(m, d') && (d' != d || e' != e) ==>
      Entry(t, d', e') == Entry(m, d', e')
    requires role' == RoleAfterUnplug(m, role, FrameOf(Entry(m, d, e)))
    requires var p := FrameOf(Entry(m, d, e));
      && (forall q :: LOW <= q < FRAMES && q != p ==> Cnt(t, q) == Cnt(m, q))
      && (LOW <= p < FRAMES ==> Cnt(t, p) == Cnt(m, p) - 1)
    ensures Inv(t, role')
  {
    MappedIsUser(m, role, d, e);
    UnplugWriters(m, role, d, e);
    EntriesAfterUnplug(m, role, t, role', d, e);
    UnplugCounts(m, role, t, role', d, e);
    TablesKept(m, role, t, role');
    UnplugFree(m, role, t, role', d, e);
    KeptAtTheEdges(m, t, d, e);
  }

  lemma UnplugFree(m: Mem, role: map<int, Role>, t: Mem, role': map<int, Role>, d: int, e: int)
    requires Inv(m, role) && Settable(m, d, e) && Mapped(m, d, e) && Shape(t) && SameConfig(m, t)
    requires role' == RoleAfterUnplug(m, role, FrameOf(Entry(m, d, e)))
    requires FrameOf(Entry(m, d, e)) >= LOW ==> FrameOf(Entry(m, d, e)) in role
    requires var p := FrameOf(Entry(m, d, e));
      && (forall q :: LOW <= q < FRAMES && q != p ==> Cnt(t, q) == Cnt(m, q))
      && (LOW <= p < FRAMES ==> Cnt(t, p) == Cnt(m, p) - 1)
    ensures forall q :: Managed(t, q) && q !in role' ==> Cnt(t, q) == 0
    ensures forall q :: LOW <= q < FRAMES && !Managed(m, q) ==> Cnt(t, q) == Cnt(m, q) == USED
  {
    forall q | Managed(t, q) && q !in role' ensures Cnt(t, q) == 0 { assert Managed(m, q); }
    forall q | LOW <= q < FRAMES && !Managed(m, q) ensures Cnt(t, q) == Cnt(m, q) == USED { }
  }

  /** A frame that another page maps too is writable for neither, and has count above 1. */
  lemma UnplugWriters(m: Mem, role: map<int, Role>, d: int, e: int)
    requires Inv(m, role) && Settable(m, d, e) && Mapped(m, d, e)
    ensures forall d', e' ::
      (InScope(d', e') && Mapped(m, d', e') && (d' != d || e' != e) && PER_TASK <= d'
       && FrameOf(Entry(m, d', e')) == FrameOf(Entry(m, d, e)) >= LOW) ==>
        LOW <= FrameOf(Entry(m, d, e)) < FRAMES && Cnt(m, FrameOf(Entry(m, d, e))) != 1 && !Writable(Entry(m, d', e'))
  {
    forall d', e' | InScope(d', e') && Mapped(m, d', e') && (d' != d || e' != e) && PER_TASK <= d'
        && FrameOf(Entry(m, d', e')) == FrameOf(Entry(m, d, e)) >= LOW
      ensures LOW <= FrameOf(Entry(m, d, e)) < FRAMES && Cnt(m, FrameOf(Entry(m, d, e))) != 1
        && !Writable(Entry(m, d', e'))
    {
      MappedIsUser(m, role, d', e');
      if Cnt(m, FrameOf(Entry(m, d, e))) == 1 { SoleUser(m, role, d, e, d', e'); }
    }
  }

  lemma TablesKept(m: Mem, role: map<int, Role>, t: Mem, role': map<int, Role>)
    requires Shape(m) && Shape(t) && TablesOk(m, role) && t.dir == m.dir
    requires forall p :: p in role && role[p].Table? ==> p in role' && role'[p] == role[p]
    requires forall p :: p in role' && role'[p].Table? ==> p in role && role'[p] == role[p]
    ensures TablesOk(t, role')
  {
    assert forall d :: HasTable(t, d) == HasTable(m, d);
    assert forall d :: 0 <= d < 1024 ==> TableOf(t, d) == TableOf(m, d);
  }

  lemma EntriesAfterUnplug(m: Mem, role: map<int, Role>, t: Mem, role': map<int, Role>, d: int, e: int)
    requires Inv(m, role) && Settable(m, d, e) && Mapped(m, d, e) && Shape(t) && QuietBut(m, t, d, e)
      && !Mapped(t, d, e)
    requires forall d', e' :: InScope(d', e') && HasTable(m, d') && (d' != d || e' != e) ==>
      Entry(t, d', e') == Entry(m, d', e')
    requires var p := FrameOf(Entry(m, d, e));
      && (forall q :: q in role && (q != p || Cnt(m, p) != 1) ==> q in role' && role'[q] == role[q])
      && (forall q :: LOW <= q < FRAMES && q != p ==> Cnt(t, q) == Cnt(m, q))
      && (forall d', e' ::
            (InScope(d', e') && Mapped(m, d', e') && (d' != d || e' != e)
             && FrameOf(Entry(m, d', e')) == p >= LOW && PER_TASK <= d') ==>
            Cnt(m, p) != 1 && !Writable(Entry(m, d', e')))
    ensures EntriesOk(t, role')
  {
    forall d', e' | PER_TASK <= d' < 1024 && Mapped(t, d', e') ensures EntryOk(t, role', d', e') {
      assert InScope(d', e') && Mapped(m, d', e') && EntryOk(m, role, d', e');
    }
  }

  lemma UnplugCounts(m: Mem, role: map<int, Role>, t: Mem, role': map<int, Role>, d: int, e: int)
    requires Inv(m, role) && Settable(m, d, e) && Mapped(m, d, e) && Shape(t)
    requires QuietBut(m, t, d, e) && !Mapped(t, d, e)
    requires role' == RoleAfterUnplug(m, role, FrameOf(Entry(m, d, e)))
    requires var p := FrameOf(Entry(m, d, e));
      && (forall q :: LOW <= q < FRAMES && q != p ==> Cnt(t, q) == Cnt(m, q))
      && (LOW <= p < FRAMES ==> Cnt(t, p) == Cnt(m, p) - 1)
    ensures forall q :: q in role' ==> Managed(t, q) && CountOk(t, role', q)
  {
    var p := FrameOf(Entry(m, d, e));
    MappedIsUser(m, role, d, e);
    forall q | q in role' ensures Managed(t, q) && CountOk(t, role', q) {
      assert Managed(m, q) && CountOk(m, role, q);
      if q == p {
        UserLeaves(m, t, d, e, p);
      } else if role[q].Page? {
        UsersUntouched(m, t, d, e, q, role[q].i, role[q].e);
      }
    }
  }

  lemma QuietButCounts(m: Mem, t: Mem, u: Mem, d: int, e: int)
    requires Shape(m) && Shape(t) && QuietBut(m, t, d, e) && |u.cnt| == |t.cnt| && u == t.(cnt := u.cnt)
    ensures QuietBut(m, u, d, e)
    ensures forall d', e' :: 0 <= d' < 1024 && 0 <= e' < 1024 ==>
      Entry(u, d', e') == Entry(t, d', e') && Mapped(u, d', e') == Mapped(t, d', e')
  {
  }

  /** Changing flags of an entry: the same frame stays mapped. */
  lemma Reflag(m: Mem, role: map<int, Role>, d: int, e: int, w: int)
    requires Inv(m, role) && Settable(m, d, e) && Mapped(m, d, e)
    requires Present(w) && FrameOf(w) == FrameOf(Entry(m, d, e))
    requires Writable(w) ==> Writable(Entry(m, d, e)) || (FrameOf(w) >= LOW && Cnt(m, FrameOf(w)) == 1)
    ensures LOW <= TableOf(m, d) < FRAMES
    ensures var t := SetEntry(m, d, e, w);
      && Inv(t, role)
      && QuietBut(m, t, d, e)
      && Mapping(t, d, e) == Mapping(m, d, e) && View(t, d, e) == View(m, d, e)
      && Entry(t, d, e) == w
  {
    var p := FrameOf(w);
    MappedIsUser(m, role, d, e);
    SetEntryQuiet(m, role, d, e, w);
    var t := SetEntry(m, d, e, w);
    EntriesAfterSet(m, role, t, role, d, e);
    forall q | q in role ensures Managed(t, q) && CountOk(t, role, q) {
      assert Managed(m, q) && CountOk(m, role, q);
      if role[q].Page? { UsersUntouched(m, t, d, e, q, role[q].i, role[q].e); }
    }
    KeptAtTheEdges(m, t, d, e);
    TablesKept(m, role, t, role);
  }

  /** A second task gets read-only access to a page that is already read-only for
      the first, at the same offset; the count of its frame grows. */
  function Shared(m: Mem, d: int, e: int, w: int): Mem
    requires Shape(m) && 0 <= d < 1024 && 0 <= e < 1024 && LOW <= TableOf(m, d) < FRAMES
  {
    var p := FrameOf(w);
    var t := SetEntry(m, d, e, w);
    if LOW <= p < FRAMES then SetCount(t, p, Cnt(m, p) + 1) else t
  }

  lemma Share(m: Mem, role: map<int, Role>, d0: int, e: int, d: int, w: int)
    requires Inv(m, role) && InScope(d0, e) && Mapped(m, d0, e)
    requires Settable(m, d, e) && !Mapped(m, d, e) && d0 % PER_TASK == d % PER_TASK
    requires Present(w) && !Writable(w) && FrameOf(w) == FrameOf(Entry(m, d0, e))
    requires FrameOf(w) >= LOW ==> !Writable(Entry(m, d0, e))
    ensures LOW <= TableOf(m, d) < FRAMES
    ensures 0 <= FrameOf(w) && (FrameOf(w) >= LOW ==> PER_TASK <= d0 && Managed(m, FrameOf(w)))
    ensures var t := Shared(m, d, e, w);
      && Inv(t, role)
      && QuietBut(m, t, d, e)
      && Mapping(t, d, e) == Mapping(m, d0, e) && View(t, d, e) == View(m, d0, e)
      && SameKernel(m, role, t, role)
  {
    if d0 != 0 { MappedIsUser(m, role, d0, e); }
    SetEntryQuiet(m, role, d, e, w);
    var t := Shared(m, d, e, w);
    ShareFacts(m, SetEntry(m, d, e, w), t, d, e, w);
    ShareInv(m, role, t, d0, e, d, w);
    KernelKept(m, role, t, role, TableOf(m, d));
  }

  lemma ShareFacts(m: Mem, u: Mem, t: Mem, d: int, e: int, w: int)
    requires Shape(m) && Shape(u) && 0 <= d < 1024 && 0 <= e < 1024 && LOW <= TableOf(m, d) < FRAMES
    requires u == SetEntry(m, d, e, w) && t == Shared(m, d, e, w) && QuietBut(m, u, d, e)
    requires forall q :: 0 <= q < FRAMES && q != TableOf(m, d) ==> FrameAt(u, q) == FrameAt(m, q)
    ensures Shape(t) && QuietBut(m, t, d, e)
    ensures forall d', e' :: 0 <= d' < 1024 && 0 <= e' < 1024 ==>
      Entry(t, d', e') == Entry(u, d', e') && Mapped(t, d', e') == Mapped(u, d', e')
    ensures forall q :: 0 <= q < FRAMES && q != TableOf(m, d) ==> FrameAt(t, q) == FrameAt(m, q)
    ensures forall q :: LOW <= q < FRAMES && q != FrameOf(w) ==> Cnt(t, q) == Cnt(m, q)
    ensures LOW <= FrameOf(w) < FRAMES ==> Cnt(t, FrameOf(w)) == Cnt(m, FrameOf(w)) + 1
  {
    QuietButCounts(m, u, t, d, e);
    assert forall q :: 0 <= q < FRAMES ==> FrameAt(t, q) == FrameAt(u, q);
  }

  lemma ShareInv(m: Mem, role: map<int, Role>, t: Mem, d0: int, e: int, d: int, w: int)
    requires Inv(m, role) && InScope(d0, e) && Mapped(m, d0, e)
    requires Settable(m, d, e) && !Mapped(m, d, e) && d0 % PER_TASK == d % PER_TASK
    requires Present(w) && !Writable(w) && FrameOf(w) == FrameOf(Entry(m, d0, e))
    requires FrameOf(w) >= LOW ==> !Writable(Entry(m, d0, e))
    requires Shape(t) && QuietBut(m, t, d, e) && Mapped(t, d, e) && Entry(t, d, e) == w
    requires forall d', e' :: InScope(d', e') && HasTable(m, d') && (d' != d || e' != e) ==>
      Entry(t, d', e') == Entry(m, d', e')
    requires forall q :: LOW <= q < FRAMES && q != FrameOf(w) ==> Cnt(t, q) == Cnt(m, q)
    requires LOW <= FrameOf(w) < FRAMES ==> Cnt(t, FrameOf(w)) == Cnt(m, FrameOf(w)) + 1
    ensures Inv(t, role)
  {
    if d0 != 0 { MappedIsUser(m, role, d0, e); }
    NotWritableElsewhere(m, role, d0, e, d);
    EntriesAfterSet(m, role, t, role, d, e);
    ShareCounts(m, role, t, d, e, w);
    TablesKept(m, role, t, role);
    forall q | Managed(t, q) && q !in role ensures Cnt(t, q) == 0 { assert Managed(m, q); }
    forall q | LOW <= q < FRAMES && !Managed(m, q) ensures Cnt(t, q) == Cnt(m, q) == USED { }
    KeptAtTheEdges(m, t, d, e);
  }

  /** When a page is read-only for one task, its frame is writable for none. */
  lemma NotWritableElsewhere(m: Mem, role: map<int, Role>, d0: int, e: int, d: int)
    requires Inv(m, role) && InScope(d0, e) && Mapped(m, d0, e) && !Mapped(m, d, e)
    requires FrameOf(Entry(m, d0, e)) >= LOW ==> !Writable(Entry(m, d0, e))
    ensures forall d', e' :: InScope(d', e') && Mapped(m, d', e') && FrameOf(Entry(m, d', e')) >= LOW ==>
      var q := FrameOf(Entry(m, d', e'));
      q in role && Managed(m, q) && (Writable(Entry(m, d', e')) ==> q != FrameOf(Entry(m, d0, e)))
  {
    forall d', e' | InScope(d', e') && Mapped(m, d', e') && FrameOf(Entry(m, d', e')) >= LOW
      ensures var q := FrameOf(Entry(m, d', e'));
        q in role && Managed(m, q) && (Writable(Entry(m, d', e')) ==> q != FrameOf(Entry(m, d0, e)))
    {
      assert d' != 0 && EntryOk(m, role, d', e');
      if Writable(Entry(m, d', e')) && FrameOf(Entry(m, d', e')) == FrameOf(Entry(m, d0, e)) {
        SoleUser(m, role, d', e', d0, e);
      }
    }
  }

  lemma ShareCounts(m: Mem, role: map<int, Role>, t: Mem, d: int, e: int, w: int)
    requires Inv(m, role) && Settable(m, d, e) && !Mapped(m, d, e) && LOW <= TableOf(m, d) < FRAMES
    requires Shape(t) && QuietBut(m, t, d, e) && Mapping(t, d, e) == Some(FrameOf(w))
    requires forall q :: LOW <= q < FRAMES && q != FrameOf(w) ==> Cnt(t, q) == Cnt(m, q)
    requires LOW <= FrameOf(w) < FRAMES ==> Cnt(t, FrameOf(w)) == Cnt(m, FrameOf(w)) + 1
    requires FrameOf(w) >= LOW ==> FrameOf(w) in role && role[FrameOf(w)] == Page(d % PER_TASK, e)
    ensures forall q :: q in role ==> Managed(t, q) && CountOk(t, role, q)
  {
    var p := FrameOf(w);
    forall q | q in role ensures Managed(t, q) && CountOk(t, role, q) {
      assert Managed(m, q) && CountOk(m, role, q);
      if q == p {
        UserJoins(m, t, d, e, p);
      } else if role[q].Page? {
        UsersUntouched(m, t, d, e, q, role[q].i, role[q].e);
      }
    }
  }

  /** Writing to the frame behind a page keeps the tables and the counts.  */
  lemma StoreKeeps(m: Mem, role: map<int, Role>, d: int, e: int, f: Frame)
    requires Inv(m, role) && Settable(m, d, e) && Mapped(m, d, e) && FrameOf(Entry(m, d, e)) >= LOW
    ensures Managed(m, FrameOf(Entry(m, d, e)))
    ensures var t := SetFrame(m, FrameOf(Entry(m, d, e)), f);
      Inv(t, role) && SameEntries(m, t) && Mapping(t, d, e) == Mapping(m, d, e) && View(t, d, e) == Some(f)
  {
    var p := FrameOf(Entry(m, d, e));
    MappedIsUser(m, role, d, e);
    var t := SetFrame(m, p, f);
    forall d', e' | InScope(d', e') && HasTable(m, d')
      ensures Entry(t, d', e') == Entry(m, d', e')
    {
      EntryAfterFrame(m, role, p, f, d', e');
    }
    KernelStep(m, role, t, role);
    assert InScope(d, e);
  }

  /** A page with more than one reference has another user. */
  lemma OtherUser(m: Mem, role: map<int, Role>, d: int, e: int) returns (other: int)
    requires Inv(m, role) && Settable(m, d, e) && Mapped(m, d, e) && FrameOf(Entry(m, d, e)) >= LOW
    requires Cnt(m, FrameOf(Entry(m, d, e))) != 1
    ensures PER_TASK <= other < 1024 && other != d && Mapping(m, other, e) == Mapping(m, d, e)
  {
    var p, i := FrameOf(Entry(m, d, e)), d % PER_TASK;
    MappedIsUser(m, role, d, e);
    var users := Users(m, p, i, e);
    assert users != {d / PER_TASK};
    var s :| s in users && s != d / PER_TASK;
    other := PER_TASK * s + i;
    SlotOf(other);
  }

  /** A store that does not look at the writable bit is seen by that task alone exactly when nobody
      shares the page, or nothing changes. */
  lemma StoreIsPrivateIff(m: Mem, role: map<int, Role>, d: int, e: int, f: Frame)
    requires Inv(m, role) && Settable(m, d, e) && Mapped(m, d, e) && FrameOf(Entry(m, d, e)) >= LOW
    ensures Managed(m, FrameOf(Entry(m, d, e)))
    ensures QuietBut(m, SetFrame(m, FrameOf(Entry(m, d, e)), f), d, e) <==>
      Cnt(m, FrameOf(Entry(m, d, e))) == 1 || f == FrameAt(m, FrameOf(Entry(m, d, e)))
  {
    var p := FrameOf(Entry(m, d, e));
    StoreKeeps(m, role, d, e, f);
    var t := SetFrame(m, p, f);
    hide TablesOk, EntriesOk, CountsOk, BootOk;
    if Cnt(m, p) == 1 || f == FrameAt(m, p) {
      forall d', e' | InScope(d', e') && (d' != d || e' != e)
        ensures Mapping(t, d', e') == Mapping(m, d', e') && View(t, d', e') == View(m, d', e')
      {
        if Mapped(m, d', e') && FrameOf(Entry(m, d', e')) == p && Cnt(m, p) == 1 { OnlyUser(m, role, d, e, d', e'); }
      }
    } else {
      var other := OtherUser(m, role, d, e);
      assert InScope(other, e) && View(t, other, e) == Some(f) != View(m, other, e);
    }
  }

  lemma OnlyUser(m: Mem, role: map<int, Role>, d: int, e: int, d': int, e': int)
    requires Inv(m, role) && Settable(m, d, e) && Mapped(m, d, e) && InScope(d', e') && Mapped(m, d', e')
    requires FrameOf(Entry(m, d, e)) == FrameOf(Entry(m, d', e')) >= LOW
    requires Cnt(m, FrameOf(Entry(m, d, e))) == 1
    ensures d' == d && e' == e
  {
    assert d' != 0;
    SoleUser(m, role, d, e, d', e');
  }

  /** A store through a writable entry changes the page of that task and of no other. */
  lemma StoreStep(m: Mem, role: map<int, Role>, d: int, e: int, f: Frame)
    requires Inv(m, role) && Settable(m, d, e) && Mapped(m, d, e) && Writable(Entry(m, d, e))
    ensures Managed(m, FrameOf(Entry(m, d, e)))
    ensures var t := SetFrame(m, FrameOf(Entry(m, d, e)), f);
      && Inv(t, role) && QuietBut(m, t, d, e) && SameEntries(m, t)
      && Mapping(t, d, e) == Mapping(m, d, e) && View(t, d, e) == Some(f)
  {
    MappedIsUser(m, role, d, e);
    hide TablesOk, EntriesOk, CountsOk, BootOk, SameEntries, QuietBut;
    StoreKeeps(m, role, d, e, f);
    StoreIsPrivateIff(m, role, d, e, f);
  }

  /** No frame is shared by more than 63 tasks, so that the 8-bit count never wraps. */
  lemma CountBound(m: Mem, role: map<int, Role>, p: int)
    requires Inv(m, role) && Managed(m, p)
    ensures 0 <= Cnt(m, p) < TASKS
  {
    if p in role {
      assert CountOk(m, role, p);
      if role[p].Page? {
        var u := Users(m, p, role[p].i, role[p].e);
        AtMost(u + {0}, TASKS);
      }
    }
  }

  /** Clearing a word that maps nothing. */
  lemma ClearAbsent(m: Mem, role: map<int, Role>, d: int, e: int)
    requires Inv(m, role) && Settable(m, d, e) && !Mapped(m, d, e)
    ensures LOW <= TableOf(m, d) < FRAMES
    ensures var t := SetEntry(m, d, e, 0);
      && Inv(t, role)
      && QuietBut(m, t, d, e)
      && !Mapped(t, d, e)
      && SameKernel(m, role, t, role)
  {
    SetEntryQuiet(m, role, d, e, 0);
    var t := SetEntry(m, d, e, 0);
    forall d', e' | InScope(d', e') && Mapped(m, d', e') && FrameOf(Entry(m, d', e')) >= LOW
      ensures FrameOf(Entry(m, d', e')) in role && Managed(m, FrameOf(Entry(m, d', e')))
    {
      assert d' != 0 && EntryOk(m, role, d', e');
    }
    EntriesAfterSet(m, role, t, role, d, e);
    forall q | q in role ensures Managed(t, q) && CountOk(t, role, q) {
      assert Managed(m, q) && CountOk(m, role, q);
      if role[q].Page? { UsersUntouched(m, t, d, e, q, role[q].i, role[q].e); }
    }
    TablesKept(m, role, t, role);
    KeptAtTheEdges(m, t, d, e);
    KernelKept(m, role, t, role, TableOf(m, d));
  }

  /** The use counts follow from the directory, the mappings and what the kernel holds. */
  lemma CountsDetermined(m: Mem, role: map<int, Role>, t: Mem, role': map<int, Role>)
    requires Inv(m, role) && Inv(t, role') && SameConfig(m, t)
    requires forall d :: PER_TASK <= d < 1024 ==>
      HasTable(t, d) == HasTable(m, d) && (HasTable(m, d) ==> t.dir[d] == m.dir[d])
    requires forall d, e :: PER_TASK <= d < 1024 && 0 <= e < 1024 ==> Mapping(t, d, e) == Mapping(m, d, e)
    requires forall p :: p in role && role[p] == Kernel <==> p in role' && role'[p] == Kernel
    ensures t.cnt == m.cnt
  {
    forall p | LOW <= p < FRAMES ensures Cnt(t, p) == Cnt(m, p) {
      assert Managed(m, p) <==> Managed(t, p);
      if p in role { SameRole(m, role, t, role', p); }
      if p in role' { SameRole(t, role', m, role, p); }
    }
    forall k | 0 <= k < PAGES ensures t.cnt[k] == m.cnt[k] { assert Cnt(t, k + LOW) == Cnt(m, k + LOW); }
  }

  lemma SameRole(m: Mem, role: map<int, Role>, t: Mem, role': map<int, Role>, p: int)
    requires Inv(m, role) && Inv(t, role') && SameConfig(m, t) && p in role
    requires forall d :: PER_TASK <= d < 1024 ==>
      HasTable(t, d) == HasTable(m, d) && (HasTable(m, d) ==> t.dir[d] == m.dir[d])
    requires forall d, e :: PER_TASK <= d < 1024 && 0 <= e < 1024 ==> Mapping(t, d, e) == Mapping(m, d, e)
    requires forall p :: p in role && role[p] == Kernel <==> p in role' && role'[p] == Kernel
    ensures p in role' && role'[p] == role[p] && Managed(m, p) && Cnt(t, p) == Cnt(m, p)
  {
    assert Managed(m, p) && CountOk(m, role, p);
    if role[p].Table? {
      assert TableOf(t, role[p].d) == p;
      assert CountOk(t, role', p);
    } else if role[p].Page? {
      var i, e := role[p].i, role[p].e;
      forall s | 1 <= s < TASKS
        ensures Mapping(t, PER_TASK * s + i, e) == Mapping(m, PER_TASK * s + i, e)
      {
      }
      UsersSame(m, t, p, i, e);
      assert Users(m, p, i, e) != {};
      var s :| s in Users(m, p, i, e);
      assert Mapped(t, PER_TASK * s + i, e) && FrameOf(Entry(t, PER_TASK * s + i, e)) == p;
      assert EntryOk(t, role', PER_TASK * s + i, e);
      SlotOf(PER_TASK * s + i);
      assert CountOk(t, role', p);
    } else {
      assert CountOk(t, role', p);
    }
  }
}
