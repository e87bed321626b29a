/** Address spaces with sharing and copy-on-write against address spaces that are
    simply separate maps from pages to contents. */
module FlatSpaces {
  import opened Collections
  import opened Paging
  import opened Memories
  import opened CopyOnWrite
  import opened Faults
  import opened ForkMemory

  /** Pages of one task: directory entry within the slot and table entry, to contents. */
  type Space = map<(int, int), Frame>

  datatype Flat = Flat(live: set<int>, limit: seq<int>, spaces: seq<Space>)

  datatype Op =
    | Fork(p: int, nr: int)
    | Store(s: int, offset: int, value: int)
    | Verify(s: int, offset: int, size: int)
    | KernelWrite(s: int, offset: int, words: seq<int>)
    | Share(s: int, from: int, offset: int)
    | Exec(s: int)
    | Exit(s: int)

  function PageOf(offset: int): (int, int) { (offset / FOUR_MB, offset / 4096 % 1024) }

  function Look(space: Space, page: (int, int)): Option<Frame> {
    if page in space then Some(space[page]) else None
  }

  function With(space: Space, page: (int, int), f: Frame): Space { space[page := f] }

  predicate WfFlat(flat: Flat) { |flat.limit| == TASKS && |flat.spaces| == TASKS }

  predicate InDomain(flat: Flat, op: Op)
    requires WfFlat(flat)
  {
    match op
    case Fork(p, nr) => 0 <= p < TASKS && 1 <= nr < TASKS && p != nr && (p == 0 || p in flat.live) && nr !in flat.live
    case Store(s, offset, _) => 1 <= s < TASKS && s in flat.live && 0 <= offset < flat.limit[s]
    case Verify(s, offset, size) => 1 <= s < TASKS && s in flat.live && 0 <= offset && 0 <= size
      && offset + size <= TASK_SIZE
    case KernelWrite(s, offset, words) =>
      1 <= s < TASKS && s in flat.live && 0 <= offset && offset + 4 * |words| <= flat.limit[s]
    case Share(s, from, offset) =>
      && 1 <= s < TASKS && 1 <= from < TASKS && s in flat.live && from in flat.live && s != from
      && 0 <= offset < flat.limit[s] && PageOf(offset) !in flat.spaces[s]
    case Exec(s) => 1 <= s < TASKS && s in flat.live
    case Exit(s) => 1 <= s < TASKS && s in flat.live
  }

  /** One word laid over a space. */
  function Laid(flat: Flat, s: int, offset: int, value: int): Flat
    requires WfFlat(flat) && 0 <= s < TASKS
  {
    var page := PageOf(offset);
    flat.(spaces := flat.spaces[s := With(flat.spaces[s], page,
      Stored(Look(flat.spaces[s], page), WordIndex(offset), value))])
  }

  /** Words laid over a space from `offset` on. */
  function AllLaid(flat: Flat, s: int, offset: int, words: seq<int>): (r: Flat)
    requires WfFlat(flat) && 0 <= s < TASKS
    ensures WfFlat(r) && r.live == flat.live && r.limit == flat.limit
    ensures forall j :: 0 <= j < TASKS && j != s ==> r.spaces[j] == flat.spaces[j]
  {
    if words == [] then flat
    else Laid(AllLaid(flat, s, offset, words[..|words| - 1]), s, offset + 4 * (|words| - 1), words[|words| - 1])
  }

  /** How far an operation can get: one step, or one for each word. */
  function Full(op: Op): nat { if op.KernelWrite? then |op.words| else 1 }

  /** One operation on separate spaces; `took` tells how much of it took effect. */
  function FlatStep(flat: Flat, op: Op, took: nat): Flat
    requires WfFlat(flat) && took <= Full(op)
  {
    if took == 0 || !InDomain(flat, op) then flat
    else match op
    case Fork(p, nr) => Flat(flat.live + {nr}, flat.limit[nr := flat.limit[p]], flat.spaces[nr := flat.spaces[p]])
    case Store(s, offset, value) => Laid(flat, s, offset, value)
    case Verify(_, _, _) => flat
    case KernelWrite(s, offset, words) => AllLaid(flat, s, offset, words[..took])
    case Share(s, from, offset) =>
      var page := PageOf(offset);
      if page !in flat.spaces[from] then flat
      else flat.(spaces := flat.spaces[s := With(flat.spaces[s], page, flat.spaces[from][page])])
    case Exec(s) => flat.(limit := flat.limit[s := TASK_SIZE], spaces := flat.spaces[s := map[]])
    case Exit(s) => flat.(live := flat.live - {s}, spaces := flat.spaces[s := map[]])
  }

  function One(ok: bool): nat { if ok then 1 else 0 }

  predicate Fitting(ops: seq<Op>, tooks: seq<nat>) {
    |tooks| == |ops| && forall i :: 0 <= i < |ops| ==> tooks[i] <= Full(ops[i])
  }

  function FlatRun(flat: Flat, ops: seq<Op>, tooks: seq<nat>): (r: Flat)
    requires WfFlat(flat) && Fitting(ops, tooks)
    ensures WfFlat(r)
    decreases |ops|
  {
    if ops == [] then flat
    else var n := |ops| - 1; FlatStep(FlatRun(flat, ops[..n], tooks[..n]), ops[n], tooks[n])
  }

  /** The word of a space at an address. */
  function WordAt(space: Space, a: int): int { OrZero(Look(space, PageOf(a)))[WordIndex(a)] }

  /** An address from its page and its word. */
  lemma AddressFrom(a: int)
    requires a % 4 == 0 && 0 <= a
    ensures a == FOUR_MB * PageOf(a).0 + 4096 * PageOf(a).1 + 4 * WordIndex(a)
  {
    var q, r := a / 4096, a % 4096;
    var i, e := q / 1024, q % 1024;
    assert r == 4 * (r / 4);
    assert a == FOUR_MB * i + (4096 * e + r) && 0 <= 4096 * e + r < FOUR_MB;
    assert a / FOUR_MB == i;
  }

  lemma SamePlace(a: int, b: int)
    requires a % 4 == 0 && b % 4 == 0 && 0 <= a && 0 <= b && PageOf(a) == PageOf(b) && WordIndex(a) == WordIndex(b)
    ensures a == b
  {
    hide PageOf, WordIndex;
    AddressFrom(a);
    AddressFrom(b);
  }

  lemma WordLies(flat: Flat, s: int, offset: int, value: int, a: int)
    requires WfFlat(flat) && 0 <= s < TASKS && 0 <= offset && offset % 4 == 0 && 0 <= a && a % 4 == 0
    ensures WordAt(Laid(flat, s, offset, value).spaces[s], a) == if a == offset then value
      else WordAt(flat.spaces[s], a)
  {
    if PageOf(a) == PageOf(offset) && WordIndex(a) == WordIndex(offset) { SamePlace(a, offset); }
    hide PageOf, WordIndex;
  }

  /** The words lie where they were written, and every other word of the space is what it was. */
  lemma {:induction false} WordsLie(flat: Flat, s: int, offset: int, words: seq<int>, a: int)
    requires WfFlat(flat) && 0 <= s < TASKS && 0 <= offset && offset % 4 == 0 && 0 <= a && a % 4 == 0
    ensures WordAt(AllLaid(flat, s, offset, words).spaces[s], a) ==
      if offset <= a < offset + 4 * |words| then words[(a - offset) / 4] else WordAt(flat.spaces[s], a)
  {
    hide WordAt, Laid;
    if words != [] {
      var n := |words| - 1;
      WordsLie(flat, s, offset, words[..n], a);
      WordLies(AllLaid(flat, s, offset, words[..n]), s, offset + 4 * n, words[n], a);
    }
  }

  /** Every task sees exactly its own flat space. */
  ghost predicate Shows(m: Mem, limit: seq<int>, frame: seq<int>, flat: Flat)
    requires Shape(m)
  {
    && WfFlat(flat) && flat.limit == limit && |frame| == TASKS
    && (forall s :: s in flat.live <==> 1 <= s < TASKS && Live(frame, s))
    && (forall d, e :: InScope(d, e) ==> View(m, d, e) == Look(flat.spaces[d / PER_TASK], (d % PER_TASK, e)))
    && (forall page :: page in flat.spaces[0] ==> page.0 == 0 && 0 <= page.1 < BOOT_PAGES)
  }

  /** What the first child of task 0 will see. */
  function BootSpace(m: Mem): Space
    requires Shape(m)
  {
    map e | 0 <= e < BOOT_PAGES && Mapped(m, 0, e) :: (0, e) := FrameAt(m, FrameOf(Entry(m, 0, e)))
  }

  /** After boot there is no task but task 0. */
  method Boot(low: seq<Frame>, boot: int, start: int, high: int) returns (k: Tasks, ghost flat: Flat)
    requires |low| == LOW <= start <= high <= FRAMES
    requires Present(boot) && 0 <= FrameOf(boot) < LOW
    requires forall e :: 0 <= e < BOOT_PAGES && Present(low[FrameOf(boot)][e]) ==>
      0 <= FrameOf(low[FrameOf(boot)][e]) < LOW
    ensures k.Valid() && fresh(k.m) && fresh(k.limit) && fresh(k.frame)
    ensures Shows(k.m.Snap(), k.limit[..], k.frame[..], flat) && flat.live == {}
  {
    var m := new Memory(low, boot, start, high);
    k := new Tasks(m);
    ghost var t, image := m.Snap(), BootSpace(m.Snap());
    flat := Flat({}, k.limit[..], seq(TASKS, s => if s == 0 then image else map[]));
    forall d, e | InScope(d, e) ensures View(t, d, e) == Look(flat.spaces[d / PER_TASK], (d % PER_TASK, e)) {
      if d != 0 { assert !HasTable(t, d); } else { BootLook(t, e); }
    }
  }

  lemma BootLook(m: Mem, e: int)
    requires Shape(m) && 0 <= e < BOOT_PAGES
    ensures View(m, 0, e) == Look(BootSpace(m), (0, e))
    ensures forall page :: page in BootSpace(m) ==> page.0 == 0 && 0 <= page.1 < BOOT_PAGES
  {
  }

  lemma ForkShows(s: Mem, t: Mem, role: map<int, Role>, limit: seq<int>, frame: seq<int>, frame': seq<int>, flat: Flat,
      p: int, nr: int)
    requires Shape(s) && Shape(t) && Shows(s, limit, frame, flat) && InDomain(flat, Fork(p, nr))
    requires |limit| == TASKS && SlotsOk(s, role, limit, frame) && limit[0] == 0xA0000
    requires Live(frame', nr) && |frame'| == TASKS && frame' == frame[nr := frame'[nr]]
    requires Quiet(s, t, PER_TASK * nr, PER_TASK * nr + PER_TASK)
    requires TablesCopied(s, PER_TASK * p, t, PER_TASK * nr, Dirs(limit[p]))
    requires forall d :: PER_TASK * nr + Dirs(limit[p]) <= d < PER_TASK * nr + PER_TASK ==> !HasTable(t, d)
    ensures Shows(t, limit[nr := limit[p]], frame', FlatStep(flat, Fork(p, nr), 1))
  {
    var flat' := FlatStep(flat, Fork(p, nr), 1);
    forall d, e | InScope(d, e) ensures View(t, d, e) == Look(flat'.spaces[d / PER_TASK], (d % PER_TASK, e)) {
      if d / PER_TASK == nr {
        ChildView(s, t, role, limit, frame, flat, p, nr, d, e);
      }
    }
  }

  lemma ChildView(s: Mem, t: Mem, role: map<int, Role>, limit: seq<int>, frame: seq<int>, flat: Flat, p: int, nr: int,
      d: int, e: int)
    requires Shape(s) && Shape(t) && Shows(s, limit, frame, flat) && InDomain(flat, Fork(p, nr))
    requires |limit| == TASKS && SlotsOk(s, role, limit, frame) && limit[0] == 0xA0000
    requires TablesCopied(s, PER_TASK * p, t, PER_TASK * nr, Dirs(limit[p]))
    requires forall d :: PER_TASK * nr + Dirs(limit[p]) <= d < PER_TASK * nr + PER_TASK ==> !HasTable(t, d)
    requires InScope(d, e) && d / PER_TASK == nr
    ensures View(t, d, e) == Look(flat.spaces[p], (d % PER_TASK, e))
  {
    var d0 := d - PER_TASK * nr + PER_TASK * p;
    assert d0 % PER_TASK == d % PER_TASK && d0 / PER_TASK == p && InSlot(p, d0) && d == PER_TASK * nr + d % PER_TASK;
    if d < PER_TASK * nr + Dirs(limit[p]) {
      assert TableCopied(s, t, d, PER_TASK * p, PER_TASK * nr);
      if e < Copied(PER_TASK * p) {
        assert InScope(d0, e);
      }
    } else {
      assert !HasTable(t, d);
      if p != 0 { assert InScope(d0, e) && !HasTable(s, d0); }
    }
  }

  lemma PageShows(s: Mem, t: Mem, limit: seq<int>, frame: seq<int>, flat: Flat, flat': Flat, i: int, offset: int)
    requires Shape(s) && Shape(t) && Shows(s, limit, frame, flat)
    requires 1 <= i < TASKS && 0 <= offset < TASK_SIZE
    requires OnlyPage(s, t, PER_TASK * i + offset / FOUR_MB, offset / 4096 % 1024)
    requires WfFlat(flat') && flat'.live == flat.live && flat'.limit == flat.limit
    requires forall j :: 0 <= j < TASKS && j != i ==> flat'.spaces[j] == flat.spaces[j]
    requires forall page :: page != PageOf(offset) ==> Look(flat'.spaces[i], page) == Look(flat.spaces[i], page)
    requires View(t, PER_TASK * i + offset / FOUR_MB, offset / 4096 % 1024) == Look(flat'.spaces[i], PageOf(offset))
    ensures Shows(t, limit, frame, flat')
  {
    var d0, e0 := PER_TASK * i + offset / FOUR_MB, offset / 4096 % 1024;
    forall d, e | InScope(d, e) ensures View(t, d, e) == Look(flat'.spaces[d / PER_TASK], (d % PER_TASK, e)) {
      if d / PER_TASK == i && (d != d0 || e != e0) {
        assert (d % PER_TASK, e) != PageOf(offset);
        assert Look(flat'.spaces[i], (d % PER_TASK, e)) == Look(flat.spaces[i], (d % PER_TASK, e));
      }
    }
  }

  lemma EmptiedShows(s: Mem, t: Mem, limit: seq<int>, frame: seq<int>, flat: Flat, limit': seq<int>, frame': seq<int>,
      flat': Flat, i: int)
    requires Shape(s) && Shape(t) && Shows(s, limit, frame, flat) && 1 <= i < TASKS
    requires Quiet(s, t, PER_TASK * i, PER_TASK * i + PER_TASK) && forall d :: InSlot(i, d) ==> !HasTable(t, d)
    requires WfFlat(flat') && flat'.spaces == flat.spaces[i := map[]]
    requires flat'.limit == limit' && |frame'| == TASKS
    requires forall j :: j in flat'.live <==> 1 <= j < TASKS && Live(frame', j)
    ensures Shows(t, limit', frame', flat')
  {
    forall d, e | InScope(d, e) ensures View(t, d, e) == Look(flat'.spaces[d / PER_TASK], (d % PER_TASK, e)) {
      if d / PER_TASK == i { assert InSlot(i, d); }
    }
  }

  lemma SlotsAfterPage(s: Mem, role: map<int, Role>, t: Mem, role': map<int, Role>, limit: seq<int>, frame: seq<int>,
      i: int, offset: int)
    requires Shape(s) && Shape(t) && |limit| == TASKS && |frame| == TASKS && SlotsOk(s, role, limit, frame)
    requires 1 <= i < TASKS && Live(frame, i) && 0 <= offset < limit[i]
    requires OnlyPage(s, t, PER_TASK * i + offset / FOUR_MB, offset / 4096 % 1024) && KeepsKernel(role, role')
    ensures SlotsOk(t, role', limit, frame)
  {
    var d0 := PER_TASK * i + offset / FOUR_MB;
    forall j, d | 1 <= j < TASKS && InSlot(j, d) && HasTable(t, d)
      ensures Live(frame, j) && d < PER_TASK * j + Dirs(limit[j])
    {
      if d == d0 {
        assert j == i;
      } else {
        assert t.dir[d] == s.dir[d] && HasTable(s, d);
      }
    }
  }

  lemma AddressOf(i: int, offset: int)
    requires 1 <= i < TASKS && 0 <= offset < TASK_SIZE
    ensures UserAddress(i * TASK_SIZE + offset)
    ensures DirOf(i * TASK_SIZE + offset) == PER_TASK * i + offset / FOUR_MB
    ensures TableIndex(i * TASK_SIZE + offset) == offset / 4096 % 1024
    ensures WordIndex(i * TASK_SIZE + offset) == WordIndex(offset)
  {
    assert i * TASK_SIZE + offset == FOUR_MB * (PER_TASK * i) + offset;
    assert i * TASK_SIZE + offset == 4096 * (16384 * i) + offset;
    assert (i * TASK_SIZE + offset) / 4096 == 1024 * (16 * i) + offset / 4096;
  }

  method DoFork(k: Tasks, p: int, nr: int, ghost flat: Flat) returns (ok: bool)
    requires k.Valid() && Shows(k.m.Snap(), k.limit[..], k.frame[..], flat) && InDomain(flat, Fork(p, nr))
    modifies k.m, k.m.dir, k.m.frames, k.m.cnt, k.limit, k.frame
    ensures k.Valid() && Shows(k.m.Snap(), k.limit[..], k.frame[..], FlatStep(flat, Fork(p, nr), One(ok)))
    ensures !ok ==> |FreeFrames(old(k.m.Snap()), old(k.m.role))| <= 1 + PER_TASK
  {
    ghost var s, role, limit, frame := k.m.Snap(), k.m.role, k.limit[..], k.frame[..];
    DirsBound(k.limit[p]);
    ok := k.Fork(p, nr);
    if ok {
      TablesBeyond(k.m.Snap(), k.m.role, k.limit[..], k.frame[..], nr);
      ForkShows(s, k.m.Snap(), role, limit, frame, k.frame[..], flat, p, nr);
    }
  }

  lemma TablesBeyond(t: Mem, role: map<int, Role>, limit: seq<int>, frame: seq<int>, nr: int)
    requires Shape(t) && |limit| == TASKS && |frame| == TASKS && SlotsOk(t, role, limit, frame) && 1 <= nr < TASKS
    ensures forall d :: PER_TASK * nr + Dirs(limit[nr]) <= d < PER_TASK * nr + PER_TASK ==> !HasTable(t, d)
  {
    DirsBound(limit[nr]);
    forall d | PER_TASK * nr + Dirs(limit[nr]) <= d < PER_TASK * nr + PER_TASK ensures !HasTable(t, d) {
      assert InSlot(nr, d);
    }
  }

  /** A store at an offset within the data segment of a task. */
  method StoreAt(k: Tasks, i: int, offset: int, value: int) returns (ok: bool)
    requires k.Valid() && 1 <= i < TASKS && Live(k.frame[..], i) && 0 <= offset < k.limit[i]
    modifies k.m, k.m.dir, k.m.frames, k.m.cnt
    ensures k.Valid()
    ensures OnlyPage(old(k.m.Snap()), k.m.Snap(), PER_TASK * i + offset / FOUR_MB, offset / 4096 % 1024)
    ensures 0 <= WordIndex(offset) < 1024
    ensures View(k.m.Snap(), PER_TASK * i + offset / FOUR_MB, offset / 4096 % 1024) ==
      if ok then Some(Stored(View(old(k.m.Snap()), PER_TASK * i + offset / FOUR_MB, offset / 4096 % 1024),
        WordIndex(offset), value))
      else View(old(k.m.Snap()), PER_TASK * i + offset / FOUR_MB, offset / 4096 % 1024)
    ensures !ok ==> Exhausted(k.m.Snap(), k.m.role)
  {
    assert k.limit[i] <= TASK_SIZE;
    hide TablesOk, EntriesOk, CountsOk, BootOk, SlotsOk, OnlyPage, Exhausted, KeepsKernel;
    ghost var s, role := k.m.Snap(), k.m.role;
    AddressOf(i, offset);
    ok := StoreUser(k.m, i * TASK_SIZE + offset, value);
    SlotsAfterPage(s, role, k.m.Snap(), k.m.role, k.limit[..], k.frame[..], i, offset);
  }

  method DoStore(k: Tasks, i: int, offset: int, value: int, ghost flat: Flat) returns (ok: bool)
    requires k.Valid() && Shows(k.m.Snap(), k.limit[..], k.frame[..], flat) && InDomain(flat, Store(i, offset, value))
    modifies k.m, k.m.dir, k.m.frames, k.m.cnt
    ensures k.Valid() && Shows(k.m.Snap(), k.limit[..], k.frame[..], FlatStep(flat, Store(i, offset, value), One(ok)))
    ensures !ok ==> Exhausted(k.m.Snap(), k.m.role)
  {
    ghost var s := k.m.Snap();
    ok := StoreAt(k, i, offset, value);
    StoreShows(s, k.m.Snap(), k.limit[..], k.frame[..], flat, i, offset, value, ok);
  }

  function LaidIf(flat: Flat, i: int, offset: int, value: int, ok: bool): Flat
    requires WfFlat(flat) && 0 <= i < TASKS
  {
    if ok then Laid(flat, i, offset, value) else flat
  }

  lemma StoreShows(s: Mem, t: Mem, limit: seq<int>, frame: seq<int>, flat: Flat, i: int, offset: int, value: int,
      ok: bool)
    requires Shape(s) && Shape(t) && Shows(s, limit, frame, flat) && 1 <= i < TASKS && 0 <= offset < TASK_SIZE
    requires OnlyPage(s, t, PER_TASK * i + offset / FOUR_MB, offset / 4096 % 1024)
    requires 0 <= WordIndex(offset) < 1024
    requires View(t, PER_TASK * i + offset / FOUR_MB, offset / 4096 % 1024) ==
      if ok then Some(Stored(View(s, PER_TASK * i + offset / FOUR_MB, offset / 4096 % 1024), WordIndex(offset), value))
      else View(s, PER_TASK * i + offset / FOUR_MB, offset / 4096 % 1024)
    ensures Shows(t, limit, frame, LaidIf(flat, i, offset, value, ok))
  {
    ViewAt(s, limit, frame, flat, i, offset);
    PageShows(s, t, limit, frame, flat, LaidIf(flat, i, offset, value, ok), i, offset);
  }

  lemma ViewAt(s: Mem, limit: seq<int>, frame: seq<int>, flat: Flat, i: int, offset: int)
    requires Shape(s) && Shows(s, limit, frame, flat) && 1 <= i < TASKS && 0 <= offset < TASK_SIZE
    ensures View(s, PER_TASK * i + offset / FOUR_MB, offset / 4096 % 1024) == Look(flat.spaces[i], PageOf(offset))
  {
    var d, e := PER_TASK * i + offset / FOUR_MB, offset / 4096 % 1024;
    assert InScope(d, e) && d / PER_TASK == i && d % PER_TASK == offset / FOUR_MB;
  }

  lemma ShareShows(s: Mem, t: Mem, limit: seq<int>, frame: seq<int>, flat: Flat, i: int, from: int, offset: int,
      ok: bool)
    requires Shape(s) && Shape(t) && Shows(s, limit, frame, flat) && InDomain(flat, Share(i, from, offset))
      && offset < TASK_SIZE
    requires OnlyPage(s, t, PER_TASK * i + offset / FOUR_MB, offset / 4096 % 1024)
    requires View(t, PER_TASK * i + offset / FOUR_MB, offset / 4096 % 1024) ==
      if ok then View(s, PER_TASK * from + offset / FOUR_MB, offset / 4096 % 1024) else None
    requires ok ==> View(s, PER_TASK * from + offset / FOUR_MB, offset / 4096 % 1024) != None
    ensures Shows(t, limit, frame, FlatStep(flat, Share(i, from, offset), One(ok)))
  {
    ViewAt(s, limit, frame, flat, i, offset);
    ViewAt(s, limit, frame, flat, from, offset);
    PageShows(s, t, limit, frame, flat, FlatStep(flat, Share(i, from, offset), One(ok)), i, offset);
  }

  /** The page of task `from` at `offset` is there, clean, and above LOW_MEM. */
  ghost predicate Shareable(m: Mem, from: int, offset: int)
    requires Shape(m)
  {
    var d, e := PER_TASK * from + offset / FOUR_MB, offset / 4096 % 1024;
    Mapped(m, d, e) && !Dirty(Entry(m, d, e)) && LOW <= FrameOf(Entry(m, d, e))
  }

  /** One task takes over, read-only, a page that another has at the same offset. */
  method ShareAt(k: Tasks, i: int, from: int, offset: int) returns (ok: bool)
    requires k.Valid() && 1 <= i < TASKS && 1 <= from < TASKS && i != from && Live(k.frame[..], i)
      && 0 <= offset < k.limit[i]
    requires !Mapped(k.m.Snap(), PER_TASK * i + offset / FOUR_MB, offset / 4096 % 1024)
    modifies k.m, k.m.dir, k.m.frames, k.m.cnt
    ensures k.Valid()
    ensures OnlyPage(old(k.m.Snap()), k.m.Snap(), PER_TASK * i + offset / FOUR_MB, offset / 4096 % 1024)
    ensures View(k.m.Snap(), PER_TASK * i + offset / FOUR_MB, offset / 4096 % 1024) ==
      if ok then View(old(k.m.Snap()), PER_TASK * from + offset / FOUR_MB, offset / 4096 % 1024) else None
    ensures ok ==> View(old(k.m.Snap()), PER_TASK * from + offset / FOUR_MB, offset / 4096 % 1024) != None
    ensures ok ==> Shareable(old(k.m.Snap()), from, offset)
    ensures !ok ==> !Shareable(old(k.m.Snap()), from, offset) || Exhausted(k.m.Snap(), k.m.role)
  {
    ghost var s, role := k.m.Snap(), k.m.role;
    var target, source := i * TASK_SIZE, from * TASK_SIZE;
    SharePlaces(i, from, offset, target, source);
    var r, _ := TryToShare(k.m, offset, source, target);
    ok := r == 1;
    SlotsAfterPage(s, role, k.m.Snap(), k.m.role, k.limit[..], k.frame[..], i, offset);
  }

  lemma SharePlaces(i: int, from: int, offset: int, target: int, source: int)
    requires 1 <= i < TASKS && 1 <= from < TASKS && i != from && 0 <= offset < TASK_SIZE
    requires target == i * TASK_SIZE && source == from * TASK_SIZE
    ensures source % TASK_SIZE == 0 && target % TASK_SIZE == 0 && source != target
    ensures UserAddress(source) && UserAddress(target)
    ensures DirOf(target + offset) == PER_TASK * i + offset / FOUR_MB
    ensures DirOf(source + offset) == PER_TASK * from + offset / FOUR_MB
    ensures TableIndex(offset) == offset / 4096 % 1024
  {
    BaseOf(i);
    BaseOf(from);
    AddressOf(i, offset);
    AddressOf(from, offset);
  }

  method DoShare(k: Tasks, i: int, from: int, offset: int, ghost flat: Flat) returns (ok: bool)
    requires k.Valid() && Shows(k.m.Snap(), k.limit[..], k.frame[..], flat) && InDomain(flat, Share(i, from, offset))
    modifies k.m, k.m.dir, k.m.frames, k.m.cnt
    ensures k.Valid() && Shows(k.m.Snap(), k.limit[..], k.frame[..], FlatStep(flat, Share(i, from, offset), One(ok)))
    ensures ok ==> Shareable(old(k.m.Snap()), from, offset)
    ensures !ok ==> !Shareable(old(k.m.Snap()), from, offset) || Exhausted(k.m.Snap(), k.m.role)
  {
    ghost var s := k.m.Snap();
    ViewAt(s, k.limit[..], k.frame[..], flat, i, offset);
    ok := ShareAt(k, i, from, offset);
    ShareShows(s, k.m.Snap(), k.limit[..], k.frame[..], flat, i, from, offset, ok);
  }

  method DoVerify(k: Tasks, i: int, offset: int, size: int, ghost flat: Flat) returns (ok: bool)
    requires k.Valid() && Shows(k.m.Snap(), k.limit[..], k.frame[..], flat) && InDomain(flat, Verify(i, offset, size))
    modifies k.m, k.m.frames, k.m.cnt
    ensures k.Valid() && Shows(k.m.Snap(), k.limit[..], k.frame[..], flat)
    ensures ok ==> MayStore(k.m.Snap(), i * TASK_SIZE + offset, i * TASK_SIZE + offset + size)
    ensures !ok ==> Exhausted(k.m.Snap(), k.m.role)
  {
    ghost var s, role := k.m.Snap(), k.m.role;
    BaseOf(i);
    ok := VerifyArea(k.m, i * TASK_SIZE, offset, size);
    SlotsSameTables(s, role, k.m.Snap(), k.m.role, k.limit[..], k.frame[..]);
  }

  lemma SlotsSameTables(s: Mem, role: map<int, Role>, t: Mem, role': map<int, Role>, limit: seq<int>, frame: seq<int>)
    requires Shape(s) && Shape(t) && |limit| == TASKS && |frame| == TASKS && SlotsOk(s, role, limit, frame)
    requires t.dir == s.dir && KeepsKernel(role, role')
    ensures SlotsOk(t, role', limit, frame)
  {
    assert forall d :: HasTable(t, d) == HasTable(s, d);
  }

  method DoEnd(k: Tasks, op: Op, ghost flat: Flat)
    requires k.Valid() && Shows(k.m.Snap(), k.limit[..], k.frame[..], flat) && InDomain(flat, op)
      && (op.Exit? || op.Exec?)
    modifies k.m, k.m.dir, k.m.frames, k.m.cnt, k.limit, k.frame
    ensures k.Valid() && Shows(k.m.Snap(), k.limit[..], k.frame[..], FlatStep(flat, op, 1))
  {
    ghost var s, limit, frame := k.m.Snap(), k.limit[..], k.frame[..];
    if op.Exit? { k.Exit(op.s); } else { k.Exec(op.s); }
    EmptiedShows(s, k.m.Snap(), limit, frame, flat, k.limit[..], k.frame[..], FlatStep(flat, op, 1), op.s);
  }

  lemma LimitOk(m: Mem, role: map<int, Role>, limit: seq<int>, frame: seq<int>, i: int)
    requires Shape(m) && |limit| == TASKS && |frame| == TASKS && SlotsOk(m, role, limit, frame) && 0 <= i < TASKS
    ensures 0 <= limit[i] <= TASK_SIZE
  {
  }

  /** The same for a word that the kernel stores into a verified area. */
  method StoreVerified(k: Tasks, i: int, offset: int, value: int, ghost lo: int, ghost hi: int) returns (ok: bool)
    requires k.Valid() && 1 <= i < TASKS && Live(k.frame[..], i) && 0 <= offset < k.limit[i]
    requires TASK_SIZE <= lo <= i * TASK_SIZE + offset < hi <= 64 * TASK_SIZE && MayStore(k.m.Snap(), lo, hi)
    modifies k.m, k.m.dir, k.m.frames, k.m.cnt
    ensures k.Valid()
    ensures OnlyPage(old(k.m.Snap()), k.m.Snap(), PER_TASK * i + offset / FOUR_MB, offset / 4096 % 1024)
    ensures 0 <= WordIndex(offset) < 1024
    ensures View(k.m.Snap(), PER_TASK * i + offset / FOUR_MB, offset / 4096 % 1024) ==
      if ok then Some(Stored(View(old(k.m.Snap()), PER_TASK * i + offset / FOUR_MB, offset / 4096 % 1024),
        WordIndex(offset), value))
      else View(old(k.m.Snap()), PER_TASK * i + offset / FOUR_MB, offset / 4096 % 1024)
    ensures MayStore(k.m.Snap(), lo, hi)
    ensures !ok ==> Exhausted(k.m.Snap(), k.m.role)
  {
    hide TablesOk, EntriesOk, CountsOk, BootOk, SlotsOk, OnlyPage, Exhausted, KeepsKernel, MayStore;
    hide View, Stored, DirOf, TableIndex;
    LimitOk(k.m.Snap(), k.m.role, k.limit[..], k.frame[..], i);
    ghost var s, role := k.m.Snap(), k.m.role;
    AddressOf(i, offset);
    ok := StoreKernel(k.m, i * TASK_SIZE + offset, value, lo, hi);
    SlotsAfterPage(s, role, k.m.Snap(), k.m.role, k.limit[..], k.frame[..], i, offset);
  }

  /** The kernel writes words into a task's memory: verify_area first, then the stores, which do not look
      at the writable bit. */
  method DoKernelWrite(k: Tasks, i: int, offset: int, words: seq<int>, ghost flat: Flat) returns (took: nat)
    requires k.Valid() && Shows(k.m.Snap(), k.limit[..], k.frame[..], flat)
      && InDomain(flat, KernelWrite(i, offset, words))
    modifies k.m, k.m.dir, k.m.frames, k.m.cnt
    ensures k.Valid() && took <= |words|
    ensures Shows(k.m.Snap(), k.limit[..], k.frame[..], FlatStep(flat, KernelWrite(i, offset, words), took))
    ensures took < |words| ==> Exhausted(k.m.Snap(), k.m.role)
  {
    assert k.limit[i] <= TASK_SIZE && Live(k.frame[..], i);
    BaseOf(i);
    var ok := DoVerify(k, i, offset, 4 * |words|, flat);
    if !ok { return 0; }
    took := StoreWords(k, i, offset, words, flat);
  }

  method StoreWords(k: Tasks, i: int, offset: int, words: seq<int>, ghost flat: Flat) returns (took: nat)
    requires k.Valid() && Shows(k.m.Snap(), k.limit[..], k.frame[..], flat)
    requires 1 <= i < TASKS && Live(k.frame[..], i) && 0 <= offset && offset + 4 * |words| <= k.limit[i]
    requires MayStore(k.m.Snap(), i * TASK_SIZE + offset, i * TASK_SIZE + offset + 4 * |words|)
    modifies k.m, k.m.dir, k.m.frames, k.m.cnt
    ensures k.Valid() && took <= |words|
    ensures Shows(k.m.Snap(), k.limit[..], k.frame[..], AllLaid(flat, i, offset, words[..took]))
    ensures took < |words| ==> Exhausted(k.m.Snap(), k.m.role)
  {
    ghost var lo, hi := i * TASK_SIZE + offset, i * TASK_SIZE + offset + 4 * |words|;
    hide TablesOk, EntriesOk, CountsOk, BootOk, SlotsOk, OnlyPage, Exhausted, KeepsKernel, MayStore, AllLaid, Laid;
    LimitOk(k.m.Snap(), k.m.role, k.limit[..], k.frame[..], i);
    assert AllLaid(flat, i, offset, words[..0]) == flat by { NoWords(flat, i, offset, words); }
    BaseOf(i);
    took := 0;
    while took < |words|
      invariant took <= |words| && k.Valid()
      invariant Shows(k.m.Snap(), k.limit[..], k.frame[..], AllLaid(flat, i, offset, words[..took]))
      invariant MayStore(k.m.Snap(), lo, hi)
    {
      hide Shows;
      ghost var s, now := k.m.Snap(), AllLaid(flat, i, offset, words[..took]);
      var ok := StoreVerified(k, i, offset + 4 * took, words[took], lo, hi);
      StoreShows(s, k.m.Snap(), k.limit[..], k.frame[..], now, i, offset + 4 * took, words[took], ok);
      if !ok { return; }
      OneMore(flat, i, offset, words, took);
      took := took + 1;
    }
  }

  lemma NoWords(flat: Flat, s: int, offset: int, words: seq<int>)
    requires WfFlat(flat) && 0 <= s < TASKS
    ensures AllLaid(flat, s, offset, words[..0]) == flat
  {
  }

  lemma OneMore(flat: Flat, s: int, offset: int, words: seq<int>, n: nat)
    requires WfFlat(flat) && 0 <= s < TASKS && n < |words|
    ensures AllLaid(flat, s, offset, words[..n + 1]) ==
      Laid(AllLaid(flat, s, offset, words[..n]), s, offset + 4 * n, words[n])
  {
    assert words[..n + 1][..n] == words[..n];
  }

  // ------------------------------------------------------------------- runs

  datatype State = State(m: Mem, role: map<int, Role>, limit: seq<int>, frame: seq<int>)

  ghost function Now(k: Tasks): State
    reads k, k.m, k.m.dir, k.m.frames, k.m.cnt, k.limit, k.frame
  {
    State(k.m.Snap(), k.m.role, k.limit[..], k.frame[..])
  }

  ghost predicate Sees(a: State, flat: Flat) { Inv(a.m, a.role) && Shows(a.m, a.limit, a.frame, flat) }

  /** Why an operation did not take effect in full. */
  ghost predicate Refused(a: State, op: Op, b: State)
    requires Shape(a.m)
  {
    match op
    case Fork(_, _) => |FreeFrames(a.m, a.role)| <= 1 + PER_TASK
    case Share(_, from, offset) => !Shareable(a.m, from, offset) || Exhausted(b.m, b.role)
    case Exec(_) => false
    case Exit(_) => false
    case _ => Exhausted(b.m, b.role)
  }

  /** An operation from `a` to `b` did to the spaces what it should, and all of it unless frames ran out;
      a page is shared only if it may be. */
  ghost predicate Correct(a: State, op: Op, took: nat, b: State, flat: Flat)
    requires took <= Full(op)
  {
    && Sees(a, flat) && Sees(b, FlatStep(flat, op, took))
    && (took < Full(op) ==> Refused(a, op, b))
    && (op.Share? && took > 0 ==> Shareable(a.m, op.from, op.offset))
  }

  method Execute(k: Tasks, op: Op, ghost flat: Flat) returns (took: nat)
    requires k.Valid() && Shows(k.m.Snap(), k.limit[..], k.frame[..], flat) && InDomain(flat, op)
    modifies k.m, k.m.dir, k.m.frames, k.m.cnt, k.limit, k.frame
    ensures k.Valid() && took <= Full(op) && Correct(old(Now(k)), op, took, Now(k), flat)
    ensures Sees(Now(k), FlatStep(flat, op, took))
  {
    hide TablesOk, EntriesOk, CountsOk, BootOk, Exhausted, Shareable, AllLaid, Laid;
    match op {
      case Fork(p, nr) =>
        var ok := DoFork(k, p, nr, flat);
        took := One(ok);
      case Store(i, offset, value) =>
        var ok := DoStore(k, i, offset, value, flat);
        took := One(ok);
      case Share(i, from, offset) =>
        var ok := DoShare(k, i, from, offset, flat);
        took := One(ok);
      case Verify(i, offset, size) =>
        var ok := DoVerify(k, i, offset, size, flat);
        took := One(ok);
      case KernelWrite(i, offset, words) => took := DoKernelWrite(k, i, offset, words, flat);
      case Exec(_) => DoEnd(k, op, flat); took := 1;
      case Exit(_) => DoEnd(k, op, flat); took := 1;
    }
  }

  /** Every step of a run did what it should. */
  ghost predicate Traced(trace: seq<State>, ops: seq<Op>, tooks: seq<nat>, flat: Flat) {
    && WfFlat(flat) && Fitting(ops, tooks) && |trace| == |ops| + 1
    && forall i :: 0 <= i < |ops| ==>
         Correct(trace[i], ops[i], tooks[i], trace[i + 1], FlatRun(flat, ops[..i], tooks[..i]))
  }

  lemma TraceGrows(trace: seq<State>, ops: seq<Op>, tooks: seq<nat>, flat: Flat, op: Op, took: nat, b: State)
    requires Traced(trace, ops, tooks, flat) && took <= Full(op)
    requires Correct(trace[|ops|], op, took, b, FlatRun(flat, ops, tooks))
    ensures Traced(trace + [b], ops + [op], tooks + [took], flat)
    ensures FlatRun(flat, ops + [op], tooks + [took]) == FlatStep(FlatRun(flat, ops, tooks), op, took)
  {
    hide Correct, FlatStep;
    var ops', tooks', trace' := ops + [op], tooks + [took], trace + [b];
    assert ops'[..|ops|] == ops && tooks'[..|ops|] == tooks;
    forall i | 0 <= i < |ops'|
      ensures Correct(trace'[i], ops'[i], tooks'[i], trace'[i + 1], FlatRun(flat, ops'[..i], tooks'[..i]))
    {
      if i < |ops| { assert ops'[..i] == ops[..i] && tooks'[..i] == tooks[..i]; }
    }
  }

  /** Any run of forks, stores, kernel writes, shared pages, execs and exits, of any tasks in any order,
      shows every task after every step what the same run shows on separate spaces.  It stops at an
      operation that no caller of the source would make. */
  method Run(k: Tasks, ops: seq<Op>, ghost flat: Flat) returns (tooks: seq<nat>, ghost trace: seq<State>)
    requires k.Valid() && Shows(k.m.Snap(), k.limit[..], k.frame[..], flat)
    modifies k.m, k.m.dir, k.m.frames, k.m.cnt, k.limit, k.frame
    ensures k.Valid() && |tooks| <= |ops| && Traced(trace, ops[..|tooks|], tooks, flat)
    ensures trace[0] == old(Now(k)) && trace[|tooks|] == Now(k)
    ensures Sees(Now(k), FlatRun(flat, ops[..|tooks|], tooks))
    ensures |tooks| < |ops| ==> !InDomain(FlatRun(flat, ops[..|tooks|], tooks), ops[|tooks|])
    ensures forall s :: 0 <= s < TASKS && LeavesAlone(ops[..|tooks|], s) ==> SameSlot(old(k.m.Snap()), k.m.Snap(), s)
  {
    tooks, trace := [], [Now(k)];
    assert Sees(Now(k), flat);
    while |tooks| < |ops|
      invariant |tooks| <= |ops| && k.Valid() && Traced(trace, ops[..|tooks|], tooks, flat)
      invariant trace[0] == old(Now(k)) && trace[|tooks|] == Now(k)
      invariant Sees(Now(k), FlatRun(flat, ops[..|tooks|], tooks))
    {
      hide Inv, Shows, FlatStep, Correct, Traced, InDomain, Tasks.Valid;
      ghost var n, now := |tooks|, FlatRun(flat, ops[..|tooks|], tooks);
      var fits := Fits(k, ops[|tooks|], now);
      if !fits { break; }
      var took := Execute(k, ops[|tooks|], now);
      TraceGrows(trace, ops[..n], tooks, flat, ops[n], took, Now(k));
      assert ops[..n + 1] == ops[..n] + [ops[n]];
      tooks, trace := tooks + [took], trace + [Now(k)];
    }
    RunLeavesAlone(trace[0], flat, ops[..|tooks|], tooks, Now(k));
  }

  lemma RunLeavesAlone(a: State, flat: Flat, ops: seq<Op>, tooks: seq<nat>, b: State)
    requires Fitting(ops, tooks) && Sees(a, flat) && Sees(b, FlatRun(flat, ops, tooks))
    ensures forall s :: 0 <= s < TASKS && LeavesAlone(ops, s) ==> SameSlot(a.m, b.m, s)
  {
    hide TablesOk, EntriesOk, CountsOk, BootOk, Shows, LeavesAlone, SameSlot;
    forall s | 0 <= s < TASKS && LeavesAlone(ops, s)
      ensures SameSlot(a.m, b.m, s)
    {
      OthersAreInvisible(a, flat, ops, tooks, b, s);
    }
  }

  /** The test whether an operation makes sense, on the real tables. */
  method Fits(k: Tasks, op: Op, ghost flat: Flat) returns (fits: bool)
    requires k.Valid() && Shows(k.m.Snap(), k.limit[..], k.frame[..], flat)
    ensures fits == InDomain(flat, op)
  {
    match op {
      case Fork(p, nr) =>
        fits := 0 <= p < TASKS && 1 <= nr < TASKS && p != nr && (p == 0 || k.frame[p] != 0) && k.frame[nr] == 0;
      case Store(s, offset, _) =>
        fits := 1 <= s < TASKS && k.frame[s] != 0 && 0 <= offset < k.limit[s];
      case Verify(s, offset, size) =>
        fits := 1 <= s < TASKS && k.frame[s] != 0 && 0 <= offset && 0 <= size && offset + size <= TASK_SIZE;
      case KernelWrite(s, offset, words) =>
        fits := 1 <= s < TASKS && k.frame[s] != 0 && 0 <= offset && offset + 4 * |words| <= k.limit[s];
      case Share(s, from, offset) =>
        fits := 1 <= s < TASKS && 1 <= from < TASKS && k.frame[s] != 0 && k.frame[from] != 0 && s != from
          && 0 <= offset < k.limit[s];
        if fits {
          AddressOf(s, offset);
          ghost var m, d, e := k.m.Snap(), PER_TASK * s + offset / FOUR_MB, offset / 4096 % 1024;
          assert InScope(d, e);
          var w := k.m.dir[PER_TASK * s + offset / FOUR_MB];
          if w % 2 == 1 {
            DistinctTables(m, k.m.role, d, d);
            var word := k.m.frames[w / 4096 - LOW][offset / 4096 % 1024];
            assert word == Entry(m, d, e);
            fits := word % 2 != 1;
          }
        }
      case Exec(s) => fits := 1 <= s < TASKS && k.frame[s] != 0;
      case Exit(s) => fits := 1 <= s < TASKS && k.frame[s] != 0;
    }
  }

  // -------------------------------------------- consequences on separate spaces

  /** The slot whose space an operation may change. */
  function Target(op: Op): int {
    match op
    case Fork(_, nr) => nr
    case Store(s, _, _) => s
    case Verify(s, _, _) => s
    case KernelWrite(s, _, _) => s
    case Share(s, _, _) => s
    case Exec(s) => s
    case Exit(s) => s
  }

  predicate LeavesAlone(ops: seq<Op>, s: int) { forall i :: 0 <= i < |ops| ==> Target(ops[i]) != s }

  /** Task `s` sees the same in both memories. */
  ghost predicate SameSlot(m: Mem, t: Mem, s: int)
    requires Shape(m) && Shape(t)
  {
    forall d, e :: InScope(d, e) && d / PER_TASK == s ==> View(t, d, e) == View(m, d, e)
  }

  lemma {:induction false} SpaceUntouched(flat: Flat, ops: seq<Op>, tooks: seq<nat>, s: int)
    requires WfFlat(flat) && Fitting(ops, tooks) && 0 <= s < TASKS && LeavesAlone(ops, s)
    ensures FlatRun(flat, ops, tooks).spaces[s] == flat.spaces[s]
    decreases |ops|
  {
    if ops != [] {
      var n := |ops| - 1;
      SpaceUntouched(flat, ops[..n], tooks[..n], s);
      assert Target(ops[n]) != s;
    }
  }

  /** No run of operations of other tasks changes what a task sees in memory. */
  lemma OthersAreInvisible(a: State, flat: Flat, ops: seq<Op>, tooks: seq<nat>, b: State, s: int)
    requires Fitting(ops, tooks) && Sees(a, flat) && Sees(b, FlatRun(flat, ops, tooks))
    requires 0 <= s < TASKS && LeavesAlone(ops, s)
    ensures SameSlot(a.m, b.m, s)
  {
    SpaceUntouched(flat, ops, tooks, s);
  }

  /** What task `s` sees at page `e` of its directory entry `i`, as far as a child would copy it. */
  ghost function Image(m: Mem, s: int, i: int, e: int): Option<Frame>
    requires Shape(m)
  {
    if InScope(PER_TASK * s + i, e) then View(m, PER_TASK * s + i, e) else None
  }

  lemma ImageIsSpace(a: State, flat: Flat, s: int, i: int, e: int)
    requires Sees(a, flat) && 0 <= s < TASKS && 0 <= i < PER_TASK && 0 <= e < 1024
    ensures Image(a.m, s, i, e) == Look(flat.spaces[s], (i, e))
  {
    hide Inv;
    var d := PER_TASK * s + i;
    assert d / PER_TASK == s && d % PER_TASK == i;
  }

  /** After a fork, parent and child go separate ways: whatever others do, the child sees in memory the
      pages that its parent saw at the moment of the fork. */
  lemma ChildKeepsForkImage(a: State, flat: Flat, p: int, nr: int, ops: seq<Op>, tooks: seq<nat>, b: State)
    requires Sees(a, flat) && InDomain(flat, Fork(p, nr)) && Fitting(ops, tooks)
    requires Sees(b, FlatRun(FlatStep(flat, Fork(p, nr), 1), ops, tooks)) && LeavesAlone(ops, nr)
    ensures forall i, e :: 0 <= i < PER_TASK && 0 <= e < 1024 ==> Image(b.m, nr, i, e) == Image(a.m, p, i, e)
  {
    SpaceUntouched(FlatStep(flat, Fork(p, nr), 1), ops, tooks, nr);
    var now := FlatRun(FlatStep(flat, Fork(p, nr), 1), ops, tooks);
    assert now.spaces[nr] == flat.spaces[p];
    hide Inv, Shows, Image, FlatRun;
    forall i, e | 0 <= i < PER_TASK && 0 <= e < 1024
      ensures Image(b.m, nr, i, e) == Image(a.m, p, i, e)
    {
      ImageIsSpace(a, flat, p, i, e);
      ImageIsSpace(b, now, nr, i, e);
    }
  }
}
