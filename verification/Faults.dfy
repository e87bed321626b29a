/** Page faults, sharing by request, and the stores of user programs (mm/memory.c, kernel/fork.c). */
module Faults {
  import opened Collections
  import opened Paging
  import opened Memories
  import opened CopyOnWrite

  /** The word within a page. */
  function WordIndex(address: int): int { address % 4096 / 4 }

  predicate UserAddress(address: int) { TASK_SIZE <= address < 64 * TASK_SIZE }

  lemma AddressParts(address: int)
    requires UserAddress(address)
    ensures PER_TASK <= DirOf(address) < 1024 && 0 <= TableIndex(address) < 1024 && 0 <= WordIndex(address) < 1024
  {
  }

  /** An address is ten bits of directory entry, ten of table entry, ten of word and two of byte. */
  lemma AddressBits(address: int)
    requires UserAddress(address)
    ensures 0 <= TableIndex(address) < 1024 && 0 <= WordIndex(address) < 1024
    ensures address == 0x40_0000 * DirOf(address) + 4096 * TableIndex(address) + 4 * WordIndex(address) + address % 4
  {
    var page := address / 4096;
    assert address == 4096 * page + address % 4096;
    PageBits(page);
    assert address / 0x40_0000 == page / 1024;
    WordBits(address % 4096, address);
  }

  lemma PageBits(page: int)
    ensures page == 1024 * (page / 1024) + page % 1024
  {
  }

  lemma WordBits(r: int, address: int)
    requires r == address % 4096
    ensures r == 4 * (r / 4) + address % 4 && 0 <= r / 4 < 1024
  {
  }

  /** From `s` to `t` only page `e` of directory entry `d` may look different; an empty
      directory entry `d` may have got a table. */
  ghost predicate OnlyPage(s: Mem, t: Mem, d: int, e: int)
    requires Shape(s) && Shape(t)
  {
    && SameConfig(s, t)
    && (forall d' :: 0 <= d' < 1024 && (d' != d || HasTable(s, d')) ==> t.dir[d'] == s.dir[d'])
    && forall d', e' :: InScope(d', e') && (d' != d || e' != e) ==>
         Mapping(t, d', e') == Mapping(s, d', e') && View(t, d', e') == View(s, d', e')
  }

  lemma ButIsOnly(s: Mem, t: Mem, d: int, e: int)
    requires Shape(s) && Shape(t) && QuietBut(s, t, d, e)
    ensures OnlyPage(s, t, d, e)
  {
  }

  lemma OnlyTrans(s: Mem, t: Mem, u: Mem, d: int, e: int)
    requires Shape(s) && Shape(t) && Shape(u) && OnlyPage(s, t, d, e) && OnlyPage(t, u, d, e)
    ensures OnlyPage(s, u, d, e)
  {
    forall d' | 0 <= d' < 1024 && (d' != d || HasTable(s, d')) ensures u.dir[d'] == s.dir[d'] {
      assert t.dir[d'] == s.dir[d'];
    }
  }

  /** No task sees any difference. */
  ghost predicate SameViews(s: Mem, t: Mem)
    requires Shape(s) && Shape(t)
  {
    && SameConfig(s, t) && t.dir == s.dir
    && forall d, e :: InScope(d, e) ==> View(t, d, e) == View(s, d, e)
  }

  /** Before the kernel stores at `address` it makes the page there writable. */
  method WriteVerify(m: Memory, address: int) returns (ok: bool)
    requires m.Valid() && UserAddress(address)
    modifies m, m.frames, m.cnt
    ensures KeepsKernel(old(m.role), m.role)
    ensures m.Valid() && SameViews(old(m.Snap()), m.Snap())
    ensures QuietBut(old(m.Snap()), m.Snap(), DirOf(address), TableIndex(address))
    ensures EntriesBut(old(m.Snap()), m.Snap(), DirOf(address), TableIndex(address))
    ensures ok && Mapped(m.Snap(), DirOf(address), TableIndex(address)) ==>
      Writable(Entry(m.Snap(), DirOf(address), TableIndex(address)))
    ensures !ok ==> forall p :: Managed(m.Snap(), p) ==> p in m.role
  {
    AddressParts(address);
    var d, e := DirOf(address), TableIndex(address);
    ghost var s := m.Snap();
    if m.dir[d] % 2 != 1 { return true; }
    assert TableOf(s, d) in m.role;
    var w := m.frames[m.dir[d] / 4096 - LOW][e];
    assert w == Entry(s, d, e);
    if w % 4 == 1 {
      assert Present(w) by { Split2(w / 4 * 2, 1); }
      ok := UnWpPage(m, d, e);
      ButSame(s, m.Snap(), d, e);
    } else {
      PresentBits(w);
      ok := true;
    }
  }

  lemma PresentBits(w: int)
    ensures w % 4 == 1 <==> Present(w) && !Writable(w)
  {
    var q, r := w / 4, w % 4;
    assert w == 4 * q + r;
    if r < 2 { Split2(2 * q, r); assert w == 2 * (2 * q) + r; }
  }

  lemma ButSame(s: Mem, t: Mem, d: int, e: int)
    requires Shape(s) && Shape(t) && QuietBut(s, t, d, e) && View(t, d, e) == View(s, d, e)
    ensures SameViews(s, t)
  {
  }

  /** Makes writable every page that `size` bytes at offset `address` of the task at `base` touch. */
  method VerifyArea(m: Memory, base: int, address: int, size: int) returns (ok: bool)
    requires m.Valid() && base % TASK_SIZE == 0 && TASK_SIZE <= base && 0 <= address
    requires base + address + size <= base + TASK_SIZE <= 64 * TASK_SIZE && size >= 0
    modifies m, m.frames, m.cnt
    ensures KeepsKernel(old(m.role), m.role)
    ensures m.Valid() && SameViews(old(m.Snap()), m.Snap())
    ensures ok ==> MayStore(m.Snap(), base + address, base + address + size)
    ensures !ok ==> forall p :: Managed(m.Snap(), p) ==> p in m.role
  {
    ghost var s := m.Snap();
    var left := size + address % 4096;
    var start := address / 4096 * 4096 + base;
    ghost var first := start;
    while left > 0
      invariant start % 4096 == 0 && first <= start && start + left == base + address + size
      invariant m.Valid() && SameViews(s, m.Snap()) && KeepsKernel(old(m.role), m.role)
      invariant MayStore(m.Snap(), first, start)
      decreases left
    {
      ghost var t := m.Snap();
      left := left - 4096;
      ok := WriteVerify(m, start);
      if !ok { return; }
      VerifiedUpTo(t, m.Snap(), first, start);
      start := start + 4096;
    }
    ok := true;
  }

  lemma VerifiedUpTo(t: Mem, u: Mem, first: int, start: int)
    requires Shape(t) && Shape(u) && TASK_SIZE <= first <= start < 64 * TASK_SIZE && start % 4096 == 0
    requires QuietBut(t, u, DirOf(start), TableIndex(start))
    requires EntriesBut(t, u, DirOf(start), TableIndex(start))
    requires Mapped(u, DirOf(start), TableIndex(start)) ==> Writable(Entry(u, DirOf(start), TableIndex(start)))
    requires MayStore(t, first, start)
    ensures MayStore(u, first, start + 4096)
  {
    forall a | first <= a < start + 4096 && Mapped(u, DirOf(a), TableIndex(a))
      ensures Writable(Entry(u, DirOf(a), TableIndex(a)))
    {
      AddressParts(a);
      if a >= start {
        SamePage(start, a);
      } else if DirOf(a) != DirOf(start) || TableIndex(a) != TableIndex(start) {
        SameWord(t, u, DirOf(start), TableIndex(start), DirOf(a), TableIndex(a));
      }
    }
  }

  lemma SamePage(start: int, a: int)
    requires start % 4096 == 0 && start <= a < start + 4096
    ensures DirOf(a) == DirOf(start) && TableIndex(a) == TableIndex(start)
  {
    var q := start / 4096;
    assert a / 4096 == q;
    assert a / FOUR_MB == a / 4096 / 1024 && start / FOUR_MB == q / 1024;
  }

  lemma SameWord(s: Mem, t: Mem, d: int, e: int, d': int, e': int)
    requires Shape(s) && Shape(t) && InScope(d', e') && (d' != d || e' != e) && EntriesBut(s, t, d, e)
    requires Mapped(t, d', e') && Mapping(t, d', e') == Mapping(s, d', e')
    ensures Mapped(s, d', e') && Entry(t, d', e') == Entry(s, d', e')
  {
  }

  /** Maps the kernel's frame `page` at an empty page of a task, making a page table if
      there is none; `flags` is 7, or 0x47 for a page that is born dirty. */
  method PutPage(m: Memory, page: int, address: int, flags: int) returns (r: int)
    requires m.Valid() && UserAddress(address) && (flags == 7 || flags == 0x47)
    requires page > 0 && page % 4096 == 0 && page / 4096 in m.role && m.role[page / 4096] == Kernel
    requires !Mapped(m.Snap(), DirOf(address), TableIndex(address))
    modifies m, m.dir, m.frames, m.cnt
    ensures forall q :: q in old(m.role) && old(m.role)[q] == Kernel && q != page / 4096 ==>
      q in m.role && m.role[q] == Kernel
    ensures r == 0 ==> m.role == old(m.role)
    ensures m.Valid() && (r == page || r == 0)
    ensures OnlyPage(old(m.Snap()), m.Snap(), DirOf(address), TableIndex(address))
    ensures EntriesBut(old(m.Snap()), m.Snap(), DirOf(address), TableIndex(address))
    ensures r != 0 ==>
      && Mapping(m.Snap(), DirOf(address), TableIndex(address)) == Some(page / 4096)
      && View(m.Snap(), DirOf(address), TableIndex(address)) == Some(FrameAt(old(m.Snap()), page / 4096))
      && Writable(Entry(m.Snap(), DirOf(address), TableIndex(address)))
      && Entry(m.Snap(), DirOf(address), TableIndex(address)) == page + flags
    ensures r == 0 ==>
      m.Snap() == old(m.Snap()) && m.role == old(m.role) && forall p :: Managed(m.Snap(), p) ==> p in m.role
  {
    hide TablesOk, EntriesOk, CountsOk, BootOk, View, Mapping, EntriesBut, EntriesKept, OnlyPage, QuietBut;
    AddressParts(address);
    var d, e := DirOf(address), TableIndex(address);
    ghost var s := m.Snap();
    Untouched(s, d, e);
    if m.dir[d] % 2 != 1 {
      var ok := NewTable(m, d);
      if !ok { return 0; }
      TableIsOnly(s, m.Snap(), d, e);
    }
    ghost var t := m.Snap();
    assert page + flags == page / 4096 * 4096 + flags;
    Plug(m, d, e, page + flags, page / 4096, flags);
    ButIsOnly(t, m.Snap(), d, e);
    OnlyTrans(s, t, m.Snap(), d, e);
    KeptThenBut(s, t, m.Snap(), d, e);
    r := page;
  }

  lemma Untouched(s: Mem, d: int, e: int)
    requires Shape(s)
    ensures OnlyPage(s, s, d, e) && EntriesBut(s, s, d, e)
  {
  }

  lemma KeptThenBut(s: Mem, t: Mem, u: Mem, d: int, e: int)
    requires Shape(s) && Shape(t) && Shape(u) && EntriesKept(s, t) && EntriesBut(t, u, d, e)
    requires forall d' :: 0 <= d' < 1024 && HasTable(s, d') ==> HasTable(t, d')
    ensures EntriesBut(s, u, d, e)
  {
  }

  method Plug(m: Memory, d: int, e: int, w: int, ghost p: int, ghost flags: int)
    requires m.Valid() && Settable(m.Snap(), d, e) && !Mapped(m.Snap(), d, e) && (flags == 7 || flags == 0x47)
    requires p in m.role && m.role[p] == Kernel && w == p * 4096 + flags
    modifies m, m.frames
    ensures m.role == old(m.role)[p := Page(d % PER_TASK, e)]
    ensures m.Valid()
    ensures QuietBut(old(m.Snap()), m.Snap(), d, e) && EntriesBut(old(m.Snap()), m.Snap(), d, e)
    ensures Mapping(m.Snap(), d, e) == Some(p) && View(m.Snap(), d, e) == Some(FrameAt(old(m.Snap()), p))
    ensures Writable(Entry(m.Snap(), d, e)) && Entry(m.Snap(), d, e) == w
  {
    ghost var s, role' := m.Snap(), m.role[p := Page(d % PER_TASK, e)];
    ghost var t := PlugWord(s, m.role, d, e, p, flags, w);
    SetEntryReads(s, d, e, w);
    m.StoreWord(d, e, w);
    m.role := role';
    assert m.Snap() == t;
  }

  lemma SetEntryReads(s: Mem, d: int, e: int, w: int)
    requires Shape(s) && Settable(s, d, e) && LOW <= TableOf(s, d) < FRAMES
    ensures Shape(SetEntry(s, d, e, w)) && Entry(SetEntry(s, d, e, w), d, e) == w
  {
  }

  lemma PlugWord(s: Mem, role: map<int, Role>, d: int, e: int, p: int, flags: int, w: int) returns (t: Mem)
    requires Inv(s, role) && Settable(s, d, e) && !Mapped(s, d, e) && (flags == 7 || flags == 0x47)
    requires p in role && role[p] == Kernel && w == p * 4096 + flags
    ensures LOW <= TableOf(s, d) < FRAMES && t == SetEntry(s, d, e, w)
    ensures Inv(t, role[p := Page(d % PER_TASK, e)]) && QuietBut(s, t, d, e) && EntriesBut(s, t, d, e)
    ensures Mapping(t, d, e) == Some(p) && View(t, d, e) == Some(FrameAt(s, p)) && Writable(Entry(t, d, e))
  {
    hide TablesOk, EntriesOk, CountsOk, BootOk, QuietBut, EntriesBut, View, Mapping, Writable, SetEntry;
    PlugWritable(s, role, d, e, p, flags);
    t := SetEntry(s, d, e, w);
  }

  lemma PlugWritable(s: Mem, role: map<int, Role>, d: int, e: int, p: int, flags: int)
    requires Inv(s, role) && Settable(s, d, e) && !Mapped(s, d, e) && (flags == 7 || flags == 0x47)
    requires p in role && role[p] == Kernel
    ensures LOW <= TableOf(s, d) < FRAMES
    ensures var t := SetEntry(s, d, e, p * 4096 + flags);
      && Inv(t, role[p := Page(d % PER_TASK, e)]) && QuietBut(s, t, d, e) && EntriesBut(s, t, d, e)
      && Mapping(t, d, e) == Some(p) && View(t, d, e) == Some(FrameAt(s, p)) && Writable(Entry(t, d, e))
  {
    PlugPage(s, role, d, e, p, flags);
    SetEntryQuiet(s, role, d, e, p * 4096 + flags);
    FreshWordLaws(p, flags);
  }

  lemma TableIsOnly(s: Mem, t: Mem, d: int, e: int)
    requires Shape(s) && Shape(t) && PER_TASK <= d < 1024 && Quiet(s, t, d, d + 1) && !HasTable(s, d)
    requires forall e' :: 0 <= e' < 1024 ==> !Mapped(t, d, e')
    ensures OnlyPage(s, t, d, e)
  {
    forall d', e' | InScope(d', e') && d' == d
      ensures Mapping(t, d', e') == Mapping(s, d', e') && View(t, d', e') == View(s, d', e')
    {
      assert !Mapped(t, d, e');
    }
  }

  /** At most one frame is free. */
  ghost predicate Exhausted(m: Mem, role: map<int, Role>) {
    forall p, q :: Managed(m, p) && Managed(m, q) && p !in role && q !in role ==> p == q
  }

  /** Gives a task a page of zeros where it had none. */
  method GetEmptyPage(m: Memory, address: int) returns (ok: bool)
    requires m.Valid() && UserAddress(address) && !Mapped(m.Snap(), DirOf(address), TableIndex(address))
    modifies m, m.dir, m.frames, m.cnt
    ensures KeepsKernel(old(m.role), m.role)
    ensures m.Valid()
    ensures OnlyPage(old(m.Snap()), m.Snap(), DirOf(address), TableIndex(address))
    ensures EntriesBut(old(m.Snap()), m.Snap(), DirOf(address), TableIndex(address))
    ensures ok ==>
      && View(m.Snap(), DirOf(address), TableIndex(address)) == Some(ZeroFrame())
      && (forall i :: 0 <= i < 1024 ==> View(m.Snap(), DirOf(address), TableIndex(address)).value[i] == 0)
      && Writable(Entry(m.Snap(), DirOf(address), TableIndex(address)))
    ensures !ok ==> View(m.Snap(), DirOf(address), TableIndex(address)) == None && Exhausted(m.Snap(), m.role)
  {
    hide TablesOk, EntriesOk, CountsOk, BootOk, OnlyPage, EntriesBut, EntriesKept, Quiet, View, Mapping, DirOf,
      TableIndex;
    AddressParts(address);
    ghost var s, role0, d, e := m.Snap(), m.role, DirOf(address), TableIndex(address);
    assert InScope(d, e);
    var tmp := m.GetFreePage();
    ghost var u := m.Snap();
    QuietIsOnly(s, u, d, e);
    NoPage(s, d, e);
    if tmp == 0 {
      return false;
    }
    AllocatedEntries(s, role0, tmp / 4096);
    assert FrameAt(u, tmp / 4096) == ZeroFrame();
    var r := PutPage(m, tmp, address, 7);
    OnlyTrans(s, u, m.Snap(), d, e);
    KeptThenBut(s, u, m.Snap(), d, e);
    if r == 0 {
      GiveBack(m, tmp);
      GivenBack(s, u, m.Snap(), d, e);
      return false;
    }
    ok := true;
  }

  lemma NoPage(s: Mem, d: int, e: int)
    requires Shape(s) && !Mapped(s, d, e)
    ensures View(s, d, e) == None && EntriesBut(s, s, d, e)
  {
  }

  lemma AllocatedEntries(s: Mem, role: map<int, Role>, p: int)
    requires Inv(s, role) && Managed(s, p) && p !in role
    ensures EntriesKept(s, Alloc(s, p))
  {
    forall d, e | InScope(d, e) && HasTable(s, d)
      ensures Entry(Alloc(s, p), d, e) == Entry(s, d, e)
    {
      EntryKept(s, role, p, d, e);
    }
  }

  lemma GivenBack(s: Mem, u: Mem, t: Mem, d: int, e: int)
    requires Shape(s) && Shape(u) && Shape(t) && OnlyPage(s, u, d, e) && EntriesKept(s, u) && u.dir == s.dir
    requires Quiet(u, t, 0, 0) && EntriesKept(u, t) && InScope(d, e) && View(u, d, e) == View(s, d, e)
    ensures OnlyPage(s, t, d, e) && EntriesBut(s, t, d, e) && View(t, d, e) == View(s, d, e)
  {
    QuietIsOnly(u, t, d, e);
    OnlyTrans(s, u, t, d, e);
  }

  /** The frame that GetEmptyPage could not use. */
  method GiveBack(m: Memory, tmp: int)
    requires m.Valid() && tmp >= 0 && tmp / 4096 in m.role && m.role[tmp / 4096] == Kernel
    requires forall p :: Managed(m.Snap(), p) ==> p in m.role
    modifies m, m.cnt
    ensures m.Valid() && m.role == old(m.role) - {tmp / 4096}
    ensures Quiet(old(m.Snap()), m.Snap(), 0, 0) && EntriesKept(old(m.Snap()), m.Snap())
    ensures Exhausted(m.Snap(), m.role)
  {
    FreeStep(m.Snap(), m.role, tmp / 4096);
    assert Managed(m.Snap(), tmp / 4096);
    hide TablesOk, EntriesOk, BootOk;
    var freed := m.FreePage(tmp);
    m.role := m.role - {tmp / 4096};
  }

  lemma QuietIsOnly(s: Mem, t: Mem, d: int, e: int)
    requires Shape(s) && Shape(t) && Quiet(s, t, 0, 0)
    ensures OnlyPage(s, t, d, e)
    ensures InScope(d, e) ==> View(t, d, e) == View(s, d, e) && Mapping(t, d, e) == Mapping(s, d, e)
  {
  }

  /** Gives the task at `toStart` the clean page that the task at `fromStart` has at
      `address`, read-only for both.  As with `UnWpPage`, running out of frames ends
      with `ok` false, where the source goes on with frame 0. */
  method TryToShare(m: Memory, address: int, fromStart: int, toStart: int) returns (r: int, ok: bool)
    requires m.Valid() && 0 <= address < TASK_SIZE
    requires fromStart % TASK_SIZE == 0 && toStart % TASK_SIZE == 0 && fromStart != toStart
    requires UserAddress(fromStart) && UserAddress(toStart)
    requires !Mapped(m.Snap(), DirOf(toStart + address), TableIndex(address))
    modifies m, m.dir, m.frames, m.cnt
    ensures KeepsKernel(old(m.role), m.role)
    ensures m.Valid() && (r == 0 || r == 1)
    ensures OnlyPage(old(m.Snap()), m.Snap(), DirOf(toStart + address), TableIndex(address))
    ensures r == 1 ==>
      && ok
      && View(m.Snap(), DirOf(toStart + address), TableIndex(address)) ==
        View(old(m.Snap()), DirOf(fromStart + address), TableIndex(address)) != None
    ensures r == 0 ==> View(m.Snap(), DirOf(toStart + address), TableIndex(address)) == None
    ensures !ok ==> Exhausted(m.Snap(), m.role)
    ensures (r == 1 || !ok) <==>
      && Mapped(old(m.Snap()), DirOf(fromStart + address), TableIndex(address))
      && !Dirty(Entry(old(m.Snap()), DirOf(fromStart + address), TableIndex(address)))
      && LOW <= FrameOf(Entry(old(m.Snap()), DirOf(fromStart + address), TableIndex(address)))
    ensures !ok <==>
      (r == 0 && old(AllUsed(m.Snap(), m.role)) && !HasTable(old(m.Snap()), DirOf(toStart + address))
       && Mapped(old(m.Snap()), DirOf(fromStart + address), TableIndex(address))
       && !Dirty(Entry(old(m.Snap()), DirOf(fromStart + address), TableIndex(address)))
       && LOW <= FrameOf(Entry(old(m.Snap()), DirOf(fromStart + address), TableIndex(address))))
  {
    ShareParts(address, fromStart, toStart);
    var d0, d, e := address / FOUR_MB + fromStart / FOUR_MB, address / FOUR_MB + toStart / FOUR_MB, TableIndex(address);
    ghost var s := m.Snap();
    if m.dir[d0] % 2 != 1 { return 0, true; }
    DistinctTables(s, m.role, d0, d0);
    var w := m.frames[m.dir[d0] / 4096 - LOW][e];
    assert w == Entry(s, d0, e);
    if !Present(w) || Dirty(w) { return 0, true; }
    MappedIsUser(s, m.role, d0, e);
    if w / 4096 >= m.high || w / 4096 < LOW { return 0, true; }
    assert InScope(d, e) && InScope(d0, e);
    if m.dir[d] % 2 != 1 {
      var made := NewTable(m, d);
      if !made { return 0, false; }
      TableIsOnly(s, m.Snap(), d, e);
    }
    ghost var t := m.Snap();
    m.CopyEntry(d0, d, e);
    ButIsOnly(t, m.Snap(), d, e);
    OnlyTrans(s, t, m.Snap(), d, e);
    return 1, true;
  }

  lemma ShareParts(address: int, fromStart: int, toStart: int)
    requires 0 <= address < TASK_SIZE
    requires fromStart % TASK_SIZE == 0 && toStart % TASK_SIZE == 0 && fromStart != toStart
    requires UserAddress(fromStart) && UserAddress(toStart)
    ensures var d0 := address / FOUR_MB + fromStart / FOUR_MB; var d := address / FOUR_MB + toStart / FOUR_MB;
      && DirOf(fromStart + address) == d0 && DirOf(toStart + address) == d
      && PER_TASK <= d0 < 1024 && PER_TASK <= d < 1024 && d0 != d && d0 % PER_TASK == d % PER_TASK
    ensures 0 <= TableIndex(address) < 1024
  {
    var a, b := fromStart / TASK_SIZE, toStart / TASK_SIZE;
    assert fromStart == FOUR_MB * (16 * a) && toStart == FOUR_MB * (16 * b);
    assert (fromStart + address) / FOUR_MB == 16 * a + address / FOUR_MB;
    assert (toStart + address) / FOUR_MB == 16 * b + address / FOUR_MB;
  }

  /** The use count of every page frame is the number of tasks that have it. */
  ghost predicate PagesCounted(m: Mem, role: map<int, Role>)
    requires Shape(m)
  {
    forall q :: q in role && role[q].Page? && LOW <= q < FRAMES ==> Cnt(m, q) == |Users(m, q, role[q].i, role[q].e)|
  }

  /** do_no_page puts the page it read from the file at the address also when try_to_share has just mapped
      one there, since share_page answers 0 in any case.  What programs see is right, but the counts are
      exact afterwards only if nothing was there: a page shared by request has a reference too many. */
  lemma PutOverSharedIff(m: Mem, role: map<int, Role>, d: int, e: int, p: int)
    requires Inv(m, role) && Settable(m, d, e) && p in role && role[p] == Kernel
    requires Mapped(m, d, e) ==> FrameOf(Entry(m, d, e)) >= LOW
    ensures LOW <= TableOf(m, d) < FRAMES
    ensures var t := SetEntry(m, d, e, p * 4096 + 7);
      && QuietBut(m, t, d, e) && View(t, d, e) == Some(FrameAt(m, p))
      && (PagesCounted(t, role[p := Page(d % PER_TASK, e)]) <==> !Mapped(m, d, e))
  {
    hide TablesOk, EntriesOk, CountsOk, BootOk, QuietBut, PagesCounted, View, SetEntry, Mapped, Entry, TableOf;
    PutShows(m, role, d, e, p);
    if Mapped(m, d, e) {
      OneTooMany(m, role, d, e, p);
    } else {
      JustRight(m, role, d, e, p);
    }
  }

  lemma PutShows(m: Mem, role: map<int, Role>, d: int, e: int, p: int)
    requires Inv(m, role) && Settable(m, d, e) && p in role && role[p] == Kernel
    ensures LOW <= TableOf(m, d) < FRAMES
    ensures var t := SetEntry(m, d, e, p * 4096 + 7);
      Shape(t) && QuietBut(m, t, d, e) && View(t, d, e) == Some(FrameAt(m, p))
  {
    FreshWordLaws(p, 7);
    SetEntryQuiet(m, role, d, e, p * 4096 + 7);
    assert Managed(m, p);
    hide TablesOk, EntriesOk, CountsOk, BootOk, QuietBut;
  }

  lemma OneTooMany(m: Mem, role: map<int, Role>, d: int, e: int, p: int)
    requires Inv(m, role) && Settable(m, d, e) && p in role && role[p] == Kernel
    requires Mapped(m, d, e) && FrameOf(Entry(m, d, e)) >= LOW && LOW <= TableOf(m, d) < FRAMES
    ensures !PagesCounted(SetEntry(m, d, e, p * 4096 + 7), role[p := Page(d % PER_TASK, e)])
  {
    MappedIsUser(m, role, d, e);
    hide TablesOk, EntriesOk, CountsOk, BootOk, QuietBut;
    FreshWordLaws(p, 7);
    SetEntryQuiet(m, role, d, e, p * 4096 + 7);
    assert Managed(m, p);
    var t, role' := SetEntry(m, d, e, p * 4096 + 7), role[p := Page(d % PER_TASK, e)];
    var q := FrameOf(Entry(m, d, e));
    UserLeaves(m, t, d, e, q);
    assert q in role' && role'[q] == Page(d % PER_TASK, e) && Cnt(t, q) == Cnt(m, q);
  }

  lemma JustRight(m: Mem, role: map<int, Role>, d: int, e: int, p: int)
    requires Inv(m, role) && Settable(m, d, e) && p in role && role[p] == Kernel
    requires !Mapped(m, d, e) && LOW <= TableOf(m, d) < FRAMES
    ensures PagesCounted(SetEntry(m, d, e, p * 4096 + 7), role[p := Page(d % PER_TASK, e)])
  {
    hide TablesOk, EntriesOk, BootOk, QuietBut;
    PlugPage(m, role, d, e, p, 7);
    var t, role' := SetEntry(m, d, e, p * 4096 + 7), role[p := Page(d % PER_TASK, e)];
    assert forall q :: q in role' ==> CountOk(t, role', q);
  }

  function OrZero(v: Option<Frame>): Frame { if v.Some? then v.value else ZeroFrame() }

  /** What a page looks like after a word is stored into it. */
  function Stored(v: Option<Frame>, w: int, value: int): Frame
    requires 0 <= w < 1024
  {
    OrZero(v)[w := value]
  }

  /** A program stores a word: a missing page appears as zeros, a read-only page is
      separated first.  When `ok` is false memory ran out and no view has changed. */
  method StoreUser(m: Memory, address: int, value: int) returns (ok: bool)
    requires m.Valid() && UserAddress(address)
    modifies m, m.dir, m.frames, m.cnt
    ensures KeepsKernel(old(m.role), m.role)
    ensures m.Valid()
    ensures OnlyPage(old(m.Snap()), m.Snap(), DirOf(address), TableIndex(address))
    ensures 0 <= WordIndex(address) < 1024
    ensures View(m.Snap(), DirOf(address), TableIndex(address)) ==
      if ok then Some(Stored(View(old(m.Snap()), DirOf(address), TableIndex(address)), WordIndex(address), value))
      else View(old(m.Snap()), DirOf(address), TableIndex(address))
    ensures !ok ==> Exhausted(m.Snap(), m.role)
  {
    AddressParts(address);
    var d, e := DirOf(address), TableIndex(address);
    ghost var s := m.Snap();
    ok := MakeWritable(m, address);
    if !ok { return; }
    ghost var t := m.Snap();
    StoreMapped(m, d, e, WordIndex(address), value);
    ButIsOnly(t, m.Snap(), d, e);
    OnlyTrans(s, t, m.Snap(), d, e);
  }

  /** The page fault handlers: afterwards the page is there and may be written. */
  method MakeWritable(m: Memory, address: int) returns (ok: bool)
    requires m.Valid() && UserAddress(address)
    modifies m, m.dir, m.frames, m.cnt
    ensures KeepsKernel(old(m.role), m.role)
    ensures m.Valid()
    ensures OnlyPage(old(m.Snap()), m.Snap(), DirOf(address), TableIndex(address))
    ensures ok ==>
      && Mapped(m.Snap(), DirOf(address), TableIndex(address))
        && Writable(Entry(m.Snap(), DirOf(address), TableIndex(address)))
      && View(m.Snap(), DirOf(address), TableIndex(address)) ==
           Some(OrZero(View(old(m.Snap()), DirOf(address), TableIndex(address))))
    ensures !ok ==>
      View(m.Snap(), DirOf(address), TableIndex(address)) == View(old(m.Snap()), DirOf(address), TableIndex(address))
    ensures !ok ==> Exhausted(m.Snap(), m.role)
  {
    AddressParts(address);
    var d, e := DirOf(address), TableIndex(address);
    ghost var s := m.Snap();
    if m.dir[d] % 2 != 1 {
      ok := GetEmptyPage(m, address);
      return;
    }
    DistinctTables(s, m.role, d, d);
    var w := m.frames[m.dir[d] / 4096 - LOW][e];
    assert w == Entry(s, d, e);
    if !Present(w) {
      ok := GetEmptyPage(m, address);
    } else if !Writable(w) {
      ok := UnWpPage(m, d, e);
      ButIsOnly(s, m.Snap(), d, e);
    } else {
      ok := true;
    }
  }

  /** The store itself, through a present and writable entry, which becomes dirty. */
  method StoreMapped(m: Memory, d: int, e: int, w: int, value: int)
    requires m.Valid() && Settable(m.Snap(), d, e) && Mapped(m.Snap(), d, e) && Writable(Entry(m.Snap(), d, e))
    requires 0 <= w < 1024
    modifies m.frames
    ensures KeepsKernel(old(m.role), m.role)
    ensures m.Valid()
    ensures QuietBut(old(m.Snap()), m.Snap(), d, e) && EntriesBut(old(m.Snap()), m.Snap(), d, e)
    ensures Mapped(m.Snap(), d, e) && Writable(Entry(m.Snap(), d, e))
    ensures View(m.Snap(), d, e) == Some(Stored(View(old(m.Snap()), d, e), w, value))
  {
    hide TablesOk, EntriesOk, CountsOk, BootOk, QuietBut, EntriesBut, SameEntries, View;
    ghost var s := m.Snap();
    DistinctTables(s, m.role, d, d);
    var word := m.frames[m.dir[d] / 4096 - LOW][e];
    MarkedDirty(s, m.role, d, e, word);
    m.StoreWord(d, e, MarkDirty(word));
    ghost var t := m.Snap();
    StoreFrame(m, d, e, word / 4096, w, value);
    StoredQuietly(s, t, m.Snap(), d, e);
  }

  lemma MarkedDirty(s: Mem, role: map<int, Role>, d: int, e: int, word: int)
    requires Inv(s, role) && Settable(s, d, e) && Mapped(s, d, e) && word == Entry(s, d, e) && Writable(word)
    ensures LOW <= TableOf(s, d) < FRAMES
    ensures var t := SetEntry(s, d, e, MarkDirty(word));
      && Inv(t, role) && QuietBut(s, t, d, e) && EntriesBut(s, t, d, e)
      && Settable(t, d, e) && Mapped(t, d, e) && Writable(Entry(t, d, e)) && FrameOf(Entry(t, d, e)) == word / 4096
      && View(t, d, e) == View(s, d, e)
  {
    DirtyLaws(word);
    SetEntryQuiet(s, role, d, e, MarkDirty(word));
    Reflag(s, role, d, e, MarkDirty(word));
  }

  lemma StoredQuietly(s: Mem, t: Mem, u: Mem, d: int, e: int)
    requires Shape(s) && Shape(t) && Shape(u) && Settable(t, d, e) && Mapped(t, d, e) && Writable(Entry(t, d, e))
    requires QuietBut(s, t, d, e) && EntriesBut(s, t, d, e) && QuietBut(t, u, d, e) && SameEntries(t, u)
    ensures QuietBut(s, u, d, e) && EntriesBut(s, u, d, e) && Mapped(u, d, e) && Writable(Entry(u, d, e))
  {
    assert InScope(d, e);
  }

  method StoreFrame(m: Memory, d: int, e: int, p: int, w: int, value: int)
    requires m.Valid() && Settable(m.Snap(), d, e) && Mapped(m.Snap(), d, e) && Writable(Entry(m.Snap(), d, e))
    requires 0 <= w < 1024 && p == FrameOf(Entry(m.Snap(), d, e))
    modifies m.frames
    ensures KeepsKernel(old(m.role), m.role)
    ensures m.Valid()
    ensures QuietBut(old(m.Snap()), m.Snap(), d, e) && SameEntries(old(m.Snap()), m.Snap())
    ensures View(m.Snap(), d, e) == Some(Stored(View(old(m.Snap()), d, e), w, value))
  {
    ghost var s, f := m.Snap(), FrameAt(m.Snap(), p)[w := value];
    StoreStep(s, m.role, d, e, f);
    SetOneFrame(m, p, w, value);
    assert m.Snap() == SetFrame(s, p, f);
  }

  method SetOneFrame(m: Memory, p: int, w: int, value: int)
    requires Shape(m.Snap()) && LOW <= p < FRAMES && 0 <= w < 1024
    modifies m.frames
    ensures m.Snap() == SetFrame(old(m.Snap()), p, FrameAt(old(m.Snap()), p)[w := value])
  {
    m.frames[p - LOW] := m.frames[p - LOW][w := value];
    assert m.frames[..] == old(m.frames[..])[p - LOW := m.frames[p - LOW]];
  }

  // ------------------------------------------------- stores of the kernel

  /** Every page of the addresses in [lo, hi) that is there may be written. */
  ghost predicate MayStore(m: Mem, lo: int, hi: int)
    requires Shape(m)
  {
    forall a :: lo <= a < hi && Mapped(m, DirOf(a), TableIndex(a)) ==> Writable(Entry(m, DirOf(a), TableIndex(a)))
  }

  /** A word that the kernel stores for a task.  The processor takes a fault for a missing page, but in
      kernel mode it does not look at the writable bit: that the page is the task's own is left to
      verify_area. */
  method StoreKernel(m: Memory, address: int, value: int, ghost lo: int, ghost hi: int) returns (ok: bool)
    requires m.Valid() && TASK_SIZE <= lo <= address < hi <= 64 * TASK_SIZE && MayStore(m.Snap(), lo, hi)
    modifies m, m.dir, m.frames, m.cnt
    ensures KeepsKernel(old(m.role), m.role)
    ensures m.Valid()
    ensures OnlyPage(old(m.Snap()), m.Snap(), DirOf(address), TableIndex(address)) && MayStore(m.Snap(), lo, hi)
    ensures 0 <= WordIndex(address) < 1024
    ensures View(m.Snap(), DirOf(address), TableIndex(address)) ==
      if ok then Some(Stored(View(old(m.Snap()), DirOf(address), TableIndex(address)), WordIndex(address), value))
      else View(old(m.Snap()), DirOf(address), TableIndex(address))
    ensures !ok ==> Exhausted(m.Snap(), m.role)
  {
    AddressParts(address);
    var d, e := DirOf(address), TableIndex(address);
    ghost var s := m.Snap();
    ok := Appear(m, address);
    ghost var t := m.Snap();
    if ok {
      StoreMapped(m, d, e, WordIndex(address), value);
      ButIsOnly(t, m.Snap(), d, e);
      OnlyTrans(s, t, m.Snap(), d, e);
    }
    StillMayStore(s, t, d, e, lo, hi);
    if ok { StillMayStore(t, m.Snap(), d, e, lo, hi); }
  }

  /** The fault of the kernel on a missing page. */
  method Appear(m: Memory, address: int) returns (ok: bool)
    requires m.Valid() && UserAddress(address)
    requires Mapped(m.Snap(), DirOf(address), TableIndex(address)) ==>
      Writable(Entry(m.Snap(), DirOf(address), TableIndex(address)))
    modifies m, m.dir, m.frames, m.cnt
    ensures KeepsKernel(old(m.role), m.role)
    ensures m.Valid()
    ensures OnlyPage(old(m.Snap()), m.Snap(), DirOf(address), TableIndex(address))
    ensures EntriesBut(old(m.Snap()), m.Snap(), DirOf(address), TableIndex(address))
    ensures if ok then
        && Mapped(m.Snap(), DirOf(address), TableIndex(address))
        && Writable(Entry(m.Snap(), DirOf(address), TableIndex(address)))
        && View(m.Snap(), DirOf(address), TableIndex(address)) ==
             Some(OrZero(View(old(m.Snap()), DirOf(address), TableIndex(address))))
      else
        && !Mapped(m.Snap(), DirOf(address), TableIndex(address)) && Exhausted(m.Snap(), m.role)
        && !Mapped(old(m.Snap()), DirOf(address), TableIndex(address))
  {
    AddressParts(address);
    var d, e := DirOf(address), TableIndex(address);
    ghost var s := m.Snap();
    if m.dir[d] % 2 != 1 {
      ok := GetEmptyPage(m, address);
      return;
    }
    DistinctTables(s, m.role, d, d);
    var w := m.frames[m.dir[d] / 4096 - LOW][e];
    assert w == Entry(s, d, e);
    if !Present(w) {
      ok := GetEmptyPage(m, address);
    } else {
      ok := true;
    }
  }

  lemma StillMayStore(s: Mem, t: Mem, d: int, e: int, lo: int, hi: int)
    requires Shape(s) && Shape(t) && OnlyPage(s, t, d, e) && EntriesBut(s, t, d, e) && MayStore(s, lo, hi)
    requires Mapped(t, d, e) ==> Writable(Entry(t, d, e))
    requires TASK_SIZE <= lo <= hi <= 64 * TASK_SIZE
    ensures MayStore(t, lo, hi)
  {
    forall a | lo <= a < hi && Mapped(t, DirOf(a), TableIndex(a))
      ensures Writable(Entry(t, DirOf(a), TableIndex(a)))
    {
      AddressParts(a);
      if DirOf(a) != d || TableIndex(a) != e { SameWord(s, t, d, e, DirOf(a), TableIndex(a)); }
    }
  }

  /** Without verify_area a word stored by the kernel into a page that somebody shares changes what
      another task sees. */
  lemma UnverifiedStoreShows(m: Mem, role: map<int, Role>, d: int, e: int, w: int, value: int)
    requires Inv(m, role) && Settable(m, d, e) && Mapped(m, d, e) && FrameOf(Entry(m, d, e)) >= LOW
    requires 0 <= w < 1024 && FrameAt(m, FrameOf(Entry(m, d, e)))[w] != value
    requires Cnt(m, FrameOf(Entry(m, d, e))) != 1
    ensures Managed(m, FrameOf(Entry(m, d, e)))
    ensures var t := SetFrame(m, FrameOf(Entry(m, d, e)), Stored(View(m, d, e), w, value));
      exists other :: InScope(other, e) && other != d && View(t, other, e) != View(m, other, e)
  {
    StoreKeeps(m, role, d, e, Stored(View(m, d, e), w, value));
    var other := OtherUser(m, role, d, e);
    var t := SetFrame(m, FrameOf(Entry(m, d, e)), Stored(View(m, d, e), w, value));
    assert InScope(other, e) && View(m, other, e) == View(m, d, e);
    assert View(t, other, e).value[w] == value;
  }
}
