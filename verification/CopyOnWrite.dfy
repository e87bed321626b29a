/** Sharing pages at fork and separating them again at the first write (mm/memory.c). */
module CopyOnWrite {
  import opened Collections
  import opened Paging
  import opened Memories

  /** Directory entry `d` of `t` has the pages that directory entry `d0` of `s` has
      among its first `nr`, and no others. */
  ghost predicate CopyOf(s: Mem, d0: int, t: Mem, d: int, nr: int)
    requires Shape(s) && Shape(t)
  {
    forall e :: 0 <= e < 1024 ==>
      if e < nr then Mapping(t, d, e) == Mapping(s, d0, e) && View(t, d, e) == View(s, d0, e)
      else Mapping(t, d, e) == None && View(t, d, e) == None
  }

  /** How many pages of a table a child gets: all of them, or the first 160 of task 0. */
  function Copied(d0: int): int { if d0 == 0 then BOOT_PAGES else 1024 }

  predicate Source(d0: int) { d0 == 0 || PER_TASK <= d0 < 1024 }

  /** What the roles gained are page tables of directory entries in [lo, hi). */
  ghost predicate TablesAdded(role: map<int, Role>, role': map<int, Role>, lo: int, hi: int) {
    && (forall p :: p in role && role[p].Table? ==> p in role' && role'[p] == role[p])
    && forall p :: p in role' ==> p in role || (role'[p].Table? && lo <= role'[p].d < hi)
  }

  lemma AddedNext(role0: map<int, Role>, role1: map<int, Role>, role2: map<int, Role>, t0: int, i: int)
    requires TablesAdded(role0, role1, t0, t0 + i) && (role2 == role1 || TablesAdded(role1, role2, t0 + i, t0 + i + 1))
      && i >= 0
    ensures TablesAdded(role0, role2, t0, t0 + i + 1)
  {
  }

  function FreeFrames(m: Mem, role: map<int, Role>): set<int> {
    set p | m.start <= p < m.high && p !in role
  }

  /** Every frame of `a` became a page table of one of `n` directory entries. */
  lemma {:induction false} AsManyTables(a: set<int>, u: Mem, role: map<int, Role>, lo: int, n: nat)
    requires Inv(u, role)
    requires forall p :: p in a ==> p in role && role[p].Table? && lo <= role[p].d < lo + n
    ensures |a| <= n
  {
    if n == 0 {
      assert forall p :: p !in a;
      assert a == {};
    } else if t :| t in a && role[t].d == lo + n - 1 {
      assert forall p :: p in a && role[p].d == lo + n - 1 ==> p == TableOf(u, lo + n - 1) == t;
      AsManyTables(a - {t}, u, role, lo, n - 1);
    } else {
      AsManyTables(a, u, role, lo, n - 1);
    }
  }

  /** When nothing is free any more and only page tables were added, little was free before. */
  lemma LittleWasFree(s: Mem, role0: map<int, Role>, u: Mem, role: map<int, Role>, lo: int, n: nat)
    requires Inv(u, role) && SameConfig(s, u) && TablesAdded(role0, role, lo, lo + n)
    requires forall p :: Managed(u, p) ==> p in role
    ensures |FreeFrames(s, role0)| <= n
  {
    assert forall p :: p in FreeFrames(s, role0) ==> Managed(u, p);
    AsManyTables(FreeFrames(s, role0), u, role, lo, n);
  }

  method NewTable(m: Memory, d: int) returns (ok: bool)
    requires m.Valid() && PER_TASK <= d < 1024 && !HasTable(m.Snap(), d)
    modifies m, m.dir, m.frames, m.cnt
    ensures m.Valid()
    ensures Quiet(old(m.Snap()), m.Snap(), d, d + 1)
    ensures SameKernel(old(m.Snap()), old(m.role), m.Snap(), m.role)
    ensures TablesAdded(old(m.role), m.role, d, d + 1)
    ensures ok ==> HasTable(m.Snap(), d) && forall e :: 0 <= e < 1024 ==> !Mapped(m.Snap(), d, e)
    ensures ok ==> m.dir[d] % 4096 == 7
    ensures EntriesKept(old(m.Snap()), m.Snap())
    ensures ok <==> !old(AllUsed(m.Snap(), m.role))
    ensures !ok ==> m.Snap() == old(m.Snap()) && m.role == old(m.role) && forall p :: Managed(m.Snap(), p) ==>
      p in m.role
  {
    ghost var s, role0 := m.Snap(), m.role;
    var table := m.GetFreePage();
    if table == 0 { return false; }
    ghost var u, p := m.Snap(), table / 4096;
    AllocStep(s, role0, p);
    PlugTable(u, m.role, d, p);
    NewTableEntries(s, role0, d, p);
    m.dir[d] := table + 7;
    m.role := m.role[p := Table(d)];
    assert m.dir[..] == u.dir[d := p * 4096 + 7];
    assert m.Snap() == PutTable(u, d, p);
    QuietWiden(s, u, 0, 0, d, d + 1);
    QuietTrans(s, u, m.Snap(), d, d + 1);
    forall q | q in role0 && role0[q] == Kernel ensures FrameAt(m.Snap(), q) == FrameAt(s, q) { assert Managed(s, q); }
    ok := true;
  }

  /** Every word of every table there was is the same. */
  ghost predicate EntriesKept(s: Mem, t: Mem)
    requires Shape(s) && Shape(t)
  {
    forall d, e :: InScope(d, e) && HasTable(s, d) ==> Entry(t, d, e) == Entry(s, d, e)
  }

  lemma NewTableEntries(s: Mem, role: map<int, Role>, d: int, p: int)
    requires Inv(s, role) && Managed(s, p) && p !in role && PER_TASK <= d < 1024 && !HasTable(s, d)
    ensures EntriesKept(s, PutTable(Alloc(s, p), d, p))
  {
    forall d', e' | InScope(d', e') && HasTable(s, d')
      ensures Entry(PutTable(Alloc(s, p), d, p), d', e') == Entry(s, d', e')
    {
      EntryKept(s, role, p, d', e');
    }
  }

  /** Copies the page table behind directory entry `d0` to the empty directory entry `d`. */
  method CopyTable(m: Memory, d0: int, d: int) returns (ok: bool)
    requires m.Valid() && Source(d0) && HasTable(m.Snap(), d0)
    requires PER_TASK <= d < 1024 && !HasTable(m.Snap(), d) && d0 % PER_TASK == d % PER_TASK
    modifies m, m.dir, m.frames, m.cnt
    ensures m.Valid()
    ensures Quiet(old(m.Snap()), m.Snap(), d, d + 1)
    ensures SameKernel(old(m.Snap()), old(m.role), m.Snap(), m.role)
    ensures TablesAdded(old(m.role), m.role, d, d + 1)
    ensures ok ==> HasTable(m.Snap(), d) && CopyOf(old(m.Snap()), d0, m.Snap(), d, Copied(d0))
    ensures !ok ==> !HasTable(m.Snap(), d) && forall p :: Managed(m.Snap(), p) ==> p in m.role
  {
    ghost var s, role0 := m.Snap(), m.role;
    ok := NewTable(m, d);
    if !ok { return; }
    ghost var role2 := m.role;
    var nr := if d0 == 0 then 0xA0 else 1024;
    var e := 0;
    while e < nr
      invariant 0 <= e <= nr
      invariant m.Valid() && Quiet(s, m.Snap(), d, d + 1) && HasTable(m.Snap(), d)
      invariant SameKernel(s, role0, m.Snap(), m.role) && m.role == role2
      invariant CopyOf(s, d0, m.Snap(), d, e)
      modifies m, m.frames, m.cnt
    {
      ghost var t, role1 := m.Snap(), m.role;
      assert Mapping(t, d, e) == None;
      assert InScope(d0, e);
      m.CopyEntry(d0, d, e);
      KernelTrans(s, role0, t, role1, m.Snap(), m.role);
      CopiedUpTo(s, t, m.Snap(), d0, d, e);
      e := e + 1;
    }
  }

  lemma CopiedUpTo(s: Mem, t: Mem, u: Mem, d0: int, d: int, e: int)
    requires Shape(s) && Shape(t) && Shape(u) && PER_TASK <= d < 1024 && d0 != d && InScope(d0, e)
    requires Quiet(s, t, d, d + 1) && CopyOf(s, d0, t, d, e) && QuietBut(t, u, d, e)
    requires Mapping(u, d, e) == Mapping(t, d0, e) && View(u, d, e) == View(t, d0, e)
    ensures Quiet(s, u, d, d + 1) && CopyOf(s, d0, u, d, e + 1)
  {
    forall k | 0 <= k < 1024 && k != e ensures Mapping(u, d, k) == Mapping(t, d, k) && View(u, d, k) == View(t, d, k) {
      assert InScope(d, k);
    }
  }

  /** The `n` directory entries of `t` from `t0` on are copies of those of `s` from `f` on. */
  ghost predicate TablesCopied(s: Mem, f: int, t: Mem, t0: int, n: int)
    requires Shape(s) && Shape(t)
  {
    forall d :: t0 <= d < t0 + n ==> TableCopied(s, t, d, f, t0)
  }

  ghost predicate TableCopied(s: Mem, t: Mem, d: int, f: int, t0: int)
    requires Shape(s) && Shape(t)
  {
    HasTable(t, d) == HasTable(s, d - t0 + f) && CopyOf(s, d - t0 + f, t, d, Copied(f))
  }

  /** One round of the copy: directory entry `t0 + i` gets what `f + i` has. */
  method CopyNext(m: Memory, ghost s: Mem, ghost role0: map<int, Role>, f: int, t0: int, i: int, ghost n: int)
      returns (ok: bool)
    requires m.Valid() && Shape(s) && 0 <= i < n <= PER_TASK && (f == 0 ==> n <= 1)
    requires Source(f) && f + n <= 1024 && PER_TASK <= t0 && t0 + n <= 1024
    requires f != t0 && f % PER_TASK == 0 && t0 % PER_TASK == 0
    requires Quiet(s, m.Snap(), t0, t0 + n) && SameKernel(s, role0, m.Snap(), m.role)
    requires forall d :: t0 + i <= d < t0 + n ==> !HasTable(m.Snap(), d)
    requires TablesCopied(s, f, m.Snap(), t0, i) && TablesAdded(role0, m.role, t0, t0 + i)
    modifies m, m.dir, m.frames, m.cnt
    ensures m.Valid()
    ensures Quiet(s, m.Snap(), t0, t0 + n) && SameKernel(s, role0, m.Snap(), m.role)
    ensures TablesAdded(role0, m.role, t0, t0 + i + 1)
    ensures ok ==> TablesCopied(s, f, m.Snap(), t0, i + 1) && forall d :: t0 + i + 1 <= d < t0 + n ==>
      !HasTable(m.Snap(), d)
    ensures !ok ==> forall p :: Managed(m.Snap(), p) ==> p in m.role
  {
    hide TablesOk, EntriesOk, CountsOk, BootOk, Quiet, SameKernel, TablesCopied, TablesAdded, CopyOf;
    ghost var t, role1 := m.Snap(), m.role;
    assert !HasTable(t, t0 + i);
    if m.dir[f + i] % 2 == 1 {
      ok := CopyTable(m, f + i, t0 + i);
      OneTableMore(s, role0, t, role1, m.Snap(), m.role, t0, i, n);
      if ok { NextTable(s, t, m.Snap(), f, t0, i, n); }
    } else {
      NoTable(s, t, f, t0, i, n);
      AddedNext(role0, role1, m.role, t0, i);
      ok := true;
    }
  }

  lemma OneTableMore(s: Mem, role0: map<int, Role>, t: Mem, role1: map<int, Role>, u: Mem, role2: map<int, Role>,
      t0: int, i: int, n: int)
    requires Shape(s) && Shape(t) && Shape(u) && 0 <= i < n
    requires Quiet(s, t, t0, t0 + n) && SameKernel(s, role0, t, role1) && TablesAdded(role0, role1, t0, t0 + i)
    requires Quiet(t, u, t0 + i, t0 + i + 1) && SameKernel(t, role1, u, role2)
      && TablesAdded(role1, role2, t0 + i, t0 + i + 1)
    ensures Quiet(s, u, t0, t0 + n) && SameKernel(s, role0, u, role2) && TablesAdded(role0, role2, t0, t0 + i + 1)
  {
    hide Quiet, SameKernel, TablesAdded;
    KernelTrans(s, role0, t, role1, u, role2);
    QuietWiden(t, u, t0 + i, t0 + i + 1, t0, t0 + n);
    QuietTrans(s, t, u, t0, t0 + n);
    AddedNext(role0, role1, role2, t0, i);
  }

  /** Gives the address range at `to` the pages of the range at `from`.  When the
      frames run out, -1 is returned and the copy is left incomplete. */
  method CopyPageTables(m: Memory, from: int, to: int, size: int) returns (r: int)
    requires m.Valid() && from % TASK_SIZE == 0 && to % TASK_SIZE == 0
    requires 0 <= from < 64 * TASK_SIZE && TASK_SIZE <= to < 64 * TASK_SIZE && from != to
    requires 0 <= size <= if from == 0 then FOUR_MB else TASK_SIZE
    requires forall d :: DirOf(to) <= d < DirOf(to) + Dirs(size) ==> !HasTable(m.Snap(), d)
    modifies m, m.dir, m.frames, m.cnt
    ensures m.Valid() && (r == 0 || r == -1)
    ensures Quiet(old(m.Snap()), m.Snap(), DirOf(to), DirOf(to) + Dirs(size))
    ensures SameKernel(old(m.Snap()), old(m.role), m.Snap(), m.role)
    ensures TablesAdded(old(m.role), m.role, DirOf(to), DirOf(to) + Dirs(size))
    ensures r == 0 ==> TablesCopied(old(m.Snap()), DirOf(from), m.Snap(), DirOf(to), Dirs(size))
    ensures r == -1 ==> forall p :: Managed(m.Snap(), p) ==> p in m.role
  {
    ghost var s, role0 := m.Snap(), m.role;
    var f, t0, n := DirOf(from), DirOf(to), Dirs(size);
    Aligned(from, to, size);
    var i := 0;
    while i < n
      invariant 0 <= i <= n
      invariant m.Valid() && Quiet(s, m.Snap(), t0, t0 + n)
      invariant SameKernel(s, role0, m.Snap(), m.role)
      invariant forall d :: t0 + i <= d < t0 + n ==> !HasTable(m.Snap(), d)
      invariant TablesCopied(s, f, m.Snap(), t0, i) && TablesAdded(role0, m.role, t0, t0 + i)
    {
      var ok := CopyNext(m, s, role0, f, t0, i, n);
      if !ok { return -1; }
      i := i + 1;
    }
    r := 0;
  }

  lemma Aligned(from: int, to: int, size: int)
    requires from % TASK_SIZE == 0 && to % TASK_SIZE == 0
    requires 0 <= from < 64 * TASK_SIZE && TASK_SIZE <= to < 64 * TASK_SIZE && from != to
    requires 0 <= size <= if from == 0 then FOUR_MB else TASK_SIZE
    ensures DirOf(from) % PER_TASK == 0 && DirOf(to) % PER_TASK == 0 && DirOf(from) != DirOf(to)
    ensures from != 0 ==> PER_TASK <= DirOf(from)
    ensures DirOf(from) <= 1008 && PER_TASK <= DirOf(to) <= 1008
    ensures 0 <= Dirs(size) <= if from == 0 then 1 else PER_TASK
  {
    var a, b := from / TASK_SIZE, to / TASK_SIZE;
    assert from == FOUR_MB * (16 * a) && to == FOUR_MB * (16 * b);
  }

  lemma NextTable(s: Mem, t: Mem, u: Mem, f: int, t0: int, i: int, n: int)
    requires Shape(s) && Shape(t) && Shape(u) && 0 <= i < n <= PER_TASK
    requires PER_TASK <= t0 && t0 + n <= 1024 && (f == 0 ==> n <= 1) && 0 <= f && f + n <= 1024
    requires f != t0 && f % PER_TASK == 0 && t0 % PER_TASK == 0
    requires Quiet(s, t, t0, t0 + n) && Quiet(t, u, t0 + i, t0 + i + 1)
    requires TablesCopied(s, f, t, t0, i)
    requires forall d :: t0 + i <= d < t0 + n ==> !HasTable(t, d)
    requires HasTable(u, t0 + i) && HasTable(t, f + i) && CopyOf(t, f + i, u, t0 + i, Copied(f + i))
    ensures TablesCopied(s, f, u, t0, i + 1)
    ensures forall d :: t0 + i + 1 <= d < t0 + n ==> !HasTable(u, d)
  {
    Apart(f, t0, n, i);
    StillCopied(s, t, u, f, t0, i);
    SourceKept(s, t, f + i, Copied(f));
    forall d | t0 <= d < t0 + i + 1 ensures TableCopied(s, u, d, f, t0) {
      if d == t0 + i { assert d - t0 + f == f + i; }
      else { assert TableCopied(s, u, d, f, t0); }
    }
    forall d | t0 + i + 1 <= d < t0 + n ensures !HasTable(u, d) { assert !HasTable(t, d); }
  }

  /** Two ranges that start at different task slots do not meet. */
  lemma Apart(f: int, t0: int, n: int, i: int)
    requires f != t0 && f % PER_TASK == 0 && t0 % PER_TASK == 0 && 0 <= i < n <= PER_TASK
    ensures !(t0 <= f + i < t0 + n)
  {
    assert f == PER_TASK * (f / PER_TASK) && t0 == PER_TASK * (t0 / PER_TASK);
  }

  /** What lies outside the target range is still what it was at the start. */
  lemma SourceKept(s: Mem, t: Mem, d0: int, nr: int)
    requires Shape(s) && Shape(t) && Source(d0) && nr <= Copied(d0)
    requires forall e :: InScope(d0, e) ==> Mapping(t, d0, e) == Mapping(s, d0, e) && View(t, d0, e) == View(s, d0, e)
    ensures forall e :: 0 <= e < nr ==> Mapping(t, d0, e) == Mapping(s, d0, e) && View(t, d0, e) == View(s, d0, e)
  {
    forall e | 0 <= e < nr ensures Mapping(t, d0, e) == Mapping(s, d0, e) && View(t, d0, e) == View(s, d0, e) {
      assert InScope(d0, e);
    }
  }

  lemma StillCopied(s: Mem, t: Mem, u: Mem, f: int, t0: int, i: int)
    requires Shape(s) && Shape(t) && Shape(u) && PER_TASK <= t0 && t0 + i <= 1024
    requires TablesCopied(s, f, t, t0, i) && Quiet(t, u, t0 + i, t0 + i + 1)
    ensures TablesCopied(s, f, u, t0, i)
  {
    forall d | t0 <= d < t0 + i ensures TableCopied(s, u, d, f, t0) {
      assert TableCopied(s, t, d, f, t0);
      forall e | 0 <= e < 1024 ensures Mapping(u, d, e) == Mapping(t, d, e) && View(u, d, e) == View(t, d, e) {
        assert InScope(d, e);
      }
    }
  }

  lemma NoTable(s: Mem, t: Mem, f: int, t0: int, i: int, n: int)
    requires Shape(s) && Shape(t) && 0 <= i < n <= PER_TASK
    requires PER_TASK <= t0 && t0 + n <= 1024 && 0 <= f && f + n <= 1024
    requires f != t0 && f % PER_TASK == 0 && t0 % PER_TASK == 0
    requires Quiet(s, t, t0, t0 + n) && !HasTable(t, f + i) && !HasTable(t, t0 + i)
    requires TablesCopied(s, f, t, t0, i)
    ensures TablesCopied(s, f, t, t0, i + 1)
  {
    Apart(f, t0, n, i);
    assert t.dir[f + i] == s.dir[f + i];
    forall d | t0 <= d < t0 + i + 1 ensures TableCopied(s, t, d, f, t0) {
      if d == t0 + i { assert d - t0 + f == f + i; }
      else { assert TableCopied(s, t, d, f, t0); }
    }
  }

  // ------------------------------------------------------------ write faults

  /** What the kernel held it still holds. */
  ghost predicate KeepsKernel(role: map<int, Role>, role': map<int, Role>) {
    forall p :: p in role && role[p] == Kernel ==> p in role' && role'[p] == Kernel
  }

  /** Every table word but that of page (d, e) is the same. */
  ghost predicate EntriesBut(s: Mem, t: Mem, d: int, e: int)
    requires Shape(s) && Shape(t)
  {
    forall d', e' :: InScope(d', e') && HasTable(s, d') && (d' != d || e' != e) ==> Entry(t, d', e') == Entry(s, d', e')
  }

  lemma SeparatedEntries(u: Mem, role: map<int, Role>, d: int, e: int, p: int)
    requires Inv(u, role) && Settable(u, d, e) && p in role && role[p] == Kernel
    ensures LOW <= TableOf(u, d) < FRAMES && Managed(u, p)
    ensures EntriesBut(u, Separated(u, d, e, p), d, e)
  {
    DistinctTables(u, role, d, d);
    var f := FrameAt(u, FrameOf(Entry(u, d, e)));
    var v, t := SetFrame(u, p, f), Separated(u, d, e, p);
    forall d', e' | InScope(d', e') && HasTable(u, d') && (d' != d || e' != e)
      ensures Entry(t, d', e') == Entry(u, d', e')
    {
      EntryAfterFrame(u, role, p, f, d', e');
      DistinctTables(u, role, d, d');
      SetEntryElsewhere(v, d, e, p * 4096 + 7, d', e');
      SameFramesSameEntries(SetEntry(v, d, e, p * 4096 + 7), t, d', e');
    }
  }

  lemma SameFramesSameEntries(v: Mem, t: Mem, d: int, e: int)
    requires Shape(v) && Shape(t) && 0 <= d < 1024 && 0 <= e < 1024
    requires t.frames == v.frames && t.low == v.low && t.dir == v.dir
    ensures Entry(t, d, e) == Entry(v, d, e)
  {
  }

  lemma DistinctTables(u: Mem, role: map<int, Role>, d: int, d': int)
    requires Inv(u, role) && PER_TASK <= d < 1024 && HasTable(u, d) && (d' == 0 || PER_TASK <= d' < 1024)
      && HasTable(u, d')
    ensures LOW <= TableOf(u, d) < FRAMES && TableOf(u, d) in role && role[TableOf(u, d)] == Table(d)
    ensures d' != d ==> TableOf(u, d') != TableOf(u, d)
  {
    assert TableOf(u, d) in role && Managed(u, TableOf(u, d));
    if d' != 0 { assert role[TableOf(u, d')] == Table(d'); }
  }

  lemma SetEntryElsewhere(v: Mem, d: int, e: int, w: int, d': int, e': int)
    requires Shape(v) && 0 <= d < 1024 && 0 <= e < 1024 && LOW <= TableOf(v, d) < FRAMES && 0 <= d' < 1024
      && 0 <= e' < 1024
    ensures (TableOf(v, d') != TableOf(v, d) || e' != e) ==> Entry(SetEntry(v, d, e, w), d', e') == Entry(v, d', e')
  {
  }

  /** The effect of replacing a shared page by the private copy `p`. */
  function Separated(u: Mem, d: int, e: int, p: int): Mem
    requires Shape(u) && 0 <= d < 1024 && 0 <= e < 1024 && LOW <= TableOf(u, d) < FRAMES && LOW <= p < FRAMES
  {
    var q := FrameOf(Entry(u, d, e));
    var c := if LOW <= q < FRAMES then SetCount(u, q, Cnt(u, q) - 1) else u;
    SetEntry(SetFrame(c, p, FrameAt(u, q)), d, e, p * 4096 + 7)
  }

  /** Copying a frame that is in use for nothing else, and moving the page there, shows to nobody. */
  lemma SeparateStep(u: Mem, role: map<int, Role>, d: int, e: int, p: int)
    requires Inv(u, role) && Settable(u, d, e) && Mapped(u, d, e)
    requires p in role && role[p] == Kernel
    requires FrameOf(Entry(u, d, e)) >= LOW ==> FrameOf(Entry(u, d, e)) < FRAMES && Cnt(u, FrameOf(Entry(u, d, e))) != 1
    ensures LOW <= TableOf(u, d) < FRAMES && Managed(u, p)
    ensures var t := Separated(u, d, e, p); var role' := role[p := Page(d % PER_TASK, e)];
      && Inv(t, role')
      && QuietBut(u, t, d, e)
      && Mapping(t, d, e) == Some(p) && View(t, d, e) == View(u, d, e)
      && Entry(t, d, e) == p * 4096 + 7
  {
    var q := FrameOf(Entry(u, d, e));
    MappedIsUser(u, role, d, e);
    FillStep(u, role, p, FrameAt(u, q));
    var u1 := SetFrame(u, p, FrameAt(u, q));
    assert InScope(d, e);
    EntryAfterFrame(u, role, p, FrameAt(u, q), d, e);
    Unplug(u1, role, d, e);
    var u2 := Unplugged(u1, d, e);
    PlugPage(u2, role, d, e, p, 7);
    assert FrameAt(u2, p) == FrameAt(u, q);
    PartsCommute(u, d, e, p);
    SetEntryQuiet(u2, role, d, e, p * 4096 + 7);
    hide TablesOk, EntriesOk, CountsOk, BootOk, QuietBut;
    ChainQuiet(u, u1, u2, Separated(u, d, e, p), d, e);
  }

  lemma SeparateWritable(u: Mem, role: map<int, Role>, d: int, e: int, p: int)
    requires Inv(u, role) && Settable(u, d, e) && Mapped(u, d, e)
    requires p in role && role[p] == Kernel
    requires FrameOf(Entry(u, d, e)) >= LOW ==> FrameOf(Entry(u, d, e)) < FRAMES && Cnt(u, FrameOf(Entry(u, d, e))) != 1
    ensures LOW <= TableOf(u, d) < FRAMES && Managed(u, p)
    ensures var t := Separated(u, d, e, p);
      && Inv(t, role[p := Page(d % PER_TASK, e)])
      && QuietBut(u, t, d, e) && View(t, d, e) == View(u, d, e)
      && Mapped(t, d, e) && Writable(Entry(t, d, e))
  {
    SeparateStep(u, role, d, e, p);
    FreshIsWritable(Separated(u, d, e, p), d, e, p);
  }

  lemma FreshIsWritable(t: Mem, d: int, e: int, p: int)
    requires Shape(t) && HasTable(t, d) && 0 <= e < 1024 && Entry(t, d, e) == p * 4096 + 7
    ensures Mapped(t, d, e) && Writable(Entry(t, d, e))
  {
    FreshWordLaws(p, 7);
  }

  lemma PartsCommute(u: Mem, d: int, e: int, p: int)
    requires Shape(u) && 0 <= d < 1024 && 0 <= e < 1024 && LOW <= TableOf(u, d) < FRAMES && LOW <= p < FRAMES
      && p != TableOf(u, d)
    ensures var q := FrameOf(Entry(u, d, e));
      var u1 := SetFrame(u, p, FrameAt(u, q));
      Entry(u1, d, e) == Entry(u, d, e) &&
      SetEntry(Unplugged(u1, d, e), d, e, p * 4096 + 7) == Separated(u, d, e, p)
  {
    var q := FrameOf(Entry(u, d, e));
    var u1 := SetFrame(u, p, FrameAt(u, q));
    var a, b := SetEntry(Unplugged(u1, d, e), d, e, p * 4096 + 7), Separated(u, d, e, p);
    var f := u.frames[TableOf(u, d) - LOW];
    assert f[e := 0][e := p * 4096 + 7] == f[e := p * 4096 + 7];
    assert a.frames == b.frames;
  }

  lemma ChainQuiet(u: Mem, u1: Mem, u2: Mem, t: Mem, d: int, e: int)
    requires Shape(u) && Shape(u1) && Shape(u2) && Shape(t)
    requires Quiet(u, u1, 0, 0) && QuietBut(u1, u2, d, e) && QuietBut(u2, t, d, e)
    ensures QuietBut(u, t, d, e)
  {
    assert u1.dir == u.dir;
  }

  /** Makes a present, read-only page writable: at once when nobody shares it, by
      moving it to a copy otherwise.  The source goes on with frame 0 when no frame is
      left for the copy; here that ends with `ok` false and nothing changed. */
  method UnWpPage(m: Memory, d: int, e: int) returns (ok: bool)
    requires m.Valid() && Settable(m.Snap(), d, e) && Mapped(m.Snap(), d, e)
    modifies m, m.frames, m.cnt
    ensures m.Valid() && KeepsKernel(old(m.role), m.role)
    ensures QuietBut(old(m.Snap()), m.Snap(), d, e) && View(m.Snap(), d, e) == View(old(m.Snap()), d, e)
    ensures EntriesBut(old(m.Snap()), m.Snap(), d, e)
    ensures ok ==> Mapped(m.Snap(), d, e) && Writable(Entry(m.Snap(), d, e))
    ensures !ok ==> m.Snap() == old(m.Snap()) && m.role == old(m.role)
    ensures ok <==> old(OneReference(m.Snap(), d, e)) || !old(AllUsed(m.Snap(), m.role))
  {
    ghost var s, role := m.Snap(), m.role;
    SetEntryQuiet(s, role, d, e, 0);
    MappedIsUser(s, role, d, e);
    var w := m.frames[m.dir[d] / 4096 - LOW][e];
    assert w == Entry(s, d, e);
    var page := w / 4096;
    if page >= LOW && m.cnt[page - LOW] == 1 {
      Unprotect(m, d, e, w);
      ok := true;
    } else {
      ok := CopyToFresh(m, d, e, page);
    }
  }

  /** No frame is free. */
  ghost predicate AllUsed(m: Mem, role: map<int, Role>) { forall p :: Managed(m, p) ==> p in role }

  /** The page is one above LOW_MEM with a single reference. */
  ghost predicate OneReference(m: Mem, d: int, e: int)
    requires Shape(m) && 0 <= d < 1024 && 0 <= e < 1024
  {
    var p := FrameOf(Entry(m, d, e));
    LOW <= p < FRAMES && Cnt(m, p) == 1
  }

  /** Sets the writable bit of a page that nobody shares. */
  method Unprotect(m: Memory, d: int, e: int, w: int)
    requires m.Valid() && Settable(m.Snap(), d, e) && Mapped(m.Snap(), d, e) && w == Entry(m.Snap(), d, e)
    requires LOW <= FrameOf(w) < FRAMES && Cnt(m.Snap(), FrameOf(w)) == 1
    modifies m.frames
    ensures m.Valid() && KeepsKernel(old(m.role), m.role)
    ensures QuietBut(old(m.Snap()), m.Snap(), d, e) && View(m.Snap(), d, e) == View(old(m.Snap()), d, e)
    ensures EntriesBut(old(m.Snap()), m.Snap(), d, e)
    ensures Mapped(m.Snap(), d, e) && Writable(Entry(m.Snap(), d, e))
  {
    ghost var s := m.Snap();
    ProtectLaws(w);
    SetEntryQuiet(s, m.role, d, e, ReadWrite(w));
    Reflag(s, m.role, d, e, ReadWrite(w));
    m.StoreWord(d, e, ReadWrite(w));
  }

  method CopyToFresh(m: Memory, d: int, e: int, page: int) returns (ok: bool)
    requires m.Valid() && Settable(m.Snap(), d, e) && Mapped(m.Snap(), d, e)
      && page == FrameOf(Entry(m.Snap(), d, e)) >= 0
    requires page >= LOW ==> page < FRAMES && Cnt(m.Snap(), page) != 1
    modifies m, m.frames, m.cnt
    ensures m.Valid() && KeepsKernel(old(m.role), m.role)
    ensures QuietBut(old(m.Snap()), m.Snap(), d, e) && View(m.Snap(), d, e) == View(old(m.Snap()), d, e)
    ensures EntriesBut(old(m.Snap()), m.Snap(), d, e)
    ensures ok ==> Mapped(m.Snap(), d, e) && Writable(Entry(m.Snap(), d, e))
    ensures !ok ==> m.Snap() == old(m.Snap()) && m.role == old(m.role)
    ensures !ok <==> old(AllUsed(m.Snap(), m.role))
  {
    hide TablesOk, EntriesOk, CountsOk, BootOk, QuietBut, EntriesBut, Quiet, View;
    ghost var s, role := m.Snap(), m.role;
    var address := m.GetFreePage();
    SameAgain(s, d, e);
    if address == 0 { return false; }
    ghost var u, p := m.Snap(), address / 4096;
    assert InScope(d, e);
    EntryKept(s, role, p, d, e);
    AllocKeepsCount(s, role, p, d, e);
    AllocEntries(s, role, p, d, e);
    CopyAway(m, d, e, address / 4096, page);
    ThenQuiet(s, u, m.Snap(), d, e);
    ThenEntries(s, u, m.Snap(), d, e);
    ok := true;
  }

  lemma SameAgain(s: Mem, d: int, e: int)
    requires Shape(s)
    ensures QuietBut(s, s, d, e) && EntriesBut(s, s, d, e)
  {
  }

  lemma AllocKeepsCount(s: Mem, role: map<int, Role>, p: int, d: int, e: int)
    requires Inv(s, role) && Managed(s, p) && p !in role && Settable(s, d, e) && Mapped(s, d, e)
    ensures LOW <= FrameOf(Entry(s, d, e)) < FRAMES ==>
      Cnt(Alloc(s, p), FrameOf(Entry(s, d, e))) == Cnt(s, FrameOf(Entry(s, d, e)))
  {
    MappedIsUser(s, role, d, e);
  }

  method CopyAway(m: Memory, d: int, e: int, p: int, page: int)
    requires m.Valid() && Settable(m.Snap(), d, e) && Mapped(m.Snap(), d, e)
      && page == FrameOf(Entry(m.Snap(), d, e)) >= 0
    requires p in m.role && m.role[p] == Kernel
    requires page >= LOW ==> page < FRAMES && Cnt(m.Snap(), page) != 1
    modifies m, m.frames, m.cnt
    ensures m.Valid() && m.role == old(m.role)[p := Page(d % PER_TASK, e)]
    ensures QuietBut(old(m.Snap()), m.Snap(), d, e) && View(m.Snap(), d, e) == View(old(m.Snap()), d, e)
    ensures EntriesBut(old(m.Snap()), m.Snap(), d, e)
    ensures Mapped(m.Snap(), d, e) && Writable(Entry(m.Snap(), d, e))
  {
    ghost var u, role' := m.Snap(), m.role[p := Page(d % PER_TASK, e)];
    SeparateWritable(u, m.role, d, e, p);
    SeparatedEntries(u, m.role, d, e, p);
    MoveFrame(m, d, e, p, page);
    m.role := role';
  }

  /** Moves page (d, e) from frame `page` to frame `p`. */
  method MoveFrame(m: Memory, d: int, e: int, p: int, page: int)
    requires Shape(m.Snap()) && 0 <= d < 1024 && 0 <= e < 1024 && LOW <= TableOf(m.Snap(), d) < FRAMES
    requires LOW <= p < FRAMES && 0 <= page < FRAMES && page == FrameOf(Entry(m.Snap(), d, e))
    modifies m.frames, m.cnt
    ensures m.Snap() == Separated(old(m.Snap()), d, e, p)
  {
    ghost var u := m.Snap();
    if page >= LOW { m.cnt[page - LOW] := m.cnt[page - LOW] - 1; }
    m.frames[p - LOW] := if page < LOW then m.low[page] else m.frames[page - LOW];
    ghost var c := if page >= LOW then SetCount(u, page, Cnt(u, page) - 1) else u;
    assert m.cnt[..] == c.cnt;
    assert m.frames[..] == SetFrame(c, p, FrameAt(u, page)).frames;
    m.StoreWord(d, e, p * 4096 + 7);
  }

  lemma AllocEntries(s: Mem, role: map<int, Role>, p: int, d: int, e: int)
    requires Inv(s, role) && Managed(s, p) && p !in role
    ensures EntriesBut(s, Alloc(s, p), d, e)
  {
    forall d', e' | InScope(d', e') && HasTable(s, d') ensures Entry(Alloc(s, p), d', e') == Entry(s, d', e') {
      EntryKept(s, role, p, d', e');
    }
  }

  lemma ThenEntries(s: Mem, u: Mem, t: Mem, d: int, e: int)
    requires Shape(s) && Shape(u) && Shape(t) && u.dir == s.dir && EntriesBut(s, u, d, e) && EntriesBut(u, t, d, e)
    ensures EntriesBut(s, t, d, e)
  {
  }

  lemma EntryKept(s: Mem, role: map<int, Role>, p: int, d: int, e: int)
    requires Inv(s, role) && Managed(s, p) && p !in role && InScope(d, e) && HasTable(s, d)
    ensures Entry(Alloc(s, p), d, e) == Entry(s, d, e)
  {
    EntryAfterFrame(s, role, p, ZeroFrame(), d, e);
  }

  lemma ThenQuiet(s: Mem, u: Mem, t: Mem, d: int, e: int)
    requires Shape(s) && Shape(u) && Shape(t) && Quiet(s, u, 0, 0) && QuietBut(u, t, d, e) && InScope(d, e)
    ensures QuietBut(s, t, d, e) && View(u, d, e) == View(s, d, e) && Mapping(u, d, e) == Mapping(s, d, e)
  {
    assert u.dir == s.dir;
  }
}
