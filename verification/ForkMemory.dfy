/** Fork and exit of whole address spaces (kernel/fork.c, kernel/exit.c). */
module ForkMemory {
  import opened Collections
  import opened Paging
  import opened Memories
  import opened CopyOnWrite
  import opened Faults

  class Tasks {
    const m: Memory
    const limit: array<int>        // size of the data segment of each slot
    const frame: array<int>        // address of the task structure of each slot, 0 for a free slot

    ghost predicate Valid()
      reads this, m, m.dir, m.frames, m.cnt, limit, frame
    {
      && m.Valid() && limit.Length == TASKS && frame.Length == TASKS
      && limit != frame && limit != m.dir && limit != m.cnt && frame != m.dir && frame != m.cnt
      && limit[0] == 0xA0000
      && SlotsOk(m.Snap(), m.role, limit[..], frame[..])
    }

    constructor (m: Memory)
      requires m.Valid() && forall d :: PER_TASK <= d < 1024 ==> !HasTable(m.Snap(), d)
      ensures Valid() && this.m == m && fresh(limit) && fresh(frame)
      ensures forall s :: 0 <= s < TASKS ==> frame[s] == 0
    {
      this.m := m;
      limit := new int[TASKS](i => if i == 0 then 0xA0000 else 0);
      frame := new int[TASKS](_ => 0);
    }

    /** Copies the address space of slot `p` to the free slot `nr`. */
    method CopyMem(p: int, nr: int) returns (r: int)
      requires m.Valid() && limit.Length == TASKS && 0 <= p < TASKS && 1 <= nr < TASKS && p != nr
      requires 0 <= limit[p] <= (if p == 0 then FOUR_MB else TASK_SIZE) && limit != m.dir && limit != m.cnt
      requires forall d :: PER_TASK * nr <= d < PER_TASK * nr + Dirs(limit[p]) ==> !HasTable(m.Snap(), d)
      modifies m, m.dir, m.frames, m.cnt
      ensures m.Valid() && (r == 0 || r == -1)
      ensures Quiet(old(m.Snap()), m.Snap(), PER_TASK * nr, PER_TASK * nr + Dirs(limit[p]))
      ensures SameKernel(old(m.Snap()), old(m.role), m.Snap(), m.role)
      ensures r == 0 ==> TablesCopied(old(m.Snap()), PER_TASK * p, m.Snap(), PER_TASK * nr, Dirs(limit[p]))
      ensures r == -1 ==> |FreeFrames(old(m.Snap()), old(m.role))| <= Dirs(limit[p])
      ensures r == -1 ==> forall d :: PER_TASK * nr <= d < PER_TASK * nr + Dirs(limit[p]) ==> !HasTable(m.Snap(), d)
    {
      ghost var s, role0 := m.Snap(), m.role;
      var base := nr * TASK_SIZE;
      BaseOf(p);
      BaseOf(nr);
      r := CopyPageTables(m, p * TASK_SIZE, base, limit[p]);
      if r != 0 {
        ghost var t, role1 := m.Snap(), m.role;
        LittleWasFree(s, role0, t, role1, PER_TASK * nr, Dirs(limit[p]));
        m.FreePageTables(base, limit[p]);
        QuietTrans(s, t, m.Snap(), PER_TASK * nr, PER_TASK * nr + Dirs(limit[p]));
        KernelTrans(s, role0, t, role1, m.Snap(), m.role);
        return -1;
      }
    }

    /** Makes slot `nr` a child of slot `p`.  When the frames run out, at whatever point,
        every use count and every view is as before. */
    method Fork(p: int, nr: int) returns (ok: bool)
      requires Valid() && Forkable(frame[..], p, nr)
      modifies m, m.dir, m.frames, m.cnt, limit, frame
      ensures Valid()
      ensures ok ==>
        && Live(frame[..], nr) && frame[..] == old(frame[..])[nr := frame[nr]]
        && limit[..] == old(limit[..])[nr := old(limit[p])]
        && Quiet(old(m.Snap()), m.Snap(), PER_TASK * nr, PER_TASK * nr + PER_TASK)
        && TablesCopied(old(m.Snap()), PER_TASK * p, m.Snap(), PER_TASK * nr, Dirs(old(limit[p])))
        && KernelGains(old(m.role), m.role, frame[nr] / 4096)
        && PagesBelow(old(m.Snap()), m.Snap(), p, nr, old(limit[p]))
      ensures !ok ==>
        && Restored(old(m.Snap()), m.Snap()) && m.cnt[..] == old(m.cnt[..])
        && limit[..] == old(limit[..]) && frame[..] == old(frame[..])
        && |FreeFrames(old(m.Snap()), old(m.role))| <= 1 + Dirs(old(limit[p]))
    {
      ghost var s, role0 := m.Snap(), m.role;
      var address := m.GetFreePage();
      if address == 0 {
        assert FreeFrames(s, role0) == {};
        RestoredRefl(s);
        return false;
      }
      ghost var u, role1, limit0, frame0 := m.Snap(), m.role, limit[..], frame[..];
      frame[nr] := address;
      FreeSlotEmpty(s, role0, limit0, frame0, nr, PER_TASK);
      DirsBound(limit[p]);
      var r := CopyMem(p, nr);
      if r != 0 {
        OneFrameLess(s, role0, u, role1, address / 4096);
        Abandon(s, role0, u, frame0, nr, Dirs(limit[p]), address);
      } else {
        Adopt(s, role0, u, frame0, p, nr, address);
        BelowLimit(s, m.Snap(), p, nr, old(limit[p]));
      }
      ok := r == 0;
    }

    /** Undoes the beginning of a fork: the slot is free again, and so is the structure frame. */
    method Abandon(ghost s: Mem, ghost role0: map<int, Role>, ghost u: Mem, ghost frame0: seq<int>, nr: int,
        ghost n: int, address: int)
      requires m.Valid() && Inv(s, role0) && Shape(u) && 1 <= nr < TASKS && 0 <= n <= PER_TASK
      requires limit.Length == TASKS && frame.Length == TASKS && |frame0| == TASKS
        && SlotsOk(s, role0, limit[..], frame0)
      requires limit != frame && limit != m.dir && limit != m.cnt && frame != m.dir && frame != m.cnt
        && limit[0] == 0xA0000
      requires Quiet(s, u, 0, 0) && Quiet(u, m.Snap(), PER_TASK * nr, PER_TASK * nr + n)
      requires forall d :: PER_TASK * nr <= d < PER_TASK * nr + n ==> !HasTable(s, d) && !HasTable(m.Snap(), d)
      requires address > 0 && address % 4096 == 0 && frame0[nr] == 0 && frame[..] == frame0[nr := address]
      requires address / 4096 !in role0
      requires forall p :: p in m.role && m.role[p] == Kernel <==>
        p == address / 4096 || (p in role0 && role0[p] == Kernel)
      modifies m, m.cnt, frame
      ensures Valid() && Restored(s, m.Snap()) && m.cnt[..] == s.cnt && frame[..] == frame0
    {
      frame[nr] := 0;
      assert frame[..] == frame0;
      ghost var t := m.Snap();
      GiveBack(address);
      QuietWiden(t, m.Snap(), 0, 0, PER_TASK * nr, PER_TASK * nr + n);
      QuietTrans(u, t, m.Snap(), PER_TASK * nr, PER_TASK * nr + n);
      UndoneFork(s, role0, u, m.Snap(), m.role, nr, n);
      SlotsRestored(s, role0, m.Snap(), m.role, limit[..], frame0);
    }

    /** Completes a fork: the child has the limit of its parent. */
    method Adopt(ghost s: Mem, ghost role0: map<int, Role>, ghost u: Mem, ghost frame0: seq<int>, p: int, nr: int,
        ghost address: int)
      requires m.Valid() && Inv(s, role0) && Shape(u) && 0 <= p < TASKS && 1 <= nr < TASKS && p != nr
      requires limit.Length == TASKS && frame.Length == TASKS && |frame0| == TASKS
        && SlotsOk(s, role0, limit[..], frame0)
      requires limit != frame && limit != m.dir && limit != m.cnt && frame != m.dir && frame != m.cnt
        && limit[0] == 0xA0000
      requires address % 4096 == 0 && address > 0 && frame0[nr] == 0 && frame[..] == frame0[nr := address]
        && address / 4096 !in role0
      requires 0 <= limit[p] <= if p == 0 then FOUR_MB else TASK_SIZE
      requires Quiet(s, u, 0, 0) && Quiet(u, m.Snap(), PER_TASK * nr, PER_TASK * nr + Dirs(limit[p]))
      requires forall q :: q in role0 && role0[q] == Kernel ==> q in m.role && m.role[q] == Kernel
      requires address / 4096 in m.role && m.role[address / 4096] == Kernel
      requires TablesCopied(u, PER_TASK * p, m.Snap(), PER_TASK * nr, Dirs(limit[p]))
      modifies limit
      ensures Valid() && limit[..] == old(limit[..])[nr := old(limit[p])]
      ensures Quiet(s, m.Snap(), PER_TASK * nr, PER_TASK * nr + PER_TASK)
      ensures TablesCopied(s, PER_TASK * p, m.Snap(), PER_TASK * nr, Dirs(old(limit[p])))
    {
      NewSlot(s, role0, u, m.Snap(), m.role, limit[..], frame0, p, nr, address);
      limit[nr] := limit[p];
      assert limit[..] == old(limit[..])[nr := old(limit[p])];
    }

    /** The end of a task: its pages and tables go (exit), then its structure (release). */
    method Exit(s: int)
      requires Valid() && 1 <= s < TASKS && Live(frame[..], s)
      modifies m, m.dir, m.frames, m.cnt, frame
      ensures Valid() && limit[..] == old(limit[..]) && frame[..] == old(frame[..])[s := 0]
      ensures Quiet(old(m.Snap()), m.Snap(), PER_TASK * s, PER_TASK * s + PER_TASK)
      ensures forall d :: InSlot(s, d) ==> !HasTable(m.Snap(), d)
      ensures KernelGains(m.role, old(m.role), old(frame[s]) / 4096)
    {
      ghost var t := m.Snap();
      ClearSlot(s);
      ghost var u := m.Snap();
      var address := frame[s];
      GiveBack(address);
      QuietWiden(u, m.Snap(), 0, 0, PER_TASK * s, PER_TASK * s + PER_TASK);
      QuietTrans(t, u, m.Snap(), PER_TASK * s, PER_TASK * s + PER_TASK);
      frame[s] := 0;
      assert frame[..] == old(frame[..])[s := 0];
      assert forall d :: InSlot(s, d) ==> HasTable(m.Snap(), d) == HasTable(u, d);
    }

    /** Gives up the whole address space of a task, as exit and exec do. */
    method ClearSlot(s: int)
      requires Valid() && 1 <= s < TASKS && Live(frame[..], s)
      modifies m, m.dir, m.frames, m.cnt
      ensures Valid()
      ensures Quiet(old(m.Snap()), m.Snap(), PER_TASK * s, PER_TASK * s + PER_TASK)
      ensures forall d :: InSlot(s, d) ==> !HasTable(m.Snap(), d)
      ensures SameKernel(old(m.Snap()), old(m.role), m.Snap(), m.role)
    {
      ghost var t, role0 := m.Snap(), m.role;
      BaseOf(s);
      DirsBound(limit[s]);
      m.FreePageTables(s * TASK_SIZE, limit[s]);
      SlotCleared(t, role0, m.Snap(), m.role, limit[..], frame[..], s, Dirs(limit[s]));
    }

    /** Exec gives the task a fresh address space of full size. */
    method Exec(s: int)
      requires Valid() && 1 <= s < TASKS && Live(frame[..], s)
      modifies m, m.dir, m.frames, m.cnt, limit
      ensures Valid() && limit[..] == old(limit[..])[s := TASK_SIZE]
      ensures Quiet(old(m.Snap()), m.Snap(), PER_TASK * s, PER_TASK * s + PER_TASK)
      ensures forall d :: InSlot(s, d) ==> !HasTable(m.Snap(), d)
    {
      ClearSlot(s);
      limit[s] := TASK_SIZE;
      assert limit[..] == old(limit[..])[s := TASK_SIZE];
    }

    /** A child that is forked and exits leaves no trace: every use count, every table
        and every view is as before the fork. */
    method ForkAndExit(p: int, nr: int)
      requires Valid() && Forkable(frame[..], p, nr)
      modifies m, m.dir, m.frames, m.cnt, limit, frame
      ensures Valid() && frame[..] == old(frame[..])
      ensures Restored(old(m.Snap()), m.Snap()) && m.cnt[..] == old(m.cnt[..])
    {
      ghost var s, role0 := m.Snap(), m.role;
      FreeSlotEmpty(s, role0, limit[..], frame[..], nr, PER_TASK);
      var ok := Fork(p, nr);
      if ok {
        ghost var t, role1 := m.Snap(), m.role;
        Exit(nr);
        QuietTrans(s, t, m.Snap(), PER_TASK * nr, PER_TASK * nr + PER_TASK);
        assert forall d :: PER_TASK * nr <= d < PER_TASK * nr + PER_TASK ==> InSlot(nr, d);
        assert Quiet(s, s, 0, 0);
        UndoneFork(s, role0, s, m.Snap(), m.role, nr, PER_TASK);
        assert frame[..] == old(frame[..]);
      }
    }

    method GiveBack(address: int)
      requires m.Valid() && address > 0 && address % 4096 == 0
      requires address / 4096 in m.role && m.role[address / 4096] == Kernel
      modifies m, m.cnt
      ensures m.Valid() && Quiet(old(m.Snap()), m.Snap(), 0, 0)
      ensures m.role == old(m.role) - {address / 4096}
      ensures m.dir[..] == old(m.dir[..]) && m.frames[..] == old(m.frames[..])
    {
      FreeStep(m.Snap(), m.role, address / 4096);
      var freed := m.FreePage(address);
      m.role := m.role - {address / 4096};
    }
  }

  /** The tables, the mappings and the views are what they were. */
  ghost predicate Restored(s: Mem, t: Mem)
    requires Shape(s) && Shape(t)
  {
    && SameConfig(s, t)
    && (forall d :: 0 <= d < 1024 ==> HasTable(t, d) == HasTable(s, d) && (HasTable(s, d) ==> t.dir[d] == s.dir[d]))
    && forall d, e :: InScope(d, e) ==> Mapping(t, d, e) == Mapping(s, d, e) && View(t, d, e) == View(s, d, e)
  }

  lemma OneFrameLess(s: Mem, role: map<int, Role>, u: Mem, role': map<int, Role>, p: int)
    requires SameConfig(s, u) && forall q :: q in role' ==> q in role || q == p
    ensures |FreeFrames(s, role)| <= 1 + |FreeFrames(u, role')|
  {
    NoMoreThan(FreeFrames(s, role), FreeFrames(u, role') + {p});
  }

  lemma RestoredRefl(s: Mem)
    requires Shape(s)
    ensures Restored(s, s)
  {
  }

  predicate Live(frame: seq<int>, s: int) { 0 <= s < |frame| && frame[s] != 0 }

  predicate Forkable(frame: seq<int>, p: int, nr: int) {
    |frame| == TASKS && 0 <= p < TASKS && 1 <= nr < TASKS && p != nr && (p == 0 || Live(frame, p)) && !Live(frame, nr)
  }

  predicate InSlot(s: int, d: int) { PER_TASK * s <= d < PER_TASK * s + PER_TASK }

  /** Every live slot has a task structure of its own and no page table beyond its
      limit; a free slot has neither. */
  ghost predicate SlotsOk(m: Mem, role: map<int, Role>, limit: seq<int>, frame: seq<int>)
    requires Shape(m) && |limit| == TASKS && |frame| == TASKS
  {
    && (forall s :: 0 <= s < TASKS ==> 0 <= limit[s] <= TASK_SIZE)
    && (forall s :: 1 <= s < TASKS && Live(frame, s) ==>
          frame[s] % 4096 == 0 && frame[s] > 0 && frame[s] / 4096 in role && role[frame[s] / 4096] == Kernel)
    && (forall s, s' :: 1 <= s < s' < TASKS && Live(frame, s) && Live(frame, s') ==> frame[s] != frame[s'])
    && (forall s, d :: 1 <= s < TASKS && InSlot(s, d) && HasTable(m, d) ==>
          Live(frame, s) && d < PER_TASK * s + Dirs(limit[s]))
  }

  lemma BaseOf(s: int)
    requires 0 <= s < TASKS
    ensures (s * TASK_SIZE) % TASK_SIZE == 0 && DirOf(s * TASK_SIZE) == PER_TASK * s
      && 0 <= s * TASK_SIZE < 64 * TASK_SIZE
    ensures s >= 1 ==> TASK_SIZE <= s * TASK_SIZE
  {
    assert s * TASK_SIZE == FOUR_MB * (PER_TASK * s);
  }

  lemma FreeSlotEmpty(m: Mem, role: map<int, Role>, limit: seq<int>, frame: seq<int>, nr: int, n: int)
    requires Shape(m) && |limit| == TASKS && |frame| == TASKS && SlotsOk(m, role, limit, frame)
    requires 1 <= nr < TASKS && !Live(frame, nr) && n <= PER_TASK
    ensures forall d :: PER_TASK * nr <= d < PER_TASK * nr + n ==> !HasTable(m, d)
  {
    assert forall d :: PER_TASK * nr <= d < PER_TASK * nr + n ==> InSlot(nr, d);
  }

  /** The kernel holds exactly one frame more. */
  ghost predicate KernelGains(role: map<int, Role>, role': map<int, Role>, p: int) {
    && !(p in role && role[p] == Kernel)
    && forall q :: q in role' && role'[q] == Kernel <==> q == p || (q in role && role[q] == Kernel)
  }

  lemma SlotCleared(t: Mem, role0: map<int, Role>, u: Mem, role': map<int, Role>, limit: seq<int>, frame: seq<int>,
      s: int, n: int)
    requires Shape(t) && Shape(u) && |limit| == TASKS && |frame| == TASKS && SlotsOk(t, role0, limit, frame)
    requires 1 <= s < TASKS && n == Dirs(limit[s]) && 0 <= n <= PER_TASK
    requires Quiet(t, u, PER_TASK * s, PER_TASK * s + n) && SameKernel(t, role0, u, role')
    requires forall d :: PER_TASK * s <= d < PER_TASK * s + n ==> !HasTable(u, d)
    ensures Quiet(t, u, PER_TASK * s, PER_TASK * s + PER_TASK)
    ensures forall d :: InSlot(s, d) ==> !HasTable(u, d)
    ensures SlotsOk(u, role', limit, frame)
  {
    forall i, d | 1 <= i < TASKS && InSlot(i, d) && HasTable(u, d)
      ensures Live(frame, i) && d < PER_TASK * i + Dirs(limit[i]) && i != s
    {
      assert u.dir[d] == t.dir[d];
      assert HasTable(t, d);
    }
  }

  lemma DirsBound(size: int)
    requires 0 <= size <= TASK_SIZE
    ensures 0 <= Dirs(size) <= PER_TASK && (size <= FOUR_MB ==> Dirs(size) <= 1)
  {
  }

  /** A fork that was abandoned: the structure frame is free again, the slot empty. */
  lemma UndoneFork(s: Mem, role0: map<int, Role>, u: Mem, t: Mem, role': map<int, Role>, nr: int, n: int)
    requires Inv(s, role0) && Inv(t, role') && Shape(u) && 1 <= nr < TASKS && 0 <= n <= PER_TASK
    requires Quiet(s, u, 0, 0) && Quiet(u, t, PER_TASK * nr, PER_TASK * nr + n)
    requires forall d :: PER_TASK * nr <= d < PER_TASK * nr + n ==> !HasTable(s, d) && !HasTable(t, d)
    requires forall p :: p in role0 && role0[p] == Kernel <==> p in role' && role'[p] == Kernel
    ensures Restored(s, t) && t.cnt == s.cnt
  {
    forall d, e | InScope(d, e) ensures Mapping(t, d, e) == Mapping(s, d, e) && View(t, d, e) == View(s, d, e) {
      if PER_TASK * nr <= d < PER_TASK * nr + n { assert !HasTable(s, d) && !HasTable(t, d); }
    }
    forall d | 0 <= d < 1024 ensures HasTable(t, d) == HasTable(s, d) && (HasTable(s, d) ==> t.dir[d] == s.dir[d]) {
      if PER_TASK * nr <= d < PER_TASK * nr + n { assert !HasTable(s, d) && !HasTable(t, d); }
      else { assert u.dir[d] == s.dir[d]; }
    }
    forall d, e | PER_TASK <= d < 1024 && 0 <= e < 1024 ensures Mapping(t, d, e) == Mapping(s, d, e) {
      assert InScope(d, e);
    }
    CountsDetermined(s, role0, t, role');
  }

  lemma SlotsRestored(s: Mem, role0: map<int, Role>, t: Mem, role': map<int, Role>, limit: seq<int>, frame: seq<int>)
    requires Shape(s) && Shape(t) && |limit| == TASKS && |frame| == TASKS && SlotsOk(s, role0, limit, frame)
    requires Restored(s, t)
    requires forall p :: p in role0 && role0[p] == Kernel <==> p in role' && role'[p] == Kernel
    ensures SlotsOk(t, role', limit, frame)
  {
    forall i, d | 1 <= i < TASKS && InSlot(i, d) && HasTable(t, d)
      ensures Live(frame, i) && d < PER_TASK * i + Dirs(limit[i])
    {
      assert HasTable(s, d);
    }
  }

  lemma NewSlot(s: Mem, role0: map<int, Role>, u: Mem, t: Mem, role': map<int, Role>, limit: seq<int>, frame: seq<int>,
      p: int, nr: int, address: int)
    requires Inv(s, role0) && Shape(u) && Shape(t) && |limit| == TASKS && |frame| == TASKS
      && SlotsOk(s, role0, limit, frame)
    requires 0 <= p < TASKS && 1 <= nr < TASKS && p != nr && !Live(frame, nr)
    requires 0 <= limit[p] <= if p == 0 then FOUR_MB else TASK_SIZE
    requires address % 4096 == 0 && address > 0 && address / 4096 !in role0
    requires Quiet(s, u, 0, 0) && Quiet(u, t, PER_TASK * nr, PER_TASK * nr + Dirs(limit[p]))
    requires forall q :: q in role0 && role0[q] == Kernel ==> q in role' && role'[q] == Kernel
    requires address / 4096 in role' && role'[address / 4096] == Kernel
    requires TablesCopied(u, PER_TASK * p, t, PER_TASK * nr, Dirs(limit[p]))
    ensures SlotsOk(t, role', limit[nr := limit[p]], frame[nr := address])
    ensures Quiet(s, t, PER_TASK * nr, PER_TASK * nr + PER_TASK)
    ensures TablesCopied(s, PER_TASK * p, t, PER_TASK * nr, Dirs(limit[p]))
  {
    DirsBound(limit[p]);
    QuietWiden(s, u, 0, 0, PER_TASK * nr, PER_TASK * nr + PER_TASK);
    QuietWiden(u, t, PER_TASK * nr, PER_TASK * nr + Dirs(limit[p]), PER_TASK * nr, PER_TASK * nr + PER_TASK);
    QuietTrans(s, u, t, PER_TASK * nr, PER_TASK * nr + PER_TASK);
    NewSlotTables(s, role0, t, limit, frame, p, nr, address);
    CopiedFromStart(s, u, t, p, nr, Dirs(limit[p]));
  }

  lemma NewSlotTables(s: Mem, role0: map<int, Role>, t: Mem, limit: seq<int>, frame: seq<int>, p: int, nr: int,
      address: int)
    requires Shape(s) && Shape(t) && |limit| == TASKS && |frame| == TASKS && SlotsOk(s, role0, limit, frame)
    requires 0 <= p < TASKS && 1 <= nr < TASKS && p != nr && !Live(frame, nr) && address != 0
      && 0 <= Dirs(limit[p]) <= PER_TASK
    requires forall d :: 0 <= d < 1024 && !(PER_TASK * nr <= d < PER_TASK * nr + Dirs(limit[p])) ==>
      t.dir[d] == s.dir[d]
    ensures forall i, d :: 1 <= i < TASKS && InSlot(i, d) && HasTable(t, d) ==>
      Live(frame[nr := address], i) && d < PER_TASK * i + Dirs(limit[nr := limit[p]][i])
  {
    forall i, d | 1 <= i < TASKS && InSlot(i, d) && HasTable(t, d)
      ensures Live(frame[nr := address], i) && d < PER_TASK * i + Dirs(limit[nr := limit[p]][i])
    {
      if PER_TASK * nr <= d < PER_TASK * nr + Dirs(limit[p]) {
        assert i == nr;
      } else {
        assert HasTable(s, d) && Live(frame, i);
      }
    }
  }

  lemma CopiedFromStart(s: Mem, u: Mem, t: Mem, p: int, nr: int, n: int)
    requires Shape(s) && Shape(u) && Shape(t) && 0 <= p < TASKS && 1 <= nr < TASKS && (p == 0 ==> n <= 1)
      && n <= PER_TASK
    requires Quiet(s, u, 0, 0) && TablesCopied(u, PER_TASK * p, t, PER_TASK * nr, n)
    ensures TablesCopied(s, PER_TASK * p, t, PER_TASK * nr, n)
  {
    var f, t0 := PER_TASK * p, PER_TASK * nr;
    forall d | t0 <= d < t0 + n ensures TableCopied(s, t, d, f, t0) {
      assert TableCopied(u, t, d, f, t0);
      SourceKept(s, u, d - t0 + f, Copied(f));
    }
  }

  /** Page `e` of table `i` looks the same in both tasks; a task has 64 megabytes, 16 tables of 1024 pages. */
  ghost predicate SamePage(s: Mem, t: Mem, p: int, nr: int, i: int, e: int)
    requires Shape(s) && Shape(t)
  {
    View(t, 16 * nr + i, e) == View(s, 16 * p + i, e) && Mapping(t, 16 * nr + i, e) == Mapping(s, 16 * p + i, e)
  }

  /** The child has every page of the parent that starts below the limit. */
  ghost predicate PagesBelow(s: Mem, t: Mem, p: int, nr: int, limit: int)
    requires Shape(s) && Shape(t)
  {
    forall i, e :: 0 <= i && 0 <= e < 1024 && 4096 * (1024 * i + e) < limit ==> SamePage(s, t, p, nr, i, e)
  }

  lemma BelowLimit(s: Mem, t: Mem, p: int, nr: int, limit: int)
    requires Shape(s) && Shape(t) && 0 <= p < TASKS && 1 <= nr < TASKS
    requires TablesCopied(s, PER_TASK * p, t, PER_TASK * nr, Dirs(limit)) && (p == 0 ==> limit <= 0xA0000)
    ensures PagesBelow(s, t, p, nr, limit)
  {
    hide View, Mapping, Shape;
    forall i, e | 0 <= i && 0 <= e < 1024 && 4096 * (1024 * i + e) < limit
      ensures SamePage(s, t, p, nr, i, e)
    {
      assert TableCopied(s, t, PER_TASK * nr + i, PER_TASK * p, PER_TASK * nr);
    }
  }
}
