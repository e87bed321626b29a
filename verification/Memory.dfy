/** Page frames, page tables and copy-on-write (mm/memory.c, mm/swap.c). */
module Memories {
  import opened Collections
  import opened Paging

  const FOUR_MB: int := 0x400000
  const TASK_SIZE: int := 0x4000000

  function DirOf(address: int): int { address / FOUR_MB }
  function TableIndex(address: int): int { address / 4096 % 1024 }
  function Dirs(size: int): int { (size + 0x3fffff) / FOUR_MB }

  /** A page table covers four megabytes, and a range gets as many as it needs. */
  lemma TablesNeeded(size: int)
    ensures 0x40_0000 * (Dirs(size) - 1) < size <= 0x40_0000 * Dirs(size)
  {
  }

  datatype FreeResult = Freed | Ignored | NonexistentPage | AlreadyFree

  class Memory {
    const start: int               // first frame that is handed out
    const high: int                // HIGH_MEMORY in frames
    const low: seq<Frame>          // the frames below LOW_MEM
    const dir: array<int>
    const frames: array<Frame>
    const cnt: array<int>
    ghost var role: map<int, Role>

    ghost function Snap(): Mem
      reads dir, frames, cnt
    {
      Mem(dir[..], low, frames[..], cnt[..], start, high)
    }

    ghost predicate Valid()
      reads this, dir, frames, cnt
    {
      Inv(Snap(), role) && dir != cnt
    }

    /** Memory after boot: frames in [start, high) are free, the others are marked
        USED, and only task 0 has a page table, which lies below LOW_MEM. */
    constructor (low: seq<Frame>, boot: int, start: int, high: int)
      requires |low| == LOW <= start <= high <= FRAMES
      requires Present(boot) && 0 <= FrameOf(boot) < LOW
      requires forall e :: 0 <= e < BOOT_PAGES && Present(low[FrameOf(boot)][e]) ==>
        0 <= FrameOf(low[FrameOf(boot)][e]) < LOW
      ensures Valid() && fresh(dir) && fresh(frames) && fresh(cnt)
      ensures role == map[] && forall d :: 0 < d < 1024 ==> !HasTable(Snap(), d)
      ensures this.low == low && this.start == start && this.high == high
    {
      this.low := low;
      this.start := start;
      this.high := high;
      dir := new int[1024](i => if i == 0 then boot else 0);
      frames := new Frame[PAGES](_ => ZeroFrame());
      cnt := new int[PAGES](_ => 100);
      role := map[];
      new;
      var i := start - LOW;
      while i < high - LOW
        invariant start - LOW <= i <= high - LOW
        invariant forall k :: 0 <= k < PAGES ==> cnt[k] == if start - LOW <= k < i then 0 else 100
        invariant forall k :: 0 <= k < 1024 ==> dir[k] == if k == 0 then boot else 0
        modifies cnt
      {
        cnt[i] := 0;
        i := i + 1;
      }
      ghost var m := Snap();
      assert forall e :: 0 <= e < 1024 ==> Entry(m, 0, e) == low[FrameOf(boot)][e];
    }

    /** Takes the highest free frame and clears it; 0 when there is none. */
    method GetFreePage() returns (address: int)
      requires Valid()
      modifies this, frames, cnt
      ensures Valid() && dir[..] == old(dir[..])
      ensures address == 0 ==> Snap() == old(Snap()) && role == old(role)
      ensures address == 0 ==> forall p :: Managed(Snap(), p) ==> p in role
      ensures address != 0 ==>
        && Managed(Snap(), address / 4096) && address == address / 4096 * 4096
        && address / 4096 !in old(role) && role == old(role)[address / 4096 := Kernel]
        && Snap() == Alloc(old(Snap()), address / 4096)
        && (forall p :: address / 4096 < p < high ==> p in old(role))
      ensures Quiet(old(Snap()), Snap(), 0, 0)
    {
      ghost var s := Snap();
      var i := PAGES - 1;
      while i >= 0 && cnt[i] != 0
        invariant -1 <= i < PAGES
        invariant forall k :: i < k < PAGES ==> cnt[k] != 0
      {
        i := i - 1;
      }
      if i < 0 {
        forall p | Managed(s, p) ensures p in role { assert cnt[p - LOW] != 0; }
        return 0;
      }
      ghost var p := i + LOW;
      assert Cnt(s, p) == 0 && Managed(s, p) && p !in role;
      forall q | p < q < high ensures q in role { assert cnt[q - LOW] != 0 && Managed(s, q); }
      AllocStep(s, role, p);
      cnt[i] := 1;
      frames[i] := ZeroFrame();
      role := role[p := Kernel];
      assert Snap() == Alloc(s, p);
      address := i * 4096 + LOW * 4096;
      assert address / 4096 == p;
    }

    /** Gives up one reference to a frame. */
    method FreePage(address: int) returns (r: FreeResult)
      requires Shape(Snap()) && address >= 0
      modifies cnt
      ensures r == Ignored <==> address / 4096 < LOW
      ensures r == NonexistentPage <==> address / 4096 >= high
      ensures r == AlreadyFree <==> LOW <= address / 4096 < high && old(Cnt(Snap(), address / 4096)) == 0
      ensures r != Freed ==> Snap() == old(Snap())
      ensures r == Freed ==> Snap() == SetCount(old(Snap()), address / 4096, old(Cnt(Snap(), address / 4096)) - 1)
    {
      if address < LOW * 4096 { return Ignored; }
      if address >= high * 4096 { return NonexistentPage; }
      var i := (address - LOW * 4096) / 4096;
      if cnt[i] != 0 {
        cnt[i] := cnt[i] - 1;
        return Freed;
      }
      cnt[i] := 0;
      assert cnt[..] == old(cnt[..]);
      return AlreadyFree;
    }

    /** Stores word `e` of the page table behind directory entry `d`. */
    method StoreWord(d: int, e: int, w: int)
      requires Shape(Snap()) && 0 <= d < 1024 && 0 <= e < 1024 && LOW <= TableOf(Snap(), d) < FRAMES
      modifies frames
      ensures Snap() == SetEntry(old(Snap()), d, e, w)
    {
      var t := dir[d] / 4096 - LOW;
      frames[t] := frames[t][e := w];
      assert frames[..] == old(frames[..])[t := frames[t]];
    }

    /** Clears word `e` of the page table of `d`, giving up the frame it maps. */
    method FreeEntry(d: int, e: int)
      requires Valid() && Settable(Snap(), d, e)
      modifies this, frames, cnt
      ensures Valid() && dir[..] == old(dir[..])
      ensures QuietBut(old(Snap()), Snap(), d, e) && !Mapped(Snap(), d, e)
      ensures SameKernel(old(Snap()), old(role), Snap(), role)
    {
      ghost var s := Snap();
      assert TableOf(s, d) in role;
      var w := frames[dir[d] / 4096 - LOW][e];
      assert w == Entry(s, d, e);
      if w == 0 { return; }
      if w % 2 == 1 {
        FreeMapped(d, e, w);
      } else {
        ClearAbsent(s, role, d, e);
        StoreWord(d, e, 0);
      }
    }

    method FreeMapped(d: int, e: int, w: int)
      requires Valid() && Settable(Snap(), d, e) && Mapped(Snap(), d, e) && w == Entry(Snap(), d, e)
      modifies this, frames, cnt
      ensures Valid() && dir[..] == old(dir[..])
      ensures QuietBut(old(Snap()), Snap(), d, e) && !Mapped(Snap(), d, e)
      ensures SameKernel(old(Snap()), old(role), Snap(), role)
    {
      ghost var s, p := Snap(), FrameOf(w);
      Unplug(s, role, d, e);
      CountThenEntry(s, d, e, p);
      var address := w / 4096 * 4096;
      assert address / 4096 == p by { Split4096(p, 0); }
      var r := FreePage(address);
      ghost var u := Snap();
      assert u == if p >= LOW then SetCount(s, p, Cnt(s, p) - 1) else s;
      StoreWord(d, e, 0);
      assert Snap() == Unplugged(s, d, e);
      role := RoleAfterUnplug(s, role, p);
    }

    /** Gives up everything behind directory entry `d`. */
    method FreeTable(d: int)
      requires Valid() && PER_TASK <= d < 1024
      modifies this, dir, frames, cnt
      ensures Valid()
      ensures Quiet(old(Snap()), Snap(), d, d + 1) && !HasTable(Snap(), d)
      ensures SameKernel(old(Snap()), old(role), Snap(), role)
    {
      if dir[d] % 2 != 1 { return; }
      ghost var s, role0 := Snap(), role;
      var e := 0;
      while e < 1024
        invariant 0 <= e <= 1024
        invariant Valid() && Quiet(s, Snap(), d, d + 1) && HasTable(Snap(), d)
        invariant SameKernel(s, role0, Snap(), role)
        invariant forall k :: 0 <= k < e ==> !Mapped(Snap(), d, k)
        modifies this, frames, cnt
      {
        ghost var t, role1 := Snap(), role;
        FreeEntry(d, e);
        EmptiedUpTo(s, t, Snap(), d, e);
        KernelTrans(s, role0, t, role1, Snap(), role);
        e := e + 1;
      }
      ghost var t, role1 := Snap(), role;
      DropEmptyTable(d);
      QuietTrans(s, t, Snap(), d, d + 1);
      KernelTrans(s, role0, t, role1, Snap(), role);
    }

    method DropEmptyTable(d: int)
      requires Valid() && PER_TASK <= d < 1024 && HasTable(Snap(), d)
      requires forall e :: 0 <= e < 1024 ==> !Mapped(Snap(), d, e)
      modifies this, dir, cnt
      ensures Valid()
      ensures Quiet(old(Snap()), Snap(), d, d + 1) && !HasTable(Snap(), d)
      ensures SameKernel(old(Snap()), old(role), Snap(), role)
    {
      hide EntriesOk, CountsOk, BootOk, Quiet;
      ghost var t, p := Snap(), TableOf(Snap(), d);
      DropTable(t, role, d);
      var r := FreePage(dir[d] / 4096 * 4096);
      dir[d] := 0;
      role := role - {p};
      assert dir[..] == t.dir[d := 0];
    }

    /** Gives up all pages and page tables of an address range. */
    method FreePageTables(from: int, size: int)
      requires Valid() && from % FOUR_MB == 0 && from >= TASK_SIZE && size >= 0
      requires DirOf(from) + Dirs(size) <= 1024
      modifies this, dir, frames, cnt
      ensures Valid()
      ensures Quiet(old(Snap()), Snap(), DirOf(from), DirOf(from) + Dirs(size))
      ensures forall d :: DirOf(from) <= d < DirOf(from) + Dirs(size) ==> !HasTable(Snap(), d)
      ensures SameKernel(old(Snap()), old(role), Snap(), role)
    {
      ghost var s, role0 := Snap(), role;
      var lo, n := DirOf(from), Dirs(size);
      var d := lo;
      while d < lo + n
        invariant lo <= d <= lo + n
        invariant Valid() && Quiet(s, Snap(), lo, lo + n)
        invariant SameKernel(s, role0, Snap(), role)
        invariant forall k :: lo <= k < d ==> !HasTable(Snap(), k)
      {
        ghost var t, role1 := Snap(), role;
        FreeTable(d);
        KernelTrans(s, role0, t, role1, Snap(), role);
        QuietWiden(t, Snap(), d, d + 1, lo, lo + n);
        QuietTrans(s, t, Snap(), lo, lo + n);
        d := d + 1;
      }
    }

    /** Makes page (d, e), which is still empty, a read-only copy of page (d0, e). */
    method CopyEntry(d0: int, d: int, e: int)
      requires Valid() && InScope(d0, e) && HasTable(Snap(), d0) && Settable(Snap(), d, e) && !Mapped(Snap(), d, e)
      requires d0 % PER_TASK == d % PER_TASK && d0 != d
      modifies this, frames, cnt
      ensures Valid() && dir[..] == old(dir[..]) && role == old(role)
      ensures QuietBut(old(Snap()), Snap(), d, e)
      ensures Mapping(Snap(), d, e) == Mapping(old(Snap()), d0, e) && View(Snap(), d, e) == View(old(Snap()), d0, e)
      ensures SameKernel(old(Snap()), old(role), Snap(), role)
    {
      hide TablesOk, EntriesOk, CountsOk, BootOk, QuietBut, SameKernel, Mapping, View;
      ghost var s := Snap();
      TablesApart(s, role, d0, d);
      var from := dir[d0] / 4096;
      var page := if from < LOW then low[from][e] else frames[from - LOW][e];
      assert page == Entry(s, d0, e);
      if page == 0 || page % 2 != 1 {
        Unshared(s, role, d0, d, e);
        return;
      }
      page := ReadOnly(page);
      CopiedWord(s, role, d0, d, e, page);
      StoreWord(d, e, page);
      if page > LOW * 4096 {
        StoreWord(d0, e, page);
        CountUp(page / 4096);
        CopyShared(s, role, d0, d, e, page);
      } else {
        Share(s, role, d0, e, d, page);
      }
    }

    method CountUp(p: int)
      requires Shape(Snap()) && LOW <= p < FRAMES && dir != cnt
      modifies cnt
      ensures Snap() == SetCount(old(Snap()), p, old(Cnt(Snap(), p)) + 1)
    {
      cnt[p - LOW] := cnt[p - LOW] + 1;
      assert cnt[..] == old(cnt[..])[p - LOW := cnt[p - LOW]];
    }
  }

  lemma TablesApart(s: Mem, role: map<int, Role>, d0: int, d: int)
    requires Inv(s, role) && PER_TASK <= d < 1024 && HasTable(s, d)
    requires (d0 == 0 || PER_TASK <= d0 < 1024) && HasTable(s, d0) && d0 != d
    ensures LOW <= TableOf(s, d) < FRAMES && 0 <= TableOf(s, d0) < FRAMES && TableOf(s, d0) != TableOf(s, d)
    ensures if d0 == 0 then TableOf(s, d0) < LOW else LOW <= TableOf(s, d0)
  {
    assert TableOf(s, d) in role && role[TableOf(s, d)] == Table(d);
    if d0 != 0 { assert TableOf(s, d0) in role && role[TableOf(s, d0)] == Table(d0); }
  }

  /** A page that is not there is copied by doing nothing. */
  lemma Unshared(s: Mem, role: map<int, Role>, d0: int, d: int, e: int)
    requires Inv(s, role) && InScope(d0, e) && Settable(s, d, e) && !Mapped(s, d, e) && !Mapped(s, d0, e)
    ensures QuietBut(s, s, d, e) && SameKernel(s, role, s, role)
    ensures Mapping(s, d, e) == Mapping(s, d0, e) && View(s, d, e) == View(s, d0, e)
  {
  }

  lemma CopiedWord(s: Mem, role: map<int, Role>, d0: int, d: int, e: int, w: int)
    requires Inv(s, role) && InScope(d0, e) && Mapped(s, d0, e) && Settable(s, d, e) && w == ReadOnly(Entry(s, d0, e))
    ensures Present(w) && !Writable(w) && FrameOf(w) == FrameOf(Entry(s, d0, e)) && 0 <= FrameOf(w) < FRAMES
    ensures w > LOW * 4096 <==> FrameOf(w) >= LOW
    ensures FrameOf(w) >= LOW ==> PER_TASK <= d0
  {
    ProtectLaws(Entry(s, d0, e));
    PlainPage(w);
    if d0 != 0 { MappedIsUser(s, role, d0, e); }
  }

  /** Both entries made read-only, and one more reference counted. */
  lemma CopyShared(s: Mem, role: map<int, Role>, d0: int, d: int, e: int, w: int)
    requires Inv(s, role) && PER_TASK <= d0 < 1024 && Mapped(s, d0, e) && Settable(s, d, e) && !Mapped(s, d, e)
    requires d0 % PER_TASK == d % PER_TASK && d0 != d
    requires Present(w) && !Writable(w) && FrameOf(w) == FrameOf(Entry(s, d0, e)) && LOW <= FrameOf(w) < FRAMES
    ensures LOW <= TableOf(s, d) < FRAMES && LOW <= TableOf(s, d0) < FRAMES
    ensures var t := SetCount(SetEntry(SetEntry(s, d, e, w), d0, e, w), FrameOf(w), Cnt(s, FrameOf(w)) + 1);
      && Inv(t, role)
      && QuietBut(s, t, d, e)
      && Mapping(t, d, e) == Mapping(s, d0, e) && View(t, d, e) == View(s, d0, e)
      && SameKernel(s, role, t, role)
  {
    Reflag(s, role, d0, e, w);
    var u := SetEntry(s, d0, e, w);
    assert InScope(d, e);
    assert TableOf(s, d0) in role && TableOf(s, d) in role;
    Share(u, role, d0, e, d, w);
    assert role[TableOf(s, d0)] == Table(d0) && role[TableOf(s, d)] == Table(d);
    var t := SetCount(SetEntry(SetEntry(s, d, e, w), d0, e, w), FrameOf(w), Cnt(s, FrameOf(w)) + 1);
    EntriesCommute(s, d0, d, e, w);
    ReflagThenShare(s, u, t, d0, d, e);
    SetEntryQuiet(s, role, d0, e, w);
    KernelKept(s, role, u, role, TableOf(s, d0));
    KernelTrans(s, role, u, role, t, role);
  }

  lemma EntriesCommute(s: Mem, d0: int, d: int, e: int, w: int)
    requires Shape(s) && 0 <= d0 < 1024 && 0 <= d < 1024 && 0 <= e < 1024
    requires LOW <= TableOf(s, d) < FRAMES && LOW <= TableOf(s, d0) < FRAMES && TableOf(s, d) != TableOf(s, d0)
    requires LOW <= FrameOf(w) < FRAMES
    ensures SetCount(SetEntry(SetEntry(s, d, e, w), d0, e, w), FrameOf(w), Cnt(s, FrameOf(w)) + 1)
      == Shared(SetEntry(s, d0, e, w), d, e, w)
  {
    var t := SetEntry(SetEntry(s, d, e, w), d0, e, w);
    var u := SetEntry(SetEntry(s, d0, e, w), d, e, w);
    assert t.frames == u.frames;
  }

  /** Giving up the frame first and clearing the entry then. */
  lemma CountThenEntry(m: Mem, d: int, e: int, p: int)
    requires Shape(m) && 0 <= d < 1024 && 0 <= e < 1024 && LOW <= TableOf(m, d) < FRAMES
    requires p == FrameOf(Entry(m, d, e)) < FRAMES
    ensures Unplugged(m, d, e) == if p >= LOW then SetEntry(SetCount(m, p, Cnt(m, p) - 1), d, e, 0)
      else SetEntry(m, d, e, 0)
  {
  }

  lemma KernelTrans(m: Mem, role: map<int, Role>, t: Mem, role1: map<int, Role>, u: Mem, role2: map<int, Role>)
    requires Shape(m) && Shape(t) && Shape(u) && SameKernel(m, role, t, role1) && SameKernel(t, role1, u, role2)
    ensures SameKernel(m, role, u, role2)
  {
  }

  lemma EmptiedUpTo(s: Mem, t: Mem, u: Mem, d: int, e: int)
    requires Shape(s) && Shape(t) && Shape(u) && PER_TASK <= d < 1024 && 0 <= e < 1024
    requires Quiet(s, t, d, d + 1) && QuietBut(t, u, d, e) && !Mapped(u, d, e)
    requires forall k :: 0 <= k < e ==> !Mapped(t, d, k)
    ensures Quiet(s, u, d, d + 1)
    ensures forall k :: 0 <= k < e + 1 ==> !Mapped(u, d, k)
  {
    forall k | 0 <= k < e + 1 ensures !Mapped(u, d, k) {
      assert InScope(d, k);
      if k < e { assert Mapping(u, d, k) == Mapping(t, d, k); }
    }
  }

  /** A present word is above LOW_MEM exactly when its frame is. */
  lemma PlainPage(w: int)
    requires Present(w)
    ensures w > LOW * 4096 <==> FrameOf(w) >= LOW
  {
  }

  lemma ReflagThenShare(s: Mem, u: Mem, t: Mem, d0: int, d: int, e: int)
    requires Shape(s) && Shape(u) && Shape(t) && InScope(d0, e) && d0 != d
    requires QuietBut(s, u, d0, e) && Mapping(u, d0, e) == Mapping(s, d0, e) && View(u, d0, e) == View(s, d0, e)
    requires QuietBut(u, t, d, e)
    ensures QuietBut(s, t, d, e)
  {
  }

}
