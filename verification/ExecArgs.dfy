/** The arguments of a new program (fs/exec.c): copy_strings fills pages from the top down, change_ldt
    puts the pages into the address space, create_tables writes the pointer tables below the strings. */
module ExecArgs {
  import opened Arguments
  import opened Collections

  const WORD: int := 0x1_0000_0000

  /** What is left of `p` when `n` is taken from it, in 32 bits without a sign. */
  function Less(p: int, n: int): int { (p - n) % WORD }

  /** How copy_strings ends: with all strings, without a frame, without a byte of room, or at an index
      outside its array of pages. */
  datatype Copying = Copied | NoFrame | NoRoom | Outside

  lemma PlaceOf(q: int)
    requires 0 <= q < ARG_SIZE
    ensures 0 <= q / PAGE_SIZE < MAX_ARG_PAGES && 0 <= q % PAGE_SIZE < PAGE_SIZE
  {
  }

  /** Going down by one byte stays on the page until its first byte is reached, and below the first page
      there is none. */
  lemma StepDown(p: int)
    requires 0 <= p <= ARG_SIZE
    ensures Less(p, 1) / PAGE_SIZE < MAX_ARG_PAGES <==> p > 0
    ensures p > 0 ==> Less(p, 1) == p - 1
    ensures p % PAGE_SIZE != 0 ==> (p - 1) / PAGE_SIZE == p / PAGE_SIZE && (p - 1) % PAGE_SIZE == p % PAGE_SIZE - 1
  {
  }

  lemma NotFull(used: set<int>, i: int)
    requires (forall x :: x in used ==> 0 <= x < MAX_ARG_PAGES) && 0 <= i < MAX_ARG_PAGES && i !in used
    ensures |used| < MAX_ARG_PAGES
  {
    AtMost(used + {i}, MAX_ARG_PAGES);
  }

  lemma OneByte(v0: Bytes, p: int, p0: int, w: Bytes, len: int)
    requires 0 <= p < p0 <= |v0| && 0 <= len < |w| && p0 - p == |w| - len
    ensures (v0[..p + 1] + w[len + 1..] + v0[p0..])[p := w[len]] == v0[..p] + w[len..] + v0[p0..]
  {
    assert w[len..] == [w[len]] + w[len + 1..];
  }

  /** A string copied in front of the bytes `f` that end at `p0`. */
  lemma Glue(v0: Bytes, v1: Bytes, p0: int, p1: int, p: int, f: Bytes, w: Bytes)
    requires 0 <= p <= p1 <= p0 <= |v0| && p1 == p0 - |f| && p == p1 - |w|
    requires v1 == v0[..p1] + f + v0[p0..]
    ensures v1[..p] + w + v1[p1..] == v0[..p] + (w + f) + v0[p0..]
  {
  }

  class ArgPages {
    const page: array<array?<int>>
    var free: nat                       // frames get_free_page can still find

    constructor (free: nat)
      ensures Valid() && this.free == free && fresh(page) && View() == seq(ARG_SIZE, _ => 0)
      ensures Frames() == {} && Total() == free
    {
      page := new array?<int>[MAX_ARG_PAGES](_ => null);
      this.free := free;
      new;
      assert Used() == {} && Frames() == {};
    }

    ghost predicate Valid()
      reads this, page
    {
      && page.Length == MAX_ARG_PAGES
      && (forall i :: 0 <= i < page.Length && page[i] != null ==> page[i].Length == PAGE_SIZE)
      && (forall i, j :: 0 <= i < j < page.Length && page[i] != null ==> page[i] != page[j])
    }

    /** The frames in use. */
    ghost function Frames(): set<object>
      reads this, page
    {
      set i | 0 <= i < page.Length && page[i] != null :: page[i]
    }

    /** The pages that are there. */
    ghost function Used(): set<int>
      reads this, page
    {
      set i | 0 <= i < page.Length && page[i] != null
    }

    /** Frames are only ever moved from the free ones to the pages. */
    ghost function Total(): int
      reads this, page
    {
      free + |Used()|
    }

    ghost function ByteAt(q: int): int
      requires Valid() && 0 <= q < ARG_SIZE
      reads this, page, Frames()
    {
      PlaceOf(q);
      if page[q / PAGE_SIZE] == null then 0 else page[q / PAGE_SIZE][q % PAGE_SIZE]
    }

    /** The bytes of all pages; a page that is not there is zero. */
    ghost function View(): (v: Bytes)
      requires Valid()
      reads this, page, Frames()
      ensures |v| == ARG_SIZE
    {
      seq(ARG_SIZE, q requires Valid() && 0 <= q < ARG_SIZE reads this, page, Frames() => ByteAt(q))
    }

    lemma PageView(i: int)
      requires Valid() && 0 <= i < MAX_ARG_PAGES
      ensures View()[PAGE_SIZE * i..PAGE_SIZE * i + PAGE_SIZE] ==
              if page[i] == null then seq(PAGE_SIZE, _ => 0) else page[i][..]
    {
      var w := View()[PAGE_SIZE * i..PAGE_SIZE * i + PAGE_SIZE];
      forall k | 0 <= k < PAGE_SIZE
        ensures w[k] == if page[i] == null then 0 else page[i][k]
      {
        assert (PAGE_SIZE * i + k) / PAGE_SIZE == i && (PAGE_SIZE * i + k) % PAGE_SIZE == k;
        assert w[k] == ByteAt(PAGE_SIZE * i + k);
      }
    }

    /** The page of byte `p`, taken from the free frames if it is not there yet. */
    method PageFor(p: int) returns (pag: array?<int>)
      requires Valid() && 0 <= p < ARG_SIZE
      modifies this`free, page
      ensures Valid() && View() == old(View()) && pag == page[p / PAGE_SIZE]
      ensures fresh(Frames() - old(Frames())) && Total() == old(Total())
      ensures pag == null ==> Total() < MAX_ARG_PAGES
    {
      PlaceOf(p);
      pag := page[p / PAGE_SIZE];
      if pag == null && free > 0 {
        pag := new int[PAGE_SIZE](_ => 0);
        free := free - 1;
        page[p / PAGE_SIZE] := pag;
        assert Used() == old(Used()) + {p / PAGE_SIZE};
      }
      if pag == null {
        NotFull(Used(), p / PAGE_SIZE);
      }
    }

    method StoreByte(p: int, pag: array<int>, offset: int, b: int)
      requires Valid() && 0 <= p < ARG_SIZE && pag == page[p / PAGE_SIZE] && offset == p % PAGE_SIZE
      modifies pag
      ensures Valid() && View() == old(View())[p := b]
    {
      pag[offset] := b;
    }

    /** One string, last byte first; `offset` is the place on `pag` of the byte at `p`, or 0. */
    method CopyString(s: Bytes, p0: int) returns (p: int, r: Copying)
      requires Valid() && Text(s) && 0 <= p0 <= ARG_SIZE
      modifies this`free, page, Frames()
      ensures Valid() && fresh(Frames() - old(Frames()))
      ensures r == Copied ==> 0 <= p == p0 - |s| - 1 && View() == old(View())[..p] + (s + [0]) + old(View())[p0..]
      ensures Total() == old(Total()) && (r == NoFrame ==> Total() < MAX_ARG_PAGES)
      ensures r != NoRoom && (r == Outside ==> |s| + 1 > p0)
    {
      hide Less, ArgPages.View, ArgPages.Total;
      ghost var w, v0 := s + [0], View();
      var len, offset := |s| + 1, 0;
      var pag: array?<int> := null;
      p, r := p0, Copied;
      while len > 0
        invariant 0 <= len <= |w| && 0 <= p == p0 - |w| + len
        invariant Valid() && fresh(Frames() - old(Frames()))
        invariant View() == v0[..p] + w[len..] + v0[p0..]
        invariant offset == 0 || (offset == p % PAGE_SIZE && p < ARG_SIZE && pag != null && pag == page[p / PAGE_SIZE])
        invariant Total() == old(Total())
      {
        StepDown(p);
        p, len, offset := Less(p, 1), len - 1, offset - 1;
        if offset < 0 {
          offset := p % PAGE_SIZE;
          if p / PAGE_SIZE >= MAX_ARG_PAGES {
            return p, Outside;
          }
          pag := PageFor(p);
          if pag == null {
            return p, NoFrame;
          }
        }
        PlaceOf(p);
        StoreByte(p, pag, offset, if len == |s| then 0 else s[len]);
        OneByte(v0, p, p0, w, len);
      }
    }

    /** copy_strings for any strings.  The test for those that do not fit below `p` looks at an unsigned
        difference, so it never fires: they run below the first byte of the pages. */
    method CopyStrings(ss: seq<Bytes>, p0: int) returns (p: int, r: Copying)
      requires Valid() && Texts(ss) && 0 <= p0 <= ARG_SIZE
      modifies this`free, page, Frames()
      ensures Valid() && fresh(Frames() - old(Frames()))
      ensures r == Copied ==>
        0 <= p == p0 - |Flat(ss)| && View() == old(View())[..p] + Flat(ss) + old(View())[p0..]
      ensures Total() == old(Total())
      ensures r == NoFrame ==> Total() < MAX_ARG_PAGES
      ensures r == NoRoom <==> p0 == 0
      ensures r == Outside ==> |Flat(ss)| > p0
    {
      if p0 == 0 {
        return 0, NoRoom;
      }
      ghost var v0 := View();
      var argc := |ss|;
      p, r := p0, Copied;
      assert ss[argc..] == [] && ss[..argc] == ss && v0 == v0[..p0] + v0[p0..];
      while argc > 0
        invariant 0 <= argc <= |ss| && 0 <= p == p0 - |Flat(ss[argc..])| && r == Copied
        invariant Valid() && fresh(Frames() - old(Frames()))
        invariant View() == v0[..p] + Flat(ss[argc..]) + v0[p0..]
        invariant Total() == old(Total())
      {
        argc := argc - 1;
        var s := ss[argc];
        if Less(p, |s| + 1) < 0 {
          assert false;
        }
        TailNext(ss, argc);
        ghost var p1, v1 := p, View();
        p, r := CopyString(s, p);
        if r == Outside {
          TailFits(ss, argc);
        }
        if r != Copied {
          return 0, r;
        }
        Glue(v0, v1, p0, p1, p, Flat(ss[argc + 1..]), s + [0]);
      }
      assert ss[argc..] == ss;
    }
  }

  lemma TailFits(ss: seq<Bytes>, i: int)
    requires 0 <= i <= |ss|
    ensures |Flat(ss[i..])| <= |Flat(ss)|
  {
    assert ss == ss[..i] + ss[i..];
    FlatSplit(ss[..i], ss[i..]);
  }

  /** The page of byte `k`, counted from the end of the strings, when the last one ends below `p0`. */
  function PageIndex(p0: int, k: int): int { Less(p0, k + 1) / PAGE_SIZE }

  /** Every byte has its place in the pages exactly when the strings are no longer than the room below
      `p0`; nothing else is tested. */
  lemma StringsFitIff(ss: seq<Bytes>, p0: int)
    requires 0 <= p0 <= ARG_SIZE
    ensures (forall k :: 0 <= k < |Flat(ss)| ==> PageIndex(p0, k) < MAX_ARG_PAGES) <==> |Flat(ss)| <= p0
  {
    if |Flat(ss)| > p0 {
      assert PageIndex(p0, p0) == 1048575;
    }
  }

  /** One byte too much for the room that do_execve starts with is not refused, and its page does not
      exist. */
  lemma OneByteTooLong(s: Bytes)
    requires |s| == ARG_SIZE - 4
    ensures Less(ARG_SIZE - 4, |s| + 1) >= 0 && PageIndex(ARG_SIZE - 4, |s|) == 1048575 > MAX_ARG_PAGES
  {
    assert Less(ARG_SIZE - 4, |s| + 1) == WORD - 1;
  }

  // ---------------------------------------------------------- pointer tables

  /** The strings `ss` lie in memory from `base` on. */
  ghost predicate Lies(u: Bytes, base: int, ss: seq<Bytes>) {
    0 <= base && base + |Flat(ss)| <= |u| && u[base..base + |Flat(ss)|] == Flat(ss)
  }

  function Start(base: int, ss: seq<Bytes>, i: int): int
    requires 0 <= i <= |ss|
  {
    base + |Flat(ss[..i])|
  }

  lemma SliceOfSlice(u: Bytes, a: int, b: int, from: int, to: int)
    requires 0 <= a <= b <= |u| && 0 <= from <= to <= b - a
    ensures u[a..b][from..to] == u[a + from..a + to]
  {
    var s, t := u[a..b][from..to], u[a + from..a + to];
    assert |s| == |t| && forall k :: 0 <= k < |s| ==> s[k] == t[k];
  }

  lemma StringAt(u: Bytes, base: int, ss: seq<Bytes>, i: int)
    requires Lies(u, base, ss) && 0 <= i < |ss|
    ensures var a := Start(base, ss, i);
      0 <= a && a + |ss[i]| + 1 == Start(base, ss, i + 1) <= |u| && u[a..a + |ss[i]| + 1] == ss[i] + [0]
  {
    FlatAt(ss, i);
    SliceOfSlice(u, base, base + |Flat(ss)|, |Flat(ss[..i])|, |Flat(ss[..i + 1])|);
  }

  /** `n` entries of the table point to the strings from number `first` on. */
  ghost predicate Points(u: Bytes, table: int, n: int, base: int, ss: seq<Bytes>, first: int) {
    && 0 <= table && 0 <= n && table + 4 * n <= |u| && 0 <= first && first + n <= |ss|
    && forall j :: 0 <= j < n ==>
         Entry(u, table, j) == Start(base, ss, first + j) && WordAt(u, table + 4 * j, Entry(u, table, j))
  }

  /** The two memories agree outside [a, b). */
  ghost predicate SameOutside(u: Bytes, v: Bytes, a: int, b: int) {
    |u| == |v| && forall i :: 0 <= i < |u| && !(a <= i < b) ==> v[i] == u[i]
  }

  lemma PointsKept(u: Bytes, v: Bytes, a: int, b: int, table: int, n: int, base: int, ss: seq<Bytes>, first: int)
    requires Points(u, table, n, base, ss, first) && SameOutside(u, v, a, b) && (table + 4 * n <= a || b <= table)
    ensures Points(v, table, n, base, ss, first)
  {
    forall j | 0 <= j < n
      ensures Entry(v, table, j) == Start(base, ss, first + j) && WordAt(v, table + 4 * j, Entry(v, table, j))
    {
      assert Entry(v, table, j) == Entry(u, table, j);
    }
  }

  lemma SameAndNone(u: Bytes, table: int, base: int, ss: seq<Bytes>, first: int)
    requires 0 <= table <= |u| && 0 <= first <= |ss|
    ensures SameOutside(u, u, table, table) && Points(u, table, 0, base, ss, first)
  {
  }

  lemma TextIn(ss: seq<Bytes>, i: int)
    requires Texts(ss) && 0 <= i < |ss|
    ensures Text(ss[i])
  {
  }

  /** One more entry points to the next string. */
  lemma PointsMore(u: Bytes, v: Bytes, table: int, n: int, base: int, ss: seq<Bytes>, first: int)
    requires Points(u, table, n, base, ss, first) && first + n < |ss|
    requires SameOutside(u, v, table + 4 * n, table + 4 * n + 4) && WordAt(v, table + 4 * n, Start(base, ss, first + n))
    requires Long(v, table + 4 * n) == Start(base, ss, first + n)
    ensures Points(v, table, n + 1, base, ss, first)
  {
    PointsKept(u, v, table + 4 * n, table + 4 * n + 4, table, n, base, ss, first);
    assert Entry(v, table, n) == Start(base, ss, first + n);
  }

  lemma OutsideMore(u: Bytes, v: Bytes, w: Bytes, a: int, b: int)
    requires SameOutside(u, v, a, b) && SameOutside(v, w, b, b + 4) && a <= b
    ensures SameOutside(u, w, a, b + 4) && |w| == |u|
  {
  }

  lemma LiesKept(u: Bytes, v: Bytes, a: int, b: int, base: int, ss: seq<Bytes>)
    requires Lies(u, base, ss) && SameOutside(u, v, a, b) && b <= base
    ensures Lies(v, base, ss)
  {
    assert v[base..base + |Flat(ss)|] == u[base..base + |Flat(ss)|];
  }

  /** A table of pointers to the strings `first`, ..., ended by a null pointer, leads to them. */
  lemma PointsLead(u: Bytes, table: int, base: int, ss: seq<Bytes>, first: int, part: seq<Bytes>)
    requires Texts(ss) && Lies(u, base, ss) && Points(u, table, |part|, base, ss, first)
    requires table + 4 * |part| + 4 <= |u| && u[table + 4 * |part|..table + 4 * |part| + 4] == [0, 0, 0, 0]
    requires part == ss[first..first + |part|]
    ensures LeadsTo(u, table, part) && NotBelow(u, table, |part|, base)
  {
    forall i | 0 <= i < |part|
      ensures Entry(u, table, i) >= base && CString(u, Entry(u, table, i)) == part[i]
      ensures WordAt(u, table + 4 * i, Entry(u, table, i))
    {
      StringAt(u, base, ss, first + i);
      assert Entry(u, table, i) == Start(base, ss, first + i) && part[i] == ss[first + i];
      CStringIs(u, Start(base, ss, first + i), part[i]);
    }
  }

  /** No argument page is there yet. */
  ghost predicate Empty(u: Bytes) {
    |u| == TASK_SIZE && forall i :: ARG_BASE <= i < ARG_BASE + ARG_SIZE ==> u[i] == 0
  }

  /** The pages from number `i` on have been placed. */
  ghost function Placed(u: Bytes, v: Bytes, i: int): Bytes
    requires |u| == TASK_SIZE && |v| == ARG_SIZE && 0 <= i <= MAX_ARG_PAGES
  {
    u[..ARG_BASE + PAGE_SIZE * i] + v[PAGE_SIZE * i..] + u[ARG_BASE + ARG_SIZE..]
  }

  lemma NonePlaced(u: Bytes, v: Bytes)
    requires |u| == TASK_SIZE && |v| == ARG_SIZE
    ensures Placed(u, v, MAX_ARG_PAGES) == u
  {
  }

  /** The data space of the new program, byte for byte; pages not there read as zero. */
  class UserSpace {
    var bytes: Bytes

    constructor ()
      ensures bytes == seq(TASK_SIZE, _ => 0)
    {
      bytes := seq(TASK_SIZE, _ => 0);
    }

    method PutFsLong(v: int, a: int)
      requires 0 <= a && a + 4 <= |bytes| && 0 <= v < 0x1_0000_0000
      modifies this
      ensures SameOutside(old(bytes), bytes, a, a + 4) && Long(bytes, a) == v
      ensures bytes[a] == v % 256 && bytes[a + 1] == v / 256 % 256
      ensures bytes[a + 2] == v / 65536 % 256 && bytes[a + 3] == v / 16777216 % 256
    {
      PutLong(bytes, v, a);
      bytes := Put(bytes, v, a);
    }

    /** `while (get_fs_byte(p++));` over the string `s`. */
    method PastString(p0: int, ghost s: Bytes) returns (p: int)
      requires 0 <= p0 && p0 + |s| + 1 <= |bytes| && Text(s) && bytes[p0..p0 + |s| + 1] == s + [0]
      ensures p == p0 + |s| + 1
    {
      p := p0;
      ghost var w := bytes[p0..p0 + |s| + 1];
      assert forall i :: 0 <= i <= |s| ==> bytes[p0 + i] == w[i];
      while bytes[p] != 0
        invariant p0 <= p <= p0 + |s|
        decreases p0 + |s| - p
      {
        assert w[p - p0] != 0;
        p := p + 1;
      }
      assert w[p - p0] == 0;
      p := p + 1;
    }

    /** One of the two loops of create_tables, with the null pointer that ends its table. */
    method FillTable(table: int, n: int, p0: int, ghost base: int, ghost ss: seq<Bytes>, ghost first: int)
        returns (p: int)
      requires |bytes| == TASK_SIZE && 0 <= table && 0 <= n && table + 4 * n + 4 <= base
      requires Texts(ss) && Lies(bytes, base, ss) && 0 <= first && first + n <= |ss| && p0 == Start(base, ss, first)
      modifies this
      ensures SameOutside(old(bytes), bytes, table, table + 4 * n + 4)
      ensures Points(bytes, table, n, base, ss, first)
      ensures bytes[table + 4 * n..table + 4 * n + 4] == [0, 0, 0, 0]
      ensures p == Start(base, ss, first + n) && |bytes| == TASK_SIZE
    {
      hide Points, Lies, SameOutside, Entry, Texts;
      ghost var u0 := bytes;
      var i := 0;
      p := p0;
      LiesInside(u0, base, ss);
      SameAndNone(u0, table, base, ss, first);
      while i < n
        invariant 0 <= i <= n && p == Start(base, ss, first + i) && |bytes| == TASK_SIZE
        invariant SameOutside(u0, bytes, table, table + 4 * i)
        invariant Lies(bytes, base, ss) && Points(bytes, table, i, base, ss, first)
      {
        ghost var u := bytes;
        StringAt(u, base, ss, first + i);
        PutFsLong(p, table + 4 * i);
        PointsMore(u, bytes, table, i, base, ss, first);
        LiesKept(u, bytes, table + 4 * i, table + 4 * i + 4, base, ss);
        OutsideMore(u0, u, bytes, table, table + 4 * i);
        StringAt(bytes, base, ss, first + i);
        TextIn(ss, first + i);
        p := PastString(p, ss[first + i]);
        i := i + 1;
      }
      ghost var u := bytes;
      PutFsLong(0, table + 4 * n);
      PointsKept(u, bytes, table + 4 * n, table + 4 * n + 4, table, n, base, ss, first);
      OutsideMore(u0, u, bytes, table, table + 4 * n);
    }

    method PutPage(args: ArgPages, i: int, dataBase: int, ghost u: Bytes)
      requires args.Valid() && 0 <= i < MAX_ARG_PAGES && dataBase == ARG_BASE + PAGE_SIZE * i && Empty(u)
      requires bytes == Placed(u, args.View(), i + 1)
      modifies this
      ensures bytes == Placed(u, args.View(), i)
    {
      args.PageView(i);
      OnePage(u, args.View(), PAGE_SIZE * i);
      if args.page[i] != null {
        bytes := bytes[..dataBase] + args.page[i][..] + bytes[dataBase + PAGE_SIZE..];
      }
    }

    /** change_ldt into an empty address space: page 31 ends where the library begins. */
    method ChangeLdt(args: ArgPages) returns (limit: int)
      requires args.Valid() && Empty(bytes)
      modifies this
      ensures bytes == Placed(old(bytes), args.View(), 0) && limit == TASK_SIZE
    {
      hide Placed;
      ghost var u := bytes;
      NonePlaced(u, args.View());
      var dataBase, i := TASK_SIZE - LIBRARY_SIZE, MAX_ARG_PAGES - 1;
      while i >= 0
        invariant -1 <= i < MAX_ARG_PAGES && dataBase == ARG_BASE + PAGE_SIZE * (i + 1)
        invariant bytes == Placed(u, args.View(), i + 1)
        modifies this
      {
        dataBase := dataBase - PAGE_SIZE;
        PutPage(args, i, dataBase, u);
        i := i - 1;
      }
      limit := TASK_SIZE;
    }

    /** The three words under the tables. */
    method PutHeader(sp: int, argc: int, argTable: int, envTable: int)
      requires |bytes| == TASK_SIZE && 0 <= sp && sp + 12 <= |bytes|
      requires 0 <= argc < TASK_SIZE && 0 <= argTable < TASK_SIZE && 0 <= envTable < TASK_SIZE
      modifies this
      ensures SameOutside(old(bytes), bytes, sp, sp + 12) && Header(bytes, sp, argc, argTable, envTable)
      ensures |bytes| == TASK_SIZE
    {
      PutFsLong(envTable, sp + 8);
      ghost var u1 := bytes;
      PutFsLong(argTable, sp + 4);
      assert WordAt(bytes, sp + 8, envTable);
      ghost var u2 := bytes;
      PutFsLong(argc, sp);
      assert WordAt(bytes, sp + 8, envTable) && WordAt(bytes, sp + 4, argTable);
    }

    /** create_tables: the new stack has argc, the two tables and what they lead to. */
    method CreateTables(p: int, ghost argv: seq<Bytes>, ghost envp: seq<Bytes>, argc: int, envc: int) returns (sp: int)
      requires |bytes| == TASK_SIZE && argc == |argv| && envc == |envp| && Texts(argv + envp)
      requires Lies(bytes, p, argv + envp) && 4 * (argc + envc + 6) <= p
      modifies this
      ensures 0 <= sp && sp + 4 * (argc + envc + 5) == p - p % 4
      ensures SameOutside(old(bytes), bytes, sp, p) && StackHolds(bytes, sp, p, argv, envp)
    {
      hide Points, Lies, LeadsTo, Header, Texts, Start, SameOutside;
      ghost var ss, u0 := argv + envp, bytes;
      sp := p - p % 4;
      sp := sp - 4 * (envc + 1);
      var envTable := sp;
      sp := sp - 4 * (argc + 1);
      var argTable := sp;
      sp := sp - 12;
      LiesInside(u0, p, ss);
      PutHeader(sp, argc, argTable, envTable);
      LiesKept(u0, bytes, sp, sp + 12, p, ss);
      ghost var u1 := bytes;
      StartFirst(p, ss);
      var q := FillTable(argTable, argc, p, p, ss, 0);
      LiesKept(u1, bytes, argTable, envTable, p, ss);
      ghost var u2 := bytes;
      q := FillTable(envTable, envc, q, p, ss, argc);
      TablesHold(u1, u2, bytes, sp, p, argv, envp);
      Inside(u0, u1, u2, bytes, sp, p, argTable, envTable, envTable + 4 * envc + 4);
    }
  }

  lemma OnePage(u: Bytes, v: Bytes, a: int)
    requires |u| == TASK_SIZE && |v| == ARG_SIZE && 0 <= a && a + PAGE_SIZE <= ARG_SIZE
    requires forall i :: ARG_BASE <= i < ARG_BASE + ARG_SIZE ==> u[i] == 0
    ensures var b := u[..ARG_BASE + a + PAGE_SIZE] + v[a + PAGE_SIZE..] + u[ARG_BASE + ARG_SIZE..];
            var c := u[..ARG_BASE + a] + v[a..] + u[ARG_BASE + ARG_SIZE..];
      && c == b[..ARG_BASE + a] + v[a..a + PAGE_SIZE] + b[ARG_BASE + a + PAGE_SIZE..]
      && (v[a..a + PAGE_SIZE] == seq(PAGE_SIZE, _ => 0) ==> c == b)
  {
    var b := u[..ARG_BASE + a + PAGE_SIZE] + v[a + PAGE_SIZE..] + u[ARG_BASE + ARG_SIZE..];
    var w := v[a..a + PAGE_SIZE];
    assert b[ARG_BASE + a..ARG_BASE + a + PAGE_SIZE] == u[ARG_BASE + a..ARG_BASE + a + PAGE_SIZE];
  }

  lemma {:induction false} FlatLong(ss: seq<Bytes>)
    ensures |Flat(ss)| >= |ss|
  {
    if ss != [] { FlatLong(ss[..|ss| - 1]); }
  }

  lemma BothLie(v: Bytes, v1: Bytes, p1: int, p2: int, argv: seq<Bytes>, envp: seq<Bytes>)
    requires |v| == |v1| == ARG_SIZE && 0 <= p2 && p2 + |Flat(argv)| == p1 && p1 + |Flat(envp)| <= ARG_SIZE
    requires v1[p1..p1 + |Flat(envp)|] == Flat(envp)
    requires v == v1[..p2] + Flat(argv) + v1[p1..]
    ensures Lies(v, p2, argv + envp)
  {
    FlatSplit(argv, envp);
    Joined(v, v1, p1, p2, Flat(argv), Flat(envp));
  }

  lemma Joined(v: Bytes, v1: Bytes, p1: int, p2: int, a: Bytes, e: Bytes)
    requires |v| == |v1| && 0 <= p2 && p2 + |a| == p1 && p1 + |e| <= |v|
    requires v1[p1..p1 + |e|] == e && v == v1[..p2] + a + v1[p1..]
    ensures v[p2..p1 + |e|] == a + e
  {
    var w, f := v[p2..p1 + |e|], v1[p1..p1 + |e|];
    assert |w| == |a + e| && w[..|a|] == a;
    forall k | 0 <= k < |e|
      ensures w[|a| + k] == e[k]
    {
      assert v[p1 + k] == v1[p1 + k] == f[k];
    }
  }

  lemma Moved(u: Bytes, v: Bytes, p: int, ss: seq<Bytes>)
    requires |u| == TASK_SIZE && |v| == ARG_SIZE && Lies(v, p, ss)
    ensures |Placed(u, v, 0)| == TASK_SIZE && Lies(Placed(u, v, 0), ARG_BASE + p, ss)
  {
    var b := Placed(u, v, 0);
    assert b[ARG_BASE..ARG_BASE + ARG_SIZE] == v;
    SliceOfSlice(b, ARG_BASE, ARG_BASE + ARG_SIZE, p, p + |Flat(ss)|);
  }

  /** do_execve from copy_strings to create_tables, with `free` frames left.  The new program finds
      exactly the strings given, in order, above its tables.  Given 32 frames it fails exactly when the
      strings leave no byte of the 32 pages free, and unless they fill them exactly it fails at an index
      outside the pages. */
  method Execve(argv: seq<Bytes>, envp: seq<Bytes>, free: nat) returns (r: Copying, space: UserSpace, sp: int)
    requires Texts(argv) && Texts(envp)
    ensures var total := |Flat(argv)| + |Flat(envp)|; var p := 0x3bf_fffc - total;
      && (r == Copied ==> total < 131068 && StackHolds(space.bytes, sp, p, argv, envp))
      && (r == Copied ==> sp + 4 * (|argv| + |envp| + 5) == p - p % 4)
      && (r == NoFrame ==> free < 32)
      && (r == NoRoom ==> total == 131068 || |Flat(envp)| == 131068)
      && (r == Outside ==> total > 131068)
  {
    hide Lies, StackHolds, Texts, Placed;
    space := new UserSpace();
    sp := 0;
    var args := new ArgPages(free);
    var p1, first := args.CopyStrings(envp, ARG_SIZE - 4);
    if first != Copied {
      return first, space, 0;
    }
    ghost var v1 := args.View();
    assert v1[p1..p1 + |Flat(envp)|] == Flat(envp);
    var p;
    p, r := args.CopyStrings(argv, p1);
    if r != Copied {
      return r, space, 0;
    }
    if p == 0 {
      return NoRoom, space, 0;
    }
    BothLie(args.View(), v1, p1, p, argv, envp);
    Moved(space.bytes, args.View(), p, argv + envp);
    var limit := space.ChangeLdt(args);
    FlatLong(argv);
    FlatLong(envp);
    p := p + limit - (LIBRARY_SIZE + ARG_SIZE);
    TextsBoth(argv, envp);
    sp := space.CreateTables(p, argv, envp, |argv|, |envp|);
  }

  lemma TextsBoth(argv: seq<Bytes>, envp: seq<Bytes>)
    requires Texts(argv) && Texts(envp)
    ensures Texts(argv + envp)
  {
  }

  /** The words at the stack pointer. */
  ghost predicate Header(u: Bytes, sp: int, argc: int, argTable: int, envTable: int) {
    WordAt(u, sp, argc) && WordAt(u, sp + 4, argTable) && WordAt(u, sp + 8, envTable)
  }

  /** The pointers of a table lead to addresses from `p` on. */
  ghost predicate NotBelow(u: Bytes, table: int, n: int, p: int) {
    0 <= table && table + 4 * n <= |u| && forall i :: 0 <= i < n ==> Entry(u, table, i) >= p
  }

  /** What a program finds at its stack pointer: the count of its arguments, and two tables, next to
      each other, that lead to the arguments and to the environment.  The tables end below `p`, and all
      strings lie from `p` on. */
  ghost predicate StackHolds(u: Bytes, sp: int, p: int, argv: seq<Bytes>, envp: seq<Bytes>) {
    var argTable := sp + 12;
    var envTable := argTable + 4 * (|argv| + 1);
    && Header(u, sp, |argv|, argTable, envTable) && LeadsTo(u, argTable, argv) && LeadsTo(u, envTable, envp)
    && envTable + 4 * (|envp| + 1) <= p && NotBelow(u, argTable, |argv|, p) && NotBelow(u, envTable, |envp|, p)
  }

  lemma LiesInside(u: Bytes, base: int, ss: seq<Bytes>)
    requires Lies(u, base, ss)
    ensures 0 <= base <= |u|
  {
  }

  lemma StartFirst(base: int, ss: seq<Bytes>)
    ensures Start(base, ss, 0) == base
  {
    assert ss[..0] == [];
  }

  lemma Inside(u0: Bytes, u1: Bytes, u2: Bytes, u3: Bytes, sp: int, p: int, t: int, e: int, z: int)
    requires SameOutside(u0, u1, sp, sp + 12) && SameOutside(u1, u2, t, e) && SameOutside(u2, u3, e, z)
    requires sp + 12 <= t <= e <= z <= p
    ensures SameOutside(u0, u3, sp, p)
  {
  }

  lemma HeaderKept(u: Bytes, v: Bytes, a: int, b: int, sp: int, argc: int, argTable: int, envTable: int)
    requires Header(u, sp, argc, argTable, envTable) && SameOutside(u, v, a, b) && sp + 12 <= a
    ensures Header(v, sp, argc, argTable, envTable)
  {
  }

  lemma SliceKept(u: Bytes, v: Bytes, a: int, b: int, from: int, to: int)
    requires 0 <= from <= to <= |u| && SameOutside(u, v, a, b) && to <= a
    ensures |v| == |u| && v[from..to] == u[from..to]
  {
  }

  lemma TablesHold(u1: Bytes, u2: Bytes, u3: Bytes, sp: int, p: int, argv: seq<Bytes>, envp: seq<Bytes>)
    requires Texts(argv + envp) && Lies(u2, p, argv + envp)
    requires sp >= 0 && sp + 4 * (|argv| + |envp| + 5) <= p && |u1| == |u2| == |u3|
    requires Header(u1, sp, |argv|, sp + 12, sp + 16 + 4 * |argv|)
    requires SameOutside(u1, u2, sp + 12, sp + 16 + 4 * |argv|)
    requires Points(u2, sp + 12, |argv|, p, argv + envp, 0)
    requires u2[sp + 12 + 4 * |argv|..sp + 16 + 4 * |argv|] == [0, 0, 0, 0]
    requires SameOutside(u2, u3, sp + 16 + 4 * |argv|, sp + 20 + 4 * |argv| + 4 * |envp|)
    requires Points(u3, sp + 16 + 4 * |argv|, |envp|, p, argv + envp, |argv|)
    requires u3[sp + 16 + 4 * |argv| + 4 * |envp|..sp + 20 + 4 * |argv| + 4 * |envp|] == [0, 0, 0, 0]
    ensures StackHolds(u3, sp, p, argv, envp)
  {
    hide Header, Points, Lies, Entry, Long, Start, Texts, LeadsTo, SameOutside;
    var argTable, envTable, end := sp + 12, sp + 16 + 4 * |argv|, sp + 20 + 4 * |argv| + 4 * |envp|;
    HeaderKept(u1, u2, argTable, envTable, sp, |argv|, argTable, envTable);
    HeaderKept(u2, u3, envTable, end, sp, |argv|, argTable, envTable);
    PointsKept(u2, u3, envTable, end, argTable, |argv|, p, argv + envp, 0);
    LiesKept(u2, u3, envTable, end, p, argv + envp);
    LiesInside(u2, p, argv + envp);
    SliceKept(u2, u3, envTable, end, argTable + 4 * |argv|, argTable + 4 * |argv| + 4);
    assert argv == (argv + envp)[0..0 + |argv|] && envp == (argv + envp)[|argv|..|argv| + |envp|];
    PointsLead(u3, argTable, p, argv + envp, 0, argv);
    PointsLead(u3, envTable, p, argv + envp, |argv|, envp);
  }

  lemma TailNext(ss: seq<Bytes>, i: int)
    requires 0 <= i < |ss|
    ensures Flat(ss[i..]) == ss[i] + [0] + Flat(ss[i + 1..])
  {
    assert ss[i..] == [ss[i]] + ss[i + 1..];
    FlatSplit([ss[i]], ss[i + 1..]);
    assert [ss[i]][..0] == [];
    assert Flat([ss[i]]) == ss[i] + [0];
  }
}
