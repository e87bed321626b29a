/** Argument strings and pointer tables in memory, as values. */
module Arguments {

  const PAGE_SIZE: int := 4096
  const MAX_ARG_PAGES: int := 32
  const ARG_SIZE: int := 131072        // PAGE_SIZE * MAX_ARG_PAGES
  const TASK_SIZE: int := 0x0400_0000
  const LIBRARY_SIZE: int := 0x0040_0000
  const ARG_BASE: int := TASK_SIZE - LIBRARY_SIZE - ARG_SIZE

  type Bytes = seq<int>

  /** A string without its terminator. */
  predicate Text(s: Bytes) { forall i :: 0 <= i < |s| ==> 1 <= s[i] < 256 }

  predicate Texts(ss: seq<Bytes>) { forall i :: 0 <= i < |ss| ==> Text(ss[i]) }

  /** The strings one after the other, each with its terminator. */
  function Flat(ss: seq<Bytes>): Bytes {
    if ss == [] then [] else Flat(ss[..|ss| - 1]) + ss[|ss| - 1] + [0]
  }

  lemma {:induction false} FlatSplit(a: seq<Bytes>, b: seq<Bytes>)
    ensures Flat(a + b) == Flat(a) + Flat(b)
  {
    if b == [] {
      assert a + b == a;
    } else {
      FlatSplit(a, b[..|b| - 1]);
      assert (a + b)[..|a + b| - 1] == a + b[..|b| - 1];
    }
  }

  lemma FlatNext(ss: seq<Bytes>, i: int)
    requires 0 <= i < |ss|
    ensures Flat(ss[..i + 1]) == Flat(ss[..i]) + ss[i] + [0]
  {
    assert ss[..i + 1][..i] == ss[..i];
  }

  /** Where string `i` lies among the flat bytes. */
  lemma FlatAt(ss: seq<Bytes>, i: int)
    requires 0 <= i < |ss|
    ensures var from, to := |Flat(ss[..i])|, |Flat(ss[..i + 1])|;
      from + |ss[i]| + 1 == to <= |Flat(ss)| && Flat(ss)[from..to] == ss[i] + [0]
  {
    FlatNext(ss, i);
    assert ss == ss[..i + 1] + ss[i + 1..];
    FlatSplit(ss[..i + 1], ss[i + 1..]);
  }

  // ------------------------------------------------------------ long words

  /** get_fs_long, low byte first. */
  function Long(u: Bytes, a: int): int
    requires 0 <= a && a + 4 <= |u|
  {
    u[a] + 0x100 * u[a + 1] + 0x1_0000 * u[a + 2] + 0x100_0000 * u[a + 3]
  }

  /** put_fs_long */
  function Put(u: Bytes, v: int, a: int): (r: Bytes)
    requires 0 <= a && a + 4 <= |u|
    ensures |r| == |u|
  {
    u[a := v % 0x100][a + 1 := v / 0x100 % 0x100][a + 2 := v / 0x1_0000 % 0x100][a + 3 := v / 0x100_0000 % 0x100]
  }

  lemma FourBytes(v: int)
    requires 0 <= v < 0x1_0000_0000
    ensures v == v % 0x100 + 0x100 * (v / 0x100 % 0x100) + 0x1_0000 * (v / 0x1_0000 % 0x100)
                 + 0x100_0000 * (v / 0x100_0000 % 0x100)
  {
  }

  /** The four bytes from `a` on are the word `v` as the processor reads it: the low byte has the lowest address. */
  predicate WordAt(u: Bytes, a: int, v: int) {
    && 0 <= a && a + 4 <= |u|
    && u[a] == v % 256 && u[a + 1] == v / 256 % 256 && u[a + 2] == v / 65536 % 256 && u[a + 3] == v / 16777216 % 256
  }

  lemma PutLong(u: Bytes, v: int, a: int)
    requires 0 <= a && a + 4 <= |u| && 0 <= v < 0x1_0000_0000
    ensures Long(Put(u, v, a), a) == v
    ensures Put(u, v, a)[a..a + 4] == [v % 256, v / 256 % 256, v / 65536 % 256, v / 16777216 % 256]
    ensures forall i :: 0 <= i < |u| && !(a <= i < a + 4) ==> Put(u, v, a)[i] == u[i]
  {
    FourBytes(v);
  }

  // --------------------------------------------------------------- reading

  /** The bytes from `a` up to the first zero. */
  function CString(u: Bytes, a: int): Bytes
    requires 0 <= a
    decreases |u| - a
  {
    if a >= |u| || u[a] == 0 then [] else [u[a]] + CString(u, a + 1)
  }

  lemma {:induction false} CStringIs(u: Bytes, a: int, s: Bytes)
    requires 0 <= a && a + |s| + 1 <= |u| && Text(s) && u[a..a + |s| + 1] == s + [0]
    ensures CString(u, a) == s
    decreases |s|
  {
    var w := u[a..a + |s| + 1];
    assert w[0] == u[a];
    if s != [] {
      assert u[a + 1..a + 1 + |s[1..]| + 1] == w[1..] == s[1..] + [0];
      CStringIs(u, a + 1, s[1..]);
    }
  }

  /** Entry `i` of a table of pointers. */
  function Entry(u: Bytes, table: int, i: int): int
    requires 0 <= table && 0 <= i && table + 4 * i + 4 <= |u|
  {
    Long(u, table + 4 * i)
  }

  /** The table at `table` leads to exactly the strings `ss`, and ends with a null pointer. */
  ghost predicate LeadsTo(u: Bytes, table: int, ss: seq<Bytes>) {
    && 0 <= table && table + 4 * |ss| + 4 <= |u|
    && (forall i :: 0 <= i < |ss| ==>
          && 0 <= Entry(u, table, i) && CString(u, Entry(u, table, i)) == ss[i]
          && WordAt(u, table + 4 * i, Entry(u, table, i)))
    && u[table + 4 * |ss|..table + 4 * |ss| + 4] == [0, 0, 0, 0]
  }
}
