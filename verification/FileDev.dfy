/** Reading and writing regular files (fs/file_dev.c).  No device errors. */
module FileDev {
  import opened ZoneTree
  import opened Disks
  import opened Truncation
  import opened InodeMap

  const ERROR: int := 99
  const MAX_SIZE: nat := MAX_BLOCKS * BLOCK_SIZE

  class File {
    var pos: nat
    const append: bool

    constructor (pos: nat, append: bool)
      ensures this.pos == pos && this.append == append
    {
      this.pos := pos;
      this.append := append;
    }
  }

  /** The bytes of a file in a range of offsets. */
  function Slice(s: State, f: nat, pos: nat, n: nat): seq<int>
    requires f < |s.inodes| && pos + n <= MAX_SIZE
  {
    seq(n, i requires 0 <= i < n => FileByte(s, f, pos + i))
  }

  /** Reads `count` bytes at the file position and advances it.  The size of the
      file plays no part: beyond it there are only holes. */
  method FileRead(d: Disk, f: nat, filp: File, count: int) returns (r: int, buf: seq<int>)
    requires d.Valid() && f < d.inodes.Length
    requires count > 0 ==> filp.pos + count <= MAX_SIZE
    modifies d, d.bits, d.blocks, d.inodes, filp
    ensures d.Valid() && d.Snap() == old(d.Snap()) && d.own == old(d.own)
    ensures r == |buf| && r == (if count > 0 then count else 0)
    ensures count > 0 ==> buf == Slice(d.Snap(), f, old(filp.pos), count)
    ensures filp.pos == old(filp.pos) + r
  {
    buf := [];
    if count <= 0 { return 0, buf; }
    ghost var s, own, start := d.Snap(), d.own, filp.pos;
    var left := count;
    while left > 0
      invariant 0 <= left <= count
      invariant d.Valid() && d.Snap() == s && d.own == own
      invariant filp.pos == start + (count - left)
      invariant |buf| == count - left
      invariant forall i :: 0 <= i < |buf| ==> buf[i] == FileByte(s, f, start + i)
    {
      var z := BlockMap(d, f, filp.pos / BLOCK_SIZE, false);
      var off := filp.pos % BLOCK_SIZE;
      var chars := if BLOCK_SIZE - off < left then BLOCK_SIZE - off else left;
      ghost var p := filp.pos;
      filp.pos := filp.pos + chars;
      left := left - chars;
      LeafLocWf(s, f, p / BLOCK_SIZE);
      assert z != 0 ==> z in own;
      var k := 0;
      while k < chars
        invariant 0 <= k <= chars
        invariant |buf| == p - start + k
        invariant forall i :: 0 <= i < |buf| ==> buf[i] == FileByte(s, f, start + i)
        modifies {}
      {
        assert (p + k) / BLOCK_SIZE == p / BLOCK_SIZE && (p + k) % BLOCK_SIZE == off + k;
        buf := buf + [if z != 0 then GetByte(d.blocks[z], off + k) else 0];
        k := k + 1;
      }
    }
    r := if count - left != 0 then count - left else -ERROR;
  }

  /** What a write of `data` at offset `pos` of file `f` leaves behind. */
  ghost predicate Overlaid(s: State, t: State, f: nat, pos: nat, data: seq<byte>)
    requires f < |s.inodes|
  {
    && SameShape(s, t)
    && (forall g :: 0 <= g < |s.inodes| ==> t.inodes[g].kind == s.inodes[g].kind)
    && (forall g :: 0 <= g < |s.inodes| && g != f ==> t.inodes[g].size == s.inodes[g].size)
    && (t.inodes[f].size == if data != [] && pos + |data| > s.inodes[f].size then pos + |data| else s.inodes[f].size)
    && (forall g: nat, o: nat :: g < |s.inodes| && o / BLOCK_SIZE < MAX_BLOCKS ==>
          FileByte(t, g, o) == if g == f && pos <= o < pos + |data| then data[o - pos] else FileByte(s, g, o))
  }

  /** Copies `data` into the block of zone `z`, from byte `c` on. */
  method CopyIn(d: Disk, f: nat, ghost n: nat, z: int, c: nat, data: seq<byte>)
    requires d.Valid() && f < d.inodes.Length && n < MAX_BLOCKS && z == ZoneOf(d.Snap(), f, n) != 0
    requires c + |data| <= BLOCK_SIZE
    modifies d.blocks
    ensures d.Valid()
    ensures forall g: nat, o: nat :: g < d.inodes.Length && o / BLOCK_SIZE < MAX_BLOCKS ==>
      FileByte(d.Snap(), g, o) == if g == f && n * BLOCK_SIZE + c <= o < n * BLOCK_SIZE + c + |data|
        then data[o - n * BLOCK_SIZE - c] else FileByte(old(d.Snap()), g, o)
    ensures d.Snap() == old(d.Snap()).(blocks := d.blocks[..])
  {
    ghost var s := d.Snap();
    LeafLocWf(s, f, n);
    assert z in d.own;
    var k := 0;
    while k < |data|
      invariant 0 <= k <= |data|
      invariant d.Snap() == s.(blocks := s.blocks[z := d.blocks[z]])
      invariant forall o :: 0 <= o < BLOCK_SIZE ==>
        GetByte(d.blocks[z], o) == if c <= o < c + k then data[o - c] else GetByte(s.blocks[z], o)
    {
      ghost var b := d.blocks[z];
      d.blocks[z] := SetByte(d.blocks[z], c + k, data[k]);
      forall o | 0 <= o < BLOCK_SIZE
        ensures GetByte(d.blocks[z], o) == if o == c + k then data[k] else GetByte(b, o)
      {
        ByteLaws(b, c + k, data[k], o);
      }
      k := k + 1;
    }
    Store(s, d.own, f, n, d.blocks[z]);
  }

  /** The size grows to `end` if it was smaller. */
  method GrowTo(d: Disk, f: nat, end: nat)
    requires d.Valid() && f < d.inodes.Length
    modifies d.inodes
    ensures d.Valid() && d.own == old(d.own) && SameBytes(old(d.Snap()), d.Snap())
    ensures d.Snap() == if end > old(d.inodes[f].size)
                        then old(d.Snap()).(inodes := old(d.Snap()).inodes[f := old(d.inodes[f]).(size := end)])
                        else old(d.Snap())
    ensures forall n :: 0 <= n < MAX_BLOCKS ==> ZoneOf(d.Snap(), f, n) == ZoneOf(old(d.Snap()), f, n)
  {
    ghost var t := d.Snap();
    if end > d.inodes[f].size {
      SizesDoNotPoint(t, d.own, f, end);
      forall n | 0 <= n < MAX_BLOCKS
        ensures WfLoc(t, LeafLoc(f, n))
      {
        LeafLocWf(t, f, n);
      }
      d.inodes[f] := d.inodes[f].(size := end);
      assert d.Snap() == t.(inodes := t.inodes[f := t.inodes[f].(size := end)]);
    }
  }

  /** One round of the write loop: fills the block at `pos` up to its end or to the
      end of `data`.  The result is the number of bytes stored, 0 when the device is full. */
  method WriteChunk(d: Disk, f: nat, pos: nat, data: seq<byte>) returns (c: nat)
    requires d.Valid() && f < d.inodes.Length && data != [] && pos + |data| <= MAX_SIZE
    modifies d, d.bits, d.blocks, d.inodes
    ensures d.Valid()
    ensures c <= |data| && Overlaid(old(d.Snap()), d.Snap(), f, pos, data[..c])
    ensures c == 0 ==> forall y :: IsDataZone(d.Snap(), y) ==> y in d.own
  {
    hide Owned, ZoneOf, FileByte;
    ghost var s := d.Snap();
    var n := pos / BLOCK_SIZE;
    var z := BlockMap(d, f, n, true);
    if z == 0 {
      return 0;
    }
    var off := pos % BLOCK_SIZE;
    c := if BLOCK_SIZE - off > |data| then |data| else BLOCK_SIZE - off;
    GrowTo(d, f, pos + c);
    assert n * BLOCK_SIZE + off == pos;
    CopyIn(d, f, n, z, off, data[..c]);
  }

  lemma OverlayNothing(s: State, f: nat, pos: nat)
    requires f < |s.inodes|
    ensures Overlaid(s, s, f, pos, [])
  {
  }

  lemma OverlayTrans(s: State, t: State, u: State, f: nat, pos: nat, a: seq<byte>, b: seq<byte>)
    requires f < |s.inodes| && Overlaid(s, t, f, pos, a) && Overlaid(t, u, f, pos + |a|, b)
    ensures Overlaid(s, u, f, pos, a + b)
  {
    forall g: nat, o: nat | g < |s.inodes| && o / BLOCK_SIZE < MAX_BLOCKS
      ensures FileByte(u, g, o) == if g == f && pos <= o < pos + |a + b| then (a + b)[o - pos] else FileByte(s, g, o)
    {
      assert FileByte(t, g, o) == if g == f && pos <= o < pos + |a| then a[o - pos] else FileByte(s, g, o);
    }
  }

  /** Writes `count` bytes at the file position, or at the end of the file in append
      mode.  Exactly the first `i` bytes arrive, and all of them unless the device is full. */
  method FileWrite(d: Disk, f: nat, filp: File, buf: seq<byte>, count: int) returns (r: int, ghost i: nat)
    requires d.Valid() && f < d.inodes.Length && count <= |buf|
    requires count > 0 ==> (if filp.append then d.inodes[f].size else filp.pos) + count <= MAX_SIZE
    modifies d, d.bits, d.blocks, d.inodes, filp
    ensures d.Valid()
    ensures r == (if i == 0 then -1 else i) && i <= |buf|
    ensures var start := old(if filp.append then d.inodes[f].size else filp.pos);
      && Overlaid(old(d.Snap()), d.Snap(), f, start, buf[..i])
      && filp.pos == if filp.append then old(filp.pos) else start + i
    ensures i < count ==> forall y :: IsDataZone(d.Snap(), y) ==> y in d.own
    ensures count >= 0 ==> i <= count
  {
    hide Overlaid, Owned;
    ghost var s := d.Snap();
    OverlayNothing(s, f, if filp.append then d.inodes[f].size else filp.pos);
    var pos := if filp.append then d.inodes[f].size else filp.pos;
    ghost var start := pos;
    var k := 0;
    while k < count
      invariant 0 <= k && (count >= 0 ==> k <= count) && (count < 0 ==> k == 0)
      invariant pos == start + k
      invariant d.Valid() && Overlaid(s, d.Snap(), f, start, buf[..k])
      invariant filp.pos == old(filp.pos)
    {
      ghost var t := d.Snap();
      var c := WriteChunk(d, f, pos, buf[k..count]);
      OverlayTrans(s, t, d.Snap(), f, start, buf[..k], buf[k..count][..c]);
      assert buf[..k] + buf[k..count][..c] == buf[..k + c];
      if c == 0 { break; }
      pos := pos + c;
      k := k + c;
    }
    if !filp.append { filp.pos := pos; }
    i := k;
    r := if k != 0 then k else -1;
  }
}
