/** The on-disk state of the Minix block layer: the zone bitmap, the device
    blocks and the nine zone pointers of every inode, seen as one value.

    An index block and a block of file data are the same kind of thing: 512
    little-endian 16-bit words.  Which blocks are index blocks is decided only by
    the pointers that reach them, so that keeping a file's bytes apart from its
    own index blocks, and from those of other files, has to be proved. */
module ZoneTree {

  const BLOCK_SIZE: nat := 1024
  const MAX_BLOCKS: nat := 7 + 512 + 512 * 512

  type byte = b: int | 0 <= b < 256
  type Block = b: seq<int> | |b| == 512 witness seq(512, _ => 0)
  type ZoneTable = z: seq<int> | |z| == 9 witness seq(9, _ => 0)

  datatype Kind = Regular | Directory | Link | Other
  datatype Inode = Inode(zone: ZoneTable, size: nat, kind: Kind)

  datatype State = State(blocks: seq<Block>, bits: seq<bool>, inodes: seq<Inode>, first: int, nzones: int)

  /** A place that holds a zone number: a pointer in an inode, an entry of the
      block behind pointer 7 or 8, or an entry one level further down. */
  datatype Loc =
    | Top(f: nat, i: nat)
    | Mid(f: nat, i: nat, k: nat)
    | Low(f: nat, k: nat, l: nat)

  function ZeroBlock(): Block { seq(512, _ => 0) }

  predicate WfLoc(s: State, l: Loc) {
    && l.f < |s.inodes|
    && match l
       case Top(_, i) => i < 9
       case Mid(_, i, k) => (i == 7 || i == 8) && k < 512
       case Low(_, k, l) => k < 512 && l < 512
  }

  function Blk(s: State, z: int): Block {
    if 0 <= z < |s.blocks| then s.blocks[z] else ZeroBlock()
  }

  predicate HasParent(l: Loc) { !l.Top? }

  /** The location of the zone number of the block that contains `l`. */
  function Parent(l: Loc): Loc
    requires HasParent(l)
  {
    match l
    case Mid(f, i, _) => Top(f, i)
    case Low(f, k, _) => Mid(f, 8, k)
  }

  function IndexIn(l: Loc): nat {
    match l
    case Top(_, i) => i
    case Mid(_, _, k) => k
    case Low(_, _, j) => j
  }

  function Depth(l: Loc): nat { if l.Top? then 0 else if l.Mid? then 1 else 2 }

  predicate IsChild(c: Loc, l: Loc) { HasParent(c) && Parent(c) == l }

  /** The zone number stored at a location, 0 when the path to it is missing. */
  function Ptr(s: State, l: Loc): int
    requires WfLoc(s, l)
    decreases Depth(l)
  {
    if l.Top? then s.inodes[l.f].zone[l.i]
    else
      var p := Ptr(s, Parent(l));
      if p == 0 then 0 else Blk(s, p)[IndexIn(l)]
  }

  function BitOf(s: State, z: int): int { z - s.first + 1 }

  predicate Geometry(s: State) {
    && 1 <= s.first <= s.nzones <= 65536
    && |s.blocks| == s.nzones
    && s.nzones - s.first + 1 <= |s.bits|
  }

  predicate IsDataZone(s: State, z: int) { s.first <= z < s.nzones }

  /** `own` is the inverse of `Ptr`: the only place that refers to each zone in
      use.  The bitmap holds exactly the zones of `own`; bit 0 stands for no zone
      and is always set. */
  ghost predicate Owned(s: State, own: map<int, Loc>) {
    && Geometry(s)
    && s.bits[0]
    && (forall z :: z in own ==> IsDataZone(s, z) && WfLoc(s, own[z]) && Ptr(s, own[z]) == z)
    && (forall l: Loc :: WfLoc(s, l) && Ptr(s, l) != 0 ==> Ptr(s, l) in own && own[Ptr(s, l)] == l)
    && (forall z :: IsDataZone(s, z) ==> (s.bits[BitOf(s, z)] <==> z in own))
  }

  // ---------------------------------------------------------------- updates

  /** Store zone number `z` at location `l`. */
  function SetPtr(s: State, l: Loc, z: int): State
    requires WfLoc(s, l)
    requires HasParent(l) ==> 0 < Ptr(s, Parent(l)) < |s.blocks|
  {
    match l
    case Top(f, i) =>
      var ino := s.inodes[f];
      s.(inodes := s.inodes[f := ino.(zone := ino.zone[i := z])])
    case _ =>
      var p := Ptr(s, Parent(l));
      s.(blocks := s.blocks[p := s.blocks[p][IndexIn(l) := z]])
  }

  /** Mark a zone as taken and clear its block. */
  function Claim(s: State, z: int): State
    requires Geometry(s) && IsDataZone(s, z)
  {
    s.(bits := s.bits[BitOf(s, z) := true], blocks := s.blocks[z := ZeroBlock()])
  }

  /** Mark a zone as free; what its block holds afterwards is arbitrary. */
  function Release(s: State, z: int, junk: Block): State
    requires Geometry(s) && IsDataZone(s, z)
  {
    s.(bits := s.bits[BitOf(s, z) := false], blocks := s.blocks[z := junk])
  }

  /** No file other than `f` gained, lost or changed a zone. */
  ghost predicate OthersKept(s: State, own: map<int, Loc>, t: State, own': map<int, Loc>, f: nat) {
    && SameShape(s, t)
    && (forall g :: 0 <= g < |s.inodes| && g != f ==> t.inodes[g] == s.inodes[g])
    && (forall z :: z in own && own[z].f != f ==> z in own' && own'[z] == own[z] && Blk(t, z) == Blk(s, z))
    && (forall z :: z in own' && own'[z].f != f ==> z in own)
  }

  predicate SameShape(s: State, t: State) {
    && |t.inodes| == |s.inodes| && t.first == s.first && t.nzones == s.nzones
    && |t.bits| == |s.bits| && |t.blocks| == |s.blocks|
  }

  // ------------------------------------------------------------ file contents

  /** The location of the pointer to block `n` of file `f`. */
  function LeafLoc(f: nat, n: nat): Loc {
    if n < 7 then Top(f, n)
    else if n < 519 then Mid(f, 7, n - 7)
    else Low(f, (n - 519) / 512, (n - 519) % 512)
  }

  /** The zone of block `n` of file `f`, 0 for a hole. */
  function ZoneOf(s: State, f: nat, n: nat): int
    requires f < |s.inodes| && n < MAX_BLOCKS
  {
    Ptr(s, LeafLoc(f, n))
  }

  function GetByte(b: Block, o: nat): int
    requires o < BLOCK_SIZE
  {
    if o % 2 == 0 then b[o / 2] % 256 else b[o / 2] / 256
  }

  function SetByte(b: Block, o: nat, v: byte): Block
    requires o < BLOCK_SIZE
  {
    b[o / 2 := if o % 2 == 0 then b[o / 2] / 256 * 256 + v else b[o / 2] % 256 + 256 * v]
  }

  /** The byte at offset `o` of file `f`; holes read as zero. */
  function FileByte(s: State, f: nat, o: nat): int
    requires f < |s.inodes| && o / BLOCK_SIZE < MAX_BLOCKS
  {
    var z := ZoneOf(s, f, o / BLOCK_SIZE);
    if z == 0 then 0 else GetByte(Blk(s, z), o % BLOCK_SIZE)
  }

  ghost predicate SameBytes(s: State, t: State) {
    && |t.inodes| == |s.inodes|
    && forall f: nat, o: nat :: f < |s.inodes| && o / BLOCK_SIZE < MAX_BLOCKS ==> FileByte(t, f, o) == FileByte(s, f, o)
  }

  lemma ByteLaws(b: Block, o: nat, v: byte, p: nat)
    requires o < BLOCK_SIZE && p < BLOCK_SIZE
    ensures GetByte(SetByte(b, o, v), p) == if p == o then v else GetByte(b, p)
  {
  }

  /** A word of a block on the device is two bytes of the file, the low one first. */
  lemma WordsAreBytes(s: State, f: nat, n: nat, i: nat)
    requires f < |s.inodes| && n < MAX_BLOCKS && i < 512 && ZoneOf(s, f, n) != 0
    ensures (1024 * n + 2 * i + 1) / 1024 == n == (1024 * n + 2 * i) / 1024
    ensures FileByte(s, f, 1024 * n + 2 * i) == Blk(s, ZoneOf(s, f, n))[i] % 256
    ensures FileByte(s, f, 1024 * n + 2 * i + 1) == Blk(s, ZoneOf(s, f, n))[i] / 256
  {
    hide ZoneOf;
    Offset(n, 2 * i);
    Offset(n, 2 * i + 1);
  }

  lemma Offset(n: nat, k: nat)
    requires k < 1024
    ensures (1024 * n + k) / 1024 == n && (1024 * n + k) % 1024 == k
  {
  }

  lemma LeafLocWf(s: State, f: nat, n: nat)
    requires f < |s.inodes| && n < MAX_BLOCKS
    ensures WfLoc(s, LeafLoc(f, n))
  {
  }

  lemma LeafLocInjective(f: nat, m: nat, g: nat, n: nat)
    requires LeafLoc(f, m) == LeafLoc(g, n)
    ensures f == g && m == n
  {
  }

  // ------------------------------------------------------------------ lemmas

  /** The bit of a data zone is set exactly when one and only one pointer on the
      device refers to it. */
  lemma BitmapAgreesWithTrees(s: State, own: map<int, Loc>, z: int)
    requires Owned(s, own) && IsDataZone(s, z)
    ensures s.bits[BitOf(s, z)] <==> exists l: Loc :: WfLoc(s, l) && Ptr(s, l) == z
    ensures forall l1: Loc, l2: Loc :: WfLoc(s, l1) && WfLoc(s, l2) && Ptr(s, l1) == z && Ptr(s, l2) == z ==> l1 == l2
  {
    if z in own {
      assert WfLoc(s, own[z]) && Ptr(s, own[z]) == z;
    }
  }

  /** Claiming a zone that nothing refers to moves no pointer. */
  lemma {:induction false} ClaimOther(s: State, own: map<int, Loc>, z: int, m: Loc)
    requires Owned(s, own) && IsDataZone(s, z) && z !in own && WfLoc(s, m)
    ensures Ptr(Claim(s, z), m) == Ptr(s, m)
    decreases Depth(m)
  {
    if HasParent(m) {
      ClaimOther(s, own, z, Parent(m));
    }
  }

  lemma {:induction false} AttachOther(s: State, own: map<int, Loc>, l: Loc, z: int, m: Loc)
    requires Owned(s, own) && WfLoc(s, l) && Ptr(s, l) == 0
    requires IsDataZone(s, z) && z !in own
    requires HasParent(l) ==> Ptr(s, Parent(l)) != 0 && Ptr(Claim(s, z), Parent(l)) == Ptr(s, Parent(l))
    requires WfLoc(s, m)
    ensures HasParent(l) ==> 0 < Ptr(Claim(s, z), Parent(l)) < |s.blocks|
    ensures Ptr(SetPtr(Claim(s, z), l, z), m) == if m == l then z else Ptr(s, m)
    decreases Depth(m)
  {
    var t := SetPtr(Claim(s, z), l, z);
    if HasParent(m) {
      var pm := Parent(m);
      AttachOther(s, own, l, z, pm);
      if pm == l {
        assert Blk(t, z) == ZeroBlock();
      } else if Ptr(s, pm) != 0 {
        assert own[Ptr(s, pm)] == pm;
        if HasParent(l) {
          assert own[Ptr(s, Parent(l))] == Parent(l);
        }
      }
    }
  }

  lemma AttachPointers(s: State, own: map<int, Loc>, l: Loc, z: int)
    requires Owned(s, own) && WfLoc(s, l) && Ptr(s, l) == 0
    requires HasParent(l) ==> Ptr(s, Parent(l)) != 0
    requires IsDataZone(s, z) && z !in own
    ensures HasParent(l) ==> 0 < Ptr(Claim(s, z), Parent(l)) == Ptr(s, Parent(l)) < |s.blocks|
    ensures forall m: Loc :: WfLoc(s, m) ==> Ptr(SetPtr(Claim(s, z), l, z), m) == if m == l then z else Ptr(s, m)
  {
    if HasParent(l) { ClaimOther(s, own, z, Parent(l)); }
    hide Owned, Ptr, Claim, SetPtr;
    forall m: Loc | WfLoc(s, m)
      ensures Ptr(SetPtr(Claim(s, z), l, z), m) == if m == l then z else Ptr(s, m)
    {
      AttachOther(s, own, l, z, m);
    }
  }

  /** Hanging a freshly claimed zone at an empty place whose path exists adds
      exactly that pointer. */
  lemma Attach(s: State, own: map<int, Loc>, l: Loc, z: int)
    requires Owned(s, own) && WfLoc(s, l) && Ptr(s, l) == 0
    requires HasParent(l) ==> Ptr(s, Parent(l)) != 0
    requires IsDataZone(s, z) && z !in own
    ensures HasParent(l) ==> 0 < Ptr(Claim(s, z), Parent(l)) == Ptr(s, Parent(l)) < |s.blocks|
    ensures var t := SetPtr(Claim(s, z), l, z);
      && Owned(t, own[z := l])
      && Ptr(t, l) == z
      && (forall m: Loc :: WfLoc(s, m) && m != l ==> Ptr(t, m) == Ptr(s, m))
  {
    AttachPointers(s, own, l, z);
    hide Ptr, Owned;
    OwnedMore(s, own, SetPtr(Claim(s, z), l, z), l, z);
  }

  /** One pointer and its bit are new. */
  lemma OwnedMore(s: State, own: map<int, Loc>, t: State, l: Loc, z: int)
    requires Owned(s, own) && WfLoc(s, l) && Ptr(s, l) == 0 && SameShape(s, t)
    requires IsDataZone(s, z) && z !in own && t.bits == s.bits[BitOf(s, z) := true]
    requires forall m: Loc :: WfLoc(s, m) ==> Ptr(t, m) == if m == l then z else Ptr(s, m)
    ensures Owned(t, own[z := l])
  {
    hide Ptr;
    var more := own[z := l];
    forall y | y in more
      ensures WfLoc(t, more[y]) && Ptr(t, more[y]) == y
    {
      if y != z { assert WfLoc(s, own[y]) && own[y] != l; }
    }
    forall m: Loc | WfLoc(t, m) && Ptr(t, m) != 0
      ensures Ptr(t, m) in more && more[Ptr(t, m)] == m
    {
      assert WfLoc(s, m);
    }
  }

  /** Attaching a zone changes the bytes of no file: a hole already read as zero. */
  lemma AttachKeepsBytes(s: State, own: map<int, Loc>, l: Loc, z: int)
    requires Owned(s, own) && WfLoc(s, l) && Ptr(s, l) == 0
    requires HasParent(l) ==> Ptr(s, Parent(l)) != 0
    requires IsDataZone(s, z) && z !in own
    ensures HasParent(l) ==> 0 < Ptr(Claim(s, z), Parent(l)) < |s.blocks|
    ensures SameBytes(s, SetPtr(Claim(s, z), l, z))
  {
    Attach(s, own, l, z);
    var t := SetPtr(Claim(s, z), l, z);
    forall f: nat, o: nat | f < |s.inodes| && o / BLOCK_SIZE < MAX_BLOCKS
      ensures FileByte(t, f, o) == FileByte(s, f, o)
    {
      var m := LeafLoc(f, o / BLOCK_SIZE);
      LeafLocWf(s, f, o / BLOCK_SIZE);
      if m == l {
        assert Blk(t, z) == ZeroBlock();
      } else if Ptr(s, m) != 0 {
        assert own[Ptr(s, m)] == m;
        if HasParent(l) {
          assert own[Ptr(s, Parent(l))] == Parent(l);
          NoLeafIsAParent(l, f, o / BLOCK_SIZE);
        }
      }
    }
  }

  /** The location of a data block is never the location of an index block. */
  lemma NoLeafIsAParent(l: Loc, f: nat, n: nat)
    requires HasParent(l) && (l.Mid? ==> l.i == 7 || l.i == 8)
    ensures LeafLoc(f, n) != Parent(l)
  {
  }

  lemma {:induction false} DetachOther(s: State, own: map<int, Loc>, l: Loc, junk: Block, m: Loc)
    requires Owned(s, own) && WfLoc(s, l) && Ptr(s, l) != 0
    requires forall c: Loc :: WfLoc(s, c) && IsChild(c, l) ==> Ptr(s, c) == 0
    requires HasParent(l) ==> Ptr(Release(s, Ptr(s, l), junk), Parent(l)) == Ptr(s, Parent(l))
    requires WfLoc(s, m)
    ensures HasParent(l) ==> 0 < Ptr(s, Parent(l)) < |s.blocks|
    ensures Ptr(SetPtr(Release(s, Ptr(s, l), junk), l, 0), m) == if m == l then 0 else Ptr(s, m)
    decreases Depth(m)
  {
    var z := Ptr(s, l);
    var t := SetPtr(Release(s, z, junk), l, 0);
    if HasParent(m) {
      var pm := Parent(m);
      DetachOther(s, own, l, junk, pm);
      if pm != l && Ptr(s, pm) != 0 {
        assert own[Ptr(s, pm)] == pm;
        assert own[z] == l;
        if HasParent(l) {
          assert own[Ptr(s, Parent(l))] == Parent(l);
        }
      }
    }
  }

  lemma {:induction false} ReleaseAbove(s: State, own: map<int, Loc>, l: Loc, junk: Block, m: Loc)
    requires Owned(s, own) && WfLoc(s, l) && Ptr(s, l) != 0
    requires WfLoc(s, m) && Depth(m) <= Depth(l)
    ensures Ptr(Release(s, Ptr(s, l), junk), m) == Ptr(s, m)
    decreases Depth(m)
  {
    if HasParent(m) {
      ReleaseAbove(s, own, l, junk, Parent(m));
      if Ptr(s, Parent(m)) != 0 {
        assert own[Ptr(s, Parent(m))] == Parent(m);
        assert own[Ptr(s, l)] == l;
      }
    }
  }

  lemma DetachPointers(s: State, own: map<int, Loc>, l: Loc, junk: Block)
    requires Owned(s, own) && WfLoc(s, l) && Ptr(s, l) != 0
    requires forall c: Loc :: WfLoc(s, c) && IsChild(c, l) ==> Ptr(s, c) == 0
    ensures HasParent(l) ==> 0 < Ptr(Release(s, Ptr(s, l), junk), Parent(l)) == Ptr(s, Parent(l)) < |s.blocks|
    ensures forall m: Loc :: WfLoc(s, m) ==>
      Ptr(SetPtr(Release(s, Ptr(s, l), junk), l, 0), m) == if m == l then 0 else Ptr(s, m)
  {
    if HasParent(l) { ReleaseAbove(s, own, l, junk, Parent(l)); }
    hide Ptr, Release, SetPtr;
    forall m: Loc | WfLoc(s, m)
      ensures Ptr(SetPtr(Release(s, Ptr(s, l), junk), l, 0), m) == if m == l then 0 else Ptr(s, m)
    {
      DetachOther(s, own, l, junk, m);
    }
  }

  /** Freeing a zone without children and clearing the pointer to it removes
      exactly that pointer, whatever becomes of the freed block. */
  lemma Detach(s: State, own: map<int, Loc>, l: Loc, junk: Block)
    requires Owned(s, own) && WfLoc(s, l) && Ptr(s, l) != 0
    requires forall c: Loc :: WfLoc(s, c) && IsChild(c, l) ==> Ptr(s, c) == 0
    ensures HasParent(l) ==> 0 < Ptr(Release(s, Ptr(s, l), junk), Parent(l)) == Ptr(s, Parent(l)) < |s.blocks|
    ensures var t := SetPtr(Release(s, Ptr(s, l), junk), l, 0);
      && Owned(t, own - {Ptr(s, l)})
      && Ptr(t, l) == 0
      && (forall m: Loc :: WfLoc(s, m) && m != l ==> Ptr(t, m) == Ptr(s, m))
  {
    DetachPointers(s, own, l, junk);
    assert IsDataZone(s, Ptr(s, l));
    hide Ptr, Owned;
    OwnedLess(s, own, SetPtr(Release(s, Ptr(s, l), junk), l, 0), l);
  }

  /** One pointer and its bit are gone. */
  lemma OwnedLess(s: State, own: map<int, Loc>, t: State, l: Loc)
    requires Owned(s, own) && WfLoc(s, l) && Ptr(s, l) != 0 && SameShape(s, t)
    requires IsDataZone(s, Ptr(s, l)) && t.bits == s.bits[BitOf(s, Ptr(s, l)) := false]
    requires forall m: Loc :: WfLoc(s, m) ==> Ptr(t, m) == if m == l then 0 else Ptr(s, m)
    ensures Owned(t, own - {Ptr(s, l)})
  {
    hide Ptr;
    var z, less := Ptr(s, l), own - {Ptr(s, l)};
    assert own[z] == l;
    forall y | y in less
      ensures WfLoc(t, less[y]) && Ptr(t, less[y]) == y
    {
      assert less[y] == own[y] && WfLoc(s, own[y]);
    }
    forall m: Loc | WfLoc(t, m) && Ptr(t, m) != 0
      ensures Ptr(t, m) in less && less[Ptr(t, m)] == m
    {
      assert WfLoc(s, m);
    }
  }

  lemma DetachKeepsOthers(s: State, own: map<int, Loc>, l: Loc, junk: Block)
    requires Owned(s, own) && WfLoc(s, l) && Ptr(s, l) != 0
    requires HasParent(l) ==> Ptr(Release(s, Ptr(s, l), junk), Parent(l)) == Ptr(s, Parent(l))
    ensures HasParent(l) ==> 0 < Ptr(s, Parent(l)) < |s.blocks|
    ensures OthersKept(s, own, SetPtr(Release(s, Ptr(s, l), junk), l, 0), own - {Ptr(s, l)}, l.f)
  {
    assert own[Ptr(s, l)] == l;
    if HasParent(l) {
      assert own[Ptr(s, Parent(l))] == Parent(l);
    }
  }

  /** Storing bytes into a data block moves no pointer, and shows in that block only. */
  lemma Store(s: State, own: map<int, Loc>, f: nat, n: nat, b: Block)
    requires Owned(s, own) && f < |s.inodes| && n < MAX_BLOCKS && ZoneOf(s, f, n) != 0
    ensures var t := s.(blocks := s.blocks[ZoneOf(s, f, n) := b]);
      && Owned(t, own)
      && (forall m: Loc :: WfLoc(s, m) ==> Ptr(t, m) == Ptr(s, m))
      && (forall g: nat, o: nat :: g < |s.inodes| && o / BLOCK_SIZE < MAX_BLOCKS ==>
            FileByte(t, g, o) == if g == f
              && o / BLOCK_SIZE == n then GetByte(b, o % BLOCK_SIZE) else FileByte(s, g, o))
  {
    hide GetByte, FileByte;
    var z := ZoneOf(s, f, n);
    LeafLocWf(s, f, n);
    var t := s.(blocks := s.blocks[z := b]);
    forall m: Loc | WfLoc(s, m) ensures Ptr(t, m) == Ptr(s, m) {
      StoreOther(s, own, f, n, b, m);
    }
    forall g: nat, o: nat | g < |s.inodes| && o / BLOCK_SIZE < MAX_BLOCKS
      ensures FileByte(t, g, o) == if g == f
        && o / BLOCK_SIZE == n then GetByte(b, o % BLOCK_SIZE) else FileByte(s, g, o)
    {
      StoredByte(s, own, f, n, b, g, o);
    }
  }

  lemma StoredByte(s: State, own: map<int, Loc>, f: nat, n: nat, b: Block, g: nat, o: nat)
    requires Owned(s, own) && f < |s.inodes| && n < MAX_BLOCKS && ZoneOf(s, f, n) != 0
    requires g < |s.inodes| && o / BLOCK_SIZE < MAX_BLOCKS
    ensures 0 <= ZoneOf(s, f, n) < |s.blocks|
    ensures var t := s.(blocks := s.blocks[ZoneOf(s, f, n) := b]);
      FileByte(t, g, o) == if g == f
        && o / BLOCK_SIZE == n then GetByte(b, o % BLOCK_SIZE) else FileByte(s, g, o)
  {
    hide GetByte;
    LeafLocWf(s, f, n);
    LeafLocWf(s, g, o / BLOCK_SIZE);
    StoreOther(s, own, f, n, b, LeafLoc(g, o / BLOCK_SIZE));
    if ZoneOf(s, g, o / BLOCK_SIZE) == ZoneOf(s, f, n) { LeafLocInjective(f, n, g, o / BLOCK_SIZE); }
  }

  lemma {:induction false} StoreOther(s: State, own: map<int, Loc>, f: nat, n: nat, b: Block, m: Loc)
    requires Owned(s, own) && f < |s.inodes| && n < MAX_BLOCKS && ZoneOf(s, f, n) != 0
    requires WfLoc(s, m)
    ensures 0 < ZoneOf(s, f, n) < |s.blocks|
    ensures Ptr(s.(blocks := s.blocks[ZoneOf(s, f, n) := b]), m) == Ptr(s, m)
    decreases Depth(m)
  {
    LeafLocWf(s, f, n);
    if HasParent(m) {
      StoreOther(s, own, f, n, b, Parent(m));
      NoLeafIsAParent(m, f, n);
      if Ptr(s, Parent(m)) != 0 {
        assert own[Ptr(s, Parent(m))] == Parent(m);
      }
    }
  }

  /** What is not touched keeps its pointers and its bytes. */
  lemma OthersKeepBytes(s: State, own: map<int, Loc>, t: State, own': map<int, Loc>, f: nat, g: nat, o: nat)
    requires Owned(s, own) && Owned(t, own') && OthersKept(s, own, t, own', f)
    requires g < |s.inodes| && g != f && o / BLOCK_SIZE < MAX_BLOCKS
    ensures FileByte(t, g, o) == FileByte(s, g, o)
  {
    LeafLocWf(s, g, o / BLOCK_SIZE);
    OthersKeepPtr(s, own, t, own', f, LeafLoc(g, o / BLOCK_SIZE));
  }

  lemma {:induction false} OthersKeepPtr(s: State, own: map<int, Loc>, t: State, own': map<int, Loc>, f: nat, m: Loc)
    requires Owned(s, own) && Owned(t, own') && OthersKept(s, own, t, own', f)
    requires WfLoc(s, m) && m.f != f
    ensures Ptr(t, m) == Ptr(s, m)
    decreases Depth(m)
  {
    if HasParent(m) {
      OthersKeepPtr(s, own, t, own', f, Parent(m));
    }
  }
}
