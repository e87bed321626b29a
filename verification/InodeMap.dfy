/** From block numbers of a file to zones of the device (fs/inode.c, `_bmap`). */
module InodeMap {
  import opened ZoneTree
  import opened Disks
  import opened Bitmap

  /** `t` is `s` with at most the pointer at `l` filled in, from empty, with a
      zone that nothing referred to.  When `l` is still empty the device is full. */
  ghost predicate FilledAt(s: State, own: map<int, Loc>, t: State, own': map<int, Loc>, l: Loc)
    requires WfLoc(s, l)
  {
    && SameShape(s, t)
    && Owned(t, own')
    && (forall g :: 0 <= g < |s.inodes| ==>
      t.inodes[g].size == s.inodes[g].size && t.inodes[g].kind == s.inodes[g].kind)
    && (forall m: Loc :: WfLoc(s, m) && m != l ==> Ptr(t, m) == Ptr(s, m))
    && SameBytes(s, t)
    && (Ptr(s, l) != 0 ==> t == s && own' == own)
    && (Ptr(t, l) == 0 ==> own' == own && forall y :: IsDataZone(s, y) ==> y in own)
  }

  /** Fills inode pointer `i` of file `f` if it is empty. */
  method FillTop(d: Disk, f: nat, i: nat)
    requires d.Valid() && f < d.inodes.Length && i < 9
    modifies d, d.bits, d.blocks, d.inodes
    ensures d.Valid()
    ensures FilledAt(old(d.Snap()), old(d.own), d.Snap(), d.own, Top(f, i))
  {
    if d.inodes[f].zone[i] != 0 { return; }
    ghost var s, own := d.Snap(), d.own;
    var z := NewBlock(d);
    if z == 0 {
      SpareBitsKeep(s, d.bits[..]);
      return;
    }
    Attach(s, own, Top(f, i), z);
    AttachKeepsBytes(s, own, Top(f, i), z);
    d.inodes[f] := d.inodes[f].(zone := d.inodes[f].zone[i := z]);
    d.own := d.own[z := Top(f, i)];
    assert d.Snap() == SetPtr(Claim(s, z), Top(f, i), z);
  }

  /** Fills the entry at `l`, which is word `k` of index block `p`, if it is empty. */
  method FillEntry(d: Disk, ghost l: Loc, p: int, k: nat) returns (z: int)
    requires d.Valid() && WfLoc(d.Snap(), l) && HasParent(l)
    requires p == Ptr(d.Snap(), Parent(l)) != 0 && k == IndexIn(l)
    modifies d, d.bits, d.blocks
    ensures d.Valid()
    ensures FilledAt(old(d.Snap()), old(d.own), d.Snap(), d.own, l)
    ensures z == Ptr(d.Snap(), l)
  {
    ghost var s, own := d.Snap(), d.own;
    assert p in own;
    z := d.blocks[p][k];
    if z != 0 { return; }
    z := NewBlock(d);
    if z == 0 {
      SpareBitsKeep(s, d.bits[..]);
      BitsDoNotPoint(s, d.bits[..], l);
      return;
    }
    Attach(s, own, l, z);
    AttachKeepsBytes(s, own, l, z);
    assert d.blocks[p] == s.blocks[p];
    d.blocks[p] := d.blocks[p][k := z];
    d.own := d.own[z := l];
    assert d.Snap() == SetPtr(Claim(s, z), l, z);
  }

  lemma SpareBitsKeep(s: State, bits: seq<bool>)
    ensures var t := s.(bits := bits);
      && (forall m: Loc :: WfLoc(s, m) ==> Ptr(t, m) == Ptr(s, m))
      && SameBytes(s, t)
  {
    var t := s.(bits := bits);
    forall m: Loc | WfLoc(s, m) ensures Ptr(t, m) == Ptr(s, m) { BitsDoNotPoint(s, bits, m); }
    forall f: nat, o: nat | f < |s.inodes| && o / BLOCK_SIZE < MAX_BLOCKS
      ensures FileByte(t, f, o) == FileByte(s, f, o)
    {
      LeafLocWf(s, f, o / BLOCK_SIZE);
    }
  }

  /** `t` differs from `s` at most in the zone of block `n` of file `f`, which was missing. */
  ghost predicate OnlyMaps(s: State, t: State, f: nat, n: nat)
    requires f < |s.inodes| && n < MAX_BLOCKS
  {
    && SameShape(s, t)
    && (forall g :: 0 <= g < |s.inodes| ==>
      t.inodes[g].size == s.inodes[g].size && t.inodes[g].kind == s.inodes[g].kind)
    && SameBytes(s, t)
    && (forall g: nat, m: nat :: g < |s.inodes| && m < MAX_BLOCKS && (g != f || m != n) ==>
      ZoneOf(t, g, m) == ZoneOf(s, g, m))
    && (ZoneOf(s, f, n) != 0 ==> t == s)
  }

  /** Filling the pointer at `l` leaves the maps of all files alone, except that
      it may be the pointer to block `n` of file `f` itself. */
  lemma FillStep(s: State, s1: State, own1: map<int, Loc>, t: State, own': map<int, Loc>, f: nat, n: nat, l: Loc)
    requires f < |s.inodes| && n < MAX_BLOCKS
    requires OnlyMaps(s, s1, f, n) && WfLoc(s1, l) && FilledAt(s1, own1, t, own', l)
    requires forall g: nat, m: nat :: LeafLoc(g, m) == l ==> g == f && m == n
    requires l == LeafLoc(f, n) || (ZoneOf(s1, f, n) != 0 ==> Ptr(s1, l) != 0)
    ensures OnlyMaps(s, t, f, n)
  {
    forall g: nat, m: nat | g < |s.inodes| && m < MAX_BLOCKS && (g != f || m != n)
      ensures ZoneOf(t, g, m) == ZoneOf(s, g, m)
    {
      LeafLocWf(s, g, m);
      assert ZoneOf(s1, g, m) == ZoneOf(s, g, m);
    }
  }

  /** A mapped block has every pointer on its path. */
  lemma PathToLeaf(s: State, f: nat, n: nat)
    requires f < |s.inodes| && n < MAX_BLOCKS
    ensures 7 <= n < 519 ==> LeafLoc(f, n) == Mid(f, 7, n - 7) && (ZoneOf(s, f, n) != 0 ==> Ptr(s, Top(f, 7)) != 0)
    ensures n >= 519 ==> LeafLoc(f, n) == Low(f, (n - 519) / 512, (n - 519) % 512)
    ensures n >= 519 && ZoneOf(s, f, n) != 0 ==>
      Ptr(s, Mid(f, 8, (n - 519) / 512)) != 0 && Ptr(s, Top(f, 8)) != 0
  {
    if n >= 519 {
      var m := LeafLoc(f, n);
      assert Parent(m) == Mid(f, 8, (n - 519) / 512) && Parent(Parent(m)) == Top(f, 8);
    } else if n >= 7 {
      assert Parent(LeafLoc(f, n)) == Top(f, 7);
    }
  }

  /** Reads inode pointer `i`, on the way to block `n` of file `f`. */
  method TopEntry(d: Disk, f: nat, n: nat, i: nat, create: bool) returns (z: int)
    requires d.Valid() && f < d.inodes.Length && n < MAX_BLOCKS
    requires i == if n < 7 then n else if n < 519 then 7 else 8
    modifies d, d.bits, d.blocks, d.inodes
    ensures d.Valid()
    ensures z == Ptr(d.Snap(), Top(f, i))
    ensures OnlyMaps(old(d.Snap()), d.Snap(), f, n)
    ensures !create ==> d.Snap() == old(d.Snap()) && d.own == old(d.own)
    ensures create && z == 0 ==> forall y :: IsDataZone(d.Snap(), y) ==> y in d.own
  {
    if create {
      ghost var s, own := d.Snap(), d.own;
      PathToLeaf(s, f, n);
      FillTop(d, f, i);
      FillStep(s, s, own, d.Snap(), d.own, f, n, Top(f, i));
    }
    z := d.inodes[f].zone[i];
    assert z == Ptr(d.Snap(), Top(f, i));
  }

  /** Reads word `k` of index block `p`, on the way to block `n` of file `f`. */
  method IndexEntry(d: Disk, ghost s: State, f: nat, n: nat, ghost l: Loc, p: int, k: nat, create: bool)
      returns (z: int)
    requires d.Valid() && f < d.inodes.Length && n < MAX_BLOCKS
    requires f < |s.inodes| && OnlyMaps(s, d.Snap(), f, n)
    requires l == LeafLoc(f, n) || (n >= 519 && l == Mid(f, 8, (n - 519) / 512))
    requires HasParent(l) && WfLoc(d.Snap(), l)
    requires p == Ptr(d.Snap(), Parent(l)) != 0 && k == IndexIn(l)
    modifies d, d.bits, d.blocks, d.inodes
    ensures d.Valid()
    ensures z == Ptr(d.Snap(), l)
    ensures OnlyMaps(s, d.Snap(), f, n)
    ensures !create ==> d.Snap() == old(d.Snap()) && d.own == old(d.own)
    ensures create && z == 0 ==> forall y :: IsDataZone(d.Snap(), y) ==> y in d.own
  {
    ghost var s1, own := d.Snap(), d.own;
    assert p in own;
    if create {
      PathToLeaf(s1, f, n);
      z := FillEntry(d, l, p, k);
      FillStep(s, s1, own, d.Snap(), d.own, f, n, l);
    } else {
      z := d.blocks[p][k];
    }
  }

  /** Zone of block `n` of file `f`; with `create`, missing blocks on the path are
      allocated, and a zero result means that no zone is free. */
  method BlockMap(d: Disk, f: nat, n: nat, create: bool) returns (z: int)
    requires d.Valid() && f < d.inodes.Length && n < MAX_BLOCKS
    modifies d, d.bits, d.blocks, d.inodes
    ensures d.Valid()
    ensures z == ZoneOf(d.Snap(), f, n)
    ensures OnlyMaps(old(d.Snap()), d.Snap(), f, n)
    ensures z == 0 ==> ZoneOf(old(d.Snap()), f, n) == 0
    ensures !create ==> d.Snap() == old(d.Snap()) && d.own == old(d.own)
    ensures create && z == 0 ==> forall y :: IsDataZone(d.Snap(), y) ==> y in d.own
  {
    ghost var s := d.Snap();
    LeafLocWf(s, f, n);
    if n < 7 {
      z := TopEntry(d, f, n, n, create);
      return;
    }
    var b := n - 7;
    if b < 512 {
      var p := TopEntry(d, f, n, 7, create);
      PathToLeaf(d.Snap(), f, n);
      if p == 0 { return 0; }
      z := IndexEntry(d, s, f, n, LeafLoc(f, n), p, b, create);
      return;
    }
    b := b - 512;
    var p := TopEntry(d, f, n, 8, create);
    PathToLeaf(d.Snap(), f, n);
    if p == 0 { return 0; }
    var q := IndexEntry(d, s, f, n, Mid(f, 8, b / 512), p, b / 512, create);
    PathToLeaf(d.Snap(), f, n);
    if q == 0 { return 0; }
    z := IndexEntry(d, s, f, n, LeafLoc(f, n), q, b % 512, create);
  }
}
