/** Freeing all zones of a file (fs/truncate.c).

    A zone whose buffer is in use elsewhere stays, together with the pointers that
    lead to it, and the whole walk is repeated later.  The answers that the busy
    test will give are the sequence `busy`: any finite number of them, in any
    order, before the file is finally left alone. */
module Truncation {
  import opened ZoneTree
  import opened Disks
  import opened Bitmap

  /** From `s` to `t` file `f` has lost some zones and nothing else happened. */
  ghost predicate Pruned(s: State, own: map<int, Loc>, t: State, own': map<int, Loc>, f: nat)
    requires f < |s.inodes|
  {
    && Owned(t, own')
    && OthersKept(s, own, t, own', f)
    && t.inodes[f].size == s.inodes[f].size && t.inodes[f].kind == s.inodes[f].kind
    && (forall z :: z in own' ==> z in own && own'[z] == own[z])
    && (forall m: Loc :: WfLoc(s, m) ==> Ptr(t, m) == Ptr(s, m) || Ptr(t, m) == 0)
  }

  /** `t` is `s` after pruning, except that the zone at `l` has just been freed as
      well: its pointer is still there, its children are gone. */
  ghost predicate JustFreed(s: State, own: map<int, Loc>, t: State, own': map<int, Loc>, l: Loc, b: State)
    requires l.f < |s.inodes|
  {
    && Pruned(s, own, b, own', l.f)
    && WfLoc(b, l) && Ptr(b, l) != 0 && Ptr(b, l) == Ptr(s, l)
    && (forall c: Loc :: WfLoc(b, c) && IsChild(c, l) ==> Ptr(b, c) == 0)
    && IsDataZone(b, Ptr(b, l)) && |t.blocks| == b.nzones
    && t == Release(b, Ptr(b, l), t.blocks[Ptr(b, l)])
  }

  lemma PrunedRefl(s: State, own: map<int, Loc>, f: nat)
    requires f < |s.inodes| && Owned(s, own)
    ensures Pruned(s, own, s, own, f)
  {
  }

  lemma PrunedTrans(s: State, own: map<int, Loc>, t: State, own1: map<int, Loc>, u: State, own2: map<int, Loc>, f: nat)
    requires f < |s.inodes| && Pruned(s, own, t, own1, f) && Pruned(t, own1, u, own2, f)
    ensures Pruned(s, own, u, own2, f)
  {
  }

  /** Clearing the pointer to a zone that was just freed completes the pruning. */
  lemma ClearFreed(s: State, own: map<int, Loc>, t: State, own1: map<int, Loc>, l: Loc, b: State)
    requires l.f < |s.inodes| && JustFreed(s, own, t, own1, l, b)
    ensures HasParent(l) ==> 0 < Ptr(t, Parent(l)) == Ptr(b, Parent(l)) < |t.blocks|
    ensures var u := SetPtr(t, l, 0); var own2 := own1 - {Ptr(b, l)};
      && Pruned(s, own, u, own2, l.f)
      && Ptr(u, l) == 0
      && (forall m: Loc :: WfLoc(s, m) && m != l ==> Ptr(u, m) == Ptr(b, m))
  {
    var junk := t.blocks[Ptr(b, l)];
    Detach(b, own1, l, junk);
    DetachKeepsOthers(b, own1, l, junk);
    assert Pruned(b, own1, SetPtr(t, l, 0), own1 - {Ptr(b, l)}, l.f);
    PrunedTrans(s, own, b, own1, SetPtr(t, l, 0), own1 - {Ptr(b, l)}, l.f);
  }

  /** The index location one level below `l`. */
  function ChildAt(l: Loc, i: nat): Loc
    requires !l.Low?
  {
    if l.Top? then Mid(l.f, l.i, i) else Low(l.f, l.k, i)
  }

  predicate ListsZones(l: Loc) { (l.Top? && l.i == 7) || (l.Mid? && l.i == 8) }

  /** Frees the zone in word `i` of the index block at `l`, and clears that word. */
  method FreeEntry(d: Disk, ghost l: Loc, block: int, i: nat, busy: seq<bool>) returns (ok: bool, rest: seq<bool>)
    requires d.Valid() && WfLoc(d.Snap(), l) && block == Ptr(d.Snap(), l) != 0
    requires ListsZones(l) && i < 512
    modifies d, d.bits, d.blocks
    ensures |rest| <= |busy| && (!ok ==> |rest| < |busy|)
    ensures Pruned(old(d.Snap()), old(d.own), d.Snap(), d.own, l.f)
    ensures forall m: Loc :: WfLoc(old(d.Snap()), m) && m != ChildAt(l, i) ==> Ptr(d.Snap(), m) == Ptr(old(d.Snap()), m)
    ensures ok ==> Ptr(d.Snap(), ChildAt(l, i)) == 0
  {
    ghost var s, own, c := d.Snap(), d.own, ChildAt(l, i);
    assert block in own;
    var z := d.blocks[block][i];
    assert z == Ptr(s, c);
    rest := busy;
    if z == 0 { return true, rest; }
    assert z in own && own[z] == c && own[block] == l;
    var r;
    r, rest := FreeUsed(d, z, rest);
    if r != Freed { return false, rest; }
    Detach(s, own, c, d.blocks[z]);
    DetachKeepsOthers(s, own, c, d.blocks[z]);
    ghost var t := d.Snap();
    d.blocks[block] := d.blocks[block][i := 0];
    d.own := d.own - {z};
    assert d.Snap() == SetPtr(t, c, 0);
    return true, rest;
  }

  /** What the walk over an index block leaves when nothing below it was busy, and the block itself is then
      freed. */
  lemma FreedAfterWalk(s: State, own: map<int, Loc>, b: State, own1: map<int, Loc>, l: Loc, t: State)
    requires l.f < |s.inodes| && Pruned(s, own, b, own1, l.f) && WfLoc(s, l) && Ptr(s, l) == Ptr(b, l) != 0
    requires forall c: Loc :: WfLoc(s, c) && IsChild(c, l) ==> Ptr(b, c) == 0
    requires |t.blocks| == |b.blocks| && IsDataZone(b, Ptr(b, l)) && t == Release(b, Ptr(b, l), t.blocks[Ptr(b, l)])
    ensures JustFreed(s, own, t, own1, l, b)
  {
    hide Ptr;
  }

  /** The walk over the zones listed in the index block at `l`. */
  method FreeListed(d: Disk, ghost l: Loc, block: int, busy: seq<bool>) returns (blockBusy: bool, rest: seq<bool>)
    requires d.Valid() && WfLoc(d.Snap(), l) && block == Ptr(d.Snap(), l) != 0
    requires ListsZones(l)
    modifies d, d.bits, d.blocks
    ensures |rest| <= |busy| && (blockBusy ==> |rest| < |busy|)
    ensures Pruned(old(d.Snap()), old(d.own), d.Snap(), d.own, l.f)
    ensures forall m: Loc :: WfLoc(old(d.Snap()), m) && !IsChild(m, l) ==> Ptr(d.Snap(), m) == Ptr(old(d.Snap()), m)
    ensures !blockBusy ==> forall k :: 0 <= k < 512 ==> Ptr(d.Snap(), ChildAt(l, k)) == 0
  {
    hide Ptr, Owned;
    ghost var s, own := d.Snap(), d.own;
    PrunedRefl(s, own, l.f);
    rest := busy;
    blockBusy := false;
    assert !IsChild(l, l);
    var i := 0;
    while i < 512
      invariant 0 <= i <= 512
      invariant |rest| <= |busy| && (blockBusy ==> |rest| < |busy|)
      invariant Pruned(s, own, d.Snap(), d.own, l.f)
      invariant forall m: Loc :: WfLoc(s, m) && !IsChild(m, l) ==> Ptr(d.Snap(), m) == Ptr(s, m)
      invariant !blockBusy ==> forall k :: 0 <= k < i ==> Ptr(d.Snap(), ChildAt(l, k)) == 0
    {
      ghost var t, own1 := d.Snap(), d.own;
      var freed;
      freed, rest := FreeEntry(d, l, block, i, rest);
      if !freed { blockBusy := true; }
      PrunedTrans(s, own, t, own1, d.Snap(), d.own, l.f);
      i := i + 1;
    }
  }

  /** Frees the zones listed in the index block at `l`, then that block.  `b` is the
      state just before the block itself goes. */
  method FreeInd(d: Disk, ghost l: Loc, block: int, busy: seq<bool>) returns (ok: bool, rest: seq<bool>, ghost b: State)
    requires d.Valid() && WfLoc(d.Snap(), l) && block == Ptr(d.Snap(), l)
    requires ListsZones(l)
    modifies d, d.bits, d.blocks
    ensures |rest| <= |busy| && (!ok ==> |rest| < |busy|)
    ensures block == 0 ==> ok && d.Snap() == old(d.Snap()) && d.own == old(d.own)
    ensures ok && block != 0 ==> JustFreed(old(d.Snap()), old(d.own), d.Snap(), d.own, l, b)
    ensures !ok ==> Pruned(old(d.Snap()), old(d.own), d.Snap(), d.own, l.f) && b == d.Snap()
    ensures block != 0 ==>
      forall m: Loc :: WfLoc(old(d.Snap()), m) && !IsChild(m, l) ==> Ptr(b, m) == Ptr(old(d.Snap()), m)
  {
    hide Ptr, JustFreed;
    b := d.Snap();
    rest := busy;
    if block == 0 { return true, rest, b; }
    ghost var s, own := d.Snap(), d.own;
    var blockBusy;
    blockBusy, rest := FreeListed(d, l, block, rest);
    b := d.Snap();
    if blockBusy { return false, rest, b; }
    assert !IsChild(l, l) && block in d.own;
    assert forall c: Loc :: WfLoc(s, c) && IsChild(c, l) ==> c == ChildAt(l, IndexIn(c));
    var r;
    r, rest := FreeUsed(d, block, rest);
    ok := r == Freed;
    if ok { FreedAfterWalk(s, own, b, d.own, l, d.Snap()); }
  }

  /** Location `m` hangs from pointer 8 of file `f`. */
  predicate BelowDouble(m: Loc, f: nat) { m.f == f && ((m.Mid? && m.i == 8) || m.Low?) }

  /** Frees everything below word `i` of the double index block of `f`, and clears that word. */
  method FreeSubtree(d: Disk, f: nat, block: int, i: nat, busy: seq<bool>) returns (ok: bool, rest: seq<bool>)
    requires d.Valid() && f < d.inodes.Length && block == Ptr(d.Snap(), Top(f, 8)) != 0
    requires i < 512
    modifies d, d.bits, d.blocks
    ensures |rest| <= |busy| && (!ok ==> |rest| < |busy|)
    ensures Pruned(old(d.Snap()), old(d.own), d.Snap(), d.own, f)
    ensures forall m: Loc :: WfLoc(old(d.Snap()), m) && m != Mid(f, 8, i) && !IsChild(m, Mid(f, 8, i)) ==>
      Ptr(d.Snap(), m) == Ptr(old(d.Snap()), m)
    ensures ok ==> Ptr(d.Snap(), Mid(f, 8, i)) == 0
  {
    ghost var s, own, c := d.Snap(), d.own, Mid(f, 8, i);
    PrunedRefl(s, own, f);
    assert block in own;
    var z := d.blocks[block][i];
    assert z == Ptr(s, c);
    rest := busy;
    if z == 0 { return true, rest; }
    ghost var b;
    ok, rest, b := FreeInd(d, c, z, rest);
    if ok {
      ghost var t := d.Snap();
      ClearFreed(s, own, t, d.own, c, b);
      assert !IsChild(Top(f, 8), c) && Ptr(b, Top(f, 8)) == block;
      d.blocks[block] := d.blocks[block][i := 0];
      d.own := d.own - {z};
      assert d.Snap() == SetPtr(t, c, 0);
    }
  }

  method FreeDind(d: Disk, f: nat, block: int, busy: seq<bool>) returns (ok: bool, rest: seq<bool>, ghost b: State)
    requires d.Valid() && f < d.inodes.Length && block == Ptr(d.Snap(), Top(f, 8))
    modifies d, d.bits, d.blocks
    ensures |rest| <= |busy| && (!ok ==> |rest| < |busy|)
    ensures block == 0 ==> ok && d.Snap() == old(d.Snap()) && d.own == old(d.own)
    ensures ok && block != 0 ==> JustFreed(old(d.Snap()), old(d.own), d.Snap(), d.own, Top(f, 8), b)
    ensures !ok ==> Pruned(old(d.Snap()), old(d.own), d.Snap(), d.own, f) && b == d.Snap()
    ensures block != 0 ==>
      forall m: Loc :: WfLoc(old(d.Snap()), m) && !BelowDouble(m, f) ==> Ptr(b, m) == Ptr(old(d.Snap()), m)
  {
    b := d.Snap();
    rest := busy;
    if block == 0 { return true, rest, b; }
    ghost var s, own := d.Snap(), d.own;
    PrunedRefl(s, own, f);
    var blockBusy := false;
    var i := 0;
    while i < 512
      invariant 0 <= i <= 512
      invariant |rest| <= |busy| && (blockBusy ==> |rest| < |busy|)
      invariant Pruned(s, own, d.Snap(), d.own, f)
      invariant forall m: Loc :: WfLoc(s, m) && !BelowDouble(m, f) ==> Ptr(d.Snap(), m) == Ptr(s, m)
      invariant !blockBusy ==> forall k :: 0 <= k < i ==> Ptr(d.Snap(), Mid(f, 8, k)) == 0
    {
      ghost var t, own1 := d.Snap(), d.own;
      assert !BelowDouble(Top(f, 8), f);
      var freed;
      freed, rest := FreeSubtree(d, f, block, i, rest);
      if !freed { blockBusy := true; }
      PrunedTrans(s, own, t, own1, d.Snap(), d.own, f);
      i := i + 1;
    }
    b := d.Snap();
    if blockBusy { return false, rest, b; }
    assert !BelowDouble(Top(f, 8), f);
    assert block in d.own;
    var r;
    r, rest := FreeUsed(d, block, rest);
    ok := r == Freed;
  }

  /** Frees direct zone `i` of file `f`. */
  method FreeDirect(d: Disk, f: nat, i: nat, busy: seq<bool>) returns (ok: bool, rest: seq<bool>)
    requires d.Valid() && f < d.inodes.Length && i < 7
    modifies d, d.bits, d.blocks, d.inodes
    ensures |rest| <= |busy| && (!ok ==> |rest| < |busy|)
    ensures Pruned(old(d.Snap()), old(d.own), d.Snap(), d.own, f)
    ensures forall m: Loc :: WfLoc(old(d.Snap()), m) && m != Top(f, i) ==> Ptr(d.Snap(), m) == Ptr(old(d.Snap()), m)
    ensures ok ==> Ptr(d.Snap(), Top(f, i)) == 0
  {
    ghost var s, own, c := d.Snap(), d.own, Top(f, i);
    PrunedRefl(s, own, f);
    rest := busy;
    var z := d.inodes[f].zone[i];
    assert z == Ptr(s, c);
    if z == 0 { return true, rest; }
    assert z in own && own[z] == c;
    var r;
    r, rest := FreeUsed(d, z, rest);
    if r != Freed { return false, rest; }
    assert forall m: Loc :: WfLoc(s, m) ==> !IsChild(m, c);
    Detach(s, own, c, d.blocks[z]);
    DetachKeepsOthers(s, own, c, d.blocks[z]);
    ghost var t := d.Snap();
    d.inodes[f] := d.inodes[f].(zone := d.inodes[f].zone[i := 0]);
    d.own := d.own - {z};
    assert d.Snap() == SetPtr(t, c, 0);
    return true, rest;
  }

  /** Frees what hangs from inode pointer 7 or 8, and clears that pointer. */
  method FreeIndexed(d: Disk, f: nat, i: nat, busy: seq<bool>) returns (ok: bool, rest: seq<bool>)
    requires d.Valid() && f < d.inodes.Length && (i == 7 || i == 8)
    modifies d, d.bits, d.blocks, d.inodes
    ensures |rest| <= |busy| && (!ok ==> |rest| < |busy|)
    ensures Pruned(old(d.Snap()), old(d.own), d.Snap(), d.own, f)
    ensures ok ==> Ptr(d.Snap(), Top(f, i)) == 0
  {
    ghost var s, own, b := d.Snap(), d.own, d.Snap();
    PrunedRefl(s, own, f);
    var z := d.inodes[f].zone[i];
    assert z == Ptr(s, Top(f, i)) && (z != 0 ==> z in own);
    if i == 7 {
      ok, rest, b := FreeInd(d, Top(f, i), z, busy);
    } else {
      ok, rest, b := FreeDind(d, f, z, busy);
    }
    if ok && z != 0 {
      ghost var u := d.Snap();
      ClearFreed(s, own, u, d.own, Top(f, i), b);
      d.inodes[f] := d.inodes[f].(zone := d.inodes[f].zone[i := 0]);
      d.own := d.own - {z};
      assert d.Snap() == SetPtr(u, Top(f, i), 0);
    }
  }

  /** One walk over all zones of file `f`. */
  method TruncatePass(d: Disk, f: nat, busy: seq<bool>) returns (blockBusy: bool, rest: seq<bool>)
    requires d.Valid() && f < d.inodes.Length
    modifies d, d.bits, d.blocks, d.inodes
    ensures |rest| <= |busy| && (blockBusy ==> |rest| < |busy|)
    ensures Pruned(old(d.Snap()), old(d.own), d.Snap(), d.own, f)
    ensures !blockBusy ==> forall i :: 0 <= i < 9 ==> Ptr(d.Snap(), Top(f, i)) == 0
  {
    ghost var s, own := d.Snap(), d.own;
    PrunedRefl(s, own, f);
    blockBusy := false;
    rest := busy;
    var i := 0;
    while i < 7
      invariant 0 <= i <= 7
      invariant |rest| <= |busy| && (blockBusy ==> |rest| < |busy|)
      invariant Pruned(s, own, d.Snap(), d.own, f)
      invariant !blockBusy ==> forall k :: 0 <= k < i ==> Ptr(d.Snap(), Top(f, k)) == 0
    {
      ghost var t, own1 := d.Snap(), d.own;
      var freed;
      freed, rest := FreeDirect(d, f, i, rest);
      if !freed { blockBusy := true; }
      PrunedTrans(s, own, t, own1, d.Snap(), d.own, f);
      i := i + 1;
    }

    ghost var t, own1 := d.Snap(), d.own;
    var ok;
    ok, rest := FreeIndexed(d, f, 7, rest);
    if !ok { blockBusy := true; }
    PrunedTrans(s, own, t, own1, d.Snap(), d.own, f);
    ghost var u, own2 := d.Snap(), d.own;
    ok, rest := FreeIndexed(d, f, 8, rest);
    if !ok { blockBusy := true; }
    PrunedTrans(s, own, u, own2, d.Snap(), d.own, f);
  }

  /** Truncation frees the zones of `f`, all of them and no others, each once. */
  method Truncate(d: Disk, f: nat, busy: seq<bool>)
    requires d.Valid() && f < d.inodes.Length
    modifies d, d.bits, d.blocks, d.inodes
    ensures d.Valid()
    ensures d.inodes[f].kind == Other ==> d.Snap() == old(d.Snap()) && d.own == old(d.own)
    ensures d.inodes[f].kind != Other ==>
      && OthersKept(old(d.Snap()), old(d.own), d.Snap(), d.own, f)
      && d.inodes[f] == Inode(seq(9, _ => 0), 0, old(d.inodes[f].kind))
      && d.own == map z | z in old(d.own) && old(d.own)[z].f != f :: old(d.own)[z]
  {
    if d.inodes[f].kind == Other { return; }
    ghost var s, own := d.Snap(), d.own;
    PrunedRefl(s, own, f);
    var blockBusy := true;
    var rest := busy;
    while blockBusy
      invariant Pruned(s, own, d.Snap(), d.own, f)
      invariant !blockBusy ==> forall i :: 0 <= i < 9 ==> Ptr(d.Snap(), Top(f, i)) == 0
      decreases |rest| + (if blockBusy then 1 else 0)
    {
      ghost var t, own1 := d.Snap(), d.own;
      blockBusy, rest := TruncatePass(d, f, rest);
      PrunedTrans(s, own, t, own1, d.Snap(), d.own, f);
    }
    NothingLeft(s, own, d.Snap(), d.own, f);
    SizesDoNotPoint(d.Snap(), d.own, f, 0);
    d.inodes[f] := d.inodes[f].(size := 0);
  }

  /** A file whose nine pointers are zero owns nothing. */
  lemma EmptyTree(s: State, own: map<int, Loc>, f: nat)
    requires Owned(s, own) && f < |s.inodes|
    requires forall i :: 0 <= i < 9 ==> Ptr(s, Top(f, i)) == 0
    ensures forall l: Loc :: WfLoc(s, l) && l.f == f ==> Ptr(s, l) == 0
    ensures forall z :: z in own ==> own[z].f != f
  {
    forall l: Loc | WfLoc(s, l) && l.f == f ensures Ptr(s, l) == 0 {
      if l.Top? { assert Ptr(s, Top(f, l.i)) == 0; }
      else if l.Mid? { assert Ptr(s, Parent(l)) == 0; }
      else { assert Ptr(s, Parent(Parent(l))) == 0 && Ptr(s, Parent(l)) == 0; }
    }
  }

  lemma NothingLeft(s: State, own: map<int, Loc>, t: State, own': map<int, Loc>, f: nat)
    requires f < |s.inodes| && Pruned(s, own, t, own', f)
    requires forall i :: 0 <= i < 9 ==> Ptr(t, Top(f, i)) == 0
    ensures own' == map z | z in own && own[z].f != f :: own[z]
    ensures t.inodes[f] == Inode(seq(9, _ => 0), s.inodes[f].size, s.inodes[f].kind)
  {
    EmptyTree(t, own', f);
    forall i | 0 <= i < 9 ensures t.inodes[f].zone[i] == 0 { assert Ptr(t, Top(f, i)) == 0; }
    assert t.inodes[f].zone == seq(9, _ => 0);
    var left := map z | z in own && own[z].f != f :: own[z];
    assert forall z :: z in own' ==> z in left && left[z] == own'[z];
    assert forall z :: z in left ==> z in own';
    assert own' == left;
  }

  lemma SizesDoNotPoint(s: State, own: map<int, Loc>, f: nat, n: nat)
    requires Owned(s, own) && f < |s.inodes|
    ensures var t := s.(inodes := s.inodes[f := s.inodes[f].(size := n)]);
      && Owned(t, own)
      && (forall m: Loc :: WfLoc(s, m) ==> Ptr(t, m) == Ptr(s, m))
      && SameBytes(s, t)
  {
    var t := s.(inodes := s.inodes[f := s.inodes[f].(size := n)]);
    forall m: Loc | WfLoc(s, m) ensures Ptr(t, m) == Ptr(s, m) { SizeDoesNotPoint(s, f, n, m); }
    forall g: nat, o: nat | g < |s.inodes| && o / BLOCK_SIZE < MAX_BLOCKS
      ensures FileByte(t, g, o) == FileByte(s, g, o)
    {
      LeafLocWf(s, g, o / BLOCK_SIZE);
    }
  }

  lemma {:induction false} SizeDoesNotPoint(s: State, f: nat, n: nat, m: Loc)
    requires f < |s.inodes| && WfLoc(s, m)
    ensures Ptr(s.(inodes := s.inodes[f := s.inodes[f].(size := n)]), m) == Ptr(s, m)
    decreases Depth(m)
  {
    if HasParent(m) { SizeDoesNotPoint(s, f, n, Parent(m)); }
  }
}
