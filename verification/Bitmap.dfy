/** Allocating and freeing zones (fs/bitmap.c). */
module Bitmap {
  import opened ZoneTree
  import opened Disks

  /** Index of the first clear bit of the map block that starts at `base`, 8192 if there is none. */
  method FindFirstZero(bits: array<bool>, base: nat) returns (j: nat)
    requires base + 8192 <= bits.Length
    ensures j <= 8192
    ensures forall k :: base <= k < base + j ==> bits[k]
    ensures j < 8192 ==> !bits[base + j]
  {
    j := 0;
    while j < 8192 && bits[base + j]
      invariant j <= 8192
      invariant forall k :: base <= k < base + j ==> bits[k]
    {
      j := j + 1;
    }
  }

  /** Takes the free zone of least number and clears its block.  The result is 0
      only when every data zone is in use; the map bit of a zone beyond the end
      of the device may then have been set, which stands for no zone. */
  method NewBlock(d: Disk) returns (z: int)
    requires d.Valid()
    modifies d.bits, d.blocks
    ensures z != 0 ==> IsDataZone(d.Snap(), z) && z !in d.own && d.Snap() == Claim(old(d.Snap()), z)
    ensures z != 0 ==> forall y :: d.first <= y < z ==> y in d.own
    ensures z != 0 ==> 0 < z - d.first + 1 < d.bits.Length && d.bits[z - d.first + 1] && !old(d.bits[z - d.first + 1])
    ensures z == 0 ==> d.Valid() && d.Snap() == old(d.Snap()).(bits := d.bits[..])
    ensures z == 0 ==> forall y :: IsDataZone(d.Snap(), y) ==> y in d.own
  {
    ghost var s := d.Snap();
    var i, j := 0, 8192;
    while i < 8
      invariant 0 <= i <= 8 && 0 <= j <= 8192
      invariant forall k :: 0 <= k < i * 8192 && k < d.bits.Length ==> d.bits[k]
      invariant j == 8192
      modifies {}
    {
      if i * 8192 < d.bits.Length {
        j := FindFirstZero(d.bits, i * 8192);
        if j < 8192 { break; }
      }
      i := i + 1;
    }
    if i >= 8 || j >= 8192 {
      forall y | IsDataZone(s, y) ensures y in d.own { assert d.bits[BitOf(s, y)]; }
      return 0;
    }
    var n := i * 8192 + j;
    d.bits[n] := true;
    z := n + d.first - 1;
    if z >= d.nzones {
      forall y | IsDataZone(s, y) ensures y in d.own { assert d.bits[BitOf(s, y)]; }
      SpareBit(s, d.own, n);
      assert d.Snap() == s.(bits := s.bits[n := true]);
      return 0;
    }
    d.blocks[z] := ZeroBlock();
    assert n != 0;
    assert n == BitOf(s, z);
    forall y | d.first <= y < z ensures y in d.own { assert d.bits[BitOf(s, y)]; }
    assert d.Snap() == Claim(s, z);
  }

  /** Bits beyond the last data zone stand for nothing. */
  lemma SpareBit(s: State, own: map<int, Loc>, n: int)
    requires Owned(s, own) && BitOf(s, s.nzones) <= n < |s.bits|
    ensures Owned(s.(bits := s.bits[n := true]), own)
  {
    var t := s.(bits := s.bits[n := true]);
    forall m: Loc | WfLoc(s, m) ensures Ptr(t, m) == Ptr(s, m) { BitsDoNotPoint(s, t.bits, m); }
  }

  lemma {:induction false} BitsDoNotPoint(s: State, bits: seq<bool>, m: Loc)
    requires WfLoc(s, m)
    ensures Ptr(s.(bits := bits), m) == Ptr(s, m)
    decreases Depth(m)
  {
    if HasParent(m) { BitsDoNotPoint(s, bits, Parent(m)); }
  }

  datatype FreeResult = Freed | Busy | NotInDataZone | AlreadyFree

  /** Frees a zone unless a buffer of it is in use elsewhere.  `busy` lists the
      answers that test will still give; once it is empty nothing is busy.  The
      last two results are the two panics of the source. */
  method FreeBlock(d: Disk, z: int, busy: seq<bool>) returns (r: FreeResult, rest: seq<bool>)
    requires Geometry(d.Snap())
    modifies d.bits, d.blocks
    ensures |rest| <= |busy| && (r == Busy ==> |rest| < |busy|)
    ensures r == NotInDataZone <==> !IsDataZone(d.Snap(), z)
    ensures r == AlreadyFree <==>
      IsDataZone(d.Snap(), z) && !(busy != [] && busy[0]) && !old(d.bits[BitOf(d.Snap(), z)])
    ensures r == Busy <==> IsDataZone(d.Snap(), z) && busy != [] && busy[0]
    ensures r == Freed ==> d.Snap() == Release(old(d.Snap()), z, d.blocks[z])
    ensures r == Freed ==> old(d.bits[z - d.first + 1]) && !d.bits[z - d.first + 1]
    ensures r != Freed && r != AlreadyFree ==> d.Snap() == old(d.Snap())
  {
    rest := busy;
    if z < d.first || z >= d.nzones { return NotInDataZone, rest; }
    ghost var s := d.Snap();
    if busy != [] {
      rest := busy[1..];
      if busy[0] { return Busy, rest; }
    }
    d.blocks[z] := *;                      // the buffer is no longer up to date
    var n := z - (d.first - 1);
    if !d.bits[n] { return AlreadyFree, rest; }
    d.bits[n] := false;
    assert d.Snap() == Release(s, z, d.blocks[z]);
    return Freed, rest;
  }

  /** Freeing a zone that some pointer leads to ends in neither panic: the zone is a data zone, and its bit
      is set. */
  method FreeUsed(d: Disk, z: int, busy: seq<bool>) returns (r: FreeResult, rest: seq<bool>)
    requires d.Valid() && z in d.own
    modifies d.bits, d.blocks
    ensures |rest| <= |busy| && (r == Busy ==> |rest| < |busy|)
    ensures r == if busy != [] && busy[0] then Busy else Freed
    ensures IsDataZone(d.Snap(), z)
    ensures r == Freed ==> d.Snap() == Release(old(d.Snap()), z, d.blocks[z])
    ensures r == Busy ==> d.Snap() == old(d.Snap())
  {
    r, rest := FreeBlock(d, z, busy);
  }
}
