/** The mounted device: bitmap, block contents (as the buffer cache shows them)
    and the inode table, all updated in place. */
module Disks {
  import opened ZoneTree

  class Disk {
    const first: int
    const nzones: int
    const blocks: array<Block>
    const bits: array<bool>
    const inodes: array<Inode>
    ghost var own: map<int, Loc>

    ghost function Snap(): State
      reads blocks, bits, inodes
    {
      State(blocks[..], bits[..], inodes[..], first, nzones)
    }

    ghost predicate Valid()
      reads this, blocks, bits, inodes
    {
      && Owned(Snap(), own)
      && bits.Length % 8192 == 0 && bits.Length <= 8 * 8192
    }

    /** A device fresh from the formatter: no zone in use, bit 0 taken. */
    constructor (first: int, nzones: int, maps: nat, inodeCount: nat)
      requires 1 <= first <= nzones <= 65536 && maps <= 8
      requires nzones - first + 1 <= maps * 8192
      ensures Valid() && fresh(blocks) && fresh(bits) && fresh(inodes)
      ensures inodes.Length == inodeCount && own == map[]
      ensures forall g :: 0 <= g < inodeCount ==> inodes[g].size == 0
      ensures forall l: Loc :: WfLoc(Snap(), l) ==> Ptr(Snap(), l) == 0
    {
      this.first := first;
      this.nzones := nzones;
      blocks := new Block[nzones](_ => ZeroBlock());
      bits := new bool[maps * 8192](i => i == 0);
      inodes := new Inode[inodeCount](_ => Inode(seq(9, _ => 0), 0, Regular));
      own := map[];
      new;
      hide Ptr, Owned;
      NothingOwned(Snap());
    }
  }

  /** Without a zone in any inode there is no pointer at all. */
  lemma NothingOwned(s: State)
    requires Geometry(s) && s.bits[0] && forall z :: IsDataZone(s, z) ==> !s.bits[BitOf(s, z)]
    requires forall g :: 0 <= g < |s.inodes| ==> s.inodes[g].zone == seq(9, _ => 0)
    ensures Owned(s, map[]) && forall l: Loc :: WfLoc(s, l) ==> Ptr(s, l) == 0
  {
    assert forall l: Loc :: WfLoc(s, l) && l.Top? ==> Ptr(s, l) == 0;
    assert forall l: Loc :: WfLoc(s, l) && l.Mid? ==> Ptr(s, Parent(l)) == 0;
    assert forall l: Loc :: WfLoc(s, l) && l.Low? ==> Ptr(s, Parent(l)) == 0;
  }
}
