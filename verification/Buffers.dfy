/** The buffer cache on the heap (fs/buffer.c).  A buffer head is its number after start_buffer; each
    link field is an array over these numbers, with -1 for NULL, and `bufs` has the other fields.  The
    functions that sleep are cut at their sleeps: each method here is what runs between two of them. */
module Buffers {
  import opened BufferIndex
  import opened CacheLinks
  import opened CacheRuns

  /** How getblk goes on: with a buffer, asleep on one it found, asleep until one is released, or
      asleep on the victim `bh` while its walk stopped at `tmp`. */
  datatype Outcome = Held(b: nat) | OnHit(b: nat) | OnPool | OnVictim(bh: nat, tmp: nat)

  /** The end of getblk: the walk's last buffer is taken. */
  ghost function Got(c: Cache, b: nat, k: Key): (Cache, Outcome)
    requires b < |c.bufs| && |c.chains| == NR_HASH
  {
    (Reuse(c, b, k), Held(b))
  }

  /** getblk up to its first sleep. */
  ghost function GetPiece(c: Cache, k: Key): (Cache, Outcome)
    requires Proper(c)
  {
    Unfold(c);
    match Find(c, k)
    case Here(b) =>
      FindAgreesWithScan(c, k);
      (Count(c, b, 1), if c.bufs[b].lock then OnHit(b) else Held(b))
    case Nowhere =>
      ChooseStops(c, 0, Nowhere);
      var r := Choose(c, 0, Nowhere);
      if r.best.Nowhere? then (c, OnPool)
      else if c.bufs[r.best.b].lock then (c, OnVictim(r.best.b, c.ring[r.stop]))
      else Got(c, c.ring[r.stop], k)
  }

  /** getblk after its sleep in get_hash_table. */
  ghost function AfterHit(c: Cache, b: nat, k: Key): (Cache, Outcome)
    requires Proper(c) && b < |c.bufs|
  {
    if c.bufs[b].key == k then (c, Held(b))
    else
      FlagsKeep(c, b, Count(c, b, -1).bufs[b]);
      GetPiece(Count(c, b, -1), k)
  }

  /** getblk after its sleep on the victim `bh`. */
  ghost function AfterVictim(c: Cache, bh: nat, tmp: nat, k: Key): (Cache, Outcome)
    requires Proper(c) && bh < |c.bufs| && tmp < |c.bufs|
  {
    Unfold(c);
    if c.bufs[bh].count != 0 || Find(c, k) != Nowhere then GetPiece(c, k) else Got(c, tmp, k)
  }

  /** The reference a piece leaves its task with, also while it sleeps on the buffer it found. */
  function Gained(o: Outcome, k: Key): multiset<Ref> {
    match o
    case Held(b) => multiset{Ref(b, k)}
    case OnHit(b) => multiset{Ref(b, k)}
    case _ => multiset{}
  }

  /** The cache machine after a piece: nothing but the cache and the references changes. */
  function After(m: Machine, piece: (Cache, Outcome), k: Key): Machine {
    m.(c := piece.0, refs := m.refs + Gained(piece.1, k))
  }

  ghost function Lookup(m: Machine, k: Key): Machine
    requires Framed(m)
  {
    if Find(m.c, k) == Nowhere then Step(m, Miss(k)) else Step(m, Hit(k))
  }

  /** The pieces are steps of the cache machine, so what holds of its runs holds of getblk. */
  lemma PiecesAreSteps(m: Machine, k: Key, bh: nat, tmp: nat)
    requires Framed(m) && bh < |m.c.bufs| && tmp < |m.c.bufs|
    ensures After(m, GetPiece(m.c, k), k) == Lookup(m, k)
    ensures After(m, AfterVictim(m.c, bh, tmp, k), k) ==
            if m.c.bufs[bh].count == 0 && Find(m.c, k) == Nowhere then Step(m, LateMiss(k, tmp)) else Lookup(m, k)
  {
    hide Proper, GetPiece, Lookup, Find, Reuse, Step;
    LookupIsPiece(m, k);
    Unfold(m.c);
    LateMissTakes(m, k, tmp);
  }

  lemma LookupIsPiece(m: Machine, k: Key)
    requires Framed(m)
    ensures After(m, GetPiece(m.c, k), k) == Lookup(m, k)
  {
    hide Proper, Find, Scan, Choose, Reuse;
    Unfold(m.c);
    FindAgreesWithScan(m.c, k);
    assert m.(refs := m.refs + multiset{}) == m;
    if Find(m.c, k) == Nowhere {
      hide Step;
      MissTakes(m, k);
    }
  }

  lemma LateMissTakes(m: Machine, k: Key, b: nat)
    requires Framed(m) && b < |m.c.bufs|
    ensures Find(m.c, k) == Nowhere ==> Step(m, LateMiss(k, b)) == Take(m, b, k)
  {
    hide Proper, Find, Reuse;
    Unfold(m.c);
  }

  /** Awake again with a reference, a task keeps it, or gives it up and looks again. */
  lemma RetryIsRelease(m: Machine, r: Ref)
    requires Framed(m) && r in m.refs && r.b < |m.c.bufs| && !m.c.bufs[r.b].lock
    ensures m.c.bufs[r.b].key == r.k ==> AfterHit(m.c, r.b, r.k) == (m.c, Held(r.b))
    ensures m.c.bufs[r.b].key != r.k ==>
      var released := Step(m, Release(r));
      Framed(released) && After(released, AfterHit(m.c, r.b, r.k), r.k) == Lookup(released, r.k)
  {
    var released := Step(m, Release(r));
    StepKeepsIndex(m, Release(r));
    PiecesAreSteps(released, r.k, r.b, r.b);
    hide Proper, Find, GetPiece, Lookup;
  }

  class BufferCache {
    const next: array<int>
    const prev: array<int>
    const nextFree: array<int>
    const prevFree: array<int>
    const hashTable: array<int>
    var bufs: seq<Buf>
    var freeList: int
    ghost var ring: seq<nat>
    ghost var chains: seq<seq<nat>>

    ghost predicate Shape()
      reads this
    {
      && next != prev && next != nextFree && next != prevFree && next != hashTable && prev != nextFree
      && prev != prevFree && prev != hashTable && nextFree != prevFree && nextFree != hashTable && prevFree != hashTable
      && next.Length == prev.Length == nextFree.Length == prevFree.Length == |bufs| && hashTable.Length == NR_HASH
    }

    ghost function Pointers(): Links
      reads this, next, prev, nextFree, prevFree, hashTable
    {
      Links(next[..], prev[..], nextFree[..], prevFree[..], hashTable[..], freeList)
    }

    ghost function Snap(): Cache
      reads this
    {
      Cache(bufs, ring, chains)
    }

    ghost predicate Valid()
      reads this, next, prev, nextFree, prevFree, hashTable
    {
      Shape() && Proper(Snap()) && Linked(Pointers(), Snap())
    }

    /** buffer_init with room for `n` buffers. */
    constructor (n: nat)
      requires n >= 2
      ensures Valid() && fresh(next) && fresh(prev) && fresh(nextFree) && fresh(prevFree) && fresh(hashTable)
      ensures Snap() ==
        Cache(seq(n, _ => Buf(Key(0, 0), 0, false, false, false, [])), seq(n, i => i), seq(NR_HASH, _ => []))
    {
      next := new int[n](_ => -1);
      prev := new int[n](_ => -1);
      nextFree := new int[n](i => if i == n - 1 then 0 else i + 1);
      prevFree := new int[n](i => if i == 0 then n - 1 else i - 1);
      hashTable := new int[NR_HASH](_ => -1);
      bufs := seq(n, _ => Buf(Key(0, 0), 0, false, false, false, []));
      freeList, ring, chains := 0, seq(n, i => i), seq(NR_HASH, _ => []);
      new;
      BootKeeps(n, map[]);
      assert Snap() == Boot(n, map[]).c;
      hide Proper, Hash;
    }

    method RemoveFromQueues(b: nat)
      requires Shape() && b < |bufs| && Sized(Pointers(), |bufs|)
      requires 0 <= nextFree[b] < |bufs| && 0 <= prevFree[b] < |bufs|
      requires -1 <= next[b] < |bufs| && -1 <= prev[b] < |bufs|
      modifies this`freeList, next, prev, nextFree, prevFree, hashTable
      ensures Pointers() == Removed(old(Pointers()), b, bufs[b].key)
    {
      hide Hash;
      if next[b] != -1 {
        prev[next[b]] := prev[b];
      }
      if prev[b] != -1 {
        next[prev[b]] := next[b];
      }
      var h := Hash(bufs[b].key);
      if hashTable[h] == b {
        hashTable[h] := next[b];
      }
      nextFree[prevFree[b]] := nextFree[b];
      prevFree[nextFree[b]] := prevFree[b];
      if freeList == b {
        freeList := nextFree[b];
      }
    }

    method InsertIntoQueues(b: nat)
      requires Shape() && b < |bufs| && Sized(Pointers(), |bufs|)
      requires 0 <= freeList < |bufs| && 0 <= prevFree[freeList] < |bufs|
      requires -1 <= hashTable[Hash(bufs[b].key)] < |bufs|
      modifies next, prev, nextFree, prevFree, hashTable
      ensures Pointers() == Inserted(old(Pointers()), b, bufs[b].key)
    {
      hide Hash;
      nextFree[b] := freeList;
      prevFree[b] := prevFree[freeList];
      nextFree[prevFree[freeList]] := b;
      prevFree[freeList] := b;
      prev[b] := -1;
      next[b] := -1;
      if bufs[b].key.dev == 0 {
        return;
      }
      var h := Hash(bufs[b].key);
      next[b] := hashTable[h];
      hashTable[h] := b;
      if next[b] != -1 {
        prev[next[b]] := b;
      }
    }

    method FindBuffer(k: Key) returns (b: int)
      requires Valid()
      ensures b == match Find(Snap(), k) case Nowhere => -1 case Here(f) => f
    {
      hide Hash, ProperRing, Unique, RingOk;
      ghost var c := Snap();
      ghost var chain, i := c.chains[Hash(k)], 0;
      assert ChainOk(next[..], prev[..], hashTable[Hash(k)], chain);
      b := hashTable[Hash(k)];
      while b != -1
        invariant 0 <= i <= |chain| && b == CacheLinks.At(chain, i)
        invariant Search(c, chain, i, k) == Search(c, chain, 0, k)
        decreases |chain| - i
      {
        assert NodeOk(next[..], prev[..], chain, i);
        if bufs[b].key == k {
          return;
        }
        b, i := next[b], i + 1;
      }
    }

    /** The walk along the free list in getblk; `bh` is -1 if every buffer is in use. */
    method ChooseVictim() returns (bh: int, tmp: nat)
      requires Valid()
      ensures var r := Choose(Snap(), 0, Nowhere);
        && bh == (match r.best case Nowhere => -1 case Here(f) => f)
        && r.stop < |ring| && tmp == ring[r.stop]
    {
      hide Hash, ProperChains, Unique, ChainOk;
      ghost var c, i := Snap(), 0;
      bh, tmp := -1, freeList;
      ghost var best := Nowhere;
      while true
        invariant 0 <= i < |ring| && tmp == ring[i] && tmp < |bufs| && -1 <= bh < |bufs|
        invariant best == (if bh == -1 then Nowhere else Here(bh))
        invariant bh != -1 ==> Badness(bufs[bh]) > 0
        invariant Choose(c, 0, Nowhere) == Choose(c, i, best)
        decreases |ring| - i
      {
        if bufs[tmp].count == 0 && (bh == -1 || Badness(bufs[tmp]) < Badness(bufs[bh])) {
          bh, best := tmp, Here(tmp);
          if Badness(bufs[tmp]) == 0 {
            return;
          }
        }
        RingAt(nextFree[..], prevFree[..], ring, i);
        tmp := nextFree[tmp];
        if tmp == freeList {
          assert i + 1 == |ring|;
          return;
        }
        i := i + 1;
      }
    }

    method Requeue(b: nat, k: Key)
      requires Shape() && b < |bufs| && Movable(Pointers(), b, bufs[b].key, k)
      modifies this`bufs, this`freeList, next, prev, nextFree, prevFree, hashTable
      ensures Shape() && bufs == old(bufs)[b := old(bufs[b]).(key := k, count := 1, dirt := false, uptodate := false)]
      ensures Pointers() == Inserted(Removed(old(Pointers()), b, old(bufs[b].key)), b, k)
    {
      hide Hash, Inserted, Removed;
      bufs := bufs[b := bufs[b].(count := 1, dirt := false, uptodate := false)];
      RemoveFromQueues(b);
      assert Pointers() == Removed(old(Pointers()), b, bufs[b].key);
      bufs := bufs[b := bufs[b].(key := k)];
      InsertIntoQueues(b);
    }

    /** The end of getblk. */
    method TakeOver(b: nat, k: Key)
      requires Valid() && b < |bufs| && Find(Snap(), k) == Nowhere
      modifies this`bufs, this`freeList, this`ring, this`chains, next, prev, nextFree, prevFree, hashTable
      ensures Valid() && Snap() == Reuse(old(Snap()), b, k)
    {
      ghost var c, l := Snap(), Pointers();
      ReuseLinked(l, c, b, k);
      CanMove(l, c, b, k);
      hide Proper, Hash, Linked, Find, Inserted, Removed, Movable;
      Requeue(b, k);
      ring, chains := Reuse(c, b, k).ring, Reuse(c, b, k).chains;
    }

    method Drop(b: nat)
      requires Valid() && b < |bufs|
      modifies this`bufs
      ensures Valid() && Snap() == Count(old(Snap()), b, -1)
    {
      ghost var c := Snap();
      FlagsKeep(c, b, Count(c, b, -1).bufs[b]);
      SameLinks(Pointers(), c, Count(c, b, -1));
      hide Proper, Linked, Hash;
      bufs := bufs[b := bufs[b].(count := bufs[b].count - 1)];
    }

    method Claim(b: nat)
      requires Valid() && b < |bufs|
      modifies this`bufs
      ensures Valid() && Snap() == Count(old(Snap()), b, 1)
    {
      ghost var c := Snap();
      FlagsKeep(c, b, Count(c, b, 1).bufs[b]);
      SameLinks(Pointers(), c, Count(c, b, 1));
      hide Proper, Linked, Hash;
      bufs := bufs[b := bufs[b].(count := bufs[b].count + 1)];
    }

    method GetBlk(k: Key) returns (o: Outcome)
      requires Valid()
      modifies this`bufs, this`freeList, this`ring, this`chains, next, prev, nextFree, prevFree, hashTable
      ensures Valid() && old(Proper(Snap())) && (Snap(), o) == GetPiece(old(Snap()), k)
    {
      ghost var c := Snap();
      Unfold(c);
      FindAgreesWithScan(c, k);
      ChooseStops(c, 0, Nowhere);
      hide Proper, Linked, Hash, Find, Scan, Choose, Reuse;
      var b := FindBuffer(k);
      if b != -1 {
        Claim(b);
        return if bufs[b].lock then OnHit(b) else Held(b);
      }
      var bh, tmp := ChooseVictim();
      if bh == -1 {
        return OnPool;
      }
      if bufs[bh].lock {
        return OnVictim(bh, tmp);
      }
      TakeOver(tmp, k);
      return Held(tmp);
    }

    /** Awake again in get_hash_table. */
    method Awake(b: nat, k: Key) returns (o: Outcome)
      requires Valid() && b < |bufs|
      modifies this`bufs, this`freeList, this`ring, this`chains, next, prev, nextFree, prevFree, hashTable
      ensures Valid() && old(Proper(Snap())) && (Snap(), o) == AfterHit(old(Snap()), b, k)
    {
      if bufs[b].key == k {
        return Held(b);
      }
      hide Proper, Linked, GetPiece, Hash, Find, Reuse, Choose;
      Drop(b);
      o := GetBlk(k);
    }

    /** Awake again after waiting for the victim. */
    method AwakeWithVictim(bh: nat, tmp: nat, k: Key) returns (o: Outcome)
      requires Valid() && bh < |bufs| && tmp < |bufs|
      modifies this`bufs, this`freeList, this`ring, this`chains, next, prev, nextFree, prevFree, hashTable
      ensures Valid() && old(Proper(Snap())) && (Snap(), o) == AfterVictim(old(Snap()), bh, tmp, k)
    {
      Unfold(Snap());
      FindAgreesWithScan(Snap(), k);
      hide Proper, Linked, GetPiece, Find, Scan, Reuse, Hash;
      if bufs[bh].count != 0 {
        o := GetBlk(k);
        return;
      }
      var b := FindBuffer(k);
      if b != -1 {
        o := GetBlk(k);
        return;
      }
      TakeOver(tmp, k);
      return Held(tmp);
    }

    /** brelse once the buffer is unlocked; `ok` is false when it panics. */
    method Brelse(b: nat) returns (ok: bool)
      requires Valid() && b < |bufs|
      modifies this`bufs
      ensures Valid() && ok == (old(bufs[b]).count != 0) && Snap() == Count(old(Snap()), b, -1)
    {
      ok := bufs[b].count != 0;
      Drop(b);
    }
  }

  /** The pointers do not depend on the flags. */
  lemma SameLinks(l: Links, c: Cache, d: Cache)
    requires Proper(c) && Proper(d) && Linked(l, c) && (d.ring, d.chains) == (c.ring, c.chains) && |d.bufs| == |c.bufs|
    requires forall b :: 0 <= b < |c.bufs| ==> d.bufs[b].key == c.bufs[b].key
    ensures Linked(l, d)
  {
  }

  /** What the two functions rely on. */
  ghost predicate Movable(l: Links, b: nat, was: Key, k: Key) {
    && Sized(l, |l.next|) && b < |l.next|
    && 0 <= l.nextFree[b] < |l.next| && 0 <= l.prevFree[b] < |l.next|
    && -1 <= l.next[b] < |l.next| && -1 <= l.prev[b] < |l.next|
    && var r := Removed(l, b, was);
    && Sized(r, |l.next|) && 0 <= r.free < |r.next| && 0 <= r.prevFree[r.free] < |r.next|
    && -1 <= r.heads[Hash(k)] < |r.next|
  }

  lemma CanMove(l: Links, c: Cache, b: nat, k: Key)
    requires Proper(c) && Linked(l, c) && b < |c.bufs| && Find(c, k) == Nowhere
    ensures Movable(l, b, c.bufs[b].key, k)
  {
    InRange(l, c, b, Hash(k));
    RingReused(l, c, b, k);
    hide Proper, Hash, RingOk, ChainOk, Find;
  }
}
