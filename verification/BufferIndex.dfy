/** The buffer cache as a value (fs/buffer.c): the buffers, the circular free list read from its head,
    and the hash chains read from theirs. */
module BufferIndex {
  import opened Collections

  const NR_HASH: int := 307
  const WORD: int := 0x1_0000_0000

  datatype Key = Key(dev: int, block: int)
  type Block = seq<int>

  datatype Buf = Buf(key: Key, count: int, dirt: bool, lock: bool, uptodate: bool, data: Block)

  datatype Cache = Cache(bufs: seq<Buf>, ring: seq<nat>, chains: seq<seq<nat>>)

  /** (unsigned)(dev ^ block) % NR_HASH */
  function Hash(k: Key): (h: int)
    ensures 0 <= h < NR_HASH
  {
    (((k.dev % WORD) as bv32) ^ ((k.block % WORD) as bv32)) as int % NR_HASH
  }

  /** Every buffer is on the free list exactly once. */
  ghost predicate ProperRing(c: Cache) {
    && |c.ring| == |c.bufs| && NoDup(c.ring)
    && Within(c.ring, |c.bufs|)
    && (forall b: nat :: b < |c.bufs| ==> b in c.ring)
  }

  function Bucket(c: Cache, b: nat): int
    requires b < |c.bufs|
  {
    if c.bufs[b].key.dev == 0 then -1 else Hash(c.bufs[b].key)
  }

  /** Every buffer with a device is on exactly its own chain, once; the others are on none. */
  ghost predicate ProperChains(c: Cache) {
    && |c.chains| == NR_HASH
    && (forall h :: 0 <= h < NR_HASH ==> NoDup(c.chains[h]))
    && (forall h :: 0 <= h < NR_HASH ==> Within(c.chains[h], |c.bufs|))
    && (forall h, b :: 0 <= h < NR_HASH && 0 <= b < |c.bufs| ==> (b in c.chains[h] <==> Bucket(c, b) == h))
  }

  /** No two buffers hold the same block. */
  ghost predicate Unique(c: Cache) {
    forall a, b :: 0 <= a < b < |c.bufs| && c.bufs[a].key == c.bufs[b].key ==> c.bufs[a].key.dev == 0
  }

  ghost predicate Proper(c: Cache) {
    |c.bufs| >= 2 && ProperRing(c) && ProperChains(c) && Unique(c)
  }

  // ---------------------------------------------------------------- search

  datatype Found = Nowhere | Here(b: nat)

  /** What a search through all the buffers finds. */
  function Scan(bufs: seq<Buf>, k: Key): (f: Found)
    ensures f.Here? ==> f.b < |bufs| && bufs[f.b].key == k
    ensures f.Nowhere? ==> forall b :: 0 <= b < |bufs| ==> bufs[b].key != k
  {
    if bufs == [] then Nowhere
    else if bufs[|bufs| - 1].key == k then Here(|bufs| - 1)
    else Scan(bufs[..|bufs| - 1], k)
  }

  /** What find_buffer finds: the first match from position `i` of a chain on. */
  function Search(c: Cache, chain: seq<nat>, i: nat, k: Key): Found
    requires i <= |chain| && Within(chain, |c.bufs|)
    decreases |chain| - i
  {
    if i == |chain| then Nowhere
    else if c.bufs[chain[i]].key == k then Here(chain[i])
    else Search(c, chain, i + 1, k)
  }

  function Find(c: Cache, k: Key): Found
    requires |c.chains| == NR_HASH && Within(c.chains[Hash(k)], |c.bufs|)
  {
    Search(c, c.chains[Hash(k)], 0, k)
  }

  lemma {:induction false} SearchFinds(c: Cache, chain: seq<nat>, i: nat, k: Key)
    requires i <= |chain| && Within(chain, |c.bufs|)
    ensures var f := Search(c, chain, i, k);
      && (f.Here? ==> f.b in chain && c.bufs[f.b].key == k)
      && (f.Nowhere? ==> forall j :: i <= j < |chain| ==> c.bufs[chain[j]].key != k)
    decreases |chain| - i
  {
    if i < |chain| { SearchFinds(c, chain, i + 1, k); }
  }

  /** The hash index agrees with a linear search, for every block of every real device. */
  lemma FindAgreesWithScan(c: Cache, k: Key)
    requires Proper(c)
    ensures Find(c, k) == if k.dev == 0 then Nowhere else Scan(c.bufs, k)
  {
    var chain, f, s := c.chains[Hash(k)], Find(c, k), Scan(c.bufs, k);
    SearchFinds(c, chain, 0, k);
    if f.Here? {
      assert Bucket(c, f.b) == Hash(k);
    }
    if s.Here? && k.dev != 0 {
      assert Bucket(c, s.b) == Hash(k);
      assert s.b in chain;
    }
  }

  // -------------------------------------------------------------- requeuing

  function Unhashed(c: Cache, b: nat): seq<seq<nat>>
    requires b < |c.bufs| && |c.chains| == NR_HASH
  {
    var h := Bucket(c, b);
    if h < 0 then c.chains else c.chains[h := Without(c.chains[h], b)]
  }

  function Hashed(chains: seq<seq<nat>>, b: nat, k: Key): seq<seq<nat>>
    requires |chains| == NR_HASH
  {
    if k.dev == 0 then chains else chains[Hash(k) := [b] + chains[Hash(k)]]
  }

  /** The end of getblk: buffer `b` is given to block `k` and goes to the end of the free list. */
  function Reuse(c: Cache, b: nat, k: Key): Cache
    requires b < |c.bufs| && |c.chains| == NR_HASH
  {
    Cache(c.bufs[b := c.bufs[b].(key := k, count := 1, dirt := false, uptodate := false)],
          Without(c.ring, b) + [b],
          Hashed(Unhashed(c, b), b, k))
  }

  lemma RingKept(c: Cache, b: nat, k: Key)
    requires ProperRing(c) && b < |c.bufs| && |c.chains| == NR_HASH
    ensures ProperRing(Reuse(c, b, k))
  {
    hide Hash, Without, Hashed, Unhashed;
    WithoutLaws(c.ring, b);
    var w, r := Without(c.ring, b), Reuse(c, b, k);
    assert forall i :: 0 <= i < |w| ==> w[i] in c.ring && w[i] != b;
    forall x: nat | x < |c.bufs|
      ensures x in r.ring
    {
      assert x == b || x in w;
    }
  }

  lemma UnhashedLaws(c: Cache, b: nat)
    requires ProperChains(c) && b < |c.bufs|
    ensures |Unhashed(c, b)| == NR_HASH
    ensures forall g :: 0 <= g < NR_HASH ==> NoDup(Unhashed(c, b)[g])
    ensures forall g, x :: 0 <= g < NR_HASH ==> (x in Unhashed(c, b)[g] <==> x in c.chains[g] && x != b)
  {
    hide Hash, Without;
    var h := Bucket(c, b);
    if h >= 0 {
      assert b in c.chains[h];
      WithoutLaws(c.chains[h], b);
    }
  }

  lemma ChainsKept(c: Cache, b: nat, k: Key)
    requires ProperChains(c) && b < |c.bufs|
    ensures ProperChains(Reuse(c, b, k))
  {
    hide Hash, Without, Unhashed;
    UnhashedLaws(c, b);
    var r, u := Reuse(c, b, k), Unhashed(c, b);
    forall g | 0 <= g < NR_HASH
      ensures Within(r.chains[g], |c.bufs|) && NoDup(r.chains[g])
    {
      assert forall i :: 0 <= i < |u[g]| ==> u[g][i] in u[g] && u[g][i] in c.chains[g];
    }
    assert forall g, x :: 0 <= g < NR_HASH ==>
      (x in r.chains[g] <==> x in u[g] || (x == b && k.dev != 0 && g == Hash(k)));
    forall g, x | 0 <= g < NR_HASH && 0 <= x < |c.bufs|
      ensures x in r.chains[g] <==> Bucket(r, x) == g
    {
      assert x != b ==> Bucket(r, x) == Bucket(c, x);
    }
  }

  /** Whatever buffer getblk takes, used or dirty or locked, the index stays exact, as long as nobody
      holds the block yet. */
  lemma ReuseKeeps(c: Cache, b: nat, k: Key)
    requires Proper(c) && b < |c.bufs| && Find(c, k) == Nowhere
    ensures Proper(Reuse(c, b, k))
  {
    hide Hash, Without;
    RingKept(c, b, k);
    ChainsKept(c, b, k);
    FindAgreesWithScan(c, k);
  }

  lemma ScanIs(bufs: seq<Buf>, k: Key, b: nat)
    requires b < |bufs| && bufs[b].key == k
    requires forall a :: 0 <= a < |bufs| && bufs[a].key == k ==> a == b
    ensures Scan(bufs, k) == Here(b)
  {
  }

  /** After the reuse the block is found in `b`, and every other block where it was found before,
      unless `b` held it. */
  lemma ReuseFinds(c: Cache, b: nat, k: Key, other: Key)
    requires Proper(c) && b < |c.bufs| && Find(c, k) == Nowhere && other != k
    ensures Proper(Reuse(c, b, k))
    ensures Find(Reuse(c, b, k), k) == if k.dev == 0 then Nowhere else Here(b)
    ensures Find(Reuse(c, b, k), other) == if c.bufs[b].key == other then Nowhere else Find(c, other)
  {
    hide Find, Hash, ProperRing;
    ReuseKeeps(c, b, k);
    FindAgreesWithScan(c, k);
    FindAgreesWithScan(Reuse(c, b, k), k);
    FindAgreesWithScan(c, other);
    FindAgreesWithScan(Reuse(c, b, k), other);
    if k.dev != 0 { ScanIs(Reuse(c, b, k).bufs, k, b); }
    var s := Scan(c.bufs, other);
    if other.dev != 0 && s.Here? && s.b != b { ScanIs(Reuse(c, b, k).bufs, other, s.b); }
  }

  // ------------------------------------------------------- choosing a victim

  function Badness(b: Buf): int { (if b.dirt then 2 else 0) + (if b.lock then 1 else 0) }

  predicate Spare(b: Buf) { b.count == 0 && Badness(b) == 0 }

  /** One look of the scanning loop: `best` so far, `i` the place on the free list. */
  datatype Choice = Choice(best: Found, stop: nat)

  function Choose(c: Cache, i: nat, best: Found): (r: Choice)
    requires i <= |c.ring| && Within(c.ring, |c.bufs|)
    requires best.Here? ==> best.b < |c.bufs|
    ensures r.best.Here? ==> r.best.b < |c.bufs|
    decreases |c.ring| - i
  {
    if i == |c.ring| then Choice(best, 0)          // round the ring, back at the head
    else
      var b := c.ring[i];
      if c.bufs[b].count == 0 && (best.Nowhere? || Badness(c.bufs[b]) < Badness(c.bufs[best.b])) then
        if Badness(c.bufs[b]) == 0 then Choice(Here(b), i) else Choose(c, i + 1, Here(b))
      else Choose(c, i + 1, best)
  }

  /** The loop stops at the first spare buffer, which is then the one taken.  Without one it comes
      round to the list head, and the head is taken whatever its state, although the best of the
      others was remembered. */
  lemma {:induction false} ChooseStops(c: Cache, i: nat, best: Found)
    requires i <= |c.ring| && Within(c.ring, |c.bufs|)
    requires best.Here? ==> best.b < |c.bufs| && Badness(c.bufs[best.b]) > 0
    ensures var r := Choose(c, i, best);
      && ((exists j :: i <= j < |c.ring| && Spare(c.bufs[c.ring[j]])) ==>
            && i <= r.stop < |c.ring| && r.best == Here(c.ring[r.stop]) && Spare(c.bufs[c.ring[r.stop]])
            && forall j :: i <= j < r.stop ==> !Spare(c.bufs[c.ring[j]]))
      && (!(exists j :: i <= j < |c.ring| && Spare(c.bufs[c.ring[j]])) ==>
            r.stop == 0 && (r.best.Here? ==> Badness(c.bufs[r.best.b]) > 0))
    decreases |c.ring| - i
  {
    if i < |c.ring| {
      var b := c.ring[i];
      var next := if c.bufs[b].count == 0 && (best.Nowhere? || Badness(c.bufs[b]) < Badness(c.bufs[best.b]))
                  then Here(b) else best;
      if !Spare(c.bufs[b]) { ChooseStops(c, i + 1, next); }
    }
  }

  /** A dirty buffer is worse than a clean one; of two alike in this a locked one is worse. */
  predicate Worse(a: Buf, b: Buf) { (a.dirt && !b.dirt) || (a.dirt == b.dirt && a.lock && !b.lock) }

  /** When no buffer is spare, the walk remembers the first of the least bad buffers that nobody holds. */
  lemma {:induction false} ChooseIsLeast(c: Cache, i: nat, best: Found)
    requires i <= |c.ring| && Within(c.ring, |c.bufs|)
    requires best.Here? ==>
      best.b < |c.bufs| && c.bufs[best.b].count == 0 && (c.bufs[best.b].dirt || c.bufs[best.b].lock)
    requires forall j :: i <= j < |c.ring| && c.bufs[c.ring[j]].count == 0 ==>
      c.bufs[c.ring[j]].dirt || c.bufs[c.ring[j]].lock
    ensures var r := Choose(c, i, best).best;
      && (r.Nowhere? <==> best.Nowhere? && forall j :: i <= j < |c.ring| ==> c.bufs[c.ring[j]].count != 0)
      && (r.Here? ==>
            && c.bufs[r.b].count == 0 && (best.Here? ==> r == best || Worse(c.bufs[best.b], c.bufs[r.b]))
            && (r == best || exists k :: FirstAt(c, i, k, r.b))
            && forall j :: i <= j < |c.ring| && c.bufs[c.ring[j]].count == 0 ==> !Worse(c.bufs[r.b], c.bufs[c.ring[j]]))
    decreases |c.ring| - i
  {
    if i < |c.ring| {
      var b := c.ring[i];
      var next := if c.bufs[b].count == 0 && (best.Nowhere? || Badness(c.bufs[b]) < Badness(c.bufs[best.b]))
                  then Here(b) else best;
      assert next == Here(b) && best.Here? && next != best ==> Worse(c.bufs[best.b], c.bufs[b]);
      ChooseIsLeast(c, i + 1, next);
      var r := Choose(c, i, best).best;
      if r.Here? && r != best {
        if r == next {
          assert FirstAt(c, i, i, r.b);
        } else {
          var k :| FirstAt(c, i + 1, k, r.b);
          assert FirstAt(c, i, k, r.b);
        }
      }
    }
  }

  /** Buffer `b` is at place `k` of the free list, and those between `i` and there that nobody holds are worse. */
  ghost predicate FirstAt(c: Cache, i: nat, k: nat, b: nat) {
    && i <= k < |c.ring| && c.ring[k] == b < |c.bufs|
    && forall j :: i <= j < k && c.ring[j] < |c.bufs| && c.bufs[c.ring[j]].count == 0 ==>
         Worse(c.bufs[c.ring[j]], c.bufs[b])
  }

  // --------------------------------------------------- the order of the ring

  /** `x` comes before `y`. */
  ghost predicate Before(s: seq<nat>, x: nat, y: nat) { exists i, j :: 0 <= i < j < |s| && s[i] == x && s[j] == y }

  /** A buffer that is taken goes to the end of the free list, and the others keep their order. */
  lemma ReuseOrders(c: Cache, b: nat, k: Key, x: nat, y: nat)
    requires ProperRing(c) && b < |c.bufs| && |c.chains| == NR_HASH
    ensures var r := Reuse(c, b, k).ring;
      && |r| == |c.ring| > 0 && r[|r| - 1] == b
      && (x in c.ring && x != b ==> Before(r, x, b))
      && (x != b && y != b ==> (Before(r, x, y) <==> Before(c.ring, x, y)))
  {
    hide Hash, Without, Hashed, Unhashed;
    WithoutLaws(c.ring, b);
    var p :| 0 <= p < |c.ring| && c.ring[p] == b;
    Moved(c.ring, p, x, y);
  }

  lemma Moved(s: seq<nat>, p: int, x: nat, y: nat)
    requires NoDup(s) && 0 <= p < |s|
    ensures var r := s[..p] + s[p + 1..] + [s[p]];
      && (x in s && x != s[p] ==> Before(r, x, s[p]))
      && (x != s[p] && y != s[p] ==> (Before(r, x, y) <==> Before(s, x, y)))
  {
    var r, b := s[..p] + s[p + 1..] + [s[p]], s[p];
    if x in s && x != b {
      var i :| 0 <= i < |s| && s[i] == x;
      assert r[if i < p then i else i - 1] == x && r[|r| - 1] == b;
    }
    if x != b && y != b {
      if Before(s, x, y) {
        var i, j :| 0 <= i < j < |s| && s[i] == x && s[j] == y;
        assert r[if i < p then i else i - 1] == x && r[if j < p then j else j - 1] == y;
      }
      if Before(r, x, y) {
        var i, j :| 0 <= i < j < |r| && r[i] == x && r[j] == y;
        assert s[if i < p then i else i + 1] == x && s[if j < p then j else j + 1] == y;
      }
    }
  }
}
