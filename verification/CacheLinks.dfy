/** The pointers of the buffer cache: remove_from_queues and insert_into_queues of fs/buffer.c on the
    link fields, written as buffer numbers, with -1 for NULL. */
module CacheLinks {
  import opened Collections
  import opened BufferIndex

  datatype Links = Links(next: seq<int>, prev: seq<int>, nextFree: seq<int>, prevFree: seq<int>,
                         heads: seq<int>, free: int)

  function At(s: seq<nat>, i: int): int { if 0 <= i < |s| then s[i] else -1 }

  function Succ(i: int, n: int): int { if i + 1 == n then 0 else i + 1 }

  /** The free links spell `ring`, in both directions. */
  ghost predicate RingOk(nf: seq<int>, pf: seq<int>, ring: seq<nat>) {
    && |nf| == |pf| && Within(ring, |nf|)
    && forall i :: 0 <= i < |ring| ==> LinkOk(nf, pf, ring, i)
  }

  ghost predicate LinkOk(nf: seq<int>, pf: seq<int>, ring: seq<nat>, i: int)
    requires 0 <= i < |ring| && |nf| == |pf| && Within(ring, |nf|)
  {
    nf[ring[i]] == ring[Succ(i, |ring|)] && pf[ring[Succ(i, |ring|)]] == ring[i]
  }

  ghost predicate NodeOk(next: seq<int>, prev: seq<int>, chain: seq<nat>, i: int)
    requires 0 <= i < |chain|
  {
    chain[i] < |next| == |prev| && next[chain[i]] == At(chain, i + 1) && prev[chain[i]] == At(chain, i - 1)
  }

  /** The hash links spell `chain` from `head` on, in both directions. */
  ghost predicate ChainOk(next: seq<int>, prev: seq<int>, head: int, chain: seq<nat>) {
    head == At(chain, 0) && forall i :: 0 <= i < |chain| ==> NodeOk(next, prev, chain, i)
  }

  ghost predicate Sized(l: Links, n: int) {
    |l.next| == |l.prev| == |l.nextFree| == |l.prevFree| == n && |l.heads| == NR_HASH
  }

  /** The pointers spell the cache `c`; a buffer without a device has no hash links. */
  ghost predicate Linked(l: Links, c: Cache)
    requires Proper(c)
  {
    && Sized(l, |c.bufs|)
    && RingOk(l.nextFree, l.prevFree, c.ring) && l.free == c.ring[0]
    && (forall h :: 0 <= h < NR_HASH ==> ChainOk(l.next, l.prev, l.heads[h], c.chains[h]))
    && (forall b :: 0 <= b < |c.bufs| && c.bufs[b].key.dev == 0 ==> l.next[b] == -1 && l.prev[b] == -1)
  }

  // ---------------------------------------------------------- the free ring

  lemma RingAt(nf: seq<int>, pf: seq<int>, ring: seq<nat>, i: int)
    requires RingOk(nf, pf, ring) && NoDup(ring) && 0 <= i < |ring|
    ensures nf[ring[i]] == ring[Succ(i, |ring|)]
    ensures pf[ring[i]] == ring[if i == 0 then |ring| - 1 else i - 1]
  {
    var j := if i == 0 then |ring| - 1 else i - 1;
    assert LinkOk(nf, pf, ring, i) && LinkOk(nf, pf, ring, j) && Succ(j, |ring|) == i;
  }

  /** Removing position `i` shifts the positions behind it. */
  function Skip(i: int, j: int): int { if j < i then j else j + 1 }

  lemma RingUnlinkAt(nf: seq<int>, pf: seq<int>, ring: seq<nat>, i: int, j: int)
    requires RingOk(nf, pf, ring) && NoDup(ring) && 0 <= i < |ring| && 0 <= j < |ring| - 1
    requires 0 <= pf[ring[i]] < |nf| && 0 <= nf[ring[i]] < |nf|
    ensures var b, n := ring[i], |ring| - 1;
      && nf[pf[b] := nf[b]][ring[Skip(i, j)]] == ring[Skip(i, Succ(j, n))]
      && pf[nf[b] := pf[b]][ring[Skip(i, Succ(j, n))]] == ring[Skip(i, j)]
  {
    RingAt(nf, pf, ring, i);
    RingAt(nf, pf, ring, Skip(i, j));
    RingAt(nf, pf, ring, Skip(i, Succ(j, |ring| - 1)));
    hide RingOk;
  }

  /** Unlinking one of at least two. */
  lemma RingUnlink(nf: seq<int>, pf: seq<int>, ring: seq<nat>, i: int)
    requires RingOk(nf, pf, ring) && NoDup(ring) && 0 <= i < |ring| && |ring| >= 2
    ensures var b := ring[i];
      && 0 <= pf[b] < |nf| && 0 <= nf[b] < |nf| && pf[b] != b && nf[b] != b
      && RingOk(nf[pf[b] := nf[b]], pf[nf[b] := pf[b]], ring[..i] + ring[i + 1..])
  {
    RingAt(nf, pf, ring, i);
    var b, w, n := ring[i], ring[..i] + ring[i + 1..], |ring| - 1;
    assert forall j :: 0 <= j < n ==> w[j] == ring[Skip(i, j)];
    var nf2, pf2 := nf[pf[b] := nf[b]], pf[nf[b] := pf[b]];
    forall j | 0 <= j < n
      ensures LinkOk(nf2, pf2, w, j)
    {
      RingUnlinkAt(nf, pf, ring, i, j);
    }
  }

  /** Linking a new one in before the head, which is the end of the list. */
  lemma RingAppend(nf: seq<int>, pf: seq<int>, w: seq<nat>, b: nat)
    requires RingOk(nf, pf, w) && NoDup(w) && w != [] && b < |nf| && b !in w
    ensures 0 <= pf[w[0]] < |nf|
    ensures RingOk(nf[b := w[0]][pf[w[0]] := b], pf[b := pf[w[0]]][w[0] := b], w + [b])
  {
    RingAt(nf, pf, w, 0);
    var s, n := w + [b], |w|;
    var nf2, pf2 := nf[b := w[0]][pf[w[0]] := b], pf[b := pf[w[0]]][w[0] := b];
    forall j | 0 <= j < n + 1
      ensures LinkOk(nf2, pf2, s, j)
    {
      if j < n {
        RingAt(nf, pf, w, j);
        RingAt(nf, pf, w, Succ(j, n));
        assert w[j] in w && w[Succ(j, n)] in w;
      }
    }
  }

  // -------------------------------------------------------- the hash chains

  ghost predicate Apart(s: seq<nat>, t: seq<nat>) { forall i, j :: 0 <= i < |s| && 0 <= j < |t| ==> s[i] != t[j] }

  function NextWithout(next: seq<int>, prev: seq<int>, b: nat): seq<int>
    requires b < |next| == |prev|
  {
    if 0 <= prev[b] < |next| then next[prev[b] := next[b]] else next
  }

  lemma ChainUnlink(next: seq<int>, prev: seq<int>, head: int, chain: seq<nat>, i: int)
    requires ChainOk(next, prev, head, chain) && NoDup(chain) && 0 <= i < |chain|
    ensures var b := chain[i];
      && b < |next| == |prev|
      && (head == b <==> i == 0)
      && ChainOk(NextWithout(next, prev, b), NextWithout(prev, next, b),
                 if head == b then next[b] else head, chain[..i] + chain[i + 1..])
  {
    assert NodeOk(next, prev, chain, i) && NodeOk(next, prev, chain, 0);
    var b, w := chain[i], chain[..i] + chain[i + 1..];
    var next2, prev2 := NextWithout(next, prev, b), NextWithout(prev, next, b);
    assert forall j :: 0 <= j < |w| ==> w[j] == if j < i then chain[j] else chain[j + 1];
    forall j | 0 <= j < |w|
      ensures NodeOk(next2, prev2, w, j)
    {
      assert NodeOk(next, prev, chain, if j < i then j else j + 1);
    }
  }

  lemma ChainUntouched(next: seq<int>, prev: seq<int>, head: int, chain: seq<nat>, next2: seq<int>, prev2: seq<int>)
    requires ChainOk(next, prev, head, chain) && |next2| == |next| && |prev2| == |prev|
    requires forall j :: 0 <= j < |chain| && chain[j] < |next| == |prev| ==>
      next2[chain[j]] == next[chain[j]] && prev2[chain[j]] == prev[chain[j]]
    ensures ChainOk(next2, prev2, head, chain)
  {
    forall j | 0 <= j < |chain|
      ensures NodeOk(next2, prev2, chain, j)
    {
      assert NodeOk(next, prev, chain, j);
    }
  }

  lemma ChainPush(next: seq<int>, prev: seq<int>, head: int, chain: seq<nat>, b: nat)
    requires ChainOk(next, prev, head, chain) && NoDup(chain) && b < |next| == |prev| && b !in chain
    ensures ChainOk(next[b := head], (if 0 <= head < |prev| then prev[b := -1][head := b] else prev[b := -1]), b,
      [b] + chain)
  {
    var s := [b] + chain;
    var next2, prev2 := next[b := head], if 0 <= head < |prev| then prev[b := -1][head := b] else prev[b := -1];
    if chain != [] { assert NodeOk(next, prev, chain, 0) && chain[0] in chain; }
    forall j | 0 <= j < |s|
      ensures NodeOk(next2, prev2, s, j)
    {
      if j > 0 {
        assert NodeOk(next, prev, chain, j - 1) && chain[j - 1] in chain;
        assert At(s, j + 1) == At(chain, j);
        assert j > 1 ==> chain[j - 1] != chain[0];
      }
    }
  }

  // ------------------------------------------------------ the two functions

  /** remove_from_queues */
  function Removed(l: Links, b: nat, k: Key): Links
    requires Sized(l, |l.next|) && b < |l.next| && 0 <= l.nextFree[b] < |l.next| && 0 <= l.prevFree[b] < |l.next|
  {
    Links(NextWithout(l.next, l.prev, b), NextWithout(l.prev, l.next, b),
          l.nextFree[l.prevFree[b] := l.nextFree[b]], l.prevFree[l.nextFree[b] := l.prevFree[b]],
          if l.heads[Hash(k)] == b then l.heads[Hash(k) := l.next[b]] else l.heads,
          if l.free == b then l.nextFree[b] else l.free)
  }

  /** insert_into_queues */
  function Inserted(l: Links, b: nat, k: Key): Links
    requires Sized(l, |l.next|) && b < |l.next| && 0 <= l.free < |l.next| && 0 <= l.prevFree[l.free] < |l.next|
  {
    var h := l.heads[Hash(k)];
    var m := l.(nextFree := l.nextFree[b := l.free][l.prevFree[l.free] := b],
                prevFree := l.prevFree[b := l.prevFree[l.free]][l.free := b],
                next := l.next[b := -1], prev := l.prev[b := -1]);
    if k.dev == 0 then m
    else m.(next := m.next[b := h], heads := l.heads[Hash(k) := b],
            prev := if 0 <= h < |m.prev| then m.prev[h := b] else m.prev)
  }

  lemma RingRemoved(l: Links, ring: seq<nat>, b: nat, k: Key)
    requires Sized(l, |l.next|) && RingOk(l.nextFree, l.prevFree, ring) && NoDup(ring) && |ring| >= 2
    requires b in ring && l.free == ring[0]
    ensures b < |l.next| && 0 <= l.nextFree[b] < |l.next| && 0 <= l.prevFree[b] < |l.next|
    ensures var r, w := Removed(l, b, k), Without(ring, b);
      |w| > 0 && RingOk(r.nextFree, r.prevFree, w) && r.free == w[0]
  {
    hide Hash, NextWithout, LinkOk, Without;
    var i :| 0 <= i < |ring| && ring[i] == b;
    RingAt(l.nextFree, l.prevFree, ring, i);
    RingUnlink(l.nextFree, l.prevFree, ring, i);
    WithoutAt(ring, ring[i], i);
    WithoutLaws(ring, b);
  }

  lemma RingReused(l: Links, c: Cache, b: nat, k: Key)
    requires Proper(c) && Linked(l, c) && b < |c.bufs|
    ensures 0 <= l.nextFree[b] < |l.next| && 0 <= l.prevFree[b] < |l.next|
    ensures var r := Removed(l, b, c.bufs[b].key);
      && 0 <= r.free < |l.next| && 0 <= r.prevFree[r.free] < |l.next|
      && var t := Inserted(r, b, k);
      RingOk(t.nextFree, t.prevFree, Reuse(c, b, k).ring) && t.free == Reuse(c, b, k).ring[0]
  {
    RingRemoved(l, c.ring, b, c.bufs[b].key);
    WithoutLaws(c.ring, b);
    var r, w := Removed(l, b, c.bufs[b].key), Without(c.ring, b);
    RingAppend(r.nextFree, r.prevFree, w, b);
    hide Hash, Proper, LinkOk, ChainOk, NextWithout, Without;
  }

  /** The chains after remove_from_queues: the buffer is on none. */
  lemma ChainsRemoved(l: Links, c: Cache, b: nat, h: int)
    requires Proper(c) && Linked(l, c) && b < |c.bufs| && 0 <= h < NR_HASH
    requires 0 <= l.nextFree[b] < |l.next| && 0 <= l.prevFree[b] < |l.next|
    ensures var r := Removed(l, b, c.bufs[b].key);
      ChainOk(r.next, r.prev, r.heads[h], Unhashed(c, b)[h])
  {
    hide Hash, ProperRing, Unique, Without;
    var k, chain := c.bufs[b].key, c.chains[h];
    assert ChainOk(l.next, l.prev, l.heads[h], chain);
    assert b in chain <==> Bucket(c, b) == h;
    var r := Removed(l, b, k);
    if Bucket(c, b) == h {
      var i :| 0 <= i < |chain| && chain[i] == b;
      ChainUnlink(l.next, l.prev, l.heads[h], chain, i);
      WithoutAt(chain, chain[i], i);
    } else {
      assert l.heads[h] != b;
      OtherChain(l, c, b, h);
      ChainUntouched(l.next, l.prev, l.heads[h], chain, r.next, r.prev);
    }
  }

  /** The neighbours of a buffer on its chain are on no other chain. */
  lemma OtherChain(l: Links, c: Cache, b: nat, h: int)
    requires Proper(c) && Linked(l, c) && b < |c.bufs| && 0 <= h < NR_HASH && Bucket(c, b) != h
    ensures forall j :: 0 <= j < |c.chains[h]| ==>
      c.chains[h][j] != b && l.next[b] != c.chains[h][j] && l.prev[b] != c.chains[h][j]
  {
    hide Hash, ProperRing, Unique;
    var g, chain := Bucket(c, b), c.chains[h];
    assert forall j :: 0 <= j < |chain| ==> chain[j] in chain && Bucket(c, chain[j]) == h;
    if g >= 0 {
      var own := c.chains[g];
      assert ChainOk(l.next, l.prev, l.heads[g], own) && b in own;
      var i :| 0 <= i < |own| && own[i] == b;
      assert NodeOk(l.next, l.prev, own, i);
      assert forall q :: 0 <= q < |own| ==> own[q] in own && Bucket(c, own[q]) == g;
    }
  }

  lemma ChainsInserted(l: Links, chains: seq<seq<nat>>, b: nat, k: Key, h: int)
    requires Sized(l, |l.next|) && b < |l.next| && 0 <= l.free < |l.next| && 0 <= l.prevFree[l.free] < |l.next|
    requires |chains| == NR_HASH && 0 <= h < NR_HASH && NoDup(chains[h]) && NoDup(chains[Hash(k)])
    requires forall g :: 0 <= g < NR_HASH ==> ChainOk(l.next, l.prev, l.heads[g], chains[g]) && b !in chains[g]
    requires h != Hash(k) ==> Apart(chains[h], chains[Hash(k)])
    ensures var t := Inserted(l, b, k);
      ChainOk(t.next, t.prev, t.heads[h], Hashed(chains, b, k)[h])
  {
    hide Hash;
    var t, own := Inserted(l, b, k), chains[Hash(k)];
    assert ChainOk(l.next, l.prev, l.heads[Hash(k)], own);
    assert forall j :: 0 <= j < |chains[h]| ==> chains[h][j] in chains[h];
    if k.dev != 0 && h == Hash(k) {
      ChainPush(l.next, l.prev, l.heads[h], own, b);
      assert l.next[b := -1][b := l.heads[h]] == l.next[b := l.heads[h]];
    } else {
      ChainUntouched(l.next, l.prev, l.heads[h], chains[h], t.next, t.prev);
    }
  }

  lemma InChain(c: Cache, g: int, x: nat)
    requires ProperChains(c) && 0 <= g < NR_HASH && x in c.chains[g]
    ensures x < |c.bufs| && Bucket(c, x) == g
  {
    hide Bucket;
    var i :| 0 <= i < |c.chains[g]| && c.chains[g][i] == x;
  }

  lemma UnhashedApart(c: Cache, b: nat, g: int, h: int)
    requires ProperChains(c) && b < |c.bufs| && 0 <= g < NR_HASH && 0 <= h < NR_HASH && g != h
    ensures |Unhashed(c, b)| == NR_HASH && Apart(Unhashed(c, b)[g], Unhashed(c, b)[h])
  {
    UnhashedLaws(c, b);
    hide Unhashed, Hash, Bucket;
    var u := Unhashed(c, b);
    forall i, j | 0 <= i < |u[g]| && 0 <= j < |u[h]|
      ensures u[g][i] != u[h][j]
    {
      assert u[g][i] in u[g] && u[h][j] in u[h];
      InChain(c, g, u[g][i]);
      InChain(c, h, u[h][j]);
    }
  }

  /** A buffer without a device is nobody's neighbour and no head. */
  lemma LooseBuffer(l: Links, c: Cache, b: nat, h: int, x: nat)
    requires Proper(c) && Linked(l, c) && b < |c.bufs| && 0 <= h < NR_HASH
    requires x < |c.bufs| && x != b && c.bufs[x].key.dev == 0
    ensures l.next[b] != x && l.prev[b] != x && l.heads[h] != x
  {
    hide Hash, ProperRing, Unique, RingOk;
    var g := Bucket(c, b);
    assert ChainOk(l.next, l.prev, l.heads[h], c.chains[h]) && (x in c.chains[h] <==> Bucket(c, x) == h);
    if g >= 0 {
      var own := c.chains[g];
      assert ChainOk(l.next, l.prev, l.heads[g], own) && b in own && (x in own <==> Bucket(c, x) == g);
      var i :| 0 <= i < |own| && own[i] == b;
      assert NodeOk(l.next, l.prev, own, i);
    }
  }

  lemma NoLinks(l: Links, c: Cache, b: nat, k: Key, x: nat)
    requires Proper(c) && Linked(l, c) && b < |c.bufs|
    requires 0 <= l.nextFree[b] < |l.next| && 0 <= l.prevFree[b] < |l.next|
    requires var r := Removed(l, b, c.bufs[b].key); 0 <= r.free < |l.next| && 0 <= r.prevFree[r.free] < |l.next|
    requires x < |c.bufs| && x != b && c.bufs[x].key.dev == 0
    ensures var t := Inserted(Removed(l, b, c.bufs[b].key), b, k); t.next[x] == -1 && t.prev[x] == -1
  {
    LooseBuffer(l, c, b, Hash(k), x);
    hide Hash, Proper, RingOk, ChainOk;
  }

  /** remove_from_queues, the change of block and insert_into_queues leave pointers that spell the
      cache in which the buffer is reused: at the end of the free list, at the head of its chain. */
  lemma ReuseLinked(l: Links, c: Cache, b: nat, k: Key)
    requires Proper(c) && Linked(l, c) && b < |c.bufs| && Find(c, k) == Nowhere
    ensures Proper(Reuse(c, b, k))
    ensures 0 <= l.nextFree[b] < |l.next| && 0 <= l.prevFree[b] < |l.next|
    ensures var r := Removed(l, b, c.bufs[b].key);
      && 0 <= r.free < |l.next| && 0 <= r.prevFree[r.free] < |l.next|
      && Linked(Inserted(r, b, k), Reuse(c, b, k))
  {
    ReuseKeeps(c, b, k);
    RingReused(l, c, b, k);
    UnhashedLaws(c, b);
    hide Hash, ProperRing, Unique, Find, RingOk, ChainOk, Unhashed, Without;
    var r := Removed(l, b, c.bufs[b].key);
    forall h | 0 <= h < NR_HASH
      ensures ChainOk(r.next, r.prev, r.heads[h], Unhashed(c, b)[h])
    {
      ChainsRemoved(l, c, b, h);
    }
    var t := Inserted(r, b, k);
    forall h | 0 <= h < NR_HASH
      ensures ChainOk(t.next, t.prev, t.heads[h], Reuse(c, b, k).chains[h])
    {
      if h != Hash(k) { UnhashedApart(c, b, h, Hash(k)); }
      ChainsInserted(r, Unhashed(c, b), b, k, h);
    }
    forall x | 0 <= x < |c.bufs| && x != b && c.bufs[x].key.dev == 0
      ensures t.next[x] == -1 && t.prev[x] == -1
    {
      NoLinks(l, c, b, k, x);
    }
  }

  /** The links and heads are NULL or buffers. */
  lemma InRange(l: Links, c: Cache, b: nat, h: int)
    requires Proper(c) && Linked(l, c) && b < |c.bufs| && 0 <= h < NR_HASH
    ensures -1 <= l.next[b] < |l.next| && -1 <= l.prev[b] < |l.next| && -1 <= l.heads[h] < |l.next|
  {
    hide Hash, ProperRing, Unique, RingOk;
    var g, chain := Bucket(c, b), c.chains[h];
    assert ChainOk(l.next, l.prev, l.heads[h], chain) && Within(chain, |c.bufs|);
    if g >= 0 {
      var own := c.chains[g];
      assert ChainOk(l.next, l.prev, l.heads[g], own) && Within(own, |c.bufs|) && b in own;
      var i :| 0 <= i < |own| && own[i] == b;
      assert NodeOk(l.next, l.prev, own, i);
    }
  }
}
