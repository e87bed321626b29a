/** Runs of the buffer cache (fs/buffer.c with the requests of kernel/blk_drv/ll_rw_blk.c), one step per
    piece of kernel code between two sleeps.  Any number of tasks take part: a task that has found or
    taken a buffer has a reference to it, also while it sleeps in wait_on_buffer. */
module CacheRuns {
  import opened Collections
  import opened BufferIndex

  datatype Rw = READ | WRITE

  /** What the lock of a buffer is held for: waiting for a request slot, queued, or transferred.  A queued
      request names its block itself. */
  datatype Io = Quiet | Wanted(rw: Rw) | Reading(k: Key) | Writing(k: Key) | Written(k: Key)

  predicate Incoming(io: Io) { io == Wanted(READ) || io.Reading? }

  predicate Outgoing(io: Io) { io == Wanted(WRITE) || io.Writing? || io.Written? }

  datatype Ref = Ref(b: nat, k: Key)

  datatype Machine = Machine(c: Cache, io: seq<Io>, refs: multiset<Ref>, disk: map<Key, Block>)

  function At(d: map<Key, Block>, k: Key): Block { if k in d then d[k] else [] }

  datatype Op =
    | Hit(k: Key)                  // get_hash_table finds the block
    | Miss(k: Key)                 // getblk looks for a buffer and takes one, without sleeping
    | LateMiss(k: Key, head: nat)  // the same after a sleep: `head` was the list head before it
    | Release(r: Ref)              // brelse
    | Fill(r: Ref, v: Block)       // the holder changes the contents
    | Start(b: nat, rw: Rw)        // make_request locks the buffer
    | Queue(b: nat)                // add_request
    | Transfer(b: nat)             // the driver has written the block
    | Finish(b: nat)               // end_request

  function Count(c: Cache, b: nat, d: int): Cache
    requires b < |c.bufs|
  {
    c.(bufs := c.bufs[b := c.bufs[b].(count := c.bufs[b].count + d)])
  }

  function Put(m: Machine, b: nat, u: Buf, io: Io): Machine
    requires b < |m.c.bufs| == |m.io|
  {
    m.(c := m.c.(bufs := m.c.bufs[b := u]), io := m.io[b := io])
  }

  ghost predicate Framed(m: Machine) { Proper(m.c) && |m.io| == |m.c.bufs| }

  predicate MayFill(m: Machine, r: Ref) {
    r in m.refs && r.b < |m.c.bufs| && (m.c.bufs[r.b].uptodate || !m.c.bufs[r.b].lock)
  }

  /** getblk takes `b` for block `k`. */
  function Take(m: Machine, b: nat, k: Key): Machine
    requires Framed(m) && b < |m.c.bufs|
  {
    m.(c := Reuse(m.c, b, k), refs := m.refs + multiset{Ref(b, k)})
  }

  function Asking(rw: Rw, k: Key): Io { if rw == READ then Reading(k) else Writing(k) }

  ghost function Step(m: Machine, op: Op): Machine
    requires Framed(m)
  {
    var n := |m.c.bufs|;
    match op
    case Hit(k) =>
      var f := Find(m.c, k);
      if f.Nowhere? || f.b >= n then m else m.(c := Count(m.c, f.b, 1), refs := m.refs + multiset{Ref(f.b, k)})
    case Miss(k) =>
      var r := Choose(m.c, 0, Nowhere);
      if Find(m.c, k) != Nowhere || r.best.Nowhere? || m.c.bufs[r.best.b].lock then m
      else Take(m, m.c.ring[if r.stop < n then r.stop else 0], k)
    case LateMiss(k, head) =>
      if Find(m.c, k) != Nowhere || head >= n then m else Take(m, head, k)
    case Release(r) =>
      if r !in m.refs || r.b >= n || m.c.bufs[r.b].lock then m
      else m.(c := Count(m.c, r.b, -1), refs := m.refs - multiset{r})
    case Fill(r, v) =>
      if !MayFill(m, r) then m
      else Put(m, r.b, m.c.bufs[r.b].(data := v, uptodate := true, dirt := true), m.io[r.b])
    case Start(b, rw) =>
      if b >= n || m.c.bufs[b].lock || (rw == WRITE && !m.c.bufs[b].dirt) || (rw == READ && m.c.bufs[b].uptodate) then m
      else Put(m, b, m.c.bufs[b].(lock := true), Wanted(rw))
    case Queue(b) =>
      if b >= n || !m.io[b].Wanted? then m
      else Put(m, b, m.c.bufs[b].(dirt := false), Asking(m.io[b].rw, m.c.bufs[b].key))
    case Transfer(b) =>
      if b >= n || !m.io[b].Writing? then m
      else Put(m, b, m.c.bufs[b], Written(m.io[b].k)).(disk := m.disk[m.io[b].k := m.c.bufs[b].data])
    case Finish(b) =>
      if b >= n then m
      else if m.io[b].Reading? then
        Put(m, b, m.c.bufs[b].(data := At(m.disk, m.io[b].k), uptodate := true, lock := false), Quiet)
      else if m.io[b].Written? then
        Put(m, b, m.c.bufs[b].(uptodate := true, lock := false), Quiet)
      else m
  }

  // ------------------------------------------- the index, whatever happens

  lemma FlagsKeep(c: Cache, b: nat, u: Buf)
    requires Proper(c) && b < |c.bufs| && u.key == c.bufs[b].key
    ensures Proper(c.(bufs := c.bufs[b := u]))
  {
    hide Hash;
    var d := c.(bufs := c.bufs[b := u]);
    assert forall x :: 0 <= x < |c.bufs| ==> d.bufs[x].key == c.bufs[x].key;
    assert forall x :: 0 <= x < |c.bufs| ==> Bucket(d, x) == Bucket(c, x);
  }

  /** Every step keeps the index exact, also those that take a buffer in use or after a sleep. */
  lemma StepKeepsIndex(m: Machine, op: Op)
    requires Framed(m)
    ensures Framed(Step(m, op))
  {
    hide Proper, Find, Choose, Hash;
    Unfold(m.c);
    match op
    case Hit(k) =>
      var f := Find(m.c, k);
      if f.Here? && f.b < |m.c.bufs| { FlagsKeep(m.c, f.b, Count(m.c, f.b, 1).bufs[f.b]); }
    case Miss(k) =>
      var r := Choose(m.c, 0, Nowhere);
      if Find(m.c, k) == Nowhere { ReuseKeeps(m.c, m.c.ring[if r.stop < |m.c.bufs| then r.stop else 0], k); }
    case LateMiss(k, head) =>
      if Find(m.c, k) == Nowhere && head < |m.c.bufs| { ReuseKeeps(m.c, head, k); }
    case Release(r) =>
      if r.b < |m.c.bufs| { FlagsKeep(m.c, r.b, Count(m.c, r.b, -1).bufs[r.b]); }
    case Fill(r, v) =>
      if MayFill(m, r) { FlagsKeep(m.c, r.b, Step(m, op).c.bufs[r.b]); }
    case Start(b, rw) =>
      if b < |m.c.bufs| { FlagsKeep(m.c, b, Step(m, op).c.bufs[b]); }
    case Queue(b) =>
      if b < |m.c.bufs| { FlagsKeep(m.c, b, Step(m, op).c.bufs[b]); }
    case Transfer(b) =>
      if b < |m.c.bufs| { FlagsKeep(m.c, b, m.c.bufs[b]); }
    case Finish(b) =>
      if b < |m.c.bufs| { FlagsKeep(m.c, b, Step(m, op).c.bufs[b]); }
  }

  lemma Unfold(c: Cache)
    requires Proper(c)
    ensures |c.ring| == |c.bufs| >= 2 && Within(c.ring, |c.bufs|) && |c.chains| == NR_HASH
    ensures forall k :: Within(c.chains[Hash(k)], |c.bufs|)
  {
  }

  function Boot(n: nat, disk: map<Key, Block>): Machine {
    Machine(Cache(seq(n, _ => Buf(Key(0, 0), 0, false, false, false, [])), seq(n, i => i), seq(NR_HASH, _ => [])),
            seq(n, _ => Quiet), multiset{}, disk)
  }

  lemma BootKeeps(n: nat, disk: map<Key, Block>)
    requires n >= 2
    ensures Framed(Boot(n, disk))
  {
    var c := Boot(n, disk).c;
    forall b: nat | b < n
      ensures b in c.ring && Bucket(c, b) == -1
    {
      assert c.ring[b] == b;
    }
    assert forall h :: 0 <= h < NR_HASH ==> c.chains[h] == [];
  }

  ghost function Run(m: Machine, ops: seq<Op>): (r: Machine)
    requires Framed(m)
    ensures Framed(r)
  {
    if ops == [] then m
    else
      StepKeepsIndex(Run(m, ops[..|ops| - 1]), ops[|ops| - 1]);
      Step(Run(m, ops[..|ops| - 1]), ops[|ops| - 1])
  }

  /** A step leaves the free list as it is, or takes one buffer and moves it to its end. */
  lemma StepMoves(m: Machine, op: Op, x: nat, y: nat)
    requires Framed(m) && x < |m.c.bufs| && y < |m.c.bufs| && x != y
    ensures var r := Step(m, op).c.ring;
      && |r| == |m.c.ring| > 0 && (r == m.c.ring || Before(r, x, r[|r| - 1]) || r[|r| - 1] == x)
      && (Before(m.c.ring, x, y) && (r == m.c.ring || r[|r| - 1] != x) ==> Before(r, x, y))
  {
    hide Find, Choose, Hash, Reuse, Before;
    Unfold(m.c);
    match op
    case Miss(k) =>
      var r := Choose(m.c, 0, Nowhere);
      Reorders(m.c, m.c.ring[if r.stop < |m.c.bufs| then r.stop else 0], k, x, y);
    case LateMiss(k, head) => if head < |m.c.bufs| { Reorders(m.c, head, k, x, y); }
    case _ =>
  }

  lemma Reorders(c: Cache, b: nat, k: Key, x: nat, y: nat)
    requires Proper(c) && b < |c.bufs| && x < |c.bufs| && y < |c.bufs| && x != y
    ensures var r := Reuse(c, b, k).ring;
      && |r| == |c.ring| > 0 && r[|r| - 1] == b && (x == b || Before(r, x, b))
      && (Before(c.ring, x, y) && b != x ==> Before(r, x, y))
  {
    hide Reuse, Hash, Before;
    assert x in c.ring;
    ReuseOrders(c, b, k, x, y);
  }

  /** The buffers taken longest ago come first: if `y` was at the end after the first `n` operations, and no later
      one took `x`, then `x` comes before `y`. */
  lemma {:induction false} TakenLongestAgo(m: Machine, ops: seq<Op>, n: nat, x: nat, y: nat)
    requires Framed(m) && n <= |ops| && x < |m.c.bufs| && y < |m.c.bufs| && x != y
    requires var r := Run(m, ops[..n]).c.ring; r[|r| - 1] == y
    requires forall j :: n < j <= |ops| ==> NotTaken(m, ops, j, x)
    ensures Before(Run(m, ops).c.ring, x, y)
    decreases |ops|
  {
    hide Step, Before, Proper, NotTaken;
    RunSize(m, ops);
    if n == |ops| {
      assert ops[..n] == ops;
      LastIsBehind(Run(m, ops).c, x, y);
    } else {
      var less := ops[..|ops| - 1];
      assert less[..n] == ops[..n];
      RunSize(m, less);
      forall j | n < j <= |less|
        ensures NotTaken(m, less, j, x)
      {
        assert NotTaken(m, ops, j, x);
        EarlierTaken(m, ops, j, x);
      }
      TakenLongestAgo(m, less, n, x, y);
      LastStep(m, ops, x, y);
    }
  }

  lemma EarlierTaken(m: Machine, ops: seq<Op>, j: nat, x: nat)
    requires Framed(m) && 0 < j < |ops| && NotTaken(m, ops, j, x)
    ensures NotTaken(m, ops[..|ops| - 1], j, x)
  {
    hide Run, Framed;
    var less := ops[..|ops| - 1];
    assert less[..j] == ops[..j] && less[..j - 1] == ops[..j - 1];
  }

  lemma LastStep(m: Machine, ops: seq<Op>, x: nat, y: nat)
    requires Framed(m) && ops != [] && NotTaken(m, ops, |ops|, x)
    requires x < |m.c.bufs| && y < |m.c.bufs| && x != y && Before(Run(m, ops[..|ops| - 1]).c.ring, x, y)
    ensures Before(Run(m, ops).c.ring, x, y)
  {
    hide *;
    RunOnce(m, ops);
    LastNotTaken(m, ops, x);
    RunSize(m, ops[..|ops| - 1]);
    StepMoves(Run(m, ops[..|ops| - 1]), ops[|ops| - 1], x, y);
  }

  lemma RunOnce(m: Machine, ops: seq<Op>)
    requires Framed(m) && ops != []
    ensures Run(m, ops) == Step(Run(m, ops[..|ops| - 1]), ops[|ops| - 1])
  {
    hide Step, Framed;
  }

  lemma LastNotTaken(m: Machine, ops: seq<Op>, x: nat)
    requires Framed(m) && ops != [] && NotTaken(m, ops, |ops|, x)
    ensures var r, s := Run(m, ops).c.ring, Run(m, ops[..|ops| - 1]).c.ring; r == s || (r != [] && r[|r| - 1] != x)
  {
    hide Run, Framed;
    assert ops[..|ops|] == ops;
  }

  /** Operation number `j` leaves the free list as it is, or moves another buffer than `x` to its end. */
  ghost predicate NotTaken(m: Machine, ops: seq<Op>, j: nat, x: nat)
    requires Framed(m)
  {
    0 < j <= |ops| ==>
      var r, s := Run(m, ops[..j]).c.ring, Run(m, ops[..j - 1]).c.ring; r == s || (r != [] && r[|r| - 1] != x)
  }

  lemma LastIsBehind(c: Cache, x: nat, y: nat)
    requires Proper(c) && x < |c.bufs| && x != y && c.ring[|c.ring| - 1] == y
    ensures Before(c.ring, x, y)
  {
    assert x in c.ring;
    var i :| 0 <= i < |c.ring| && c.ring[i] == x;
    assert c.ring[|c.ring| - 1] == y;
  }

  lemma {:induction false} RunSize(m: Machine, ops: seq<Op>)
    requires Framed(m)
    ensures |Run(m, ops).c.bufs| == |m.c.bufs| && |Run(m, ops).c.ring| == |m.c.ring| > 0
  {
    hide Find, Choose, Hash, Proper;
    Unfold(m.c);
    Unfold(Run(m, ops).c);
    if ops != [] {
      RunSize(m, ops[..|ops| - 1]);
      StepSize(Run(m, ops[..|ops| - 1]), ops[|ops| - 1]);
    }
  }

  lemma StepSize(m: Machine, op: Op)
    requires Framed(m)
    ensures |Step(m, op).c.bufs| == |m.c.bufs|
  {
    hide Find, Choose, Hash, Proper, Without, Hashed, Unhashed, Asking, At;
    Unfold(m.c);
  }

  // ------------------------------------------------ the cache is transparent

  /** The lock and the flags agree with the request under way. */
  predicate FlagsAgree(u: Buf, io: Io) {
    && (u.lock <==> io != Quiet)
    && (io.Reading? || io.Writing? || io.Written? ==> io.k == u.key)
    && (u.dirt || Outgoing(io) ==> u.uptodate)
    && (Incoming(io) ==> !u.uptodate && u.count > 0)
    && (u.key.dev == 0 ==> !u.uptodate && io == Quiet)
  }

  ghost predicate Flags(m: Machine)
    requires Framed(m)
  {
    forall b :: 0 <= b < |m.io| ==> FlagsAgree(m.c.bufs[b], m.io[b])
  }

  /** A reference names the block its buffer still holds, and `count` counts the references. */
  ghost predicate Refs(m: Machine)
    requires Framed(m)
  {
    && (forall r :: r in m.refs ==> r.b < |m.c.bufs| && r.k == m.c.bufs[r.b].key && r.k.dev != 0)
    && (forall b :: 0 <= b < |m.c.bufs| ==> m.c.bufs[b].count == m.refs[Ref(b, m.c.bufs[b].key)])
  }

  lemma IoKinds(io: Io)
    ensures io == Quiet || Incoming(io) || Outgoing(io)
  {
    assert io.Wanted? ==> io.rw == READ || io.rw == WRITE;
  }

  /** A buffer that still has to reach the disk. */
  predicate Unsaved(u: Buf, io: Io, k: Key) { u.key == k && u.uptodate && (u.dirt || io.Writing?) }

  ghost predicate Kept(m: Machine, truth: map<Key, Block>, k: Key)
    requires Framed(m)
  {
    At(m.disk, k) == At(truth, k) || exists b :: 0 <= b < |m.io| && Unsaved(m.c.bufs[b], m.io[b], k)
  }

  /** `truth` is what was last written to each block: the disk has it, or a buffer that will be saved. */
  ghost predicate Truthful(m: Machine, truth: map<Key, Block>)
    requires Framed(m)
  {
    && (forall b :: 0 <= b < |m.c.bufs| && m.c.bufs[b].uptodate ==> m.c.bufs[b].data == At(truth, m.c.bufs[b].key))
    && forall k :: Kept(m, truth, k)
  }

  ghost predicate Good(m: Machine, truth: map<Key, Block>) {
    Framed(m) && Flags(m) && Refs(m) && Truthful(m, truth)
  }

  /** Only blocks of real devices are asked for, and only the holder of a buffer reads it in. */
  ghost predicate Asked(m: Machine, op: Op)
    requires Framed(m)
  {
    match op
    case Miss(k) => k.dev != 0
    case LateMiss(k, _) => k.dev != 0
    case Start(b, rw) => rw == READ && b < |m.c.bufs| ==> m.c.bufs[b].count > 0
    case _ => true
  }

  /** Nobody has buffer `b`, it is not locked, and what was changed in it is on the disk anyway. */
  predicate Harmless(m: Machine, b: nat) {
    b < |m.c.bufs| ==>
      var u := m.c.bufs[b];
      u.count == 0 && !u.lock && (u.dirt ==> u.data == At(m.disk, u.key))
  }

  /** Some buffer is unused, clean and unlocked. */
  ghost predicate HasSpare(c: Cache) {
    exists i :: 0 <= i < |c.ring| && c.ring[i] < |c.bufs| && Spare(c.bufs[c.ring[i]])
  }

  /** A step that takes no buffer, a spare one, or a harmless one. */
  ghost predicate TakesHarmless(m: Machine, op: Op)
    requires Framed(m)
  {
    match op
    case Miss(k) =>
      var best := Choose(m.c, 0, Nowhere).best;
      Find(m.c, k) != Nowhere || best.Nowhere? || m.c.bufs[best.b].lock || HasSpare(m.c) || Harmless(m, m.c.ring[0])
    case LateMiss(k, head) => Find(m.c, k) != Nowhere || Harmless(m, head)
    case _ => true
  }

  ghost predicate Honest(m: Machine, op: Op)
    requires Framed(m)
  {
    Asked(m, op) && TakesHarmless(m, op)
  }

  /** The contents of the blocks after a step. */
  function Wrote(m: Machine, op: Op, truth: map<Key, Block>): map<Key, Block> {
    if op.Fill? && MayFill(m, op.r) then truth[op.r.k := op.v] else truth
  }

  /** Nobody has the block, so the disk is up to date. */
  lemma DiskIsTrue(m: Machine, truth: map<Key, Block>, k: Key)
    requires Framed(m) && Truthful(m, truth)
    requires forall b :: 0 <= b < |m.io| ==> !Unsaved(m.c.bufs[b], m.io[b], k)
    ensures At(m.disk, k) == At(truth, k)
  {
    assert Kept(m, truth, k);
  }

  /** A step that keeps the disk and, for every unsaved buffer, an unsaved buffer of the same block. */
  lemma KeptStays(m: Machine, m2: Machine, truth: map<Key, Block>)
    requires Framed(m) && Framed(m2) && Truthful(m, truth) && m2.disk == m.disk && |m2.io| == |m.io|
    requires forall b :: 0 <= b < |m.io| ==>
      forall k :: Unsaved(m.c.bufs[b], m.io[b], k) ==> Unsaved(m2.c.bufs[b], m2.io[b], k)
    ensures forall k :: Kept(m2, truth, k)
  {
    hide Framed, Unsaved;
    forall k
      ensures Kept(m2, truth, k)
    {
      assert Kept(m, truth, k);
    }
  }

  lemma TakeKeepsRefs(m: Machine, b: nat, k: Key)
    requires Framed(m) && Flags(m) && Refs(m) && b < |m.c.bufs| && k.dev != 0
    requires m.c.bufs[b].count == 0 && !m.c.bufs[b].lock
    requires Framed(Take(m, b, k))
    ensures Flags(Take(m, b, k)) && Refs(Take(m, b, k))
  {
    hide Proper, Hash;
    assert m.io[b] == Quiet;
    assert Ref(b, m.c.bufs[b].key) !in m.refs;
    assert forall r :: r in m.refs ==> r.b != b;
  }

  lemma TakeIsTruthful(m: Machine, b: nat, k: Key, truth: map<Key, Block>)
    requires Good(m, truth) && b < |m.c.bufs| && Harmless(m, b) && Framed(Take(m, b, k))
    ensures Truthful(Take(m, b, k), truth)
  {
    var t, u := Take(m, b, k), m.c.bufs[b];
    assert forall x :: 0 <= x < |m.io| && x != b ==> t.c.bufs[x] == m.c.bufs[x];
    assert !t.c.bufs[b].uptodate;
    hide Proper, Find, Reuse, Hash, Refs;
    forall x
      ensures Kept(t, truth, x)
    {
      assert Kept(m, truth, x);
      if x == u.key && !u.uptodate { assert !Unsaved(u, m.io[b], x); }
    }
  }

  lemma TakeOfUsed(m: Machine, b: nat, k: Key)
    requires Framed(m) && Flags(m) && Refs(m) && b < |m.c.bufs| && m.c.bufs[b].key != k
    requires Framed(Take(m, b, k)) && Flags(Take(m, b, k)) && Refs(Take(m, b, k))
    ensures m.c.bufs[b].count == 0 && !m.c.bufs[b].lock
  {
    hide Proper, Hash;
    var t, r := Take(m, b, k), Ref(b, m.c.bufs[b].key);
    assert r in m.refs ==> r in t.refs;
    IoKinds(m.io[b]);
    assert FlagsAgree(m.c.bufs[b], m.io[b]) && !t.c.bufs[b].uptodate;
    assert FlagsAgree(t.c.bufs[b], t.io[b]);
  }

  lemma TakeOfUnsaved(m: Machine, b: nat, k: Key, truth: map<Key, Block>)
    requires Good(m, truth) && b < |m.c.bufs| && m.c.bufs[b].key != k
    requires Framed(Take(m, b, k)) && Truthful(Take(m, b, k), truth) && m.c.bufs[b].dirt
    ensures m.c.bufs[b].data == At(m.disk, m.c.bufs[b].key)
  {
    var t, u := Take(m, b, k), m.c.bufs[b];
    assert forall x :: 0 <= x < |m.io| && x != b ==> t.c.bufs[x] == m.c.bufs[x] && m.c.bufs[x].key != u.key;
    hide Proper, Find, Reuse, Hash, Refs;
    assert Kept(t, truth, u.key);
  }

  /** Giving buffer `b` to another block keeps the cache transparent exactly when it is harmless. */
  lemma EvictionIsSafeIff(m: Machine, b: nat, k: Key, truth: map<Key, Block>)
    requires Good(m, truth) && b < |m.c.bufs| && Find(m.c, k) == Nowhere && k.dev != 0
    ensures Framed(Take(m, b, k)) && (Good(Take(m, b, k), truth) <==> Harmless(m, b))
  {
    ReuseKeeps(m.c, b, k);
    FindAgreesWithScan(m.c, k);
    assert m.c.bufs[b].key != k;
    hide Proper, Find, Hash, Flags, Refs, Truthful, Scan, Reuse;
    if Harmless(m, b) {
      TakeKeepsRefs(m, b, k);
      TakeIsTruthful(m, b, k, truth);
    }
    if Good(Take(m, b, k), truth) {
      TakeOfUsed(m, b, k);
      if m.c.bufs[b].dirt { TakeOfUnsaved(m, b, k, truth); }
    }
  }

  /** One more or one less reference to buffer `b`, with its count. */
  lemma CountChange(m: Machine, b: nat, d: int, refs: multiset<Ref>, truth: map<Key, Block>)
    requires Good(m, truth) && b < |m.c.bufs| && m.c.bufs[b].key.dev != 0 && (d > 0 || !m.c.bufs[b].lock)
    requires forall r :: refs[r] == m.refs[r] + if r == Ref(b, m.c.bufs[b].key) then d else 0
    ensures Framed(m.(c := Count(m.c, b, d), refs := refs)) && Good(m.(c := Count(m.c, b, d), refs := refs), truth)
  {
    var t := m.(c := Count(m.c, b, d), refs := refs);
    FlagsKeep(m.c, b, t.c.bufs[b]);
    hide Proper;
    assert Refs(t) by {
      hide Truthful, Flags;
      assert forall r :: r in refs ==> r in m.refs || r == Ref(b, m.c.bufs[b].key);
    }
    hide Refs;
    KeptStays(m, t, truth);
  }

  lemma HitIsGood(m: Machine, k: Key, truth: map<Key, Block>)
    requires Good(m, truth)
    ensures Framed(Step(m, Hit(k))) && Good(Step(m, Hit(k)), truth)
  {
    Unfold(m.c);
    FindAgreesWithScan(m.c, k);
    hide Proper, Find, Scan, Flags, Refs, Truthful;
    var f := Find(m.c, k);
    if f.Here? { CountChange(m, f.b, 1, m.refs + multiset{Ref(f.b, k)}, truth); }
  }

  lemma ReleaseIsGood(m: Machine, r: Ref, truth: map<Key, Block>)
    requires Good(m, truth)
    ensures Framed(Step(m, Release(r))) && Good(Step(m, Release(r)), truth)
  {
    hide Proper, Flags, Truthful;
    if r in m.refs && !m.c.bufs[r.b].lock { CountChange(m, r.b, -1, m.refs - multiset{r}, truth); }
  }

  /** Changing the flags, the lock and the request of a buffer, not its block or its references. */
  lemma FlagChange(m: Machine, b: nat, u: Buf, io: Io, truth: map<Key, Block>)
    requires Good(m, truth) && b < |m.c.bufs| && FlagsAgree(u, io)
    requires u.key == m.c.bufs[b].key && u.count == m.c.bufs[b].count
    requires u.uptodate ==> u.data == At(truth, u.key)
    requires Unsaved(m.c.bufs[b], m.io[b], u.key) ==> Unsaved(u, io, u.key)
    ensures Framed(Put(m, b, u, io)) && Good(Put(m, b, u, io), truth)
  {
    FlagsKeep(m.c, b, u);
    hide Proper;
    KeptStays(m, Put(m, b, u, io), truth);
  }

  lemma FillKeeps(m: Machine, r: Ref, v: Block, truth: map<Key, Block>, k: Key)
    requires Good(m, truth) && MayFill(m, r) && Framed(Step(m, Fill(r, v)))
    ensures Kept(Step(m, Fill(r, v)), truth[r.k := v], k)
  {
    hide Proper;
    assert Kept(m, truth, k);
    var t := Step(m, Fill(r, v));
    if k == r.k {
      assert Unsaved(t.c.bufs[r.b], t.io[r.b], r.k);
    } else if At(m.disk, k) != At(truth, k) {
      var x :| 0 <= x < |m.io| && Unsaved(m.c.bufs[x], m.io[x], k);
      assert Unsaved(t.c.bufs[x], t.io[x], k);
    }
  }

  lemma FillIsGood(m: Machine, r: Ref, v: Block, truth: map<Key, Block>)
    requires Good(m, truth) && MayFill(m, r)
    ensures Framed(Step(m, Fill(r, v))) && Good(Step(m, Fill(r, v)), truth[r.k := v])
  {
    StepKeepsIndex(m, Fill(r, v));
    assert forall b :: 0 <= b < |m.io| && b != r.b ==> m.c.bufs[b].key != r.k;
    hide Proper, Kept;
    var t, truth2 := Step(m, Fill(r, v)), truth[r.k := v];
    forall k
      ensures Kept(t, truth2, k)
    {
      FillKeeps(m, r, v, truth, k);
    }
  }

  lemma TransferKeeps(m: Machine, b: nat, truth: map<Key, Block>, k: Key)
    requires Good(m, truth) && b < |m.c.bufs| && m.io[b].Writing? && Framed(Step(m, Transfer(b)))
    ensures Kept(Step(m, Transfer(b)), truth, k)
  {
    hide Proper, Refs;
    assert Kept(m, truth, k);
    var t := Step(m, Transfer(b));
    if k != m.c.bufs[b].key && At(m.disk, k) != At(truth, k) {
      var x :| 0 <= x < |m.io| && Unsaved(m.c.bufs[x], m.io[x], k);
      assert Unsaved(t.c.bufs[x], t.io[x], k);
    }
  }

  lemma TransferIsGood(m: Machine, b: nat, truth: map<Key, Block>)
    requires Good(m, truth) && b < |m.c.bufs| && m.io[b].Writing?
    ensures Framed(Step(m, Transfer(b))) && Good(Step(m, Transfer(b)), truth)
  {
    StepKeepsIndex(m, Transfer(b));
    hide Proper, Kept;
    forall k
      ensures Kept(Step(m, Transfer(b)), truth, k)
    {
      TransferKeeps(m, b, truth, k);
    }
  }

  lemma FinishIsGood(m: Machine, b: nat, truth: map<Key, Block>)
    requires Good(m, truth) && b < |m.c.bufs|
    ensures Framed(Step(m, Finish(b))) && Good(Step(m, Finish(b)), truth)
  {
    var u := m.c.bufs[b];
    if m.io[b].Reading? {
      assert forall x :: 0 <= x < |m.io| && m.c.bufs[x].key == u.key ==> x == b;
      hide Proper;
      DiskIsTrue(m, truth, u.key);
      FlagChange(m, b, u.(data := At(m.disk, u.key), uptodate := true, lock := false), Quiet, truth);
    } else if m.io[b].Written? {
      FlagChange(m, b, u.(uptodate := true, lock := false), Quiet, truth);
    }
  }

  /** A miss that finds no spare buffer and need not sleep takes the head of the free list. */
  lemma MissTakes(m: Machine, k: Key)
    requires Framed(m) && Find(m.c, k) == Nowhere
    ensures var r, best := Choose(m.c, 0, Nowhere), Choose(m.c, 0, Nowhere).best;
      && r.stop < |m.c.ring| && m.c.ring[r.stop] < |m.c.bufs|
      && (if HasSpare(m.c) then Spare(m.c.bufs[m.c.ring[r.stop]]) else r.stop == 0)
      && Step(m, Miss(k)) == if best.Nowhere? || m.c.bufs[best.b].lock then m else Take(m, m.c.ring[r.stop], k)
  {
    Unfold(m.c);
    ChooseStops(m.c, 0, Nowhere);
  }

  /** A miss, asleep before or not, keeps the cache transparent exactly when what it takes is harmless. */
  lemma MissIsSafeIff(m: Machine, op: Op, truth: map<Key, Block>)
    requires Good(m, truth) && (op.Miss? || op.LateMiss?) && Asked(m, op)
    ensures Framed(Step(m, op)) && (Good(Step(m, op), truth) <==> TakesHarmless(m, op))
  {
    StepKeepsIndex(m, op);
    if Find(m.c, op.k) == Nowhere {
      match op
      case Miss(k) =>
        MissTakes(m, k);
        hide Proper, Flags, Refs, Truthful, Find, Reuse;
        EvictionIsSafeIff(m, m.c.ring[Choose(m.c, 0, Nowhere).stop], k, truth);
      case LateMiss(k, head) =>
        hide Proper, Flags, Refs, Truthful, Find, Reuse;
        if head < |m.c.bufs| { EvictionIsSafeIff(m, head, k, truth); }
    }
  }

  /** A step keeps the cache transparent exactly when it takes nothing, a spare buffer or a harmless one. */
  lemma StepIsGoodIff(m: Machine, op: Op, truth: map<Key, Block>)
    requires Good(m, truth) && Asked(m, op)
    ensures Framed(Step(m, op)) && (Good(Step(m, op), Wrote(m, op, truth)) <==> TakesHarmless(m, op))
  {
    hide Proper, Flags, Refs, Truthful;
    match op
    case Hit(k) => HitIsGood(m, k, truth);
    case Miss(k) => MissIsSafeIff(m, op, truth);
    case LateMiss(k, head) => MissIsSafeIff(m, op, truth);
    case Release(r) => ReleaseIsGood(m, r, truth);
    case Fill(r, v) =>
      if MayFill(m, r) { FillIsGood(m, r, v, truth); }
    case Start(b, rw) => StartIsGood(m, b, rw, truth);
    case Queue(b) => QueueIsGood(m, b, truth);
    case Transfer(b) =>
      if b < |m.c.bufs| && m.io[b].Writing? { TransferIsGood(m, b, truth); }
    case Finish(b) =>
      if b < |m.c.bufs| { FinishIsGood(m, b, truth); }
  }

  lemma StartIsGood(m: Machine, b: nat, rw: Rw, truth: map<Key, Block>)
    requires Good(m, truth) && Asked(m, Start(b, rw))
    ensures Framed(Step(m, Start(b, rw))) && Good(Step(m, Start(b, rw)), truth)
  {
    hide Proper;
    if b < |m.c.bufs| && Step(m, Start(b, rw)) != m {
      FlagChange(m, b, m.c.bufs[b].(lock := true), Wanted(rw), truth);
    }
  }

  lemma QueueIsGood(m: Machine, b: nat, truth: map<Key, Block>)
    requires Good(m, truth)
    ensures Framed(Step(m, Queue(b))) && Good(Step(m, Queue(b)), truth)
  {
    hide Proper;
    if b < |m.c.bufs| && m.io[b].Wanted? {
      FlagChange(m, b, m.c.bufs[b].(dirt := false), Asking(m.io[b].rw, m.c.bufs[b].key), truth);
    }
  }

  ghost predicate AllHonest(m: Machine, ops: seq<Op>)
    requires Framed(m)
  {
    ops == [] || (AllHonest(m, ops[..|ops| - 1]) && Honest(Run(m, ops[..|ops| - 1]), ops[|ops| - 1]))
  }

  /** The last contents written to each block by a run. */
  ghost function Contents(m: Machine, ops: seq<Op>, truth: map<Key, Block>): map<Key, Block>
    requires Framed(m)
  {
    if ops == [] then truth
    else Wrote(Run(m, ops[..|ops| - 1]), ops[|ops| - 1], Contents(m, ops[..|ops| - 1], truth))
  }

  ghost predicate AllAsked(m: Machine, ops: seq<Op>)
    requires Framed(m)
  {
    ops == [] || (AllAsked(m, ops[..|ops| - 1]) && Asked(Run(m, ops[..|ops| - 1]), ops[|ops| - 1]))
  }

  /** The cache is transparent after every step of a run. */
  ghost predicate AlwaysGood(m: Machine, ops: seq<Op>, truth: map<Key, Block>)
    requires Framed(m)
  {
    Good(Run(m, ops), Contents(m, ops, truth)) && (ops == [] || AlwaysGood(m, ops[..|ops| - 1], truth))
  }

  /** The cache is transparent all along a run exactly when every eviction in it is harmless. */
  lemma {:induction false} RunIsGoodIff(m: Machine, ops: seq<Op>, truth: map<Key, Block>)
    requires Good(m, truth) && Framed(m) && AllAsked(m, ops)
    ensures AlwaysGood(m, ops, truth) <==> AllHonest(m, ops)
  {
    hide Good, Asked, TakesHarmless, Step, Wrote, Framed;
    if ops != [] {
      var before, last := ops[..|ops| - 1], ops[|ops| - 1];
      RunIsGoodIff(m, before, truth);
      if AlwaysGood(m, before, truth) {
        StepIsGoodIff(Run(m, before), last, Contents(m, before, truth));
      }
    }
  }

  lemma {:induction false} HonestAsks(m: Machine, ops: seq<Op>)
    requires Framed(m) && AllHonest(m, ops)
    ensures AllAsked(m, ops)
  {
    hide Asked, TakesHarmless, Step, Framed;
    if ops != [] { HonestAsks(m, ops[..|ops| - 1]); }
  }

  lemma RunIsGood(m: Machine, ops: seq<Op>, truth: map<Key, Block>)
    requires Good(m, truth) && Framed(m) && AllHonest(m, ops)
    ensures Good(Run(m, ops), Contents(m, ops, truth))
  {
    hide Good, Asked, AllHonest, Framed;
    HonestAsks(m, ops);
    RunIsGoodIff(m, ops, truth);
  }

  lemma GoodFrames(m: Machine, truth: map<Key, Block>)
    requires Good(m, truth)
    ensures Framed(m)
  {
  }

  lemma BootIsGood(n: nat, disk: map<Key, Block>)
    requires n >= 2
    ensures Framed(Boot(n, disk)) && Good(Boot(n, disk), disk)
  {
    BootKeeps(n, disk);
  }

  /** Whoever holds an up-to-date buffer, as bread returns it, sees what was last written to the block,
      whatever lookups, evictions, syncs and releases came between.  The buffer still holds the block
      asked for, so the second look of get_hash_table never fails, and it is counted as used, so brelse
      never finds a count of zero. */
  lemma BreadShowsLastWrite(n: nat, disk: map<Key, Block>, ops: seq<Op>, r: Ref)
    requires n >= 2
    ensures Framed(Boot(n, disk))
    ensures AllHonest(Boot(n, disk), ops) && r in Run(Boot(n, disk), ops).refs ==>
      var m := Run(Boot(n, disk), ops);
      && r.b < |m.c.bufs| && m.c.bufs[r.b].key == r.k && m.c.bufs[r.b].count > 0
      && (m.c.bufs[r.b].uptodate ==> m.c.bufs[r.b].data == At(Contents(Boot(n, disk), ops, disk), r.k))
  {
    BootIsGood(n, disk);
    if AllHonest(Boot(n, disk), ops) { RunIsGood(Boot(n, disk), ops, disk); }
    hide Run, Contents, Proper, AllHonest;
  }

  /** With nothing dirty and no request under way, as after sync, the disk holds every last write. */
  lemma SyncedDisk(n: nat, disk: map<Key, Block>, ops: seq<Op>, k: Key)
    requires n >= 2
    ensures Framed(Boot(n, disk))
    ensures AllHonest(Boot(n, disk), ops) && Synced(Run(Boot(n, disk), ops)) ==>
      At(Run(Boot(n, disk), ops).disk, k) == At(Contents(Boot(n, disk), ops, disk), k)
  {
    BootIsGood(n, disk);
    if AllHonest(Boot(n, disk), ops) && Synced(Run(Boot(n, disk), ops)) {
      RunIsGood(Boot(n, disk), ops, disk);
      hide Run, Contents, Proper, AllHonest;
      DiskIsTrue(Run(Boot(n, disk), ops), Contents(Boot(n, disk), ops, disk), k);
    }
  }

  ghost predicate Synced(m: Machine)
    requires Framed(m)
  {
    forall b :: 0 <= b < |m.io| ==> !m.c.bufs[b].dirt && m.io[b] == Quiet
  }

  // ------------------------------------------------------ unsafe evictions

  /** Whatever of the blocks the disk has already. */
  ghost predicate SafeOn(m: Machine, d: map<Key, Block>, b: nat, k: Key, truth: map<Key, Block>)
    requires Framed(m) && b < |m.c.bufs|
  {
    Good(m.(disk := d), truth) ==> Good(Take(m.(disk := d), b, k), truth)
  }

  /** What a caller can see is the whole condition: an eviction is safe on every disk exactly when the
      buffer is unused, clean and unlocked. */
  lemma OnlySparesAreSafe(m: Machine, b: nat, k: Key, truth: map<Key, Block>)
    requires Good(m, truth) && b < |m.c.bufs| && Find(m.c, k) == Nowhere && k.dev != 0
    ensures (forall d :: SafeOn(m, d, b, k, truth)) <==> Spare(m.c.bufs[b])
  {
    var u := m.c.bufs[b];
    if Spare(u) {
      hide Proper, Find, Reuse, Flags, Refs, Truthful;
      forall d
        ensures SafeOn(m, d, b, k, truth)
      {
        if Good(m.(disk := d), truth) { EvictionIsSafeIff(m.(disk := d), b, k, truth); }
      }
    } else {
      var d := if u.dirt then m.disk[u.key := u.data + [0]] else m.disk;
      assert Good(m.(disk := d), truth) by { StaleDisk(m, b, d, truth); }
      hide Proper, Find, Reuse, Flags, Refs, Truthful;
      EvictionIsSafeIff(m.(disk := d), b, k, truth);
      assert !SafeOn(m, d, b, k, truth);
    }
  }

  /** While a buffer is dirty the disk may have anything for its block. */
  lemma StaleDisk(m: Machine, b: nat, d: map<Key, Block>, truth: map<Key, Block>)
    requires Good(m, truth) && b < |m.c.bufs|
    requires forall k :: k != m.c.bufs[b].key || !m.c.bufs[b].dirt ==> At(d, k) == At(m.disk, k)
    ensures Good(m.(disk := d), truth)
  {
    hide Proper;
    var t := m.(disk := d);
    forall k
      ensures Kept(t, truth, k)
    {
      assert Kept(m, truth, k);
      if k == m.c.bufs[b].key && m.c.bufs[b].dirt {
        assert Unsaved(t.c.bufs[b], t.io[b], k);
      } else if At(m.disk, k) != At(truth, k) {
        var x :| 0 <= x < |m.io| && Unsaved(m.c.bufs[x], m.io[x], k);
        assert Unsaved(t.c.bufs[x], t.io[x], k);
      }
    }
  }

  /** Buffers of blocks 1 and 2 and nobody waiting; the second is unused and dirty. */
  function Pair(count: nat, dirt: bool, refs: multiset<Ref>, disk: map<Key, Block>): Machine {
    var k0, k1 := Key(1, 1), Key(1, 2);
    Machine(Cache([Buf(k0, count, dirt, false, true, [7]), Buf(k1, 0, true, false, true, [8])], [0, 1],
                  seq(NR_HASH, h => (if h == Hash(k0) then [0] else []) + (if h == Hash(k1) then [1] else []))),
            [Quiet, Quiet], refs, disk)
  }

  lemma PairFramed(count: nat, dirt: bool, refs: multiset<Ref>, disk: map<Key, Block>)
    ensures Framed(Pair(count, dirt, refs, disk))
  {
    hide Hash;
    var m, k0, k1 := Pair(count, dirt, refs, disk), Key(1, 1), Key(1, 2);
    forall h | 0 <= h < NR_HASH
      ensures m.c.chains[h] == (if h == Hash(k0) then [0] else []) + (if h == Hash(k1) then [1] else [])
    {
    }
    assert forall h, b :: 0 <= h < NR_HASH && 0 <= b < 2 ==> (b in m.c.chains[h] <==> Bucket(m.c, b) == h);
  }

  /** A block nobody has is looked for; no buffer is spare and none is locked. */
  lemma HeadIsTaken(count: nat, dirt: bool, refs: multiset<Ref>, disk: map<Key, Block>)
    requires count > 0 || dirt
    ensures var m := Pair(count, dirt, refs, disk);
      Framed(m) && Step(m, Miss(Key(1, 3))) == Take(m, 0, Key(1, 3)) && Framed(Step(m, Miss(Key(1, 3))))
  {
    PairFramed(count, dirt, refs, disk);
    var m, k := Pair(count, dirt, refs, disk), Key(1, 3);
    StepKeepsIndex(m, Miss(k));
    FindAgreesWithScan(m.c, k);
    Unfold(m.c);
    hide Hash, Proper, Find;
    assert !Spare(m.c.bufs[0]) && !Spare(m.c.bufs[1]);
    assert Choose(m.c, 0, Nowhere) == Choose(m.c, 1, if count == 0 then Here(0) else Nowhere);
    assert Choose(m.c, 0, Nowhere) == Choose(m.c, 2, if count == 0 then Here(0) else Here(1));
    MissTakes(m, k);
  }

  lemma DirtyPairIsGood()
    ensures Good(Pair(0, true, multiset{}, map[]), map[Key(1, 1) := [7], Key(1, 2) := [8]])
  {
    var m := Pair(0, true, multiset{}, map[]);
    PairFramed(0, true, multiset{}, map[]);
    hide Proper, Hash;
    assert Unsaved(m.c.bufs[0], m.io[0], Key(1, 1)) && Unsaved(m.c.bufs[1], m.io[1], Key(1, 2));
  }

  /** Two dirty, unused buffers: a miss throws away the first one's contents, and nothing is left of
      them. */
  lemma DirtyHeadIsLost()
    ensures var m, truth := Pair(0, true, multiset{}, map[]), map[Key(1, 1) := [7], Key(1, 2) := [8]];
      Good(m, truth) && var t := Step(m, Miss(Key(1, 3))); Framed(t) && !Kept(t, truth, Key(1, 1))
  {
    hide Proper, Good, Find, Step, Hash, Kept;
    DirtyPairIsGood();
    HeadIsTaken(0, true, multiset{}, map[]);
    HeadIsGone(Take(Pair(0, true, multiset{}, map[]), 0, Key(1, 3)));
  }

  lemma HeadIsGone(t: Machine)
    requires Framed(t) && t.disk == map[] && |t.c.bufs| == 2
    requires t.c.bufs[0].key == Key(1, 3) && t.c.bufs[1].key == Key(1, 2)
    ensures !Kept(t, map[Key(1, 1) := [7], Key(1, 2) := [8]], Key(1, 1))
  {
    hide Proper;
  }

  lemma HeldPairIsGood(r: Ref)
    requires r == Ref(0, Key(1, 1))
    ensures Good(Pair(1, false, multiset{r}, map[r.k := [7]]), map[r.k := [7], Key(1, 2) := [8]])
  {
    var m := Pair(1, false, multiset{r}, map[r.k := [7]]);
    PairFramed(1, false, multiset{r}, map[r.k := [7]]);
    hide Proper, Hash;
    assert Unsaved(m.c.bufs[1], m.io[1], Key(1, 2));
  }

  /** A clean buffer somebody holds and a dirty unused one: a miss gives the first one away, and its
      holder still has it when it is another block. */
  lemma HeldHeadIsStolen(r: Ref)
    requires r == Ref(0, Key(1, 1))
    ensures var m := Pair(1, false, multiset{r}, map[r.k := [7]]);
      && Good(m, map[r.k := [7], Key(1, 2) := [8]])
      && var t := Step(m, Miss(Key(1, 3))); r in t.refs && t.c.bufs[r.b].key != r.k
  {
    HeldPairIsGood(r);
    HeadIsTaken(1, false, multiset{r}, map[r.k := [7]]);
    hide Proper, Good, Find, Step, Hash;
  }
}
