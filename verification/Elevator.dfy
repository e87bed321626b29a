/** The request queues of the block devices (kernel/blk_drv/ll_rw_blk.c), as values. */
module Elevator {
  import opened Collections

  const NR_REQUEST: int := 32
  const NR_BLK_DEV: int := 7
  const READ: int := 0
  const WRITE: int := 1
  const WRITE_SLOTS: int := 21         // NR_REQUEST * 2 / 3

  /** A request slot; `dev` is -1 when it is free. */
  datatype Req = Req(dev: int, cmd: int, sector: int)

  /** IN_ORDER of blk.h */
  predicate InOrder(a: Req, b: Req) {
    a.cmd < b.cmd || (a.cmd == b.cmd && (a.dev < b.dev || (a.dev == b.dev && a.sector < b.sector)))
  }

  // ------------------------------------------------------ one sorted queue

  predicate Descent(s: seq<Req>, i: int)
    requires 0 <= i < |s| - 1
  {
    !InOrder(s[i], s[i + 1])
  }

  /** The head sweeps upwards, and goes back once at most. */
  ghost predicate OneDescent(s: seq<Req>) {
    forall i, j :: 0 <= i < j < |s| - 1 ==> !(Descent(s, i) && Descent(s, j))
  }

  /** add_request stops behind entry `i`. */
  predicate Fits(s: seq<Req>, i: int, r: Req)
    requires 0 <= i < |s| - 1
  {
    (InOrder(s[i], r) || !InOrder(s[i], s[i + 1])) && InOrder(r, s[i + 1])
  }

  /** The place of the new request, looked for from entry `i` on. */
  function Spot(s: seq<Req>, r: Req, i: int): (p: int)
    requires 0 <= i < |s|
    ensures i < p <= |s| && (p < |s| ==> Fits(s, p - 1, r))
    ensures forall j :: i <= j < p - 1 ==> !Fits(s, j, r)
    decreases |s| - i
  {
    if i == |s| - 1 || Fits(s, i, r) then i + 1 else Spot(s, r, i + 1)
  }

  function Insert<T>(s: seq<T>, p: int, x: T): (t: seq<T>)
    requires 0 <= p <= |s|
    ensures |t| == |s| + 1
  {
    s[..p] + [x] + s[p..]
  }

  /** Behind a descent that nothing fits into, everything is below the new request. */
  lemma {:induction false} AllBelow(s: seq<Req>, r: Req, d: int, i: int)
    requires 0 <= d < |s| - 1 && d < i < |s| && Descent(s, d) && r !in s
    requires forall j :: 0 <= j < |s| - 1 ==> !Fits(s, j, r)
    ensures InOrder(s[i], r)
    decreases i
  {
    assert !Fits(s, i - 1, r);
    assert r != s[i];
    if i > d + 1 { AllBelow(s, r, d, i - 1); }
  }

  lemma InsertedAt(s: seq<Req>, p: int, r: Req, i: int)
    requires 0 < p <= |s| && 0 <= i < |s|
    ensures Descent(Insert(s, p, r), i) ==
            if i < p - 1 then Descent(s, i) else if i == p - 1 then !InOrder(s[p - 1], r)
            else if i == p then !InOrder(r, s[p]) else Descent(s, i - 1)
  {
  }

  /** A new request never adds a second descent, provided no queued one has its key. */
  lemma InsertKeepsOneDescent(s: seq<Req>, r: Req)
    requires s != [] && OneDescent(s) && r !in s
    ensures OneDescent(Insert(s, Spot(s, r, 0), r))
  {
    var p := Spot(s, r, 0);
    var t := Insert(s, p, r);
    hide Insert, InOrder;
    forall i, j | 0 <= i < j < |t| - 1
      ensures !(Descent(t, i) && Descent(t, j))
    {
      InsertedAt(s, p, r, i);
      InsertedAt(s, p, r, j);
      if p < |s| { assert Fits(s, p - 1, r) && (Descent(s, p - 1) || InOrder(s[p - 1], r)); }
      if p == |s| && j == p - 1 && Descent(s, i) { AllBelow(s, r, i, p - 1); }
    }
  }

  lemma RestKeepsOneDescent(s: seq<Req>)
    requires s != [] && OneDescent(s)
    ensures OneDescent(s[1..])
  {
    assert forall i :: 0 <= i < |s[1..]| - 1 ==> Descent(s[1..], i) == Descent(s, i + 1);
  }

  // ---------------------------------------------------------- all the queues

  /** The slots, and the queue of each major device, by slot number. */
  datatype Requests = Requests(slots: seq<Req>, queues: seq<seq<nat>>)

  function Major(dev: int): int { dev / 256 }

  function Keys(slots: seq<Req>, q: seq<nat>): seq<Req>
    requires forall i :: 0 <= i < |q| ==> q[i] < |slots|
  {
    seq(|q|, i requires 0 <= i < |q| => slots[q[i]])
  }

  predicate Used(r: Req) { r.dev >= 0 }

  /** A slot is in the queue of its device, and in no other, exactly when it is used. */
  ghost predicate Slots(q: Requests) {
    && |q.slots| == NR_REQUEST && |q.queues| == NR_BLK_DEV
    && (forall m :: 0 <= m < NR_BLK_DEV ==> NoDup(q.queues[m]) && Within(q.queues[m], NR_REQUEST))
    && (forall m, s :: 0 <= m < NR_BLK_DEV && 0 <= s < NR_REQUEST ==>
          (s in q.queues[m] <==> Used(q.slots[s]) && Major(q.slots[s].dev) == m))
    && (forall s :: 0 <= s < NR_REQUEST && Used(q.slots[s]) ==> 0 <= Major(q.slots[s].dev) < NR_BLK_DEV)
  }

  /** Writes leave the last third of the slots alone. */
  ghost predicate WritesLow(q: Requests) {
    forall s :: 0 <= s < |q.slots| && Used(q.slots[s]) && q.slots[s].cmd == WRITE ==> s < WRITE_SLOTS
  }

  /** The blocks asked for are those whose buffers are locked, one request for each. */
  ghost predicate Locked(q: Requests, locks: set<(int, int)>) {
    && (forall s :: 0 <= s < |q.slots| && Used(q.slots[s]) ==> (q.slots[s].dev, q.slots[s].sector) in locks)
    && (forall s, t :: 0 <= s < t < |q.slots| && Used(q.slots[s]) && Used(q.slots[t]) ==>
          (q.slots[s].dev, q.slots[s].sector) != (q.slots[t].dev, q.slots[t].sector))
  }

  /** No request for this block is queued. */
  ghost predicate Unasked(q: Requests, k: (int, int)) {
    forall s :: 0 <= s < |q.slots| && Used(q.slots[s]) ==> (q.slots[s].dev, q.slots[s].sector) != k
  }

  /** A buffer is locked for a queued request, or by a task that is asleep until a slot is free. */
  ghost predicate Waiting(q: Requests, locks: set<(int, int)>, waiting: set<(int, int)>) {
    && waiting <= locks && (forall k :: k in waiting ==> Unasked(q, k))
    && (forall k :: k in locks && k !in waiting ==> !Unasked(q, k))
  }

  ghost predicate Sorted(q: Requests)
    requires Slots(q)
  {
    forall m :: 0 <= m < NR_BLK_DEV ==> OneDescent(Keys(q.slots, q.queues[m]))
  }

  ghost predicate Proper(q: Requests, locks: set<(int, int)>) {
    Slots(q) && WritesLow(q) && Locked(q, locks) && Sorted(q)
  }

  /** add_request on queue `m` */
  function Queued(slots: seq<Req>, queue: seq<nat>, s: nat, r: Req): seq<nat>
    requires Within(queue, |slots|)
  {
    if queue == [] then [s] else Insert(queue, Spot(Keys(slots, queue), r, 0), s)
  }

  /** make_request with a free slot. */
  function Add(q: Requests, s: nat, r: Req): Requests
    requires s < |q.slots| && 0 <= Major(r.dev) < |q.queues| && Within(q.queues[Major(r.dev)], |q.slots|)
  {
    Requests(q.slots[s := r], q.queues[Major(r.dev) := Queued(q.slots, q.queues[Major(r.dev)], s, r)])
  }

  lemma QueuedLaws(slots: seq<Req>, queue: seq<nat>, s: nat, r: Req)
    requires Within(queue, |slots|) && NoDup(queue) && s !in queue && s < |slots|
    ensures var t := Queued(slots, queue, s, r);
      && NoDup(t) && Within(t, |slots|) && (queue != [] ==> t[0] == queue[0])
      && forall x :: x in t <==> x in queue || x == s
  {
    if queue != [] {
      InsertLaws(queue, Spot(Keys(slots, queue), r, 0), s);
    }
  }

  lemma InsertLaws(queue: seq<nat>, p: int, s: nat)
    requires 0 < p <= |queue| && NoDup(queue) && s !in queue
    ensures var t := Insert(queue, p, s);
      && NoDup(t) && t[0] == queue[0]
      && forall x :: x in t <==> x in queue || x == s
  {
    var t := Insert(queue, p, s);
    assert queue == queue[..p] + queue[p..];
    forall i, j | 0 <= i < j < |t|
      ensures t[i] != t[j]
    {
      assert t[i] == s || t[i] == queue[if i < p then i else i - 1];
      assert t[j] == s || t[j] == queue[if j < p then j else j - 1];
    }
  }

  lemma AddKeepsSlots(q: Requests, s: nat, r: Req)
    requires Slots(q) && s < NR_REQUEST && !Used(q.slots[s]) && 0 <= r.dev && 0 <= Major(r.dev) < NR_BLK_DEV
    ensures Slots(Add(q, s, r))
  {
    hide Major;
    QueuedLaws(q.slots, q.queues[Major(r.dev)], s, r);
    hide Queued;
  }

  lemma KeysInserted(slots: seq<Req>, queue: seq<nat>, s: nat, r: Req)
    requires Within(queue, |slots|) && NoDup(queue) && s !in queue && s < |slots|
    ensures Within(Queued(slots, queue, s, r), |slots|)
    ensures Keys(slots[s := r], Queued(slots, queue, s, r)) ==
            if queue == [] then [r] else Insert(Keys(slots, queue), Spot(Keys(slots, queue), r, 0), r)
  {
    QueuedLaws(slots, queue, s, r);
    assert forall i :: 0 <= i < |queue| ==> queue[i] in queue;
    if queue != [] { InsertKeys(slots, queue, Spot(Keys(slots, queue), r, 0), s, r); }
  }

  lemma InsertKeys(slots: seq<Req>, queue: seq<nat>, p: int, s: nat, r: Req)
    requires 0 <= p <= |queue| && Within(queue, |slots|) && s < |slots|
    requires forall i :: 0 <= i < |queue| ==> queue[i] != s
    requires Within(Insert(queue, p, s), |slots|)
    ensures Keys(slots[s := r], Insert(queue, p, s)) == Insert(Keys(slots, queue), p, r)
  {
    var t, k := Keys(slots[s := r], Insert(queue, p, s)), Insert(Keys(slots, queue), p, r);
    forall i | 0 <= i < |t|
      ensures t[i] == k[i]
    {
      if i > p { assert Insert(queue, p, s)[i] == queue[i - 1]; }
    }
  }

  lemma AddKeepsSorted(q: Requests, s: nat, r: Req)
    requires Slots(q) && Sorted(q) && s < NR_REQUEST && !Used(q.slots[s]) && 0 <= Major(r.dev) < NR_BLK_DEV
    requires forall t :: 0 <= t < NR_REQUEST && Used(q.slots[t]) ==> q.slots[t] != r
    requires Slots(Add(q, s, r))
    ensures Sorted(Add(q, s, r))
  {
    hide Major, OneDescent;
    var a := Add(q, s, r);
    forall m | 0 <= m < NR_BLK_DEV
      ensures OneDescent(Keys(a.slots, a.queues[m]))
    {
      var queue := q.queues[m];
      assert s !in queue;
      assert forall i :: 0 <= i < |queue| ==> queue[i] in queue;
      if m == Major(r.dev) {
        KeysInserted(q.slots, queue, s, r);
        if queue == [] {
          Short(r);
        } else {
          InsertKeepsOneDescent(Keys(q.slots, queue), r);
        }
      } else {
        assert Keys(a.slots, queue) == Keys(q.slots, queue);
      }
    }
  }

  lemma Short(r: Req)
    ensures OneDescent([r])
  {
  }

  /** Queuing a request for a locked buffer, in a free slot make_request may choose. */
  lemma AddKeeps(q: Requests, locks: set<(int, int)>, s: nat, r: Req)
    requires Proper(q, locks) && s < NR_REQUEST && !Used(q.slots[s]) && (r.cmd == WRITE ==> s < WRITE_SLOTS)
    requires 0 <= r.dev && 0 <= Major(r.dev) < NR_BLK_DEV && Unasked(q, (r.dev, r.sector))
    ensures Proper(Add(q, s, r), locks + {(r.dev, r.sector)})
  {
    hide Major;
    AddKeepsSlots(q, s, r);
    AddKeepsSorted(q, s, r);
    hide Queued, Sorted, Slots;
  }

  lemma AddKeepsWaiting(q: Requests, locks: set<(int, int)>, waiting: set<(int, int)>, s: nat, r: Req)
    requires Waiting(q, locks, waiting) && s < |q.slots| && !Used(q.slots[s]) && 0 <= r.dev
    requires 0 <= Major(r.dev) < |q.queues| && Within(q.queues[Major(r.dev)], |q.slots|)
    ensures Waiting(Add(q, s, r), locks + {(r.dev, r.sector)}, waiting - {(r.dev, r.sector)})
  {
    hide Major, Queued;
    var a := Add(q, s, r);
    assert Used(a.slots[s]);
    forall k | k in locks && k !in waiting
      ensures !Unasked(a, k)
    {
      var t :| 0 <= t < |q.slots| && Used(q.slots[t]) && (q.slots[t].dev, q.slots[t].sector) == k;
      assert a.slots[t] == q.slots[t];
    }
  }

  lemma DoneKeepsWaiting(q: Requests, locks: set<(int, int)>, waiting: set<(int, int)>, m: int)
    requires Waiting(q, locks, waiting) && Locked(q, locks) && 0 <= m < |q.queues| && q.queues[m] != []
    requires q.queues[m][0] < |q.slots| && Used(q.slots[q.queues[m][0]])
    ensures var r := q.slots[q.queues[m][0]]; Waiting(Done(q, m), locks - {(r.dev, r.sector)}, waiting)
  {
    var s := q.queues[m][0];
    var d, r := Done(q, m), q.slots[s];
    assert forall t :: 0 <= t < |q.slots| && t != s ==> d.slots[t] == q.slots[t];
    forall k | k in locks - {(r.dev, r.sector)} && k !in waiting
      ensures !Unasked(d, k)
    {
      var t :| 0 <= t < |q.slots| && Used(q.slots[t]) && (q.slots[t].dev, q.slots[t].sector) == k;
      assert d.slots[t] == q.slots[t];
    }
  }

  /** end_request on the device `m`: the head of its queue is done. */
  function Done(q: Requests, m: int): Requests
    requires 0 <= m < |q.queues| && q.queues[m] != [] && q.queues[m][0] < |q.slots|
  {
    var s := q.queues[m][0];
    Requests(q.slots[s := q.slots[s].(dev := -1)], q.queues[m := q.queues[m][1..]])
  }

  lemma DoneKeeps(q: Requests, locks: set<(int, int)>, m: int)
    requires Proper(q, locks) && 0 <= m < NR_BLK_DEV && q.queues[m] != []
    ensures q.queues[m][0] < NR_REQUEST && Used(q.slots[q.queues[m][0]])
    ensures var r := q.slots[q.queues[m][0]]; Proper(Done(q, m), locks - {(r.dev, r.sector)})
  {
    hide Major;
    var s := q.queues[m][0];
    assert s in q.queues[m];
    var d := Done(q, m);
    DoneKeepsSlots(q, m);
    forall n | 0 <= n < NR_BLK_DEV
      ensures OneDescent(Keys(d.slots, d.queues[n]))
    {
      DoneKeepsQueue(q, m, n);
    }
  }

  lemma DoneKeepsQueue(q: Requests, m: int, n: int)
    requires Slots(q) && Sorted(q) && 0 <= m < NR_BLK_DEV && 0 <= n < NR_BLK_DEV && q.queues[m] != []
    requires q.queues[m][0] < NR_REQUEST && Slots(Done(q, m))
    ensures OneDescent(Keys(Done(q, m).slots, Done(q, m).queues[n]))
  {
    hide Major, OneDescent;
    var s, d := q.queues[m][0], Done(q, m);
    assert !Used(d.slots[s]);
    assert forall i :: 0 <= i < |d.queues[n]| ==> d.queues[n][i] in d.queues[n] && d.queues[n][i] != s;
    if n == m {
      assert Keys(d.slots, d.queues[n]) == Keys(q.slots, q.queues[n])[1..];
      RestKeepsOneDescent(Keys(q.slots, q.queues[n]));
    } else {
      assert Keys(d.slots, d.queues[n]) == Keys(q.slots, q.queues[n]);
    }
  }

  lemma DoneKeepsSlots(q: Requests, m: int)
    requires Slots(q) && 0 <= m < NR_BLK_DEV && q.queues[m] != []
    ensures q.queues[m][0] < NR_REQUEST && Slots(Done(q, m))
  {
    hide Major;
    var s, t := q.queues[m][0], q.queues[m][1..];
    assert s in q.queues[m];
    assert forall x :: x in q.queues[m] <==> x == s || x in t;
    assert s !in t;
  }

  /** At most 21 of the 32 requests are writes. */
  lemma FewWrites(q: Requests, locks: set<(int, int)>)
    requires Proper(q, locks)
    ensures |Writes(q)| <= WRITE_SLOTS
  {
    AtMost(Writes(q), WRITE_SLOTS);
  }

  function Writes(q: Requests): set<int> {
    set s | 0 <= s < |q.slots| && Used(q.slots[s]) && q.slots[s].cmd == WRITE
  }

  /** No slot is in two queues. */
  lemma QueuesDisjoint(q: Requests, locks: set<(int, int)>, m: int, n: int, s: nat)
    requires Proper(q, locks) && 0 <= m < NR_BLK_DEV && 0 <= n < NR_BLK_DEV && s in q.queues[m] && s in q.queues[n]
    ensures m == n && s < NR_REQUEST && Used(q.slots[s])
  {
    var i :| 0 <= i < |q.queues[m]| && q.queues[m][i] == s;
    assert s in q.queues[m] <==> Used(q.slots[s]) && Major(q.slots[s].dev) == m;
    assert s in q.queues[n] <==> Used(q.slots[s]) && Major(q.slots[s].dev) == n;
  }

  // -------------------------------------------------------------------- runs

  /** A request, the second try of a task that slept for a slot, or the end of a transfer. */
  datatype Event = Ask(dev: int, cmd: int, block: int) | Retry(dev: int, cmd: int, block: int) | Complete(m: int)

  datatype World = World(q: Requests, locks: set<(int, int)>, waiting: set<(int, int)>)

  /** The highest free slot below `n`. */
  function TopFree(slots: seq<Req>, n: int): (s: int)
    requires 0 <= n <= |slots|
    ensures -1 <= s < n && (s >= 0 ==> !Used(slots[s])) && forall t :: s < t < n ==> Used(slots[t])
  {
    if n == 0 then -1 else if !Used(slots[n - 1]) then n - 1 else TopFree(slots, n - 1)
  }

  ghost predicate Ok(w: World) { Proper(w.q, w.locks) && Waiting(w.q, w.locks, w.waiting) }

  predicate CanAsk(dev: int, cmd: int) { 0 <= dev && 0 <= Major(dev) < NR_BLK_DEV && cmd in {READ, WRITE} }

  /** make_request from `repeat` on, for a buffer that is locked now: its request is queued, or its task
      sleeps. */
  ghost function Place(w: World, dev: int, cmd: int, block: int): World
    requires Ok(w) && CanAsk(dev, cmd)
  {
    var s := TopFree(w.q.slots, if cmd == READ then NR_REQUEST else WRITE_SLOTS);
    var k := (dev, 2 * block);
    if s < 0 then World(w.q, w.locks + {k}, w.waiting + {k})
    else World(Add(w.q, s, Req(dev, cmd, 2 * block)), w.locks + {k}, w.waiting - {k})
  }

  /** A request for a buffer that is not locked, a second try, or a completion; anything else waits. */
  ghost function Step(w: World, e: Event): World
    requires Ok(w)
  {
    match e
    case Ask(dev, cmd, block) =>
      if !CanAsk(dev, cmd) || (dev, 2 * block) in w.locks then w else Place(w, dev, cmd, block)
    case Retry(dev, cmd, block) =>
      if !CanAsk(dev, cmd) || (dev, 2 * block) !in w.waiting then w else Place(w, dev, cmd, block)
    case Complete(m) =>
      if !(0 <= m < NR_BLK_DEV) || w.q.queues[m] == [] then w
      else
        DoneKeeps(w.q, w.locks, m);
        var r := w.q.slots[w.q.queues[m][0]];
        World(Done(w.q, m), w.locks - {(r.dev, r.sector)}, w.waiting)
  }

  lemma PlaceKeeps(w: World, dev: int, cmd: int, block: int)
    requires Ok(w) && CanAsk(dev, cmd) && Unasked(w.q, (dev, 2 * block))
    ensures Ok(Place(w, dev, cmd, block))
  {
    var s := TopFree(w.q.slots, if cmd == READ then NR_REQUEST else WRITE_SLOTS);
    hide Major, Sorted, WritesLow, Unasked, Queued;
    if s >= 0 {
      AddKeeps(w.q, w.locks, s, Req(dev, cmd, 2 * block));
      AddKeepsWaiting(w.q, w.locks, w.waiting, s, Req(dev, cmd, 2 * block));
    }
  }

  lemma StepKeeps(w: World, e: Event)
    requires Ok(w)
    ensures Ok(Step(w, e))
  {
    hide Major, Sorted, WritesLow, Place;
    match e
    case Ask(dev, cmd, block) =>
      if CanAsk(dev, cmd) && (dev, 2 * block) !in w.locks { PlaceKeeps(w, dev, cmd, block); }
    case Retry(dev, cmd, block) =>
      if CanAsk(dev, cmd) && (dev, 2 * block) in w.waiting { PlaceKeeps(w, dev, cmd, block); }
    case Complete(m) =>
      if 0 <= m < NR_BLK_DEV && w.q.queues[m] != [] {
        DoneKeeps(w.q, w.locks, m);
        DoneKeepsWaiting(w.q, w.locks, w.waiting, m);
      }
  }

  function Boot(): World {
    World(Requests(seq(NR_REQUEST, _ => Req(-1, 0, 0)), seq(NR_BLK_DEV, _ => [])), {}, {})
  }

  ghost function Run(es: seq<Event>): (w: World)
    ensures Ok(w)
  {
    if es == [] then Boot()
    else
      StepKeeps(Run(es[..|es| - 1]), es[|es| - 1]);
      Step(Run(es[..|es| - 1]), es[|es| - 1])
  }

  /** After any run a buffer is locked exactly when one request for it is queued, or a task sleeps until it
      can queue one. */
  lemma LockedFor(es: seq<Event>, k: (int, int))
    ensures var w := Run(es);
      && (k in w.locks <==> k in w.waiting || !Unasked(w.q, k)) && (k in w.waiting ==> Unasked(w.q, k))
      && forall s, t :: 0 <= s < t < |w.q.slots| && Used(w.q.slots[s]) && Used(w.q.slots[t]) ==>
           (w.q.slots[s].dev, w.q.slots[s].sector) != (w.q.slots[t].dev, w.q.slots[t].sector)
  {
    hide Run, Slots, Sorted, WritesLow;
    assert Ok(Run(es));
  }

  /** After any requests and completions every device has a queue with one descent at most, every
      used slot is in exactly the queue of its device, and at most 21 slots are writes. */
  lemma RunsSweep(es: seq<Event>, m: int)
    requires 0 <= m < NR_BLK_DEV
    ensures var q := Run(es).q;
      && |q.queues| == 7 && |q.slots| == 32 && Within(q.queues[m], |q.slots|) && NoDup(q.queues[m])
      && OneDescent(Keys(q.slots, q.queues[m]))
      && (forall s :: 0 <= s < |q.slots| ==> (s in q.queues[m] <==> Used(q.slots[s]) && q.slots[s].dev / 256 == m))
      && |Writes(q)| <= 21
  {
    FewWrites(Run(es).q, Run(es).locks);
    hide Run, OneDescent, Locked, WritesLow;
  }

  // ------------------------------------------------- what the order means

  /** On the entries [a, b) the head goes one way: no read comes behind a write, for reads and for writes the device
      numbers do not fall, and on one device the sectors rise. */
  ghost predicate Sweep(k: seq<Req>, a: int, b: int) {
    0 <= a <= b <= |k| && forall i, j :: a <= i < j < b ==>
      && k[i].cmd <= k[j].cmd && (k[i].cmd == k[j].cmd ==> k[i].dev <= k[j].dev)
      && (k[i].cmd == k[j].cmd && k[i].dev == k[j].dev ==> k[i].sector < k[j].sector)
  }

  lemma {:induction false} SweepsOn(k: seq<Req>, a: int, b: int)
    requires 0 <= a <= b <= |k| && forall i :: a <= i < b - 1 ==> !Descent(k, i)
    ensures Sweep(k, a, b)
    decreases b
  {
    if a < b - 1 {
      SweepsOn(k, a, b - 1);
      assert !Descent(k, b - 2);
    }
  }

  /** After any run every queue is one sweep, or one sweep and then another. */
  lemma TwoSweeps(es: seq<Event>, m: int)
    requires 0 <= m < NR_BLK_DEV
    ensures var q := Run(es).q;
      && |q.queues| == NR_BLK_DEV && Within(q.queues[m], |q.slots|)
      && var k := Keys(q.slots, q.queues[m]);
         && (forall i :: 0 <= i < |k| ==> k[i].dev / 256 == m)
         && exists cut :: 0 <= cut <= |k| && Sweep(k, 0, cut) && Sweep(k, cut, |k|)
  {
    RunsSweep(es, m);
    var q := Run(es).q;
    hide Run, OneDescent, Sweep;
    var k := Keys(q.slots, q.queues[m]);
    forall i | 0 <= i < |k|
      ensures k[i].dev / 256 == m
    {
      assert q.queues[m][i] in q.queues[m];
    }
    Cut(k);
  }

  lemma Cut(k: seq<Req>)
    requires OneDescent(k)
    ensures exists cut :: 0 <= cut <= |k| && Sweep(k, 0, cut) && Sweep(k, cut, |k|)
  {
    hide Sweep, InOrder;
    if d :| 0 <= d < |k| - 1 && Descent(k, d) {
      SweepsOn(k, 0, d + 1);
      SweepsOn(k, d + 1, |k|);
    } else {
      SweepsOn(k, 0, |k|);
      SweepsOn(k, |k|, |k|);
    }
  }

  /** The sector of the request lies between two neighbours of its kind and device. */
  predicate Between(k: seq<Req>, i: int, r: Req) {
    && 0 <= i < |k| - 1 && k[i].cmd == k[i + 1].cmd == r.cmd && k[i].dev == k[i + 1].dev == r.dev
    && k[i].sector < r.sector < k[i + 1].sector
  }

  /** In the first sweep a request lands between the neighbours that its sector lies between. */
  lemma LandsBetween(k: seq<Req>, i: int, r: Req)
    requires Between(k, i, r) && Sweep(k, 0, i + 2)
    ensures Spot(k, r, 0) == i + 1 && Insert(k, Spot(k, r, 0), r) == k[..i + 1] + [r] + k[i + 1..]
  {
    forall j | 0 <= j < i
      ensures !Fits(k, j, r)
    {
    }
    assert Fits(k, i, r);
  }

  /** So it is with the slot of the request in its queue. */
  lemma QueuedBetween(q: Requests, s: nat, r: Req)
    requires Slots(q) && s < NR_REQUEST && 0 <= Major(r.dev) < NR_BLK_DEV
    ensures var queue := q.queues[Major(r.dev)]; var k := Keys(q.slots, queue);
      forall i :: Between(k, i, r) && Sweep(k, 0, i + 2) ==>
        Add(q, s, r).queues[Major(r.dev)] == queue[..i + 1] + [s] + queue[i + 1..]
  {
    hide Major, Sweep, Insert;
    var queue := q.queues[Major(r.dev)];
    var k := Keys(q.slots, queue);
    forall i | Between(k, i, r) && Sweep(k, 0, i + 2)
      ensures Add(q, s, r).queues[Major(r.dev)] == queue[..i + 1] + [s] + queue[i + 1..]
    {
      LandsBetween(k, i, r);
      Inserted(queue, i + 1, s);
    }
  }

  lemma Inserted(queue: seq<nat>, p: int, s: nat)
    requires 0 <= p <= |queue|
    ensures Insert(queue, p, s) == queue[..p] + [s] + queue[p..]
  {
  }

  /** In the second sweep likewise, if the head of the queue has passed the request. */
  lemma LandsBetweenLater(k: seq<Req>, cut: int, i: int, r: Req)
    requires Between(k, i, r) && 0 < cut <= i && Sweep(k, 0, cut) && Sweep(k, cut, |k|)
    requires k[0].cmd == r.cmd && k[0].dev == r.dev && r.sector < k[0].sector
    ensures Insert(k, Spot(k, r, 0), r) == k[..i + 1] + [r] + k[i + 1..]
  {
    forall j | 0 <= j < i
      ensures !Fits(k, j, r)
    {
      if j < cut - 1 { assert InOrder(r, k[j]) && InOrder(k[j], k[j + 1]); }
    }
    assert Fits(k, i, r);
  }

  /** A single sweep goes on with a request above its last sector, and a second one starts behind it with a
      request below its first. */
  lemma LandsAtEnd(k: seq<Req>, r: Req)
    requires k != [] && Sweep(k, 0, |k|)
    requires var e := if r.sector < k[0].sector then k[0] else k[|k| - 1];
      e.cmd == r.cmd && e.dev == r.dev && (r.sector < k[0].sector || r.sector > e.sector)
    ensures Insert(k, Spot(k, r, 0), r) == k + [r]
  {
    forall j | 0 <= j < |k| - 1
      ensures !Fits(k, j, r)
    {
      assert InOrder(k[j], k[j + 1]);
      if r.sector < k[0].sector { assert InOrder(r, k[j]); } else { assert InOrder(k[j + 1], r); }
    }
  }

  // ------------------------------------------------------------ the pointers

  function At(s: seq<nat>, i: int): int { if 0 <= i < |s| then s[i] else -1 }

  ghost predicate NextOk(next: seq<int>, queue: seq<nat>, i: int)
    requires 0 <= i < |queue|
  {
    queue[i] < |next| && next[queue[i]] == At(queue, i + 1)
  }

  ghost predicate ChainOk(next: seq<int>, head: int, queue: seq<nat>) {
    head == At(queue, 0) && forall i :: 0 <= i < |queue| ==> NextOk(next, queue, i)
  }

  ghost predicate Linked(next: seq<int>, current: seq<int>, q: Requests) {
    && |next| == NR_REQUEST && |current| == NR_BLK_DEV == |q.queues|
    && forall m :: 0 <= m < NR_BLK_DEV ==> ChainOk(next, current[m], q.queues[m])
  }

  lemma ChainInsert(next: seq<int>, head: int, queue: seq<nat>, p: int, s: nat)
    requires ChainOk(next, head, queue) && NoDup(queue) && 0 < p <= |queue| && s < |next| && s !in queue
    requires queue[p - 1] < |next|
    ensures ChainOk(next[s := next[queue[p - 1]]][queue[p - 1] := s], head, Insert(queue, p, s))
  {
    var t, next2 := Insert(queue, p, s), next[s := next[queue[p - 1]]][queue[p - 1] := s];
    forall i | 0 <= i < |t|
      ensures NextOk(next2, t, i)
    {
      assert NextOk(next, queue, p - 1);
      if i != p {
        var j := if i < p then i else i - 1;
        assert NextOk(next, queue, j) && queue[j] in queue && t[i] == queue[j];
      }
    }
  }

  lemma ChainSame(next: seq<int>, next2: seq<int>, head: int, queue: seq<nat>)
    requires ChainOk(next, head, queue) && |next2| == |next|
    requires forall i :: 0 <= i < |queue| && queue[i] < |next| ==> next2[queue[i]] == next[queue[i]]
    ensures ChainOk(next2, head, queue)
  {
    forall i | 0 <= i < |queue|
      ensures NextOk(next2, queue, i)
    {
      assert NextOk(next, queue, i);
    }
  }

  lemma Apart(q: Requests, k: int, m: int, s: nat)
    requires Slots(q) && 0 <= k < NR_BLK_DEV && 0 <= m < NR_BLK_DEV && s < NR_REQUEST && !Used(q.slots[s])
    ensures forall i :: 0 <= i < |q.queues[k]| ==> q.queues[k][i] != s && q.queues[k][i] < NR_REQUEST
    ensures k != m ==>
      forall i, j :: 0 <= i < |q.queues[k]| && 0 <= j < |q.queues[m]| ==> q.queues[k][i] != q.queues[m][j]
  {
    hide Major;
    var a, b := q.queues[k], q.queues[m];
    assert forall i :: 0 <= i < |a| ==> a[i] in a && a[i] < NR_REQUEST;
    forall i, j | 0 <= i < |a| && 0 <= j < |b| && k != m
      ensures a[i] != b[j]
    {
      var x := a[i];
      assert x in a && b[j] in b;
      assert x in q.queues[k] <==> Used(q.slots[x]) && Major(q.slots[x].dev) == k;
      assert x in q.queues[m] <==> Used(q.slots[x]) && Major(q.slots[x].dev) == m;
    }
  }

  /** The pointers after the two assignments of add_request, or the one to an empty queue. */
  function Relinked(next: seq<int>, q: Requests, s: nat, r: Req): seq<int>
    requires |next| == NR_REQUEST && Slots(q) && s < NR_REQUEST && 0 <= Major(r.dev) < NR_BLK_DEV
  {
    var queue, n := q.queues[Major(r.dev)], next[s := -1];
    if queue == [] then n
    else
      var last := queue[Spot(Keys(q.slots, queue), r, 0) - 1];
      n[s := n[last]][last := s]
  }

  /** The new request is linked in, and the other queues do not notice. */
  lemma AddLinked(next: seq<int>, current: seq<int>, q: Requests, s: nat, r: Req)
    requires Slots(q) && Linked(next, current, q) && s < NR_REQUEST && !Used(q.slots[s])
      && 0 <= Major(r.dev) < NR_BLK_DEV
    ensures var m := Major(r.dev);
      Linked(Relinked(next, q, s, r), if q.queues[m] == [] then current[m := s] else current, Add(q, s, r))
  {
    hide Major, ChainOk;
    var m := Major(r.dev);
    var next2, current2 := Relinked(next, q, s, r), if q.queues[m] == [] then current[m := s] else current;
    forall k | 0 <= k < NR_BLK_DEV
      ensures ChainOk(next2, current2[k], Add(q, s, r).queues[k])
    {
      AddLinkedAt(next, current, q, s, r, k);
    }
  }

  lemma AddLinkedAt(next: seq<int>, current: seq<int>, q: Requests, s: nat, r: Req, k: int)
    requires Slots(q) && Linked(next, current, q) && s < NR_REQUEST && !Used(q.slots[s])
      && 0 <= Major(r.dev) < NR_BLK_DEV
    requires 0 <= k < NR_BLK_DEV
    ensures var m := Major(r.dev);
      ChainOk(Relinked(next, q, s, r), if q.queues[m] == [] && k == m then s else current[k], Add(q, s, r).queues[k])
  {
    var m, queue := Major(r.dev), q.queues[k];
    assert ChainOk(next, current[k], queue) && NoDup(queue);
    Apart(q, k, m, s);
    hide Major, Slots, Linked, Keys, Insert;
    ChainSame(next, next[s := -1], current[k], queue);
    if k != m {
      ChainSame(next, Relinked(next, q, s, r), current[k], queue);
    } else if queue != [] {
      ChainInsert(next[s := -1], current[k], queue, Spot(Keys(q.slots, queue), r, 0), s);
    }
  }

  lemma DoneLinked(next: seq<int>, current: seq<int>, q: Requests, m: int)
    requires Slots(q) && Linked(next, current, q) && 0 <= m < NR_BLK_DEV && q.queues[m] != []
    ensures q.queues[m][0] < NR_REQUEST && Linked(next, current[m := next[q.queues[m][0]]], Done(q, m))
  {
    var queue, rest := q.queues[m], q.queues[m][1..];
    assert ChainOk(next, current[m], queue) && NextOk(next, queue, 0);
    forall i | 0 <= i < |rest|
      ensures NextOk(next, rest, i)
    {
      assert NextOk(next, queue, i + 1);
    }
    assert At(rest, 0) == At(queue, 1);
  }
}
