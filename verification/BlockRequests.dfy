/** The request slots on the heap (kernel/blk_drv/ll_rw_blk.c).  A slot is its number in `request`; the
    `next` fields and the `current_request` heads are arrays, with -1 for NULL. */
module BlockRequests {
  import opened Collections
  import opened Elevator

  /** How make_request ends: nothing to do, asleep because no slot is free, or queued. */
  datatype Outcome = NothingToDo | NoSlot | InSlot(s: nat)

  class BlockDevices {
    const next: array<int>
    const current: array<int>
    var slots: seq<Req>
    var locks: set<(int, int)>           // the locked buffers, by device and sector
    ghost var queues: seq<seq<nat>>
    ghost var waiting: set<(int, int)>   // those of them whose tasks sleep until a slot is free

    ghost function Snap(): Requests
      reads this
    {
      Requests(slots, queues)
    }

    ghost predicate Valid()
      reads this, next, current
    {
      && next != current && next.Length == NR_REQUEST && current.Length == NR_BLK_DEV
      && Proper(Snap(), locks) && Waiting(Snap(), locks, waiting) && Linked(next[..], current[..], Snap())
    }

    /** blk_dev_init */
    constructor ()
      ensures Valid() && fresh(next) && fresh(current) && locks == waiting == {}
      ensures Snap() == Requests(seq(NR_REQUEST, _ => Req(-1, 0, 0)), seq(NR_BLK_DEV, _ => []))
    {
      next := new int[NR_REQUEST](_ => -1);
      current := new int[NR_BLK_DEV](_ => -1);
      slots := seq(NR_REQUEST, _ => Req(-1, 0, 0));
      locks, waiting := {}, {};
      queues := seq(NR_BLK_DEV, _ => []);
    }

    /** The slot make_request finds, from the top down; reads may take any, writes the first 21. */
    method FindSlot(rw: int) returns (req: int)
      requires |slots| == NR_REQUEST
      ensures var limit := if rw == READ then NR_REQUEST else WRITE_SLOTS;
        && -1 <= req < limit && (req >= 0 ==> !Used(slots[req]))
        && forall s :: req < s < limit ==> Used(slots[s])
    {
      req := if rw == READ then NR_REQUEST else NR_REQUEST * 2 / 3;
      req := req - 1;
      while req >= 0
        invariant -1 <= req < if rw == READ then NR_REQUEST else WRITE_SLOTS
        invariant forall s :: req < s < (if rw == READ then NR_REQUEST else WRITE_SLOTS) ==> Used(slots[s])
      {
        if slots[req].dev < 0 {
          return;
        }
        req := req - 1;
      }
    }

    /** The walk of add_request along the queue of device `m`. */
    method Walk(m: int, r: Req) returns (tmp: nat)
      requires Valid() && 0 <= m < NR_BLK_DEV && queues[m] != []
      ensures tmp < NR_REQUEST && tmp == queues[m][Spot(Keys(slots, queues[m]), r, 0) - 1]
      ensures var k := Keys(slots, queues[m]);
        forall i :: Between(k, i, r) && Sweep(k, 0, i + 2) ==> tmp == queues[m][i]
    {
      hide Major, Between, Sweep;
      WalkBetween(slots, queues[m], r);
      ghost var i, queue, keys := 0, queues[m], Keys(slots, queues[m]);
      assert ChainOk(next[..], current[m], queue) && NextOk(next[..], queue, 0);
      tmp := current[m];
      while next[tmp] != -1
        invariant 0 <= i < |queue| && tmp == queue[i] && tmp < NR_REQUEST
        invariant Spot(keys, r, 0) == Spot(keys, r, i)
        decreases |queue| - i
      {
        assert NextOk(next[..], queue, i);
        var after := next[tmp];
        assert keys[i] == slots[tmp] && keys[i + 1] == slots[after];
        if (InOrder(slots[tmp], r) || !InOrder(slots[tmp], slots[after])) && InOrder(r, slots[after]) {
          return;
        }
        tmp, i := after, i + 1;
      }
      assert NextOk(next[..], queue, i);
    }

    /** add_request for the free slot `s` and a locked buffer. */
    method AddRequest(s: nat, r: Req)
      requires Valid() && s < NR_REQUEST && !Used(slots[s]) && 0 <= r.dev && 0 <= Major(r.dev) < NR_BLK_DEV
      requires (r.cmd == WRITE ==> s < WRITE_SLOTS) && Unasked(Snap(), (r.dev, r.sector))
      modifies this`slots, this`locks, this`queues, this`waiting, next, current
      ensures Valid() && Snap() == Add(old(Snap()), s, r)
      ensures locks == old(locks) + {(r.dev, r.sector)} && waiting == old(waiting) - {(r.dev, r.sector)}
      ensures old(Slots(Snap())) && var queue := old(queues)[Major(r.dev)]; var k := Keys(old(slots), queue);
        forall i :: Between(k, i, r) && Sweep(k, 0, i + 2) ==>
          queues[Major(r.dev)] == queue[..i + 1] + [s] + queue[i + 1..]
    {
      hide Major, Proper, Waiting, Unasked, Linked, Spot, Keys, Insert, Between, Sweep;
      ghost var q := Snap();
      var m := Major(r.dev);
      Shaped(q, locks, m);
      QueuedBetween(q, s, r);
      AddKeeps(q, locks, s, r);
      AddKeepsWaiting(q, locks, waiting, s, r);
      AddLinked(next[..], current[..], q, s, r);
      HeadIs(next[..], current[..], q, m);
      if current[m] == -1 {
        next[s] := -1;
        current[m] := s;
      } else {
        var tmp := Walk(m, r);
        next[s] := -1;
        next[s] := next[tmp];
        next[tmp] := s;
      }
      locks, waiting := locks + {(r.dev, r.sector)}, waiting - {(r.dev, r.sector)};
      slots := slots[s := r];
      queues := Add(q, s, r).queues;
    }

    /** make_request once the buffer could be locked. */
    method MakeRequest(dev: int, rw: int, block: int, dirt: bool, uptodate: bool) returns (o: Outcome)
      requires Valid() && CanAsk(dev, rw) && (dev, 2 * block) !in locks
      modifies this`slots, this`locks, this`queues, this`waiting, next, current
      ensures Valid()
      ensures o.NothingToDo? <==> (rw == WRITE && !dirt) || (rw == READ && uptodate)
      ensures o.NothingToDo? ==> Snap() == old(Snap()) && locks == old(locks) && waiting == old(waiting)
      ensures !o.NothingToDo? ==> Placed(old(Snap()), old(locks), old(waiting), dev, rw, block, o)
    {
      if (rw == WRITE && !dirt) || (rw == READ && uptodate) {
        return NothingToDo;
      }
      o := Place(dev, rw, block);
    }

    /** What make_request does from `repeat` on: the highest slot that the request may have is taken, or, if
        there is none, the task sleeps and keeps the buffer locked. */
    ghost predicate Placed(q: Requests, wasLocked: set<(int, int)>, wasWaiting: set<(int, int)>,
                           dev: int, rw: int, block: int, o: Outcome)
      reads this
    {
      var limit, k := if rw == READ then NR_REQUEST else WRITE_SLOTS, (dev, 2 * block);
      && |q.slots| == NR_REQUEST && locks == wasLocked + {k} && !o.NothingToDo?
      && (o.NoSlot? ==>
            Snap() == q && waiting == wasWaiting + {k} && forall s :: 0 <= s < limit ==> Used(q.slots[s]))
      && (o.InSlot? ==>
            && o.s < limit && !Used(q.slots[o.s]) && (forall s :: o.s < s < limit ==> Used(q.slots[s]))
            && waiting == wasWaiting - {k} && 0 <= Major(dev) < |q.queues| && Within(q.queues[Major(dev)], |q.slots|)
            && Snap() == Add(q, o.s, Req(dev, rw, 2 * block)))
    }

    method Place(dev: int, rw: int, block: int) returns (o: Outcome)
      requires Valid() && CanAsk(dev, rw) && Unasked(Snap(), (dev, 2 * block))
      modifies this`slots, this`locks, this`queues, this`waiting, next, current
      ensures Valid() && Placed(old(Snap()), old(locks), old(waiting), dev, rw, block, o)
    {
      var req := FindSlot(rw);
      if req < 0 {
        hide Slots, Sorted, WritesLow, Linked, Unasked;
        locks, waiting := locks + {(dev, 2 * block)}, waiting + {(dev, 2 * block)};
        return NoSlot;
      }
      hide Sorted, Locked, WritesLow, Waiting, Unasked;
      AddRequest(req, Req(dev, rw, 2 * block));
      o := InSlot(req);
    }

    /** Awake again after a slot became free. */
    method Retry(dev: int, rw: int, block: int) returns (o: Outcome)
      requires Valid() && CanAsk(dev, rw) && (dev, 2 * block) in waiting
      modifies this`slots, this`locks, this`queues, this`waiting, next, current
      ensures Valid() && Placed(old(Snap()), old(locks), old(waiting), dev, rw, block, o)
    {
      o := Place(dev, rw, block);
    }

    /** end_request for the device `m`; its buffer is unlocked. */
    method EndRequest(m: int)
      requires Valid() && 0 <= m < NR_BLK_DEV && queues[m] != []
      modifies this`slots, this`locks, this`queues, current
      ensures Valid() && old(queues[m][0]) < NR_REQUEST && old(Slots(Snap())) && Snap() == Done(old(Snap()), m)
      ensures var r := old(slots)[old(queues[m][0])]; locks == old(locks) - {(r.dev, r.sector)}
    {
      ghost var q := Snap();
      DoneKeeps(q, locks, m);
      DoneKeepsWaiting(q, locks, waiting, m);
      DoneLinked(next[..], current[..], q, m);
      HeadIs(next[..], current[..], q, m);
      hide Major, Sorted, Locked, Waiting, WritesLow, Linked;
      var req := current[m];
      locks := locks - {(slots[req].dev, slots[req].sector)};
      slots := slots[req := slots[req].(dev := -1)];
      current[m] := next[req];
      queues := Done(q, m).queues;
    }
  }

  lemma WalkBetween(slots: seq<Req>, queue: seq<nat>, r: Req)
    requires Within(queue, |slots|) && queue != []
    ensures var k := Keys(slots, queue);
      forall i :: Between(k, i, r) && Sweep(k, 0, i + 2) ==> Spot(k, r, 0) == i + 1
  {
    hide Between, Sweep;
    var k := Keys(slots, queue);
    forall i | Between(k, i, r) && Sweep(k, 0, i + 2)
      ensures Spot(k, r, 0) == i + 1
    {
      LandsBetween(k, i, r);
    }
  }

  lemma Shaped(q: Requests, locks: set<(int, int)>, m: int)
    requires Proper(q, locks) && 0 <= m < NR_BLK_DEV
    ensures Slots(q) && |q.slots| == NR_REQUEST && |q.queues| == NR_BLK_DEV && Within(q.queues[m], NR_REQUEST)
  {
  }

  lemma HeadIs(next: seq<int>, current: seq<int>, q: Requests, m: int)
    requires Linked(next, current, q) && 0 <= m < NR_BLK_DEV
    ensures current[m] == if q.queues[m] == [] then -1 else q.queues[m][0]
  {
  }
}
