/** The lock of a buffer and the tasks that wait for it
    (kernel/blk_drv/ll_rw_blk.c: `lock_buffer`, `unlock_buffer`; fs/buffer.c: `wait_on_buffer`). */
module BufferLock {
  import opened Collections
  import opened SleepQueue

  /** Why a task waits: to see the buffer unlocked, or to lock it itself. */
  datatype Purpose = Look | Take

  datatype Lock = Lock(q: Queue, locked: bool, wants: map<nat, Purpose>)

  datatype Action = Call(task: nat, purpose: Purpose) | Pick(task: nat) | Unlock

  predicate Possible(b: Lock, a: Action) {
    match a
    case Call(t, _) => t in b.q.state && t !in b.q.tmp
    case Pick(t) => t in b.q.tmp && t in b.wants && Runnable(b.q, t)
    case Unlock => b.locked
  }

  /** `while (b_lock) sleep_on(...)`, and for `Take` the lock, up to the next `schedule`. */
  function Test(b: Lock, t: nat, purpose: Purpose): Lock {
    if b.locked then Lock(Sleep(b.q, t, UNINTERRUPTIBLE), true, b.wants[t := purpose])
    else Lock(b.q, purpose == Take, b.wants - {t})
  }

  function Act(b: Lock, a: Action): Lock
    requires Possible(b, a)
  {
    match a
    case Call(t, purpose) => Test(b, t, purpose)
    case Pick(t) =>
      var c := b.(q := Awake(b.q, t));
      if MayLeave(b.q, t) then Test(c, t, b.wants[t]) else c
    case Unlock => Lock(Wake(b.q), false, b.wants)
  }

  function StackNext(b: Lock, stack: seq<nat>, a: Action): seq<nat>
    requires Possible(b, a)
  {
    match a
    case Call(t, _) => if b.locked then [t] + stack else stack
    case Pick(t) =>
      if !MayLeave(b.q, t) || stack == [] then stack
      else if b.locked then [t] + stack[1..] else stack[1..]
    case Unlock => stack
  }

  /** An unlocked buffer never has waiters that are all asleep. */
  ghost predicate NoLostWaiter(b: Lock, stack: seq<nat>) {
    && IsStack(b.q, stack)
    && (forall t :: t in b.q.tmp <==> t in b.wants)
    && (!b.locked && stack != [] ==> SomeRunnable(b.q, stack))
  }

  lemma CallKeeps(b: Lock, stack: seq<nat>, t: nat, purpose: Purpose)
    requires NoLostWaiter(b, stack) && Possible(b, Call(t, purpose))
    ensures NoLostWaiter(Act(b, Call(t, purpose)), StackNext(b, stack, Call(t, purpose)))
  {
    if b.locked { EnterKept(b.q, stack, t, UNINTERRUPTIBLE); }
  }

  lemma PickKeeps(b: Lock, stack: seq<nat>, t: nat)
    requires NoLostWaiter(b, stack) && Possible(b, Pick(t))
    ensures NoLostWaiter(Act(b, Pick(t)), StackNext(b, stack, Pick(t)))
  {
    var q' := Awake(b.q, t);
    StackKept(b.q, stack, Resume(t));
    assert t in stack && SomeRunnable(b.q, stack);
    RunnableKept(b.q, stack, Resume(t));
    if MayLeave(b.q, t) {
      assert stack != [];
      if b.locked { EnterKept(q', stack[1..], t, UNINTERRUPTIBLE); }
    }
  }

  lemma ActKeeps(b: Lock, stack: seq<nat>, a: Action)
    requires NoLostWaiter(b, stack) && Possible(b, a)
    ensures NoLostWaiter(Act(b, a), StackNext(b, stack, a))
  {
    match a {
      case Call(t, purpose) => CallKeeps(b, stack, t, purpose);
      case Pick(t) => PickKeeps(b, stack, t);
      case Unlock => if stack != [] { WakeWakes(b.q, stack); }
    }
  }

  ghost predicate PossibleRun(b: Lock, acts: seq<Action>)
    decreases |acts|
  {
    acts == [] || (Possible(b, acts[0]) && PossibleRun(Act(b, acts[0]), acts[1..]))
  }

  ghost function After(b: Lock, acts: seq<Action>): Lock
    requires PossibleRun(b, acts)
    decreases |acts|
  {
    if acts == [] then b else After(Act(b, acts[0]), acts[1..])
  }

  /** In every reachable state: an unlocked buffer with waiters has one that can run. */
  lemma {:induction false} NobodyIsForgotten(b: Lock, stack: seq<nat>, acts: seq<Action>) returns (s: seq<nat>)
    requires NoLostWaiter(b, stack) && PossibleRun(b, acts)
    ensures NoLostWaiter(After(b, acts), s)
    ensures var c := After(b, acts); !c.locked && c.q.slot != None ==> exists t :: t in c.q.tmp && Runnable(c.q, t)
    decreases |acts|
  {
    s := stack;
    if acts != [] {
      ActKeeps(b, stack, acts[0]);
      s := NobodyIsForgotten(Act(b, acts[0]), StackNext(b, stack, acts[0]), acts[1..]);
    } else if !b.locked && stack != [] {
      var t :| t in stack && Runnable(b.q, t);
      assert t in b.q.tmp;
    }
  }

  // ------------------------------------------------------- the code, in place

  /** A wait slot with the task table, as the kernel has them. */
  class Buffer {
    var locked: bool
    var slot: Option<nat>
    const state: array<int>
    var tmp: map<nat, Option<nat>>      // the local `tmp` of every task inside `__sleep_on`
    var wants: map<nat, Purpose>        // which of the two callers each of them will return to
    ghost var stack: seq<nat>

    ghost function Snap(): Lock
      reads this, state
    {
      Lock(Queue(slot, map t: nat | 0 <= t < state.Length :: state[t], tmp), locked, wants)
    }

    ghost predicate Valid()
      reads this, state
    {
      NoLostWaiter(Snap(), stack)
    }

    constructor (tasks: nat)
      ensures Valid() && !locked && stack == [] && fresh(state) && state.Length == tasks
    {
      locked, slot, tmp, wants, stack := false, None, map[], map[], [];
      state := new int[tasks](_ => RUNNING);
    }

    /** `__sleep_on` up to the call of `schedule`. */
    method SleepOn(current: nat, how: int)
      requires current < state.Length
      modifies `slot, `tmp, state
      ensures Snap() == old(Snap()).(q := Sleep(old(Snap()).q, current, how))
    {
      tmp := tmp[current := slot];
      slot := Some(current);
      state[current] := how;
      assert Snap().q.state == old(Snap()).q.state[current := how];
    }

    /** `__sleep_on` from the return of `schedule` on; false means that it schedules again. */
    method AfterSchedule(current: nat) returns (left: bool)
      requires Valid() && current < state.Length && current in tmp && state[current] == RUNNING
      modifies `slot, `tmp, state
      ensures left == MayLeave(old(Snap()).q, current)
      ensures Snap() == old(Snap()).(q := Awake(old(Snap()).q, current))
    {
      ghost var q := Snap().q;
      if slot.Some? && slot != Some(current) {
        assert stack[0] in stack;
        state[slot.value] := RUNNING;
        state[current] := UNINTERRUPTIBLE;
        assert Snap().q.state == q.state[slot.value := RUNNING][current := UNINTERRUPTIBLE];
        return false;
      }
      LeaveKept(q, stack, current);       // the slot is not empty here
      assert LinkOk(q.tmp, stack, 0);
      slot := tmp[current];
      if slot.Some? {
        assert stack[1] in stack;
        state[slot.value] := RUNNING;
        assert Snap().q.state == q.state[slot.value := RUNNING];
      } else {
        assert Snap().q.state == q.state;
      }
      tmp := tmp - {current};
      left := true;
    }

    /** The loop test of the two callers. */
    method Retest(current: nat, purpose: Purpose)
      requires current < state.Length
      modifies `slot, `tmp, `locked, `wants, state
      ensures Snap() == Test(old(Snap()), current, purpose)
    {
      if locked {
        wants := wants[current := purpose];
        SleepOn(current, UNINTERRUPTIBLE);
      } else {
        wants := wants - {current};
        locked := purpose == Take;
        assert Snap().q.state == old(Snap()).q.state;
      }
    }

    /** A task that is not waiting calls `lock_buffer` or `wait_on_buffer`. */
    method Enter(current: nat, purpose: Purpose)
      requires Valid() && current < state.Length && current !in tmp
      modifies this, state
      ensures Valid() && Snap() == Act(old(Snap()), Call(current, purpose))
    {
      ActKeeps(Snap(), stack, Call(current, purpose));
      stack := StackNext(Snap(), stack, Call(current, purpose));
      Retest(current, purpose);
    }

    method Proceed(current: nat)
      requires Valid() && current < state.Length && current in tmp && state[current] == RUNNING
      modifies `slot, `tmp, `locked, `wants, state
      ensures Snap() == Act(old(Snap()), Pick(current))
    {
      assert Possible(Snap(), Pick(current));
      var left := AfterSchedule(current);
      if left { Retest(current, wants[current]); }
    }

    /** The scheduler picks a waiter that is runnable. */
    method Continue(current: nat)
      requires Valid() && current < state.Length && current in tmp && state[current] == RUNNING
      modifies this, state
      ensures Valid() && Snap() == Act(old(Snap()), Pick(current))
    {
      ghost var b, a := Snap(), Pick(current);
      assert Possible(b, a);
      ActKeeps(b, stack, a);
      Proceed(current);
      stack := StackNext(b, stack, a);
      assert Snap() == Act(b, a);
    }

    /** `unlock_buffer`, from the interrupt that ends a transfer. */
    method Release()
      requires Valid() && locked
      modifies this, state
      ensures Valid() && Snap() == Act(old(Snap()), Unlock)
    {
      ghost var b := Snap();
      ActKeeps(b, stack, Unlock);
      locked := false;
      if slot.Some? {
        assert stack[0] in stack;
        state[slot.value] := RUNNING;
        assert Snap().q.state == b.q.state[slot.value := RUNNING];
      } else {
        assert Snap().q.state == b.q.state;
      }
    }
  }
}
