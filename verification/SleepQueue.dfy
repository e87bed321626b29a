/** Waiting on a slot (kernel/sched.c: `__sleep_on`, `wake_up`).

    The waiters form a stack: the slot points to the newest one, and each waiter
    remembers its predecessor in a local variable of its own kernel stack.  Kernel
    code runs without interruption between two calls of `schedule`, so that
    `__sleep_on` is two steps: going to sleep, and what follows when the scheduler
    picks the task again. */
module SleepQueue {
  import opened Collections

  const RUNNING: int := 0
  const INTERRUPTIBLE: int := 1
  const UNINTERRUPTIBLE: int := 2

  /** `slot` is `*p`; `state` has the state of every task; `tmp` the local variables
      of the tasks that are inside `__sleep_on` for this slot. */
  datatype Queue = Queue(slot: Option<nat>, state: map<nat, int>, tmp: map<nat, Option<nat>>)

  datatype Event = Enter(task: nat, how: int) | Resume(task: nat) | WakeUp | Signal(task: nat)

  predicate Runnable(q: Queue, t: nat) { t in q.state && q.state[t] == RUNNING }

  /** Up to the call of `schedule`. */
  function Sleep(q: Queue, t: nat, how: int): Queue {
    Queue(Some(t), q.state[t := how], q.tmp[t := q.slot])
  }

  /** Whether the task that was picked again may return to its caller. */
  predicate MayLeave(q: Queue, t: nat) { q.slot == None || q.slot == Some(t) }

  /** From the return of `schedule` to its next call, or to the end. */
  function Awake(q: Queue, t: nat): Queue
    requires t in q.tmp
  {
    if !MayLeave(q, t) then q.(state := q.state[q.slot.value := RUNNING][t := UNINTERRUPTIBLE])
    else
      var next := q.tmp[t];
      Queue(next, if next.Some? then q.state[next.value := RUNNING] else q.state, q.tmp - {t})
  }

  function Wake(q: Queue): Queue {
    if q.slot.Some? then q.(state := q.state[q.slot.value := RUNNING]) else q
  }

  /** Which events can happen: only a task that is not waiting here goes to sleep here, and
      only a runnable one is picked.  A signal makes an interruptible sleeper runnable. */
  predicate Enabled(q: Queue, e: Event) {
    match e
    case Enter(t, how) => t in q.state && t !in q.tmp && (how == INTERRUPTIBLE || how == UNINTERRUPTIBLE)
    case Resume(t) => t in q.tmp && Runnable(q, t)
    case WakeUp => true
    case Signal(t) => t in q.state && q.state[t] == INTERRUPTIBLE
  }

  function Step(q: Queue, e: Event): Queue
    requires Enabled(q, e)
  {
    match e
    case Enter(t, how) => Sleep(q, t, how)
    case Resume(t) => Awake(q, t)
    case WakeUp => Wake(q)
    case Signal(t) => q.(state := q.state[t := RUNNING])
  }

  // ------------------------------------------------------------ the stack

  /** `stack` lists the waiters, newest first: its top is the slot, its links are the
      local variables, and nobody else is inside `__sleep_on`. */
  ghost predicate IsStack(q: Queue, stack: seq<nat>) {
    && NoDup(stack)
    && q.slot == (if stack == [] then None else Some(stack[0]))
    && (forall t :: t in q.tmp <==> t in stack)
    && (forall t :: t in stack ==> t in q.state)
    && (forall i :: 0 <= i < |stack| ==> LinkOk(q.tmp, stack, i))
  }

  ghost predicate LinkOk(tmp: map<nat, Option<nat>>, stack: seq<nat>, i: nat)
    requires i < |stack| && stack[i] in tmp
  {
    tmp[stack[i]] == if i + 1 < |stack| then Some(stack[i + 1]) else None
  }

  function StackAfter(q: Queue, stack: seq<nat>, e: Event): seq<nat> {
    match e
    case Enter(t, _) => [t] + stack
    case Resume(t) => if MayLeave(q, t) && stack != [] then stack[1..] else stack
    case _ => stack
  }

  lemma EnterKept(q: Queue, stack: seq<nat>, t: nat, how: int)
    requires IsStack(q, stack) && t !in q.tmp
    ensures IsStack(Sleep(q, t, how), [t] + stack)
  {
    var q', stack' := Sleep(q, t, how), [t] + stack;
    assert forall t' :: t' in stack' <==> t' == t || t' in stack;
    forall i | 0 <= i < |stack'| ensures LinkOk(q'.tmp, stack', i) {
      if i > 0 { assert stack'[i] == stack[i - 1] && stack[i - 1] in stack && LinkOk(q.tmp, stack, i - 1); }
    }
  }

  lemma LeaveKept(q: Queue, stack: seq<nat>, t: nat)
    requires IsStack(q, stack) && t in q.tmp && MayLeave(q, t)
    ensures stack != [] && stack[0] == t && q.slot != None
    ensures IsStack(Awake(q, t), stack[1..])
  {
    var q', stack' := Awake(q, t), stack[1..];
    assert stack == [t] + stack';
    assert LinkOk(q.tmp, stack, 0);
    assert forall t' :: t' in stack <==> t' == t || t' in stack';
    forall i | 0 <= i < |stack'| ensures stack'[i] in q'.tmp && LinkOk(q'.tmp, stack', i) {
      assert LinkOk(q.tmp, stack, i + 1) && stack'[i] == stack[i + 1] && stack[i + 1] in stack;
    }
  }

  /** Every event keeps the stack, and a task leaves exactly when it is on top; the
      slot is never empty when a waiter looks at it. */
  lemma StackKept(q: Queue, stack: seq<nat>, e: Event)
    requires IsStack(q, stack) && Enabled(q, e)
    ensures IsStack(Step(q, e), StackAfter(q, stack, e))
    ensures e.Resume? ==> q.slot != None && (MayLeave(q, e.task) <==> stack[0] == e.task)
  {
    match e {
      case Enter(t, how) => EnterKept(q, stack, t, how);
      case Resume(t) => if MayLeave(q, t) { LeaveKept(q, stack, t); }
      case _ =>
    }
  }

  ghost predicate SomeRunnable(q: Queue, stack: seq<nat>) { exists t :: t in stack && Runnable(q, t) }

  /** Once a waiter is runnable, some waiter stays runnable until none is left. */
  lemma RunnableKept(q: Queue, stack: seq<nat>, e: Event)
    requires IsStack(q, stack) && Enabled(q, e) && SomeRunnable(q, stack)
    ensures StackAfter(q, stack, e) == [] || SomeRunnable(Step(q, e), StackAfter(q, stack, e))
  {
    StackKept(q, stack, e);
    var q', stack' := Step(q, e), StackAfter(q, stack, e);
    var t :| t in stack && Runnable(q, t);
    match e {
      case Enter(u, _) =>
        assert t in stack' && Runnable(q', t);
      case Resume(u) =>
        if stack' != [] {
          if MayLeave(q, u) { assert stack[1] == stack'[0]; }
          assert stack'[0] in stack' && Runnable(q', stack'[0]);
        }
      case WakeUp => assert t in stack' && Runnable(q', t);
      case Signal(u) => assert t in stack' && Runnable(q', t);
    }
  }

  /** A wake-up makes a waiter runnable if there is one. */
  lemma WakeWakes(q: Queue, stack: seq<nat>)
    requires IsStack(q, stack) && stack != []
    ensures SomeRunnable(Wake(q), stack)
  {
    assert stack[0] in stack && Runnable(Wake(q), stack[0]);
  }

  // ------------------------------------------------------------ runs

  ghost predicate EnabledRun(q: Queue, es: seq<Event>)
    decreases |es|
  {
    es == [] || (Enabled(q, es[0]) && EnabledRun(Step(q, es[0]), es[1..]))
  }

  ghost function RunOf(q: Queue, es: seq<Event>): Queue
    requires EnabledRun(q, es)
    decreases |es|
  {
    if es == [] then q else RunOf(Step(q, es[0]), es[1..])
  }

  ghost function StackOf(q: Queue, stack: seq<nat>, es: seq<Event>): seq<nat>
    requires EnabledRun(q, es)
    decreases |es|
  {
    if es == [] then stack else StackOf(Step(q, es[0]), StackAfter(q, stack, es[0]), es[1..])
  }

  /** After any run the waiters still form a stack. */
  lemma {:induction false} RunKeepsStack(q: Queue, stack: seq<nat>, es: seq<Event>)
    requires IsStack(q, stack) && EnabledRun(q, es)
    ensures IsStack(RunOf(q, es), StackOf(q, stack, es))
    decreases |es|
  {
    if es != [] {
      StackKept(q, stack, es[0]);
      RunKeepsStack(Step(q, es[0]), StackAfter(q, stack, es[0]), es[1..]);
    }
  }

  // ------------------------------------------------------------ progress

  function Count(q: Queue, s: seq<nat>): nat {
    if s == [] then 0 else (if Runnable(q, s[0]) then 1 else 0) + Count(q, s[1..])
  }

  lemma {:induction false} CountBound(q: Queue, s: seq<nat>)
    ensures Count(q, s) <= |s|
  {
    if s != [] { CountBound(q, s[1..]); }
  }

  lemma {:induction false} CountSame(q: Queue, q': Queue, s: seq<nat>)
    requires forall t :: t in s ==> Runnable(q', t) == Runnable(q, t)
    ensures Count(q', s) == Count(q, s)
  {
    if s != [] {
      assert s[0] in s;
      CountSame(q, q', s[1..]);
    }
  }

  lemma {:induction false} CountDrops(q: Queue, q': Queue, s: seq<nat>, t: nat)
    requires NoDup(s) && t in s && Runnable(q, t) && !Runnable(q', t)
    requires forall u :: u in s && u != t ==> Runnable(q', u) == Runnable(q, u)
    ensures Count(q', s) == Count(q, s) - 1
  {
    if s[0] == t {
      assert forall u :: u in s[1..] ==> u != t;
      CountSame(q, q', s[1..]);
    } else {
      assert s[0] in s;
      CountDrops(q, q', s[1..], t);
    }
  }

  /** Number of waiters first, number of runnable waiters below the top second. */
  function Rank(q: Queue, stack: seq<nat>): nat {
    if stack == [] then 0 else |stack| * |stack| + Count(q, stack[1..])
  }

  lemma Squares(n: nat, a: nat, b: nat)
    requires a <= n
    ensures n * n + a < (n + 1) * (n + 1) + b
  {
  }

  /** Picking a waiter brings the stack closer to being empty. */
  lemma ResumeProgress(q: Queue, stack: seq<nat>, t: nat)
    requires IsStack(q, stack) && Enabled(q, Resume(t))
    ensures Rank(Awake(q, t), StackAfter(q, stack, Resume(t))) < Rank(q, stack)
  {
    StackKept(q, stack, Resume(t));
    var q', stack' := Awake(q, t), StackAfter(q, stack, Resume(t));
    if MayLeave(q, t) {
      if stack' != [] {
        CountBound(q', stack'[1..]);
        Squares(|stack'|, Count(q', stack'[1..]), Count(q, stack[1..]));
      }
    } else {
      assert t in stack[1..];
      CountDrops(q, q', stack[1..], t);
    }
  }

  /** Without new arrivals every run of picks is short, and it can only end with an
      empty stack: as long as a waiter is left, some waiter can be picked. */
  lemma {:induction false} StackDrains(q: Queue, stack: seq<nat>, es: seq<Event>)
    requires IsStack(q, stack) && EnabledRun(q, es) && forall i :: 0 <= i < |es| ==> es[i].Resume?
    requires stack != [] ==> SomeRunnable(q, stack)
    ensures |es| <= Rank(q, stack)
    ensures var stack' := StackOf(q, stack, es);
      stack' == [] || exists t :: t in stack' && Enabled(RunOf(q, es), Resume(t))
    decreases |es|
  {
    if es != [] {
      var e := es[0];
      StackKept(q, stack, e);
      if stack != [] { RunnableKept(q, stack, e); }
      ResumeProgress(q, stack, e.task);
      StackDrains(Step(q, e), StackAfter(q, stack, e), es[1..]);
    } else if stack != [] {
      var t :| t in stack && Runnable(q, t);
      assert Enabled(q, Resume(t));
    }
  }
}
