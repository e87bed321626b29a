/** Time slices: schedule and do_timer of kernel/sched.c, on values. */
module Slices {

  const NR_TASKS: int := 64

  /** A slot of the task table; task 0 is the idle task. */
  datatype Task = Task(present: bool, running: bool, counter: int, priority: int)

  ghost predicate Table(ts: seq<Task>) {
    |ts| == NR_TASKS && forall i :: 1 <= i < NR_TASKS && ts[i].present ==>
      0 <= ts[i].counter < 2 * ts[i].priority
  }

  predicate Ready(t: Task) { t.present && t.running }

  datatype Choice = Choice(c: int, next: int)

  /** The selection loop of schedule, down to slot `i`. */
  function Pick(ts: seq<Task>, i: int): Choice
    requires 1 <= i <= |ts|
    decreases |ts| - i
  {
    if i == |ts| then Choice(-1, 0)
    else
      var r := Pick(ts, i + 1);
      if Ready(ts[i]) && ts[i].counter > r.c then Choice(ts[i].counter, i) else r
  }

  /** The choice is the ready task with the largest slice, and of several the one in the highest slot;
      without a ready task it is the idle task. */
  lemma {:induction false} PickIsLargest(ts: seq<Task>, i: int)
    requires 1 <= i <= |ts| && forall j :: i <= j < |ts| && Ready(ts[j]) ==> ts[j].counter >= 0
    ensures var r := Pick(ts, i);
      && (forall j :: i <= j < |ts| && Ready(ts[j]) ==> ts[j].counter < r.c || (ts[j].counter == r.c && j <= r.next))
      && (if r.c == -1 then r.next == 0
          else i <= r.next < |ts| && Ready(ts[r.next]) && ts[r.next].counter == r.c >= 0)
    decreases |ts| - i
  {
    if i < |ts| { PickIsLargest(ts, i + 1); }
  }

  function Refilled(t: Task): Task { if t.present then t.(counter := t.counter / 2 + t.priority) else t }

  /** The recharge loop. */
  function Recharge(ts: seq<Task>): seq<Task> {
    seq(|ts|, i requires 0 <= i < |ts| => if i == 0 then ts[0] else Refilled(ts[i]))
  }

  /** A recharge keeps every slice below twice the priority and gives every task one. */
  lemma RechargeKeeps(ts: seq<Task>)
    requires Table(ts)
    ensures Table(Recharge(ts))
    ensures forall i :: 1 <= i < NR_TASKS && ts[i].present ==> Recharge(ts)[i].counter >= ts[i].priority > 0
  {
  }

  /** Half of the time left is carried over: with equal priorities the task with at least two ticks more left still
      has more after a recharge, and none has more than before and its priority together. */
  lemma RechargeOrders(ts: seq<Task>, i: int, j: int)
    requires Table(ts) && 1 <= i < NR_TASKS && 1 <= j < NR_TASKS && ts[i].present && ts[j].present
    requires ts[i].priority == ts[j].priority
    ensures var us := Recharge(ts);
      && (ts[i].counter >= ts[j].counter + 2 ==> us[i].counter > us[j].counter)
      && (ts[i].counter >= ts[j].counter ==> us[i].counter >= us[j].counter)
      && us[i].counter <= ts[i].counter + ts[i].priority
      && ts[i].counter - 1 <= 2 * (us[i].counter - ts[i].priority) <= ts[i].counter
      && us[i].priority == ts[i].priority && us[i].running == ts[i].running && us[i].present && us[0] == ts[0]
  {
  }

  /** schedule: the table it leaves and the task it switches to. */
  function Schedule(ts: seq<Task>): (seq<Task>, int)
    requires |ts| >= 1
  {
    var r := Pick(ts, 1);
    if r.c != 0 then (ts, r.next) else (Recharge(ts), Pick(Recharge(ts), 1).next)
  }

  /** One recharge is enough: afterwards the largest slice is not zero. */
  lemma OneRecharge(ts: seq<Task>)
    requires Table(ts) && Pick(ts, 1).c == 0
    ensures Pick(Recharge(ts), 1).c > 0
  {
    PickIsLargest(ts, 1);
    RechargeKeeps(ts);
    PickIsLargest(Recharge(ts), 1);
    var n := Pick(ts, 1).next;
    assert Ready(Recharge(ts)[n]);
  }

  /** What schedule decides: the idle task if nobody is ready, otherwise a ready task with time left
      that nobody else exceeds. */
  lemma ScheduleChoosesLargest(ts: seq<Task>)
    requires Table(ts)
    ensures var (us, n) := Schedule(ts);
      && Table(us)
      && (n == 0 <==> forall j :: 1 <= j < NR_TASKS ==> !Ready(ts[j]))
      && (n != 0 ==>
            && 1 <= n < NR_TASKS && Ready(us[n]) && us[n].counter > 0
            && forall j :: 1 <= j < NR_TASKS && Ready(us[j]) ==>
                 us[j].counter < us[n].counter || (us[j].counter == us[n].counter && j <= n))
  {
    PickIsLargest(ts, 1);
    if Pick(ts, 1).c == 0 {
      OneRecharge(ts);
      RechargeKeeps(ts);
      PickIsLargest(Recharge(ts), 1);
      assert forall j :: 1 <= j < NR_TASKS ==> Ready(Recharge(ts)[j]) == Ready(ts[j]);
    }
  }

  // ------------------------------------------------------------ no starvation

  /** The machine: the table and the running task. */
  datatype Cpu = Cpu(ts: seq<Task>, current: int)

  datatype Event = Tick | Switch | Sleep(i: int) | Wake(i: int)

  function Charge(ts: seq<Task>, i: int): seq<Task>
    requires 0 <= i < |ts|
  {
    ts[i := ts[i].(counter := if ts[i].counter - 1 > 0 then ts[i].counter - 1 else 0)]
  }

  function Step(m: Cpu, e: Event): Cpu
    requires |m.ts| == NR_TASKS && 0 <= m.current < NR_TASKS
  {
    match e
    case Tick => m.(ts := Charge(m.ts, m.current))
    case Switch => Cpu(Schedule(m.ts).0, Schedule(m.ts).1)
    case Sleep(i) => if 1 <= i < NR_TASKS then m.(ts := m.ts[i := m.ts[i].(running := false)]) else m
    case Wake(i) => if 1 <= i < NR_TASKS then m.(ts := m.ts[i := m.ts[i].(running := true)]) else m
  }

  /** Tasks other than `t` and the idle task; their remaining time from slot `i` on. */
  function Others(ts: seq<Task>, t: int, i: int): int
    requires 1 <= i <= |ts|
    decreases |ts| - i
  {
    if i == |ts| then 0 else (if i == t || !ts[i].present then 0 else ts[i].counter) + Others(ts, t, i + 1)
  }

  lemma {:induction false} OthersAt(ts: seq<Task>, us: seq<Task>, t: int, i: int, k: int)
    requires 1 <= i <= |ts| && |us| == |ts| && 1 <= k < |ts|
    requires forall j :: 0 <= j < |ts| && j != k ==> us[j] == ts[j]
    ensures Others(us, t, i) == Others(ts, t, i) +
      if k < i || k == t then 0
        else (if us[k].present then us[k].counter else 0) - (if ts[k].present then ts[k].counter else 0)
    decreases |ts| - i
  {
    if i < |ts| { OthersAt(ts, us, t, i + 1, k); }
  }

  lemma {:induction false} OthersPositive(ts: seq<Task>, t: int, i: int)
    requires 1 <= i <= |ts| && forall j :: 1 <= j < |ts| && ts[j].present ==> ts[j].counter >= 0
    ensures Others(ts, t, i) >= 0
    ensures Others(ts, t, i) == 0 ==> forall j :: i <= j < |ts| && ts[j].present && j != t ==> ts[j].counter == 0
    decreases |ts| - i
  {
    if i < |ts| { OthersPositive(ts, t, i + 1); }
  }

  /** Task `t` waits for the processor with time left. */
  ghost predicate Waiting(m: Cpu, t: int) {
    && Table(m.ts) && 0 <= m.current < NR_TASKS && 1 <= t < NR_TASKS && m.current != t
    && (m.current != 0 ==> m.ts[m.current].present)
    && Ready(m.ts[t]) && m.ts[t].counter > 0
  }

  /** A tick that takes time from a task. */
  predicate Charged(m: Cpu, e: Event)
    requires |m.ts| == NR_TASKS && 0 <= m.current < NR_TASKS
  {
    e == Tick && m.current != 0 && m.ts[m.current].counter > 0
  }

  /** While `t` waits nothing is recharged: every step leaves its slice alone and takes a charged tick
      from the time of the others. */
  lemma WaitingStep(m: Cpu, t: int, e: Event)
    requires Waiting(m, t) && e != Sleep(t)
    ensures var n := Step(m, e);
      && (n.current != t ==> Waiting(n, t) && n.ts[t].counter == m.ts[t].counter)
      && Others(n.ts, t, 1) == Others(m.ts, t, 1) - if Charged(m, e) then 1 else 0
  {
    PickIsLargest(m.ts, 1);
    match e
    case Tick => if m.current != 0 { OthersAt(m.ts, Step(m, e).ts, t, 1, m.current); }
      else { IdleApart(m.ts, Step(m, e).ts, t, 1); }
    case Switch =>
    case Sleep(i) => if 1 <= i < NR_TASKS { OthersAt(m.ts, Step(m, e).ts, t, 1, i); }
    case Wake(i) => if 1 <= i < NR_TASKS { OthersAt(m.ts, Step(m, e).ts, t, 1, i); }
  }

  lemma {:induction false} IdleApart(ts: seq<Task>, us: seq<Task>, t: int, i: int)
    requires 1 <= i <= |ts| == |us| && forall j :: 1 <= j < |ts| ==> us[j] == ts[j]
    ensures Others(us, t, i) == Others(ts, t, i)
    decreases |ts| - i
  {
    if i < |ts| { IdleApart(ts, us, t, i + 1); }
  }

  ghost predicate StaysWaiting(m: Cpu, t: int, es: seq<Event>)
    decreases |es|
  {
    Waiting(m, t) && (es == [] || (es[0] != Sleep(t) && StaysWaiting(Step(m, es[0]), t, es[1..])))
  }

  function ChargedTicks(m: Cpu, es: seq<Event>): nat
    requires |m.ts| == NR_TASKS && 0 <= m.current < NR_TASKS
    decreases |es|
  {
    if es == [] then 0
    else
      var n := Step(m, es[0]);
      (if Charged(m, es[0]) then 1 else 0) +
      if |n.ts| == NR_TASKS && 0 <= n.current < NR_TASKS then ChargedTicks(n, es[1..]) else 0
  }

  function Last(m: Cpu, es: seq<Event>): Cpu
    requires |m.ts| == NR_TASKS && 0 <= m.current < NR_TASKS
    decreases |es|
  {
    if es == [] then m
    else
      var n := Step(m, es[0]);
      if |n.ts| == NR_TASKS && 0 <= n.current < NR_TASKS then Last(n, es[1..]) else n
  }

  /** A ready task with time left waits for no more charged ticks than the others had left; once they
      are used up, the next call of schedule chooses it. */
  lemma {:induction false} NoStarvation(m: Cpu, t: int, es: seq<Event>)
    requires StaysWaiting(m, t, es)
    ensures var z := Last(m, es);
      && Waiting(z, t) && z.ts[t].counter == m.ts[t].counter
      && ChargedTicks(m, es) == Others(m.ts, t, 1) - Others(z.ts, t, 1) <= Others(m.ts, t, 1)
      && (ChargedTicks(m, es) == Others(m.ts, t, 1) ==> Schedule(z.ts) == (z.ts, t))
    decreases |es|
  {
    if es == [] {
      OthersPositive(m.ts, t, 1);
      PickIsLargest(m.ts, 1);
    } else {
      WaitingStep(m, t, es[0]);
      NoStarvation(Step(m, es[0]), t, es[1..]);
    }
  }
}
