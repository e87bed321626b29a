/** The task table as schedule and do_timer of kernel/sched.c change it. */
module Scheduler {
  import opened Slices

  class Tasks {
    const present: array<bool>
    const running: array<bool>
    const counter: array<int>
    const priority: array<int>
    var current: int

    ghost predicate Valid()
      reads this, present, running, counter, priority
    {
      && present != running && counter != priority
      && present.Length == running.Length == counter.Length == priority.Length == NR_TASKS
      && 0 <= current < NR_TASKS && Table(Snap())
    }

    ghost function Snap(): (ts: seq<Task>)
      requires present.Length == running.Length == counter.Length == priority.Length == NR_TASKS
      reads present, running, counter, priority
      ensures |ts| == NR_TASKS
    {
      seq(NR_TASKS, i requires 0 <= i < NR_TASKS
        && present.Length == running.Length == counter.Length == priority.Length == NR_TASKS
                      reads present, running, counter, priority =>
        Task(present[i], running[i], counter[i], priority[i]))
    }

    /** The state before any task but the idle one is there. */
    constructor ()
      ensures Valid() && current == 0 && fresh(present) && fresh(running) && fresh(counter) && fresh(priority)
      ensures Snap() == seq(NR_TASKS, i => Task(i == 0, i == 0, if i == 0 then 15 else 0, if i == 0 then 15 else 0))
    {
      present := new bool[NR_TASKS](i => i == 0);
      running := new bool[NR_TASKS](i => i == 0);
      counter := new int[NR_TASKS](i => if i == 0 then 15 else 0);
      priority := new int[NR_TASKS](i => if i == 0 then 15 else 0);
      current := 0;
    }

    method Select() returns (c: int, next: int)
      requires Valid()
      ensures Pick(Snap(), 1) == Choice(c, next)
    {
      c, next := -1, 0;
      var i := NR_TASKS - 1;
      while i > 0
        invariant 0 <= i < NR_TASKS && Pick(Snap(), i + 1) == Choice(c, next)
      {
        if present[i] && running[i] && counter[i] > c {
          c, next := counter[i], i;
        }
        i := i - 1;
      }
    }

    method RechargeAll()
      requires Valid()
      modifies counter
      ensures Valid() && Snap() == Recharge(old(Snap()))
    {
      ghost var ts := Snap();
      RechargeKeeps(ts);
      var p := NR_TASKS - 1;
      while p > 0
        invariant 0 <= p < NR_TASKS
        invariant forall i :: 0 <= i <= p ==> counter[i] == old(counter[i])
        invariant forall i :: p < i < NR_TASKS ==> counter[i] == Refilled(ts[i]).counter
      {
        if present[p] {
          counter[p] := counter[p] / 2 + priority[p];
        }
        p := p - 1;
      }
      assert Snap() == Recharge(ts);
    }

    /** schedule after its look at signals and alarms. */
    method SwitchTasks()
      requires Valid()
      modifies this`current, counter
      ensures Valid() && (Snap(), current) == Schedule(old(Snap()))
    {
      ghost var ts := Snap();
      PickIsLargest(ts, 1);
      if Pick(ts, 1).c == 0 {
        OneRecharge(ts);
        PickIsLargest(Recharge(ts), 1);
      }
      hide Pick, Recharge;
      var c, next;
      while true
        invariant Valid() && (Snap() == ts || (Pick(ts, 1).c == 0 && Snap() == Recharge(ts)))
        decreases Pick(Snap(), 1).c == 0
        modifies counter
      {
        c, next := Select();
        if c != 0 {
          break;
        }
        RechargeAll();
      }
      current := next;
    }

    /** The end of do_timer; `again` says whether it calls schedule. */
    method TimerTick(cpl: int) returns (again: bool)
      requires Valid()
      modifies counter
      ensures Valid() && Snap() == Charge(old(Snap()), current)
      ensures counter[current] == if old(counter[current]) > 1 then old(counter[current]) - 1 else 0
      ensures again <==> counter[current] == 0 && cpl != 0
    {
      ghost var ts := Snap();
      counter[current] := counter[current] - 1;
      if counter[current] > 0 {
        assert Snap() == Charge(ts, current);
        return false;
      }
      counter[current] := 0;
      assert Snap() == Charge(ts, current);
      again := cpl != 0;
    }
  }
}
