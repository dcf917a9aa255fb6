/** The variables of scheduler_up.c and the functions that update them. */
module UpKernel {
  import opened Wrappers
  import opened Bits
  import opened ReadyTable
  import opened Up = UpScheduler

  class Kernel {
    var threads: seq<Up.Thread>
    var table: Table
    var current: Tid
    var lockNest: int

    ghost function Snapshot(): Up.State
      reads this
    {
      Up.State(threads, table, current, lockNest)
    }

    /** rt_schedule_insert_thread */
    method InsertThread(t: Tid)
      requires t < |threads| && threads[t].priority < |table.lists|
      modifies this`threads, this`table
      ensures Snapshot() == if t == current then old(Snapshot()).(threads := old(threads)[t := old(threads)[t].(stat := Up.Running)])
                            else InsertReady(old(Snapshot()), t)
    {
      var th := threads[t];
      if t == current {
        threads := threads[t := th.(stat := Up.Running)];
        return;
      }
      threads := threads[t := th.(stat := Up.Ready)];
      var list := table.lists[th.priority];
      var longer := if th.yielded then list + [t] else [t] + list;
      table := Table(Or(table.group, Pow2(th.priority)), table.lists[th.priority := longer]);
    }

    /** rt_schedule_remove_thread */
    method RemoveThread(t: Tid)
      requires t < |threads| && threads[t].priority < |table.lists|
      modifies this`table
      ensures table == Remove(old(table), t, threads[t].priority)
    {
      var p := threads[t].priority;
      var lists := table.lists[p := Without(table.lists[p], t)];
      if lists[p] == [] {
        table := Table(AndNot(table.group, Pow2(p)), lists);
      } else {
        table := Table(table.group, lists);
      }
    }

    /** _scheduler_get_highest_priority_thread */
    method GetHighest() returns (to: Tid, h: nat)
      requires Inv(Snapshot()) && table.group != 0
      ensures (to, h) == Highest(Snapshot()) && IsHighest(Snapshot(), to, h)
    {
      HighestFound(Snapshot());
      h := Ffs(table.group) - 1;
      to := table.lists[h][0];
    }

    method Switch(to: Tid, h: nat, needInsert: bool)
      requires Inv(Snapshot()) && IsHighest(Snapshot(), to, h) && (needInsert <==> threads[current].stat == Up.Running)
      modifies this`threads, this`table, this`current
      ensures to < |PutAway(old(Snapshot())).threads|
      ensures PutAway(old(Snapshot())).threads[to].priority < |PutAway(old(Snapshot())).table.lists|
      ensures Snapshot() == Up.TakeOut(PutAway(old(Snapshot())).(current := to), to, Up.Running)
    {
      PutAwayFiled(Snapshot());
      var from: Tid := current;
      current := to;
      if needInsert { InsertThread(from); }
      if threads[from].yielded { threads := threads[from := threads[from].(yielded := false)]; }
      assert threads == PutAway(old(Snapshot())).threads;
      RemoveThread(to);
      threads := threads[to := threads[to].(stat := Up.Running)];
    }

    /** rt_schedule */
    method Schedule()
      requires Inv(Snapshot())
      modifies this`threads, this`table, this`current
      ensures Inv(Snapshot()) && Snapshot() == Up.Schedule(old(Snapshot()))
    {
      ScheduleInv(Snapshot());
      if lockNest == 0 {
        if table.group != 0 {
          var to, h := GetHighest();
          var th := threads[current];
          var needInsert, stays := false, false;
          if th.stat == Up.Running {
            if th.priority < h {
              stays := true;
            } else if th.priority == h && !th.yielded {
              stays := true;
            } else {
              needInsert := true;
            }
          }
          if !stays {
            Switch(to, h, needInsert);
          } else {
            RemoveThread(current);
            threads := threads[current := threads[current].(stat := Up.Running)];
          }
        }
      }
    }

    /** RT_THREAD_CTRL_CHANGE_PRIORITY */
    method ChangePriority(t: Tid, p: nat)
      requires Inv(Snapshot()) && t < |threads| && p < PRIORITIES
      modifies this`threads, this`table
      ensures Inv(Snapshot()) && Snapshot() == Up.ChangePriority(old(Snapshot()), t, p)
    {
      PriorityInv(Snapshot(), t, p);
      if threads[t].stat == Up.Ready {
        RemoveThread(t);
        threads := threads[t := threads[t].(priority := p)];
        InsertThread(t);
      } else {
        threads := threads[t := threads[t].(priority := p)];
      }
    }

    /** rt_enter_critical */
    method EnterCritical()
      requires Inv(Snapshot())
      modifies this`lockNest
      ensures Inv(Snapshot()) && Snapshot() == Step(old(Snapshot()), Enter)
    {
      lockNest := lockNest + 1;
    }

    /** rt_exit_critical */
    method ExitCritical()
      requires Inv(Snapshot())
      modifies this
      ensures Inv(Snapshot()) && Snapshot() == Step(old(Snapshot()), Exit)
    {
      lockNest := lockNest - 1;
      if lockNest <= 0 {
        lockNest := 0;
        Schedule();
      }
    }

    /** rt_tick_increase, without the timer check */
    method TickIncrease()
      requires Inv(Snapshot())
      modifies this`threads, this`table, this`current
      ensures Inv(Snapshot()) && Snapshot() == Tick(old(Snapshot()))
    {
      TickInv(Snapshot());
      var th := threads[current];
      th := th.(remaining := th.remaining - 1);
      if th.remaining == 0 {
        th := th.(remaining := th.initTick, yielded := true);
        FiledSame(threads, table, current, th);
        threads := threads[current := th];
        Schedule();
      } else {
        threads := threads[current := th];
      }
    }
  }
}
