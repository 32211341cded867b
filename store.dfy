/** The application state of the study planner: the in-memory task list,
    the selected list filter, and the copy last written to the key-value
    store. Each user action mutates the list, saves it, and re-renders; the
    periodic sweep sets reminder flags and saves after each one. */
module Store {
  import opened Tasks
  import opened Views
  import opened Reminders

  class TaskStore {
    var tasks: seq<Task>
    var currentFilter: FilterMode
    /** The serialized list held by the key-value store; None when there is no entry. */
    var persisted: Option<seq<Task>>

    /** Start-up: load the stored list (an empty one when there is no entry) and
        render it under the initial `All` filter, which sorts it in memory. */
    constructor Init(stored: Option<seq<Task>>, now: int)
      ensures currentFilter == All && persisted == stored
      ensures tasks == SortByDue(match stored case Some(s) => s case None => [])
    {
      tasks := match stored case Some(s) => s case None => [];
      currentFilter := All;
      persisted := stored;
      new;
      var _ := RenderTasks(now);
    }

    /** Write the whole list to the key-value store. */
    method Save()
      modifies this`persisted
      ensures persisted == Some(tasks)
    {
      persisted := Some(tasks);
    }

    /** The task list view for the current filter, sorted by due time. Under `All`
        the sort happens on the stored list itself. */
    method RenderTasks(now: int) returns (view: seq<Task>)
      modifies this`tasks
      ensures view == ListView(old(tasks), currentFilter, now)
      ensures tasks == Rendered(old(tasks), currentFilter)
      ensures currentFilter == All ==> tasks == view
    {
      var filtered := Select(tasks, currentFilter, now);
      if |filtered| == 0 {
        return filtered;
      }
      filtered := SortByDue(filtered);
      if currentFilter == All {
        tasks := filtered;
      }
      view := filtered;
    }

    /** Choose a list filter and show it. */
    method ChooseFilter(mode: FilterMode, now: int) returns (view: seq<Task>)
      modifies this`tasks, this`currentFilter
      ensures currentFilter == mode
      ensures view == ListView(old(tasks), mode, now)
      ensures tasks == Rendered(old(tasks), mode)
    {
      currentFilter := mode;
      view := RenderTasks(now);
    }

    /** Append a new task built at time `now`, save, and re-render. The saved list is
        the old one with the new task last; in memory the render may reorder it. */
    method Add(now: int, title: string, description: string, subject: string,
               due: int, priority: Priority, duration: string)
      modifies this`tasks, this`persisted
      ensures persisted == Some(old(tasks) + [NewTask(now, title, description, subject, due, priority, duration)])
      ensures tasks == Rendered(old(tasks) + [NewTask(now, title, description, subject, due, priority, duration)], currentFilter)
    {
      tasks := tasks + [NewTask(now, title, description, subject, due, priority, duration)];
      Save();
      var _ := RenderTasks(now);
    }

    /** Flip `completed` on the first task with this id, save and re-render; an unknown
        id does nothing. `celebrate` tells whether the task is now completed (the
        "task completed" notice). */
    method Toggle(id: int, now: int) returns (celebrate: bool)
      modifies this`tasks, this`persisted
      ensures FirstIndex(old(tasks), id).None? ==>
        tasks == old(tasks) && persisted == old(persisted) && !celebrate
      ensures FirstIndex(old(tasks), id).Some? ==>
        persisted == Some(ToggleFirst(old(tasks), id))
        && tasks == Rendered(ToggleFirst(old(tasks), id), currentFilter)
        && celebrate == !old(tasks)[FirstIndex(old(tasks), id).value].completed
    {
      match FirstIndex(tasks, id)
      case None =>
        celebrate := false;
      case Some(i) =>
        var flipped := Flip(tasks[i]);
        tasks := tasks[i := flipped];
        Save();
        var _ := RenderTasks(now);
        celebrate := flipped.completed;
    }

    /** Delete every task with this id once the user has confirmed, save and
        re-render; without confirmation nothing happens. */
    method Delete(id: int, confirmed: bool, now: int) returns (deleted: bool)
      modifies this`tasks, this`persisted
      ensures deleted == confirmed
      ensures !confirmed ==> tasks == old(tasks) && persisted == old(persisted)
      ensures confirmed ==> persisted == Some(RemoveId(old(tasks), id))
                            && tasks == Rendered(RemoveId(old(tasks), id), currentFilter)
    {
      deleted := confirmed;
      if confirmed {
        tasks := RemoveId(tasks, id);
        Save();
        var _ := RenderTasks(now);
      }
    }

    /** The statistics panel for the current list. */
    method UpdateStats() returns (st: Stats)
      ensures st.total == |tasks| && st.completed + st.pending == st.total
      ensures st.progress <= 100 && (st.total == 0 ==> st.progress == 0)
      ensures st == StatsOf(tasks)
      ensures st.completed == |Select(tasks, Completed, 0)|
      ensures tasks != [] && (forall t :: t in tasks ==> t.completed) ==> st.progress == 100
    {
      StatsCounts(tasks, 0);
      if tasks != [] && forall t :: t in tasks ==> t.completed {
        AllDoneIsFull(tasks);
      }
      st := StatsOf(tasks);
    }

    /** Today's incomplete tasks in due order; the stored list is not touched. */
    method RenderTimeline(now: int, dayOf: int -> int) returns (view: seq<Task>)
      ensures SortedByDue(view)
      ensures forall t :: t in view <==> t in tasks && !t.completed && dayOf(t.due) == dayOf(now)
      ensures view == Timeline(tasks, now, dayOf)
    {
      view := Timeline(tasks, now, dayOf);
    }

    /** One reminder sweep at time `now`: walk the list in order and handle each task. */
    method CheckReminders(now: int) returns (events: seq<Event>)
      modifies this`tasks, this`persisted
      ensures tasks == SweepAll(old(tasks), now)
      ensures events == SweepEvents(old(tasks), now)
      ensures forall t :: Reminder(t) in events <==>
        t in old(tasks) && !t.completed && !t.reminded && 240000 < t.due - now <= 300000
      ensures forall t :: Buzzer(t) in events <==>
        t in old(tasks) && !t.completed && !t.reminded && !t.buzzerPlayed && -60000 < t.due - now < 0
      ensures events == [] ==> persisted == old(persisted)
      ensures events != [] ==> persisted == Some(tasks)
    {
      ghost var start := tasks;
      events := [];
      var i := 0;
      while i < |tasks|
        invariant 0 <= i <= |tasks| == |start|
        invariant tasks == SweepAll(start[..i], now) + start[i..]
        invariant events == SweepEvents(start[..i], now)
        invariant events == [] ==> persisted == old(persisted)
        invariant events != [] ==> persisted == Some(tasks)
      {
        SweepInPlace(start, i, now, tasks);
        SweepStep(start, i, now);
        var fired := CheckTask(i, now);
        events := events + fired;
        i := i + 1;
      }
      assert start[..i] == start;
      SweepNotices(start, now);
    }

    /** The sweep's work on the task at index `i`: the 5-minute notice, then the
        overdue buzzer, both under the "incomplete and not yet reminded" guard;
        each flag set is saved straight away. */
    method CheckTask(i: nat, now: int) returns (fired: seq<Event>)
      requires i < |tasks|
      modifies this`tasks, this`persisted
      ensures tasks == old(tasks)[i := SweepTask(old(tasks)[i], now)]
      ensures fired == TaskEvents(old(tasks)[i], now)
      ensures fired == [] ==> tasks == old(tasks) && persisted == old(persisted)
      ensures fired != [] ==> persisted == Some(tasks)
    {
      fired := [];
      var t := tasks[i];
      if !t.completed && !t.reminded {
        var diff := t.due - now;
        if diff > 0 && diff <= RemindBy && diff > RemindAfter {
          fired := fired + [Reminder(t)];
          tasks := tasks[i := tasks[i].(reminded := true)];
          Save();
        }
        if diff < 0 && diff > -BuzzWithin && !tasks[i].buzzerPlayed {
          fired := fired + [Buzzer(t)];
          tasks := tasks[i := tasks[i].(buzzerPlayed := true)];
          Save();
        }
      }
    }
  }
}
