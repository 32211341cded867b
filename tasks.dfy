/** The task record of the study planner and the pure operations on the
    task collection: the overdue test, `find` by id, the completion flip
    and the removal by id. Times are integer milliseconds since the epoch;
    ids are creation times and may repeat. */
module Tasks {
  import opened Seqs

  datatype Option<T> = None | Some(value: T)

  datatype Priority = Low | Medium | High

  datatype Task = Task(
    id: int,              // Date.now() at creation
    title: string,
    description: string,
    subject: string,
    due: int,             // due date and time, in milliseconds
    priority: Priority,
    duration: string,     // the form's duration field, carried as entered
    completed: bool,
    createdAt: int,
    reminded: bool,       // the 5-minute notice has fired
    buzzerPlayed: bool    // the overdue alert has fired
  )

  /** The task built by the add form at time `now`: incomplete, no alert fired yet. */
  function NewTask(now: int, title: string, description: string, subject: string,
                   due: int, priority: Priority, duration: string): (t: Task)
    ensures t.id == now && t.createdAt == now && t.due == due && t.title == title
    ensures !t.completed && !t.reminded && !t.buzzerPlayed
  {
    Task(now, title, description, subject, due, priority, duration, false, now, false, false)
  }

  /** Overdue: a completed task never is; an incomplete one is from the moment its
      due time has passed, and not at the due time itself. */
  predicate IsOverdue(t: Task, now: int): (b: bool)
    ensures t.completed ==> !b
    ensures b ==> t.due < now
    ensures !t.completed && t.due < now ==> b
  {
    !t.completed && t.due < now
  }

  /** An overdue task stays overdue as the clock advances, until it is completed;
      completing it clears the state. */
  lemma OverdueLater(t: Task, now: int, later: int)
    requires IsOverdue(t, now) && now <= later
    ensures IsOverdue(t, later)
    ensures !IsOverdue(Flip(t), later)
  {
  }

  /** The index of the first task with the given id, as `Array.prototype.find` locates it. */
  function FirstIndex(s: seq<Task>, id: int): (r: Option<nat>)
    ensures r.Some? ==> r.value < |s| && s[r.value].id == id
                        && forall j :: 0 <= j < r.value ==> s[j].id != id
    ensures r.None? ==> forall j :: 0 <= j < |s| ==> s[j].id != id
  {
    if s == [] then None
    else if s[0].id == id then Some(0)
    else match FirstIndex(s[1..], id)
      case None => None
      case Some(i) => Some(i + 1)
  }

  /** `t` with its completion flag inverted. */
  function Flip(t: Task): Task
  {
    t.(completed := !t.completed)
  }

  /** The collection after toggling the task `id`. Only `completed` of the first task
      with the id flips: every other field of that task, and every other task, stay
      as they were. An unknown id leaves the collection unchanged. */
  function ToggleFirst(s: seq<Task>, id: int): (r: seq<Task>)
    ensures |r| == |s|
    ensures (forall j :: 0 <= j < |s| ==> s[j].id != id) ==> r == s
    ensures forall k :: 0 <= k < |s| && s[k].id == id && (forall j :: 0 <= j < k ==> s[j].id != id) ==>
      r[k].completed == !s[k].completed
      && r[k] == s[k].(completed := r[k].completed)
      && forall j :: 0 <= j < |s| && j != k ==> r[j] == s[j]
  {
    match FirstIndex(s, id)
    case None => s
    case Some(i) => s[i := Flip(s[i])]
  }

  /** The collection after deleting `id`: no task with the id is left, every task
      with another id is kept, and the kept tasks keep their relative order. */
  function RemoveId(s: seq<Task>, id: int): (r: seq<Task>)
    ensures forall t :: t in r ==> t.id != id
    ensures forall t :: t in s && t.id != id ==> t in r
    ensures IsSubsequence(r, s)
  {
    FilterMembers(s, OtherId(id));
    FilterIsSubsequence(s, OtherId(id));
    Filter(s, OtherId(id))
  }

  /** The tasks carrying `id`. */
  function WithId(s: seq<Task>, id: int): seq<Task>
  {
    Filter(s, SameId(id))
  }

  function SameId(id: int): Task -> bool { (t: Task) => t.id == id }

  function OtherId(id: int): Task -> bool { (t: Task) => t.id != id }

  /** Toggling the same id twice restores the collection. */
  lemma ToggleTwice(s: seq<Task>, id: int)
    ensures ToggleFirst(ToggleFirst(s, id), id) == s
  {
  }

  /** Deleting shortens the collection by exactly the number of tasks with the id,
      and the kept and the removed tasks together are the original collection. */
  lemma RemoveIdSpec(s: seq<Task>, id: int)
    ensures var r := RemoveId(s, id);
      && |r| == |s| - |WithId(s, id)|
      && multiset(r) + multiset(WithId(s, id)) == multiset(s)
  {
    FilterSplitId(s, id);
  }

  lemma {:induction false} FilterSplitId(s: seq<Task>, id: int)
    ensures multiset(RemoveId(s, id)) + multiset(WithId(s, id)) == multiset(s)
    ensures |RemoveId(s, id)| + |WithId(s, id)| == |s|
  {
    if s != [] {
      var x, rest := s[0], s[1..];
      FilterSplitId(rest, id);
      assert s == [x] + rest;
      if x.id == id {
        assert RemoveId(s, id) == RemoveId(rest, id) && WithId(s, id) == [x] + WithId(rest, id);
      } else {
        assert RemoveId(s, id) == [x] + RemoveId(rest, id) && WithId(s, id) == WithId(rest, id);
      }
    }
  }
}
