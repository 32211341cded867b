/** The views derived from the task collection: the four list filters,
    the ascending sort by due time, the day timeline, and the statistics
    panel (counts and rounded progress percentage). */
module Views {
  import opened Seqs
  import opened Tasks

  datatype FilterMode = All | Pending | Completed | Overdue

  /** Pending for the list filter: not completed and not overdue. */
  predicate IsPendingNow(t: Task, now: int)
  {
    !t.completed && !IsOverdue(t, now)
  }

  function PendingAt(now: int): Task -> bool { (t: Task) => IsPendingNow(t, now) }

  function CompletedP(): Task -> bool { (t: Task) => t.completed }

  function OverdueAt(now: int): Task -> bool { (t: Task) => IsOverdue(t, now) }

  /** Whether a filter lets a task through: `Pending` takes the incomplete tasks
      not yet past due, `Completed` the completed ones, `Overdue` the incomplete
      ones past due, and `All` every task. */
  predicate Shown(t: Task, mode: FilterMode, now: int)
  {
    match mode
    case All => true
    case Pending => !t.completed && t.due >= now
    case Completed => t.completed
    case Overdue => !t.completed && t.due < now
  }

  /** The list the chosen filter shows, before sorting: the collection itself under
      `All`, otherwise exactly its tasks the filter lets through. */
  function Select(s: seq<Task>, mode: FilterMode, now: int): (r: seq<Task>)
    ensures mode == All ==> r == s
    ensures forall t :: t in r <==> t in s && Shown(t, mode, now)
  {
    FilterMembers(s, PendingAt(now));
    FilterMembers(s, CompletedP());
    FilterMembers(s, OverdueAt(now));
    match mode
    case Pending => Filter(s, PendingAt(now))
    case Completed => Filter(s, CompletedP())
    case Overdue => Filter(s, OverdueAt(now))
    case All => s
  }

  /** Every task falls under exactly one of the pending, completed and overdue filters. */
  lemma ModeExclusive(t: Task, now: int)
    ensures IsPendingNow(t, now) || t.completed || IsOverdue(t, now)
    ensures !(IsPendingNow(t, now) && t.completed)
    ensures !(IsPendingNow(t, now) && IsOverdue(t, now))
    ensures !(t.completed && IsOverdue(t, now))
  {
  }

  /** The pending, completed and overdue lists together hold every task of the
      collection exactly as often as it occurs there. */
  lemma FiltersCover(s: seq<Task>, now: int)
    ensures multiset(Select(s, Pending, now)) + multiset(Select(s, Completed, now))
            + multiset(Select(s, Overdue, now)) == multiset(s)
    ensures |Select(s, Pending, now)| + |Select(s, Completed, now)| + |Select(s, Overdue, now)| == |s|
  {
    FiltersCoverBag(s, now);
    assert |multiset(s)| == |s|;
  }

  lemma {:induction false} FiltersCoverBag(s: seq<Task>, now: int)
    ensures multiset(Select(s, Pending, now)) + multiset(Select(s, Completed, now))
            + multiset(Select(s, Overdue, now)) == multiset(s)
  {
    if s != [] {
      var x, rest := s[0], s[1..];
      FiltersCoverBag(rest, now);
      assert multiset(s) == multiset{x} + multiset(rest) by {
        assert s == [x] + rest;
      }
      var p, c, o := Select(rest, Pending, now), Select(rest, Completed, now), Select(rest, Overdue, now);
      if x.completed {
        assert Select(s, Completed, now) == [x] + c;
        assert multiset([x] + c) == multiset{x} + multiset(c);
      } else if IsOverdue(x, now) {
        assert Select(s, Overdue, now) == [x] + o;
        assert multiset([x] + o) == multiset{x} + multiset(o);
      } else {
        assert Select(s, Pending, now) == [x] + p;
        assert multiset([x] + p) == multiset{x} + multiset(p);
      }
    }
  }

  /** No task is listed under two of the pending, completed and overdue filters,
      and each of these lists keeps the collection's relative order. */
  lemma FiltersDisjointOrdered(s: seq<Task>, now: int)
    ensures forall t :: t in Select(s, Pending, now) ==> t !in Select(s, Completed, now) && t !in Select(s, Overdue, now)
    ensures forall t :: t in Select(s, Completed, now) ==> t !in Select(s, Overdue, now)
    ensures IsSubsequence(Select(s, Pending, now), s)
    ensures IsSubsequence(Select(s, Completed, now), s)
    ensures IsSubsequence(Select(s, Overdue, now), s)
  {
    FilterMembers(s, PendingAt(now));
    FilterMembers(s, CompletedP());
    FilterMembers(s, OverdueAt(now));
    FilterIsSubsequence(s, PendingAt(now));
    FilterIsSubsequence(s, CompletedP());
    FilterIsSubsequence(s, OverdueAt(now));
  }

  // ---------------------------------------------------------------------------
  // Sorting by due time. The source sorts with the comparator `a.due - b.due`;
  // Array.prototype.sort is stable, so tasks with equal due times keep their order.

  predicate SortedByDue(s: seq<Task>)
  {
    forall i, j :: 0 <= i < j < |s| ==> s[i].due <= s[j].due
  }

  /** `x` inserted before the first task of `r` due no earlier than it. */
  function Insert(x: Task, r: seq<Task>): (q: seq<Task>)
    ensures |q| == |r| + 1
    ensures multiset(q) == multiset(r) + multiset{x}
  {
    if r == [] || x.due <= r[0].due then [x] + r
    else
      assert r == [r[0]] + r[1..];
      [r[0]] + Insert(x, r[1..])
  }

  lemma {:induction false} InsertSorted(x: Task, r: seq<Task>)
    requires SortedByDue(r)
    ensures SortedByDue(Insert(x, r))
  {
    if r != [] && x.due > r[0].due {
      InsertSorted(x, r[1..]);
      var q := Insert(x, r[1..]);
      forall k | 0 <= k < |q|
        ensures r[0].due <= q[k].due
      {
        assert q[k] in multiset(r[1..]) + multiset{x};
      }
    }
  }

  /** A stable ascending sort by due time (insertion sort). */
  function SortByDue(s: seq<Task>): (r: seq<Task>)
    ensures |r| == |s|
    ensures SortedByDue(r)
    ensures multiset(r) == multiset(s)
  {
    if s == [] then []
    else
      assert s == [s[0]] + s[1..];
      InsertSorted(s[0], SortByDue(s[1..]));
      Insert(s[0], SortByDue(s[1..]))
  }

  lemma SortKeepsMembers(s: seq<Task>)
    ensures forall t :: t in SortByDue(s) <==> t in s
  {
    var r := SortByDue(s);
    forall t
      ensures t in r <==> t in s
    {
      assert t in r <==> t in multiset(r);
      assert t in s <==> t in multiset(s);
    }
  }

  /** Sorting a list already in due order changes nothing, so rendering the `All`
      view again leaves the collection where the previous render put it. */
  lemma {:induction false} SortSortedIsIdentity(s: seq<Task>)
    requires SortedByDue(s)
    ensures SortByDue(s) == s
  {
    if s != [] {
      SortSortedIsIdentity(s[1..]);
      assert s == [s[0]] + s[1..];
    }
  }

  lemma SortIdempotent(s: seq<Task>)
    ensures SortByDue(SortByDue(s)) == SortByDue(s)
  {
    SortSortedIsIdentity(SortByDue(s));
  }

  /** The tasks of `s` due exactly at `d`, in order. */
  function DueAt(s: seq<Task>, d: int): seq<Task>
  {
    Filter(s, (t: Task) => t.due == d)
  }

  lemma {:induction false} InsertDueAt(x: Task, r: seq<Task>, d: int)
    requires SortedByDue(r)
    ensures DueAt(Insert(x, r), d) == (if x.due == d then [x] else []) + DueAt(r, d)
  {
    if r == [] || x.due <= r[0].due {
      assert [x] + r == [x] + r[0..];
    } else {
      InsertDueAt(x, r[1..], d);
      assert Insert(x, r) == [r[0]] + Insert(x, r[1..]);
      assert r == [r[0]] + r[1..];
      if x.due == d {
        assert r[0].due < d;
      }
    }
  }

  /** Stability: for every due time, the tasks due then appear in the sorted list
      in the same relative order as in the input. */
  lemma {:induction false} SortStable(s: seq<Task>, d: int)
    ensures DueAt(SortByDue(s), d) == DueAt(s, d)
  {
    if s != [] {
      var rest := SortByDue(s[1..]);
      SortStable(s[1..], d);
      InsertDueAt(s[0], rest, d);
      assert SortByDue(s) == Insert(s[0], rest);
      assert DueAt(s, d) == (if s[0].due == d then [s[0]] else []) + DueAt(s[1..], d);
    }
  }

  /** The list view: the selected tasks sorted by due time. An empty selection is
      shown as the empty state without being sorted. */
  function ListView(s: seq<Task>, mode: FilterMode, now: int): (r: seq<Task>)
    ensures SortedByDue(r)
    ensures multiset(r) == multiset(Select(s, mode, now))
  {
    var filtered := Select(s, mode, now);
    if |filtered| == 0 then filtered else SortByDue(filtered)
  }

  /** What the list view shows for a filter, stated against the filters' meaning. */
  lemma ListViewContents(s: seq<Task>, mode: FilterMode, now: int, t: Task)
    ensures t in ListView(s, mode, now) <==> t in s && Shown(t, mode, now)
  {
    assert t in ListView(s, mode, now) <==> t in multiset(ListView(s, mode, now));
  }

  /** The collection after the list is rendered. Under `All` the filter hands back
      the stored array itself and the render sorts it in place, so the collection
      becomes its own stable sort; under the other filters it is left alone. */
  function Rendered(s: seq<Task>, mode: FilterMode): (r: seq<Task>)
    ensures multiset(r) == multiset(s) && |r| == |s|
    ensures mode != All ==> r == s
    ensures mode == All ==> SortedByDue(r)
  {
    if mode == All then SortByDue(s) else s
  }

  // ---------------------------------------------------------------------------
  // Timeline: today's incomplete tasks, sorted by due time. `dayOf` maps a
  // timestamp to its local calendar day (the source truncates to local midnight).

  function TodayAt(now: int, dayOf: int -> int): Task -> bool
  {
    (t: Task) => dayOf(t.due) == dayOf(now) && !t.completed
  }

  function Timeline(s: seq<Task>, now: int, dayOf: int -> int): (r: seq<Task>)
    ensures SortedByDue(r)
    ensures forall t :: t in r <==> t in s && !t.completed && dayOf(t.due) == dayOf(now)
    ensures multiset(r) == multiset(Filter(s, TodayAt(now, dayOf)))
  {
    var today := Filter(s, TodayAt(now, dayOf));
    FilterMembers(s, TodayAt(now, dayOf));
    SortKeepsMembers(today);
    if |today| == 0 then today else SortByDue(today)
  }

  // ---------------------------------------------------------------------------
  // Statistics panel.

  datatype Stats = Stats(total: nat, completed: nat, pending: nat, progress: nat)

  /** completed / total * 100 rounded half up, 0 for an empty collection. */
  function Progress(completed: nat, total: nat): (p: nat)
    requires completed <= total
    ensures p <= 100
    ensures total == 0 ==> p == 0
    ensures total > 0 ==> 200 * completed - total < 2 * p * total <= 200 * completed + total
  {
    if total > 0 then
      var p := HalfUp(100 * completed, total);
      MulLeCancel(2 * p, 201, total);
      p
    else 0
  }

  /** `n / d` rounded to the nearest integer, halves rounded up. */
  function HalfUp(n: nat, d: nat): (q: nat)
    requires d > 0
    ensures 2 * n - d < 2 * q * d <= 2 * n + d
  {
    var q := (2 * n + d) / (2 * d);
    DivBounds(2 * n + d, 2 * d);
    assert q * (2 * d) == 2 * q * d;
    q
  }

  lemma DivBounds(a: nat, b: nat)
    requires b > 0
    ensures (a / b) * b <= a < (a / b) * b + b
  {
  }

  function NotCompleted(): Task -> bool { (t: Task) => !t.completed }

  /** Completed plus not-completed tasks account for the whole collection. */
  lemma {:induction false} CountsAddUp(s: seq<Task>)
    ensures |Filter(s, CompletedP())| + |Filter(s, NotCompleted())| == |s|
  {
    if s != [] {
      CountsAddUp(s[1..]);
    }
  }

  /** The statistics panel: total, completed, not completed, and the progress percentage. */
  function StatsOf(s: seq<Task>): (st: Stats)
    ensures st.total == |s|
    ensures st.completed + st.pending == st.total
    ensures st.progress <= 100
    ensures st.total == 0 ==> st.progress == 0
    ensures st.total > 0 ==> 200 * st.completed - st.total < 2 * st.progress * st.total <= 200 * st.completed + st.total
  {
    CountsAddUp(s);
    var c := |Filter(s, CompletedP())|;
    Stats(|s|, c, |Filter(s, NotCompleted())|, Progress(c, |s|))
  }

  /** The completed statistic is the size of the completed list, and the pending
      statistic the number of incomplete tasks. */
  lemma StatsCounts(s: seq<Task>, now: int)
    ensures StatsOf(s).completed == |Select(s, Completed, now)|
    ensures StatsOf(s).pending == |Filter(s, NotCompleted())|
  {
  }

  /** A non-empty collection whose tasks are all completed shows 100%. */
  lemma AllDoneIsFull(s: seq<Task>)
    requires s != [] && forall t :: t in s ==> t.completed
    ensures StatsOf(s).progress == 100
  {
    AllKept(s, CompletedP());
    var n := |s|;
    ProgressPoints(n);
    assert StatsOf(s) == Stats(n, n, |Filter(s, NotCompleted())|, Progress(n, n));
  }

  /** A collection with no completed task shows 0%. */
  lemma NoneDoneIsEmpty(s: seq<Task>)
    requires forall t :: t in s ==> !t.completed
    ensures StatsOf(s).progress == 0
  {
    NoneKept(s, CompletedP());
    if s != [] {
      ProgressPoints(|s|);
    }
    assert StatsOf(s) == Stats(|s|, 0, |Filter(s, NotCompleted())|, Progress(0, |s|));
  }

  /** The pending statistic counts overdue tasks too: it is the size of the pending
      list plus the size of the overdue list. */
  lemma {:induction false} PendingStatSplits(s: seq<Task>, now: int)
    ensures StatsOf(s).pending == |Select(s, Pending, now)| + |Select(s, Overdue, now)|
  {
    PendingSplits(s, now);
  }

  lemma {:induction false} PendingSplits(s: seq<Task>, now: int)
    ensures |Filter(s, NotCompleted())| == |Filter(s, PendingAt(now))| + |Filter(s, OverdueAt(now))|
  {
    if s != [] {
      PendingSplits(s[1..], now);
    }
  }

  /** A fully completed collection shows 100%, an empty one 0%, three of four 75%.
      Because of rounding, 199 completed of 200 also shows 100%. */
  lemma ProgressPoints(n: nat)
    requires n > 0
    ensures Progress(n, n) == 100
    ensures Progress(0, n) == 0
    ensures Progress(0, 0) == 0
    ensures Progress(3, 4) == 75
    ensures Progress(199, 200) == 100
  {
    MulLtCancel(199, 2 * Progress(n, n), n);
  }

  lemma MulLeCancel(a: int, b: int, n: int)
    requires n > 0 && a * n <= b * n
    ensures a <= b
  {
  }

  lemma MulLtCancel(a: int, b: int, n: int)
    requires n > 0 && a * n < b * n
    ensures a < b
  {
  }

  /** A task just added with a due time not yet passed shows under `All` and
      `Pending`, never under `Completed` or `Overdue`; alone in the collection it
      gives total 1, pending 1, progress 0. */
  lemma NewTaskViews(s: seq<Task>, now: int, title: string, description: string, subject: string,
                     due: int, priority: Priority, duration: string)
    requires due >= now
    ensures var t := NewTask(now, title, description, subject, due, priority, duration);
      && t in ListView(s + [t], All, now) && t in ListView(s + [t], Pending, now)
      && t !in ListView(s + [t], Completed, now) && t !in ListView(s + [t], Overdue, now)
      && StatsOf([t]) == Stats(1, 0, 1, 0)
  {
    var t := NewTask(now, title, description, subject, due, priority, duration);
    assert t in s + [t];
    ListViewContents(s + [t], All, now, t);
    ListViewContents(s + [t], Pending, now, t);
    ListViewContents(s + [t], Completed, now, t);
    ListViewContents(s + [t], Overdue, now, t);
  }

  /** Deleting the only task leaves empty statistics. */
  lemma DeleteOnlyTask(t: Task)
    ensures RemoveId([t], t.id) == []
    ensures StatsOf(RemoveId([t], t.id)) == Stats(0, 0, 0, 0)
  {
  }
}
