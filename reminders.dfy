/** The reminder sweep run every 30 seconds: each incomplete task that has not
    had its reminder yet gets a "due in 5 minutes" notice when it is 4 to 5
    minutes before its due time, and an overdue alert (buzzer) within the first
    minute after it. Both flags are sticky. The buzzer test sits inside the same
    "not completed and not reminded" guard as the reminder test, so a task that
    has had its 5-minute notice never gets the buzzer. */
module Reminders {
  import opened Tasks

  /** Window of the 5-minute notice: 240000 < due - now <= 300000 (milliseconds). */
  const RemindAfter: int := 240000
  const RemindBy: int := 300000
  /** Window of the buzzer: -60000 < due - now < 0. */
  const BuzzWithin: int := 60000

  /** What a sweep announces: the notice before the due time, or the overdue alert. */
  datatype Event = Reminder(task: Task) | Buzzer(task: Task)

  /** One task after the sweep at `now`. Only the two flags can change, only from
      false to true, and each exactly under the conditions of its window. */
  function SweepTask(t: Task, now: int): (u: Task)
    ensures u == t.(reminded := u.reminded, buzzerPlayed := u.buzzerPlayed)
    ensures u.reminded <==> t.reminded || (!t.completed && 240000 < t.due - now <= 300000)
    ensures u.buzzerPlayed <==>
      t.buzzerPlayed || (!t.completed && !t.reminded && -60000 < t.due - now < 0)
  {
    if !t.completed && !t.reminded then
      var d := t.due - now;
      var t1 := if d > 0 && d <= RemindBy && d > RemindAfter then t.(reminded := true) else t;
      if d < 0 && d > -BuzzWithin && !t1.buzzerPlayed then t1.(buzzerPlayed := true) else t1
    else t
  }

  /** The notices the sweep fires for one task, in the order the source fires them. */
  function TaskEvents(t: Task, now: int): (e: seq<Event>)
    ensures e == [] || e == [Reminder(t)] || e == [Buzzer(t)]
    ensures e == [] <==> SweepTask(t, now) == t
    ensures e == [Reminder(t)] <==> !t.reminded && SweepTask(t, now).reminded
    ensures e == [Buzzer(t)] <==> !t.buzzerPlayed && SweepTask(t, now).buzzerPlayed
  {
    if !t.completed && !t.reminded then
      var d := t.due - now;
      (if d > 0 && d <= RemindBy && d > RemindAfter then [Reminder(t)] else [])
      + (if d < 0 && d > -BuzzWithin && !t.buzzerPlayed then [Buzzer(t)] else [])
    else []
  }

  /** The collection after one sweep at `now`. A sweep never clears a flag and never
      changes completion, due time, any other field, the number of tasks or their
      order; `reminded` is set exactly on the incomplete, not yet reminded tasks 4 to
      5 minutes before due, `buzzerPlayed` exactly on the incomplete, not yet
      reminded, not yet buzzed tasks less than a minute past due. */
  function SweepAll(s: seq<Task>, now: int): (r: seq<Task>)
    ensures |r| == |s|
    ensures forall i :: 0 <= i < |s| ==>
      r[i] == s[i].(reminded := r[i].reminded, buzzerPlayed := r[i].buzzerPlayed)
    ensures forall i :: 0 <= i < |s| ==>
      (s[i].reminded ==> r[i].reminded) && (s[i].buzzerPlayed ==> r[i].buzzerPlayed)
    ensures forall i :: 0 <= i < |s| ==>
      (r[i].reminded && !s[i].reminded <==>
       !s[i].completed && !s[i].reminded && 240000 < s[i].due - now <= 300000)
    ensures forall i :: 0 <= i < |s| ==>
      (r[i].buzzerPlayed && !s[i].buzzerPlayed <==>
       !s[i].completed && !s[i].reminded && !s[i].buzzerPlayed && -60000 < s[i].due - now < 0)
  {
    seq(|s|, k requires 0 <= k < |s| => SweepTask(s[k], now))
  }

  /** The notices fired by one sweep at `now`, task by task in collection order. */
  function SweepEvents(s: seq<Task>, now: int): (e: seq<Event>)
    ensures |e| <= |s|
    ensures forall ev :: ev in e ==> ev.task in s
  {
    if s == [] then [] else SweepEvents(s[..|s| - 1], now) + TaskEvents(s[|s| - 1], now)
  }

  /** Which notices one sweep fires: a reminder for exactly the incomplete, not yet
      reminded tasks of the list 4 to 5 minutes before due, and the buzzer for
      exactly the incomplete, not yet reminded, not yet buzzed ones less than a
      minute past due. */
  lemma {:induction false} SweepNotices(s: seq<Task>, now: int)
    ensures forall t :: Reminder(t) in SweepEvents(s, now) <==>
      t in s && !t.completed && !t.reminded && 240000 < t.due - now <= 300000
    ensures forall t :: Buzzer(t) in SweepEvents(s, now) <==>
      t in s && !t.completed && !t.reminded && !t.buzzerPlayed && -60000 < t.due - now < 0
  {
    if s != [] {
      var n := |s| - 1;
      SweepNotices(s[..n], now);
      assert s == s[..n] + [s[n]];
      forall t
        ensures t in s <==> t in s[..n] || t == s[n]
      {
      }
    }
  }

  /** Sweeping one more task of the list extends both the result and the notices. */
  lemma SweepStep(s: seq<Task>, i: nat, now: int)
    requires i < |s|
    ensures SweepAll(s[..i + 1], now) == SweepAll(s[..i], now) + [SweepTask(s[i], now)]
    ensures SweepEvents(s[..i + 1], now) == SweepEvents(s[..i], now) + TaskEvents(s[i], now)
  {
    assert s[..i + 1][..i] == s[..i];
  }

  /** The list part-way through a sweep: the first `i` tasks swept, the rest as they were.
      Sweeping task `i` in place advances it by one. */
  lemma SweepInPlace(s: seq<Task>, i: nat, now: int, cur: seq<Task>)
    requires i < |s| && cur == SweepAll(s[..i], now) + s[i..]
    ensures cur[i] == s[i]
    ensures cur[i := SweepTask(s[i], now)] == SweepAll(s[..i + 1], now) + s[i + 1..]
  {
  }

  /** A sweep fires nothing exactly when it changes nothing. */
  lemma QuietSweep(s: seq<Task>, now: int)
    ensures SweepEvents(s, now) == [] <==> SweepAll(s, now) == s
  {
    QuietTasks(s, now);
  }

  lemma QuietTasks(s: seq<Task>, now: int)
    ensures SweepEvents(s, now) == [] <==> forall k :: 0 <= k < |s| ==> SweepTask(s[k], now) == s[k]
  {
    SweepNotices(s, now);
    var e := SweepEvents(s, now);
    if e != [] {
      var t := e[0].task;
      assert e[0] in e;
      assert Reminder(t) in e || Buzzer(t) in e;
      var k :| 0 <= k < |s| && s[k] == t;
      assert SweepTask(s[k], now) != s[k];
    }
    if k :| 0 <= k < |s| && SweepTask(s[k], now) != s[k] {
      assert s[k] in s;
      assert Reminder(s[k]) in e || Buzzer(s[k]) in e;
    }
  }

  /** A second sweep at the same time fires nothing and changes nothing. */
  lemma SweepIdempotent(s: seq<Task>, now: int)
    ensures SweepAll(SweepAll(s, now), now) == SweepAll(s, now)
    ensures SweepEvents(SweepAll(s, now), now) == []
  {
    var r := SweepAll(s, now);
    assert SweepAll(r, now) == r;
    QuietSweep(r, now);
  }

  /** Exactly at the due time neither the notice nor the buzzer fires. */
  lemma AtDueTime(t: Task)
    ensures SweepTask(t, t.due) == t && TaskEvents(t, t.due) == []
  {
  }

  // ---------------------------------------------------------------------------
  // A task across successive sweeps.

  /** The notices fired for one task by sweeps at the given times, in order. */
  function TaskRun(t: Task, times: seq<int>): (e: seq<Event>)
    ensures |e| <= |times|
    decreases times
  {
    if times == [] then []
    else TaskEvents(t, times[0]) + TaskRun(SweepTask(t, times[0]), times[1..])
  }

  predicate Ascending(times: seq<int>)
  {
    forall i, j :: 0 <= i < j < |times| ==> times[i] <= times[j]
  }

  /** Once reminded, a task gets nothing more from any sweep: not even the buzzer. */
  lemma {:induction false} RemindedIsSilent(t: Task, times: seq<int>)
    requires t.reminded
    ensures TaskRun(t, times) == []
  {
    if times != [] {
      RemindedIsSilent(t, times[1..]);
    }
  }

  /** Once buzzed, a task past its due time gets nothing more from later sweeps. */
  lemma {:induction false} BuzzedIsSilent(t: Task, times: seq<int>)
    requires t.buzzerPlayed && Ascending(times)
    requires times != [] ==> t.due < times[0]
    ensures TaskRun(t, times) == []
  {
    if times != [] {
      BuzzedIsSilent(t, times[1..]);
    }
  }

  /** With the clock moving forward, every task gets at most one notice over any
      number of sweeps. */
  lemma {:induction false} AtMostOneNotice(t: Task, times: seq<int>)
    requires Ascending(times)
    ensures |TaskRun(t, times)| <= 1
  {
    if times != [] {
      var u := SweepTask(t, times[0]);
      if TaskEvents(t, times[0]) == [] {
        AtMostOneNotice(u, times[1..]);
      } else if u.reminded {
        RemindedIsSilent(u, times[1..]);
      } else {
        BuzzedIsSilent(u, times[1..]);
      }
    }
  }

  /** A task first seen 4 min 30 s before due gets exactly one notice, and no later
      sweep repeats it. A task first seen 30 s overdue gets the buzzer; one first
      seen 90 s overdue gets nothing. */
  lemma NoticeScenarios(t: Task, later: seq<int>)
    requires !t.completed && !t.reminded && !t.buzzerPlayed
    ensures TaskRun(t, [t.due - 270000] + later) == [Reminder(t)]
    ensures TaskEvents(t, t.due + 30000) == [Buzzer(t)]
    ensures TaskEvents(t, t.due + 90000) == []
  {
    var times := [t.due - 270000] + later;
    RemindedIsSilent(SweepTask(t, times[0]), times[1..]);
  }

  /** The buzzer being nested under the reminder guard: a task that had its 5-minute
      notice and is then swept 30 s after its due time gets no buzzer. */
  lemma RemindedMissesBuzzer(t: Task)
    requires !t.completed && !t.reminded && !t.buzzerPlayed
    ensures TaskRun(t, [t.due - 270000, t.due + 30000]) == [Reminder(t)]
    ensures !SweepTask(SweepTask(t, t.due - 270000), t.due + 30000).buzzerPlayed
  {
  }
}
