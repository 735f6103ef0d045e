/** The statistics endpoints over the tasks table: counters by quadrant and
    by status, and the report of open deadlines sorted by days remaining. */
module Stats {
  import opened Results
  import opened TaskModel
  import opened Utils
  import opened Counting

  /** `get_tasks_stats`: one pass over the tasks, bumping dictionary counters. */
  method GetTasksStats(tasks: seq<Task>) returns (stats: TaskStats)
    ensures Describes(stats, Quadrants(tasks), CompletedFlags(tasks))
  {
    ghost var labels := Quadrants(tasks);
    ghost var flags := CompletedFlags(tasks);
    var byQuadrant: map<string, nat> := map["Q1" := 0, "Q2" := 0, "Q3" := 0, "Q4" := 0];
    var byStatus: map<string, nat> := map[CompletedKey := 0, PendingKey := 0];
    TalliedInitially();
    for i := 0 to |tasks|
      invariant Tallied(byQuadrant, byStatus, labels[..i], flags[..i])
    {
      var task := tasks[i];
      TallyOneMore(byQuadrant, byStatus, labels[..i], flags[..i], task.quadrant, task.completed);
      PrefixStep(labels, i);
      PrefixStep(flags, i);
      if task.quadrant in byQuadrant {
        byQuadrant := byQuadrant[task.quadrant := byQuadrant[task.quadrant] + 1];
      }
      if task.completed {
        byStatus := byStatus[CompletedKey := byStatus[CompletedKey] + 1];
      } else {
        byStatus := byStatus[PendingKey := byStatus[PendingKey] + 1];
      }
    }
    assert labels[..|tasks|] == labels && flags[..|tasks|] == flags;
    stats := TaskStats(|tasks|, byQuadrant, byStatus);
  }

  /** One line of the deadline report. */
  datatype DeadlineEntry = DeadlineEntry(
    title: string,
    description: Option<string>,
    createdAt: int,
    deadlineAt: int,
    daysRemaining: int)

  /** The query's condition: not completed and with a deadline. */
  predicate OpenWithDeadline(t: Task) {
    !t.completed && t.deadlineAt.Some?
  }

  /** The rows the report query selects, in table order. */
  function SelectOpenWithDeadline(tasks: seq<Task>): (r: seq<Task>)
    ensures forall t :: t in r <==> t in tasks && OpenWithDeadline(t)
    ensures multiset(r) <= multiset(tasks)
    ensures |r| <= |tasks|
  {
    if tasks == [] then []
    else
      assert tasks == [tasks[0]] + tasks[1..];
      if OpenWithDeadline(tasks[0]) then [tasks[0]] + SelectOpenWithDeadline(tasks[1..])
      else SelectOpenWithDeadline(tasks[1..])
  }

  /** The report line of a task with a deadline. */
  function EntryOf(t: Task, now: int): (e: DeadlineEntry)
    requires t.deadlineAt.Some?
    ensures e.daysRemaining * SecondsPerDay <= t.deadlineAt.value - now < (e.daysRemaining + 1) * SecondsPerDay
    ensures e.title == t.title && e.description == t.description
    ensures e.createdAt == t.createdAt && e.deadlineAt == t.deadlineAt.value
  {
    DeadlineEntry(t.title, t.description, t.createdAt, t.deadlineAt.value, WholeDays(t.deadlineAt.value - now))
  }

  /** The report lines of the selected tasks, before sorting. */
  function Entries(tasks: seq<Task>, now: int): (r: seq<DeadlineEntry>)
    requires forall t :: t in tasks ==> t.deadlineAt.Some?
    ensures |r| == |tasks|
    ensures forall i :: 0 <= i < |tasks| ==> r[i] == EntryOf(tasks[i], now)
  {
    seq(|tasks|, i requires 0 <= i < |tasks| => EntryOf(tasks[i], now))
  }

  /** The report lines before sorting are exactly the lines of the open
      tasks with a deadline. */
  lemma EntriesOfSelected(tasks: seq<Task>, now: int)
    ensures forall e :: e in Entries(SelectOpenWithDeadline(tasks), now) <==>
      exists t :: t in tasks && OpenWithDeadline(t) && e == EntryOf(t, now)
  {
    var selected := SelectOpenWithDeadline(tasks);
    var entries := Entries(selected, now);
    forall e | e in entries
      ensures exists t :: t in tasks && OpenWithDeadline(t) && e == EntryOf(t, now)
    {
      var i :| 0 <= i < |entries| && entries[i] == e;
      assert selected[i] in selected;
    }
    forall t | t in tasks && OpenWithDeadline(t)
      ensures EntryOf(t, now) in entries
    {
      var i :| 0 <= i < |selected| && selected[i] == t;
      assert entries[i] == EntryOf(t, now);
    }
  }

  predicate SortedByDays(s: seq<DeadlineEntry>) {
    forall i, j :: 0 <= i < j < |s| ==> s[i].daysRemaining <= s[j].daysRemaining
  }

  /** The entries with `days` days remaining, in their order in `s`. */
  function WithDays(s: seq<DeadlineEntry>, days: int): seq<DeadlineEntry> {
    if s == [] then []
    else (if s[0].daysRemaining == days then [s[0]] else []) + WithDays(s[1..], days)
  }

  /** Inserts `e` in front of the first entry with at least as many days
      remaining: the step of a stable ascending insertion sort. */
  function InsertByDays(e: DeadlineEntry, s: seq<DeadlineEntry>): (r: seq<DeadlineEntry>)
    ensures |r| == |s| + 1
    ensures multiset(r) == multiset(s) + multiset{e}
  {
    if s == [] || e.daysRemaining <= s[0].daysRemaining then [e] + s
    else
      assert s == [s[0]] + s[1..];
      [s[0]] + InsertByDays(e, s[1..])
  }

  /** `list.sort(key=lambda x: x["days_remaining"])`: a stable ascending sort
      by days remaining. */
  function SortByDays(s: seq<DeadlineEntry>): (r: seq<DeadlineEntry>)
    ensures multiset(r) == multiset(s)
  {
    if s == [] then []
    else
      assert s == [s[0]] + s[1..];
      InsertByDays(s[0], SortByDays(s[1..]))
  }

  lemma {:induction false} InsertKeepsSorted(e: DeadlineEntry, s: seq<DeadlineEntry>)
    requires SortedByDays(s)
    ensures SortedByDays(InsertByDays(e, s))
    ensures InsertByDays(e, s)[0] == e || (s != [] && InsertByDays(e, s)[0] == s[0])
  {
    var r := InsertByDays(e, s);
    if s != [] && e.daysRemaining > s[0].daysRemaining {
      var rest := InsertByDays(e, s[1..]);
      InsertKeepsSorted(e, s[1..]);
      assert r == [s[0]] + rest;
      assert s[0].daysRemaining <= rest[0].daysRemaining;
      forall i, j | 0 <= i < j < |r|
        ensures r[i].daysRemaining <= r[j].daysRemaining
      {
        assert r[j] == rest[j - 1];
        if i > 0 {
          assert r[i] == rest[i - 1];
        } else if j > 1 {
          assert rest[0].daysRemaining <= rest[j - 1].daysRemaining;
        }
      }
    }
  }

  /** The sort's result is ascending in days remaining. */
  lemma {:induction false} SortIsSorted(s: seq<DeadlineEntry>)
    ensures SortedByDays(SortByDays(s))
  {
    if s != [] {
      SortIsSorted(s[1..]);
      InsertKeepsSorted(s[0], SortByDays(s[1..]));
    }
  }

  /** Inserting `e` adds it in front of the entries with its own key and
      leaves every other key's entries as they were. */
  lemma {:induction false} InsertKeepsRuns(e: DeadlineEntry, s: seq<DeadlineEntry>, days: int)
    ensures WithDays(InsertByDays(e, s), days)
         == (if e.daysRemaining == days then [e] else []) + WithDays(s, days)
  {
    var r := InsertByDays(e, s);
    if s == [] || e.daysRemaining <= s[0].daysRemaining {
      assert r[0] == e && r[1..] == s;
    } else {
      var rest := InsertByDays(e, s[1..]);
      assert r[0] == s[0] && r[1..] == rest;
      InsertKeepsRuns(e, s[1..], days);
      if e.daysRemaining == days {
        assert WithDays(s, days) == WithDays(s[1..], days);
        assert WithDays(r, days) == WithDays(rest, days);
      } else {
        var first := if s[0].daysRemaining == days then [s[0]] else [];
        assert WithDays(rest, days) == WithDays(s[1..], days);
        assert WithDays(s, days) == first + WithDays(s[1..], days);
        assert WithDays(r, days) == first + WithDays(rest, days);
      }
    }
  }

  /** Stability: entries with equal days remaining keep their input order. */
  lemma {:induction false} SortIsStable(s: seq<DeadlineEntry>, days: int)
    ensures WithDays(SortByDays(s), days) == WithDays(s, days)
  {
    if s != [] {
      SortIsStable(s[1..], days);
      InsertKeepsRuns(s[0], SortByDays(s[1..]), days);
    }
  }

  /** `get_deadline_stats`: select the open tasks with a deadline, build one
      entry per task with its whole days remaining at `now`, and sort the
      entries stably by days remaining. */
  method GetDeadlineStats(tasks: seq<Task>, now: int) returns (stats: seq<DeadlineEntry>)
    ensures multiset(stats) == multiset(Entries(SelectOpenWithDeadline(tasks), now))
    ensures SortedByDays(stats)
    ensures forall days :: WithDays(stats, days) == WithDays(Entries(SelectOpenWithDeadline(tasks), now), days)
    ensures forall e :: e in stats <==> exists t :: t in tasks && OpenWithDeadline(t) && e == EntryOf(t, now)
  {
    var selected := SelectOpenWithDeadline(tasks);
    stats := [];
    for i := 0 to |selected|
      invariant forall t :: t in selected[..i] ==> OpenWithDeadline(t)
      invariant stats == Entries(selected[..i], now)
    {
      var task := selected[i];
      assert task in selected;
      var daysToDeadline := WholeDays(task.deadlineAt.value - now);
      stats := stats + [DeadlineEntry(task.title, task.description, task.createdAt, task.deadlineAt.value, daysToDeadline)];
    }
    assert selected[..|selected|] == selected;
    ghost var unsorted := stats;
    stats := SortByDays(stats);
    SortIsSorted(unsorted);
    forall days ensures WithDays(stats, days) == WithDays(unsorted, days) {
      SortIsStable(unsorted, days);
    }
    EntriesOfSelected(tasks, now);
    forall e ensures e in stats <==> e in unsorted {
      assert e in stats <==> e in multiset(unsorted);
    }
  }
}
