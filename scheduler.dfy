/** The recompute sweep: re-derive the quadrant of every open task from its
    deadline at time `now`, write only the quadrants that changed, and commit
    all of them or none. */
module Scheduler {
  import opened Results
  import opened TaskModel
  import opened Utils
  import opened Counting

  /** The quadrant a task should have at time `now`. */
  function Recomputed(t: Task, now: int): string {
    DefineQuadrant(t.isImportant, CalculateUrgency(t.deadlineAt, now))
  }

  /** The recomputed label is a valid one and reads back as the task's
      importance and its urgency at `now`. */
  lemma RecomputedReadsBack(t: Task, now: int)
    ensures Recomputed(t, now) in QuadrantLabels
    ensures QuadrantFlags(Recomputed(t, now)) == Some((t.isImportant, CalculateUrgency(t.deadlineAt, now)))
  {
    QuadrantRoundTrip(t.isImportant, CalculateUrgency(t.deadlineAt, now), "");
  }

  /** An open task whose stored quadrant is not the recomputed one: the rows
      the sweep writes. */
  predicate Stale(t: Task, now: int) {
    !t.completed && t.quadrant != Recomputed(t, now)
  }

  /** One task after the sweep. */
  function SweepTask(t: Task, now: int): (r: Task)
    ensures t.completed ==> r == t
    ensures !t.completed ==> r.quadrant == Recomputed(t, now)
  {
    if Stale(t, now) then t.(quadrant := Recomputed(t, now)) else t
  }

  /** The whole table after a committed sweep. */
  function Swept(tasks: seq<Task>, now: int): (r: seq<Task>)
    ensures |r| == |tasks|
    ensures forall i :: 0 <= i < |tasks| ==> r[i] == SweepTask(tasks[i], now)
  {
    seq(|tasks|, i requires 0 <= i < |tasks| => SweepTask(tasks[i], now))
  }

  function StaleFlags(tasks: seq<Task>, now: int): (r: seq<bool>)
    ensures |r| == |tasks|
    ensures forall i :: 0 <= i < |tasks| ==> r[i] == Stale(tasks[i], now)
  {
    seq(|tasks|, i requires 0 <= i < |tasks| => Stale(tasks[i], now))
  }

  /** The open (not completed) tasks, as flags. */
  function OpenFlags(tasks: seq<Task>): (r: seq<bool>)
    ensures |r| == |tasks|
    ensures forall i :: 0 <= i < |tasks| ==> r[i] == !tasks[i].completed
  {
    Negated(CompletedFlags(tasks))
  }

  /** The sweep writes the quadrant column only. */
  lemma SweepChangesOnlyQuadrant(tasks: seq<Task>, now: int)
    ensures forall i :: 0 <= i < |tasks| ==> Swept(tasks, now)[i] == tasks[i].(quadrant := Swept(tasks, now)[i].quadrant)
  {
  }

  /** After the sweep every open task carries the quadrant its own fields
      give at `now`, and completed tasks are exactly as they were. */
  lemma SweptIsConsistent(tasks: seq<Task>, now: int)
    ensures forall i :: 0 <= i < |tasks| && !tasks[i].completed ==>
      Swept(tasks, now)[i].quadrant == Recomputed(Swept(tasks, now)[i], now)
    ensures forall i :: 0 <= i < |tasks| && tasks[i].completed ==> Swept(tasks, now)[i] == tasks[i]
  {
  }

  /** The number of rows written is the number of stale positions, and no
      more than the number of open tasks. */
  lemma UpdatedCountBounds(tasks: seq<Task>, now: int)
    ensures CountTrue(StaleFlags(tasks, now)) == |SetPositions(StaleFlags(tasks, now))|
    ensures CountTrue(StaleFlags(tasks, now)) <= CountTrue(OpenFlags(tasks))
  {
    CountTrueIsCardinality(StaleFlags(tasks, now));
    CountTrueMonotone(StaleFlags(tasks, now), OpenFlags(tasks));
  }

  /** A table with nothing stale is left exactly as it is. */
  lemma NothingStaleIsFixpoint(tasks: seq<Task>, now: int)
    requires CountTrue(StaleFlags(tasks, now)) == 0
    ensures Swept(tasks, now) == tasks
  {
    CountTrueZero(StaleFlags(tasks, now));
  }

  /** Sweeping again at the same `now` finds nothing stale and changes nothing. */
  lemma SweepIdempotent(tasks: seq<Task>, now: int)
    ensures CountTrue(StaleFlags(Swept(tasks, now), now)) == 0
    ensures Swept(Swept(tasks, now), now) == Swept(tasks, now)
  {
    var once := Swept(tasks, now);
    assert forall i :: 0 <= i < |once| ==> !Stale(once[i], now);
    CountTrueZero(StaleFlags(once, now));
  }

  /** An important open task due in one day that was stored as "Q2" is
      moved to "Q1". */
  lemma StaleQ2BecomesQ1(t: Task, now: int)
    requires t.isImportant && !t.completed && t.quadrant == "Q2"
    requires t.deadlineAt == Some(now + SecondsPerDay)
    ensures Stale(t, now) && SweepTask(t, now) == t.(quadrant := "Q1")
  {
  }

  /** The loop body of `update_task_urgency` for one row of the session:
      an open task whose stored quadrant differs from the recomputed one gets
      the new quadrant, and `changed` says whether the row was written. */
  method SweepRow(session: array<Task>, i: nat, now: int) returns (changed: bool)
    requires i < session.Length
    modifies session
    ensures changed == Stale(old(session[i]), now)
    ensures session[i] == SweepTask(old(session[i]), now)
    ensures forall k :: 0 <= k < session.Length && k != i ==> session[k] == old(session[k])
  {
    changed := false;
    var task := session[i];
    if !task.completed {
      var isUrgent := CalculateUrgency(task.deadlineAt, now);
      var newQuadrant := DefineQuadrant(task.isImportant, isUrgent);
      if task.quadrant != newQuadrant {
        session[i] := task.(quadrant := newQuadrant);
        changed := true;
      }
    }
  }

  /** Opens the transaction: a fresh session holding the rows of `db`. */
  method ReadRows(db: array<Task>) returns (session: array<Task>)
    ensures fresh(session)
    ensures session[..] == db[..]
  {
    session := new Task[db.Length](i reads db requires 0 <= i < db.Length => db[i]);
  }

  /** `update_task_urgency`. `db` holds the rows of the tasks table. The
      transaction reads them into `session`, rewrites the stale quadrants
      there in place and counts them; when something changed it commits
      (copies `session` back into `db`). `commitFails` stands for a
      persistence error at commit, after which the transaction is rolled
      back and `db` keeps its rows. */
  method UpdateTaskUrgency(db: array<Task>, now: int, commitFails: bool) returns (updatedCount: nat, committed: bool)
    modifies db
    ensures updatedCount == CountTrue(StaleFlags(old(db[..]), now))
    ensures committed <==> updatedCount > 0 && !commitFails
    ensures db[..] == if committed then Swept(old(db[..]), now) else old(db[..])
  {
    ghost var before := db[..];
    ghost var stale := StaleFlags(before, now);
    var session := ReadRows(db);
    updatedCount := 0;
    var i := 0;
    while i < session.Length
      invariant 0 <= i <= session.Length == |before|
      invariant forall k :: 0 <= k < i ==> session[k] == SweepTask(before[k], now)
      invariant forall k :: i <= k < session.Length ==> session[k] == before[k]
      invariant updatedCount == CountTrue(stale[..i])
      modifies session
    {
      var changed := SweepRow(session, i, now);
      if changed {
        updatedCount := updatedCount + 1;
      }
      CountTrueStep(stale, i);
      i := i + 1;
    }
    assert stale[..i] == stale;
    assert session[..] == Swept(before, now);
    committed := false;
    if updatedCount > 0 && !commitFails {
      forall k | 0 <= k < db.Length {
        db[k] := session[k];
      }
      committed := true;
    }
    if !committed && updatedCount == 0 {
      NothingStaleIsFixpoint(before, now);
    }
  }

  /** Two sweeps in a row at the same `now` with no persistence error: the
      second one writes nothing, and the table ends up swept once. */
  method SweepTwice(db: array<Task>, now: int) returns (second: nat)
    modifies db
    ensures second == 0
    ensures db[..] == Swept(old(db[..]), now)
  {
    var first, committed := UpdateTaskUrgency(db, now, false);
    ghost var afterFirst := db[..];
    SweepIdempotent(old(db[..]), now);
    if !committed {
      NothingStaleIsFixpoint(old(db[..]), now);
    }
    var committedAgain;
    second, committedAgain := UpdateTaskUrgency(db, now, false);
    assert db[..] == afterFirst;
  }
}
