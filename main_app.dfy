/** The first version of the application: read-only queries over the
    in-memory list `tasks_db`, whose records carry a user-supplied urgency
    flag instead of a deadline. */
module MainApp {
  import opened Results
  import opened Text
  import opened Counting

  /** One dictionary of `tasks_db`. */
  datatype StoredTask = StoredTask(
    id: int,
    title: string,
    description: Option<string>,
    isImportant: bool,
    isUrgent: bool,
    quadrant: string,
    completed: bool,
    createdAt: int)

  /** The conditions the list comprehensions and the search loop keep a task by. */
  datatype Selector = QuadrantIs(quadrant: string) | CompletedIs(completed: bool) | Mentions(query: string)

  predicate Selects(sel: Selector, t: StoredTask) {
    match sel
    case QuadrantIs(q) => t.quadrant == q
    case CompletedIs(c) => t.completed == c
    case Mentions(q) => Matches(t.title, t.description, q)
  }

  /** The tasks of `db` that `sel` keeps, in list order. */
  function Where(db: seq<StoredTask>, sel: Selector): (r: seq<StoredTask>)
    ensures |r| <= |db|
    ensures forall t :: t in r <==> t in db && Selects(sel, t)
  {
    if db == [] then []
    else
      var n := |db| - 1;
      assert db == db[..n] + [db[n]];
      Where(db[..n], sel) + (if Selects(sel, db[n]) then [db[n]] else [])
  }

  /** Each selected task occurs in the result exactly as often as in the
      list, and no other task occurs in it. */
  lemma {:induction false} WhereCounts(db: seq<StoredTask>, sel: Selector)
    ensures forall t :: multiset(Where(db, sel))[t] == if Selects(sel, t) then multiset(db)[t] else 0
  {
    if db != [] {
      var n := |db| - 1;
      assert db == db[..n] + [db[n]];
      WhereCounts(db[..n], sel);
    }
  }

  lemma ConcatAssoc<T>(x: seq<T>, y: seq<T>, z: seq<T>)
    ensures (x + y) + z == x + (y + z)
  {
  }

  /** Filtering a list with one more task at its end. */
  lemma WhereSnoc(db: seq<StoredTask>, t: StoredTask, sel: Selector)
    ensures Where(db + [t], sel) == Where(db, sel) + (if Selects(sel, t) then [t] else [])
  {
    assert (db + [t])[..|db|] == db;
  }

  /** Filtering a concatenation filters each part and keeps them in order:
      the selection preserves list order. */
  lemma {:induction false} WhereAppend(a: seq<StoredTask>, b: seq<StoredTask>, sel: Selector)
    ensures Where(a + b, sel) == Where(a, sel) + Where(b, sel)
  {
    if b == [] {
      assert a + b == a;
    } else {
      var n := |b| - 1;
      var front, t := b[..n], b[n];
      assert b == front + [t];
      ConcatAssoc(a, front, [t]);
      WhereSnoc(a + front, t, sel);
      WhereSnoc(front, t, sel);
      WhereAppend(a, front, sel);
      ConcatAssoc(Where(a, sel), Where(front, sel), if Selects(sel, t) then [t] else []);
    }
  }

  /** `{"count": ..., "tasks": [...]}` and its variants with a query,
      quadrant or status echoed back. */
  datatype Listing = Listing(key: string, count: nat, tasks: seq<StoredTask>)

  /** `search_tasks`: a query shorter than two characters is refused with
      422 by the parameter's declared minimum length, before the handler's
      own 400 check can run; otherwise the tasks mentioning it in title or
      description, in list order, or 404 when there are none. */
  method SearchTasks(db: seq<StoredTask>, q: string) returns (r: Response<Listing>)
    ensures |q| < 2 ==> r == Fail(UnprocessableEntity)
    ensures |q| >= 2 && Where(db, Mentions(q)) == [] ==> r == Fail(NotFound)
    ensures |q| >= 2 && Where(db, Mentions(q)) != [] ==>
      r == Ok(Listing(q, |Where(db, Mentions(q))|, Where(db, Mentions(q))))
    ensures r.Ok? ==> forall t :: t in r.value.tasks <==> t in db && Matches(t.title, t.description, q)
  {
    if |q| < 2 {
      return Fail(UnprocessableEntity);
    }
    var queryLower := Lower(q);
    var filtered := [];
    for i := 0 to |db|
      invariant filtered == Where(db[..i], Mentions(q))
    {
      var task := db[i];
      var titleMatch := Contains(Lower(task.title), queryLower);
      var descriptionMatch := task.description.Some? && Contains(Lower(task.description.value), queryLower);
      if titleMatch || descriptionMatch {
        filtered := filtered + [task];
      }
      assert db[..i + 1][..i] == db[..i];
    }
    assert db[..|db|] == db;
    if filtered == [] {
      return Fail(NotFound);
    }
    return Ok(Listing(q, |filtered|, filtered));
  }

  /** `get_all_tasks`: the whole list and its length. */
  function GetAllTasks(db: seq<StoredTask>): (r: Listing)
    ensures r.count == |db| && r.tasks == db
  {
    Listing("", |db|, db)
  }

  /** `get_tasks_by_quadrant`: 400 for anything but the four labels,
      otherwise the tasks with that label in list order (possibly none). */
  function GetTasksByQuadrant(db: seq<StoredTask>, quadrant: string): (r: Response<Listing>)
    ensures quadrant !in QuadrantLabels <==> r == Fail(BadRequest)
    ensures quadrant in QuadrantLabels ==> r.Ok?
    ensures r.Ok? ==> r.value.key == quadrant && r.value.count == |r.value.tasks|
    ensures r.Ok? ==> r.value.tasks == Where(db, QuadrantIs(quadrant))
    ensures r.Ok? ==> forall t :: t in r.value.tasks <==> t in db && t.quadrant == quadrant
  {
    if quadrant !in QuadrantLabels then Fail(BadRequest)
    else
      var filtered := Where(db, QuadrantIs(quadrant));
      Ok(Listing(quadrant, |filtered|, filtered))
  }

  function Quadrants(db: seq<StoredTask>): (r: seq<string>)
    ensures |r| == |db|
    ensures forall i :: 0 <= i < |db| ==> r[i] == db[i].quadrant
  {
    seq(|db|, i requires 0 <= i < |db| => db[i].quadrant)
  }

  function CompletedFlags(db: seq<StoredTask>): (r: seq<bool>)
    ensures |r| == |db|
    ensures forall i :: 0 <= i < |db| ==> r[i] == db[i].completed
  {
    seq(|db|, i requires 0 <= i < |db| => db[i].completed)
  }

  /** `get_tasks_stats`: the total, one counter per valid quadrant label and
      one per status, filled in a single pass. */
  method GetTasksStats(db: seq<StoredTask>) returns (stats: TaskStats)
    ensures Describes(stats, Quadrants(db), CompletedFlags(db))
  {
    ghost var labels := Quadrants(db);
    ghost var flags := CompletedFlags(db);
    var byQuadrant: map<string, nat> := map["Q1" := 0, "Q2" := 0, "Q3" := 0, "Q4" := 0];
    var byStatus: map<string, nat> := map[CompletedKey := 0, PendingKey := 0];
    TalliedInitially();
    for i := 0 to |db|
      invariant Tallied(byQuadrant, byStatus, labels[..i], flags[..i])
    {
      var quadrant := db[i].quadrant;
      TallyOneMore(byQuadrant, byStatus, labels[..i], flags[..i], quadrant, db[i].completed);
      PrefixStep(labels, i);
      PrefixStep(flags, i);
      if quadrant in byQuadrant {
        byQuadrant := byQuadrant[quadrant := byQuadrant[quadrant] + 1];
      }
      if db[i].completed {
        byStatus := byStatus[CompletedKey := byStatus[CompletedKey] + 1];
      } else {
        byStatus := byStatus[PendingKey := byStatus[PendingKey] + 1];
      }
    }
    assert labels[..|db|] == labels && flags[..|db|] == flags;
    stats := TaskStats(|db|, byQuadrant, byStatus);
  }

  /** `get_task_by_id`: the first task in list order with that id, or 404. */
  method GetTaskById(db: seq<StoredTask>, taskId: int) returns (r: Response<StoredTask>)
    ensures r.Fail? <==> forall i :: 0 <= i < |db| ==> db[i].id != taskId
    ensures r.Fail? ==> r.status == NotFound
    ensures r.Ok? ==> exists i :: 0 <= i < |db| && db[i] == r.value && r.value.id == taskId
                                && forall j :: 0 <= j < i ==> db[j].id != taskId
  {
    for i := 0 to |db|
      invariant forall j :: 0 <= j < i ==> db[j].id != taskId
    {
      if db[i].id == taskId {
        return Ok(db[i]);
      }
    }
    return Fail(NotFound);
  }

  /** `get_tasks_by_status`: the status is compared lower-cased against
      "completed" and "pending" (anything else is 400); the tasks with that
      completion flag in list order, or 404 when there are none. */
  function GetTasksByStatus(db: seq<StoredTask>, status: string): (r: Response<Listing>)
    ensures Lower(status) != CompletedKey && Lower(status) != PendingKey <==> r == Fail(BadRequest)
    ensures r.Fail? && r.status != BadRequest ==> r.status == NotFound
    ensures r.Ok? ==> r.value.key == Lower(status) && r.value.count == |r.value.tasks| > 0
    ensures r.Ok? ==> forall t :: t in r.value.tasks <==> t in db && t.completed == (Lower(status) == CompletedKey)
    ensures r == Fail(NotFound) ==> forall t :: t in db ==> t.completed != (Lower(status) == CompletedKey)
    ensures r.Ok? ==> r.value.tasks == Where(db, CompletedIs(Lower(status) == CompletedKey))
  {
    var statusLower := Lower(status);
    if statusLower != CompletedKey && statusLower != PendingKey then Fail(BadRequest)
    else
      var isCompleted := statusLower == CompletedKey;
      var filtered := Where(db, CompletedIs(isCompleted));
      if filtered == [] then Fail(NotFound)
      else Ok(Listing(statusLower, |filtered|, filtered))
  }
}
