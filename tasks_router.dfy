/** The task endpoints of the router revision whose records carry a
    user-supplied `is_urgent` flag. The table is a map from id to task; the
    queries are functions of it, the writes are methods of `TaskStore`. */
module TasksRouter {
  import opened Results
  import opened Text
  import opened Counting
  import Utils

  datatype Task = Task(
    id: int,
    title: string,
    description: Option<string>,
    isImportant: bool,
    isUrgent: bool,
    deadlineAt: Option<int>,
    quadrant: string,
    completed: bool,
    createdAt: int,
    completedAt: Option<int>)

  /** The stored quadrant is the one the task's two flags select. */
  predicate Classified(t: Task) {
    t.quadrant == Utils.DefineQuadrant(t.isImportant, t.isUrgent)
  }

  /** Length limits the request schemas put on titles and descriptions. */
  const MinTitleLength: int := 3
  const MaxTitleLength: int := 100
  const MaxDescriptionLength: int := 500

  predicate ValidTitle(title: string) {
    MinTitleLength <= |title| <= MaxTitleLength
  }

  predicate ValidDescription(description: Option<string>) {
    description.Some? ==> |description.value| <= MaxDescriptionLength
  }

  // ----- queries -----

  /** `get_tasks_by_quadrant`: 400 for anything but the four labels,
      otherwise every task stored with that label. */
  function GetTasksByQuadrant(rows: map<int, Task>, quadrant: string): (r: Response<set<Task>>)
    ensures quadrant !in QuadrantLabels <==> r == Fail(BadRequest)
    ensures quadrant in QuadrantLabels ==> r.Ok?
    ensures r.Ok? ==> forall t :: t in r.value <==> t in rows.Values && t.quadrant == quadrant
  {
    if quadrant !in QuadrantLabels then Fail(BadRequest)
    else Ok(set t | t in rows.Values && t.quadrant == quadrant)
  }

  /** `search_tasks`: the query must have at least two characters (checked
      by the request validation, answering 422); the tasks whose title or
      description contains it, ignoring case, or 404 when there are none. */
  function SearchTasks(rows: map<int, Task>, q: string): (r: Response<set<Task>>)
    ensures |q| < 2 <==> r == Fail(UnprocessableEntity)
    ensures r.Ok? ==> r.value != {} && forall t :: t in r.value <==> t in rows.Values && Matches(t.title, t.description, q)
    ensures r == Fail(NotFound) <==> |q| >= 2 && forall t :: t in rows.Values ==> !Matches(t.title, t.description, q)
    ensures |q| >= 2 && (exists t :: t in rows.Values && Matches(t.title, t.description, q)) ==> r.Ok?
  {
    if |q| < 2 then Fail(UnprocessableEntity)
    else
      var hits := set t | t in rows.Values && Matches(t.title, t.description, q);
      if hits == {} then
        assert forall t :: t in rows.Values ==> t !in hits;
        Fail(NotFound)
      else Ok(hits)
  }

  /** `get_tasks_by_status`: only the exact words "completed" and "pending"
      are accepted (anything else is 404); the tasks with that flag. */
  function GetTasksByStatus(rows: map<int, Task>, status: string): (r: Response<set<Task>>)
    ensures status != CompletedKey && status != PendingKey <==> r == Fail(NotFound)
    ensures status == CompletedKey || status == PendingKey ==> r.Ok?
    ensures r.Ok? ==> forall t :: t in r.value <==> t in rows.Values && t.completed == (status == CompletedKey)
  {
    if status != CompletedKey && status != PendingKey then Fail(NotFound)
    else
      var isCompleted := status == CompletedKey;
      Ok(set t | t in rows.Values && t.completed == isCompleted)
  }

  /** `get_task_by_id` */
  function GetTaskById(rows: map<int, Task>, taskId: int): (r: Response<Task>)
    ensures r.Ok? <==> taskId in rows
    ensures r.Ok? ==> r.value == rows[taskId]
    ensures r.Fail? ==> r.status == NotFound
  {
    if taskId in rows then Ok(rows[taskId]) else Fail(NotFound)
  }

  // ----- the fields of an update -----

  /** The request body of a task creation. */
  datatype TaskCreate = TaskCreate(
    title: string,
    description: Option<string>,
    isImportant: bool,
    isUrgent: bool,
    deadlineAt: Option<int>)

  datatype Field = TitleField | DescriptionField | ImportantField | UrgentField | DeadlineField | CompletedField

  /** One entry of `model_dump(exclude_unset=True)`: a field the client
      supplied, with its new value. */
  datatype FieldValue =
    | SetTitle(title: string)
    | SetDescription(description: Option<string>)
    | SetImportant(isImportant: bool)
    | SetUrgent(isUrgent: bool)
    | SetDeadline(deadlineAt: Option<int>)
    | SetCompleted(completed: bool)

  function FieldOf(f: FieldValue): Field {
    match f
    case SetTitle(_) => TitleField
    case SetDescription(_) => DescriptionField
    case SetImportant(_) => ImportantField
    case SetUrgent(_) => UrgentField
    case SetDeadline(_) => DeadlineField
    case SetCompleted(_) => CompletedField
  }

  /** `setattr(task, field, value)` */
  function Assign(t: Task, f: FieldValue): (r: Task)
    ensures r.id == t.id && r.quadrant == t.quadrant
    ensures r.createdAt == t.createdAt && r.completedAt == t.completedAt
  {
    match f
    case SetTitle(x) => t.(title := x)
    case SetDescription(x) => t.(description := x)
    case SetImportant(x) => t.(isImportant := x)
    case SetUrgent(x) => t.(isUrgent := x)
    case SetDeadline(x) => t.(deadlineAt := x)
    case SetCompleted(x) => t.(completed := x)
  }

  /** The last value supplied for `field`, if any. */
  function Supplied(updates: seq<FieldValue>, field: Field): (r: Option<FieldValue>)
    ensures r.Some? ==> FieldOf(r.value) == field && r.value in updates
    ensures r.None? <==> forall i :: 0 <= i < |updates| ==> FieldOf(updates[i]) != field
  {
    if updates == [] then None
    else
      var n := |updates| - 1;
      if FieldOf(updates[n]) == field then Some(updates[n]) else Supplied(updates[..n], field)
  }

  /** The task with every supplied field set to its supplied value and every
      other field as it was. */
  function Patched(t: Task, updates: seq<FieldValue>): (r: Task)
    ensures r.id == t.id && r.quadrant == t.quadrant
    ensures r.createdAt == t.createdAt && r.completedAt == t.completedAt
  {
    var title := Supplied(updates, TitleField);
    var description := Supplied(updates, DescriptionField);
    var important := Supplied(updates, ImportantField);
    var urgent := Supplied(updates, UrgentField);
    var deadline := Supplied(updates, DeadlineField);
    var completed := Supplied(updates, CompletedField);
    t.(title := if title.Some? && title.value.SetTitle? then title.value.title else t.title,
       description := if description.Some? && description.value.SetDescription? then description.value.description else t.description,
       isImportant := if important.Some? && important.value.SetImportant? then important.value.isImportant else t.isImportant,
       isUrgent := if urgent.Some? && urgent.value.SetUrgent? then urgent.value.isUrgent else t.isUrgent,
       deadlineAt := if deadline.Some? && deadline.value.SetDeadline? then deadline.value.deadlineAt else t.deadlineAt,
       completed := if completed.Some? && completed.value.SetCompleted? then completed.value.completed else t.completed)
  }

  /** Assigning one more supplied field to a patched task is patching with
      that field appended: the `setattr` loop computes `Patched`. */
  lemma {:induction false} PatchedStep(t: Task, updates: seq<FieldValue>, f: FieldValue)
    ensures Patched(t, updates + [f]) == Assign(Patched(t, updates), f)
  {
    var u := updates + [f];
    assert u[..|u| - 1] == updates;
    forall field ensures Supplied(u, field) == if FieldOf(f) == field then Some(f) else Supplied(updates, field) {
    }
  }

  /** The update mentions the importance or the urgency flag. */
  predicate TouchesFlags(updates: seq<FieldValue>) {
    Supplied(updates, ImportantField).Some? || Supplied(updates, UrgentField).Some?
  }

  /** The stored task after `update_task`: patched, and reclassified only when
      a flag was supplied. */
  function Updated(t: Task, updates: seq<FieldValue>): (r: Task)
    ensures r.id == t.id && r.createdAt == t.createdAt && r.completedAt == t.completedAt
    ensures TouchesFlags(updates) ==> Classified(r)
    ensures !TouchesFlags(updates) ==> r.quadrant == t.quadrant
  {
    var p := Patched(t, updates);
    if TouchesFlags(updates) then p.(quadrant := Utils.DefineQuadrant(p.isImportant, p.isUrgent)) else p
  }

  /** Fields the update does not supply keep their values. */
  lemma UpdateKeepsUnsuppliedFields(t: Task, updates: seq<FieldValue>)
    ensures Supplied(updates, TitleField).None? ==> Updated(t, updates).title == t.title
    ensures Supplied(updates, DescriptionField).None? ==> Updated(t, updates).description == t.description
    ensures Supplied(updates, ImportantField).None? ==> Updated(t, updates).isImportant == t.isImportant
    ensures Supplied(updates, UrgentField).None? ==> Updated(t, updates).isUrgent == t.isUrgent
    ensures Supplied(updates, DeadlineField).None? ==> Updated(t, updates).deadlineAt == t.deadlineAt
    ensures Supplied(updates, CompletedField).None? ==> Updated(t, updates).completed == t.completed
  {
  }

  /** Recomputing the quadrant only when a flag is supplied is enough to keep
      every stored task classified by its flags. */
  lemma UpdateKeepsClassified(t: Task, updates: seq<FieldValue>)
    requires Classified(t)
    ensures Classified(Updated(t, updates))
  {
  }

  /** The request validation of `TaskUpdate`: supplied titles and
      descriptions respect the length limits. */
  predicate ValidUpdate(updates: seq<FieldValue>) {
    forall i :: 0 <= i < |updates| ==>
      (updates[i].SetTitle? ==> ValidTitle(updates[i].title))
      && (updates[i].SetDescription? ==> ValidDescription(updates[i].description))
  }

  /** The `setattr` loop of `update_task` over the supplied fields, in
      order: it yields the patched task. */
  method ApplyUpdates(stored: Task, updates: seq<FieldValue>) returns (task: Task)
    ensures task == Patched(stored, updates)
  {
    task := stored;
    for i := 0 to |updates|
      invariant task == Patched(stored, updates[..i])
    {
      PatchedStep(stored, updates[..i], updates[i]);
      PrefixStep(updates, i);
      task := Assign(task, updates[i]);
    }
    assert updates[..|updates|] == updates;
  }

  /** The row `delete_task` answers with. */
  datatype Deleted = Deleted(id: int, title: string)

  /** The tasks table. Ids are handed out from `nextId` upwards, as the
      table's autoincrement key is. */
  class TaskStore {
    var rows: map<int, Task>
    var nextId: int

    /** Every row is stored under its own id, below `nextId`, and classified
        by its flags. */
    ghost predicate Valid()
      reads this
    {
      forall id :: id in rows ==> rows[id].id == id && id < nextId && Classified(rows[id])
    }

    constructor ()
      ensures Valid() && rows == map[] && nextId == 1
    {
      rows := map[];
      nextId := 1;
    }

    /** `create_task`: the quadrant from the two flags, not completed, title,
        description and flags copied; the deadline of the request is not
        passed on. `now` is the creation time the database fills in. */
    method CreateTask(input: TaskCreate, now: int) returns (r: Response<Task>)
      requires Valid()
      modifies this
      ensures Valid()
      ensures !ValidTitle(input.title) || !ValidDescription(input.description) ==>
        r == Fail(UnprocessableEntity) && rows == old(rows) && nextId == old(nextId)
      ensures ValidTitle(input.title) && ValidDescription(input.description) ==>
        && r.Ok?
        && r.value.id == old(nextId) && r.value.id !in old(rows)
        && rows == old(rows)[r.value.id := r.value]
        && r.value.quadrant == Utils.DefineQuadrant(input.isImportant, input.isUrgent)
        && !r.value.completed && r.value.completedAt.None?
        && r.value.title == input.title && r.value.description == input.description
        && r.value.isImportant == input.isImportant && r.value.isUrgent == input.isUrgent
        && r.value.deadlineAt.None? && r.value.createdAt == now
    {
      if !ValidTitle(input.title) || !ValidDescription(input.description) {
        return Fail(UnprocessableEntity);
      }
      var quadrant := Utils.DefineQuadrant(input.isImportant, input.isUrgent);
      var task := Task(nextId, input.title, input.description, input.isImportant, input.isUrgent,
                       None, quadrant, false, now, None);
      rows := rows[nextId := task];
      nextId := nextId + 1;
      return Ok(task);
    }

    /** `update_task`: 422 for a body outside the schema limits, checked
        before the handler runs; then 404 for an unknown id; otherwise every
        supplied field is written, and the quadrant is recomputed from the
        flags only when one of them was supplied. */
    method UpdateTask(taskId: int, updates: seq<FieldValue>) returns (r: Response<Task>)
      requires Valid()
      modifies this
      ensures Valid() && nextId == old(nextId)
      ensures !ValidUpdate(updates) ==> r == Fail(UnprocessableEntity) && rows == old(rows)
      ensures ValidUpdate(updates) && taskId !in old(rows) ==> r == Fail(NotFound) && rows == old(rows)
      ensures ValidUpdate(updates) && taskId in old(rows) ==>
        r == Ok(Updated(old(rows)[taskId], updates)) && rows == old(rows)[taskId := r.value]
    {
      // The request body is validated against its schema before the handler runs.
      if !ValidUpdate(updates) {
        return Fail(UnprocessableEntity);
      }
      if taskId !in rows {
        return Fail(NotFound);
      }
      var stored := rows[taskId];
      var task := ApplyUpdates(stored, updates);
      if TouchesFlags(updates) {
        task := task.(quadrant := Utils.DefineQuadrant(task.isImportant, task.isUrgent));
      }
      UpdateKeepsClassified(stored, updates);
      rows := rows[taskId := task];
      return Ok(task);
    }

    /** `delete_task`: 404 for an unknown id; otherwise the row is removed and
        its id and title are returned. */
    method DeleteTask(taskId: int) returns (r: Response<Deleted>)
      requires Valid()
      modifies this
      ensures Valid() && nextId == old(nextId)
      ensures taskId !in old(rows) ==> r == Fail(NotFound) && rows == old(rows)
      ensures taskId in old(rows) ==>
        r == Ok(Deleted(taskId, old(rows)[taskId].title)) && rows == old(rows) - {taskId}
    {
      if taskId !in rows {
        return Fail(NotFound);
      }
      var task := rows[taskId];
      var info := Deleted(task.id, task.title);
      rows := rows - {taskId};
      return Ok(info);
    }

    /** `complete_task`: 404 for an unknown id; otherwise the task is marked
        completed at `now`, everything else unchanged. */
    method CompleteTask(taskId: int, now: int) returns (r: Response<Task>)
      requires Valid()
      modifies this
      ensures Valid() && nextId == old(nextId)
      ensures taskId !in old(rows) ==> r == Fail(NotFound) && rows == old(rows)
      ensures taskId in old(rows) ==>
        r == Ok(old(rows)[taskId].(completed := true, completedAt := Some(now)))
        && rows == old(rows)[taskId := r.value]
    {
      if taskId !in rows {
        return Fail(NotFound);
      }
      var task := rows[taskId];
      task := task.(completed := true, completedAt := Some(now));
      rows := rows[taskId := task];
      return Ok(task);
    }
  }
}
