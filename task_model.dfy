/** The persisted task (the `tasks` table): a value record. Timestamps are
    whole seconds since the epoch in UTC. */
module TaskModel {
  import opened Results

  datatype Task = Task(
    id: int,
    title: string,
    description: Option<string>,
    isImportant: bool,
    deadlineAt: Option<int>,
    quadrant: string,
    completed: bool,
    createdAt: int,
    completedAt: Option<int>,
    userId: int)

  /** The quadrant column of every task, in list order. */
  function Quadrants(tasks: seq<Task>): (r: seq<string>)
    ensures |r| == |tasks|
    ensures forall i :: 0 <= i < |tasks| ==> r[i] == tasks[i].quadrant
  {
    seq(|tasks|, i requires 0 <= i < |tasks| => tasks[i].quadrant)
  }

  /** The completion flag of every task, in list order. */
  function CompletedFlags(tasks: seq<Task>): (r: seq<bool>)
    ensures |r| == |tasks|
    ensures forall i :: 0 <= i < |tasks| ==> r[i] == tasks[i].completed
  {
    seq(|tasks|, i requires 0 <= i < |tasks| => tasks[i].completed)
  }
}
