/** The classification rules: urgency from a deadline, the Eisenhower
    quadrant from importance and urgency, and the response view of a task. */
module Utils {
  import opened Results
  import opened TaskModel
  import opened Counting

  const SecondsPerDay: int := 86400
  /** A task is urgent when its deadline is at most this many whole days away. */
  const UrgentWithinDays: int := 3

  /** Whole days in a signed duration of `seconds`, rounded toward negative
      infinity, as Python's `timedelta.days`. */
  function WholeDays(seconds: int): (days: int)
    ensures days * SecondsPerDay <= seconds < (days + 1) * SecondsPerDay
  {
    seconds / SecondsPerDay
  }

  /** `calculate_urgency`: no deadline is never urgent; otherwise urgent when
      the deadline lies less than four full days after `now`. */
  function CalculateUrgency(deadline: Option<int>, now: int): (urgent: bool)
    ensures deadline.None? ==> !urgent
    ensures deadline.Some? ==> (urgent <==> deadline.value - now < (UrgentWithinDays + 1) * SecondsPerDay)
  {
    match deadline
    case None => false
    case Some(d) => WholeDays(d - now) <= UrgentWithinDays
  }

  /** Boundary cases of the day truncation. */
  lemma UrgencyBoundaries(now: int)
    ensures CalculateUrgency(Some(now + 3 * SecondsPerDay + 23 * 3600), now)
    ensures CalculateUrgency(Some(now + 3 * SecondsPerDay), now)
    ensures !CalculateUrgency(Some(now + 4 * SecondsPerDay), now)
    ensures CalculateUrgency(Some(now - 1), now)
  {
  }

  /** An earlier deadline is at least as urgent as a later one. */
  lemma UrgencyMonotoneInDeadline(earlier: int, later: int, now: int)
    requires earlier <= later
    ensures CalculateUrgency(Some(later), now) ==> CalculateUrgency(Some(earlier), now)
  {
  }

  /** Once urgent, a task stays urgent as time passes. */
  lemma UrgencyMonotoneInTime(deadline: int, now: int, later: int)
    requires now <= later
    ensures CalculateUrgency(Some(deadline), now) ==> CalculateUrgency(Some(deadline), later)
  {
  }

  /** `define_quadrant`: the four-case table. */
  function DefineQuadrant(isImportant: bool, isUrgent: bool): (q: string)
    ensures q in QuadrantLabels
  {
    if isImportant && isUrgent then "Q1"
    else if isImportant && !isUrgent then "Q2"
    else if !isImportant && isUrgent then "Q3"
    else "Q4"
  }

  /** Reads a label back as its (important, urgent) pair; `None` for
      anything that is not one of the four labels. */
  function QuadrantFlags(q: string): (flags: Option<(bool, bool)>)
    ensures flags.Some? <==> q in QuadrantLabels
  {
    if q == "Q1" then Some((true, true))
    else if q == "Q2" then Some((true, false))
    else if q == "Q3" then Some((false, true))
    else if q == "Q4" then Some((false, false))
    else None
  }

  /** The classification table, case by case. */
  lemma QuadrantTable()
    ensures DefineQuadrant(true, true) == "Q1"
    ensures DefineQuadrant(true, false) == "Q2"
    ensures DefineQuadrant(false, true) == "Q3"
    ensures DefineQuadrant(false, false) == "Q4"
  {
  }

  /** Reading a label back recovers the flags it was computed from, and every
      valid label is the classification of the flags it reads back as. */
  lemma QuadrantRoundTrip(isImportant: bool, isUrgent: bool, q: string)
    ensures QuadrantFlags(DefineQuadrant(isImportant, isUrgent)) == Some((isImportant, isUrgent))
    ensures q in QuadrantLabels ==> DefineQuadrant(QuadrantFlags(q).value.0, QuadrantFlags(q).value.1) == q
  {
  }

  /** Different (important, urgent) pairs get different labels. */
  lemma DefineQuadrantInjective(i1: bool, u1: bool, i2: bool, u2: bool)
    ensures DefineQuadrant(i1, u1) == DefineQuadrant(i2, u2) <==> i1 == i2 && u1 == u2
  {
    QuadrantRoundTrip(i1, u1, "");
    QuadrantRoundTrip(i2, u2, "");
  }

  /** `TaskResponse`: the stored fields plus the two derived ones. */
  datatype TaskResponse = TaskResponse(
    id: int,
    title: string,
    description: Option<string>,
    isImportant: bool,
    deadlineAt: Option<int>,
    quadrant: string,
    completed: bool,
    createdAt: int,
    completedAt: Option<int>,
    isUrgent: bool,
    daysUntilDeadline: Option<int>)

  /** `prepare_task_to_response` as written: the urgency and the days until
      the deadline each read the clock themselves, at `urgencyNow` and at
      `daysNow`. */
  function ResponseWithClockReads(task: Task, urgencyNow: int, daysNow: int): (r: TaskResponse)
    ensures r.daysUntilDeadline.None? <==> task.deadlineAt.None?
    ensures r.daysUntilDeadline.Some? ==>
      r.daysUntilDeadline.value * SecondsPerDay <= task.deadlineAt.value - daysNow
        < (r.daysUntilDeadline.value + 1) * SecondsPerDay
    ensures r.isUrgent == CalculateUrgency(task.deadlineAt, urgencyNow)
    ensures r.id == task.id && r.title == task.title && r.description == task.description
    ensures r.isImportant == task.isImportant && r.deadlineAt == task.deadlineAt
    ensures r.quadrant == task.quadrant && r.completed == task.completed
    ensures r.createdAt == task.createdAt && r.completedAt == task.completedAt
  {
    var isUrgent := CalculateUrgency(task.deadlineAt, urgencyNow);
    var daysUntil := if task.deadlineAt.Some? then Some(WholeDays(task.deadlineAt.value - daysNow)) else None;
    TaskResponse(
      task.id, task.title, task.description, task.isImportant, task.deadlineAt,
      task.quadrant, task.completed, task.createdAt, task.completedAt,
      isUrgent, daysUntil)
  }

  /** The two clock reads one second apart, across the four-day boundary:
      the response says "not urgent" and "3 days left" at once. */
  lemma ClockReadsCanDisagree()
    ensures var task := Task(1, "task", None, true, Some(4 * SecondsPerDay), "Q2", false, 0, None, 1);
            var r := ResponseWithClockReads(task, 0, 1);
            !r.isUrgent && r.daysUntilDeadline == Some(3)
  {
  }

  /** `prepare_task_to_response` with one clock read `now` for both derived
      fields: the urgency flag then agrees with the days until the deadline. */
  function PrepareTaskToResponse(task: Task, now: int): (r: TaskResponse)
    ensures r.daysUntilDeadline.None? <==> task.deadlineAt.None?
    ensures r.daysUntilDeadline.Some? ==>
      r.daysUntilDeadline.value * SecondsPerDay <= task.deadlineAt.value - now
        < (r.daysUntilDeadline.value + 1) * SecondsPerDay
    ensures r.isUrgent <==> r.daysUntilDeadline.Some? && r.daysUntilDeadline.value <= UrgentWithinDays
    ensures r.id == task.id && r.title == task.title && r.description == task.description
    ensures r.isImportant == task.isImportant && r.deadlineAt == task.deadlineAt
    ensures r.quadrant == task.quadrant && r.completed == task.completed
    ensures r.createdAt == task.createdAt && r.completedAt == task.completedAt
  {
    ResponseWithClockReads(task, now, now)
  }
}
