/** Counters behind the statistics endpoints: how many flags are set, how
    many labels equal a given quadrant, and the record the endpoints return. */
module Counting {

  const QuadrantLabels: set<string> := {"Q1", "Q2", "Q3", "Q4"}
  const CompletedKey: string := "completed"
  const PendingKey: string := "pending"

  /** `{"total_tasks": ..., "by_quadrant": {...}, "by_status": {...}}` */
  datatype TaskStats = TaskStats(totalTasks: nat, byQuadrant: map<string, nat>, byStatus: map<string, nat>)

  /** Number of set flags, counted from the front as a loop over the list does. */
  function CountTrue(flags: seq<bool>): (n: nat)
    ensures n <= |flags|
  {
    if flags == [] then 0
    else CountTrue(flags[..|flags| - 1]) + (if flags[|flags| - 1] then 1 else 0)
  }

  /** Number of entries of `labels` equal to `target`. */
  function CountLabel(labels: seq<string>, target: string): (n: nat)
    ensures n <= |labels|
  {
    if labels == [] then 0
    else CountLabel(labels[..|labels| - 1], target) + (if labels[|labels| - 1] == target then 1 else 0)
  }

  /** One more entry read by a counting loop adds at most one. */
  lemma CountTrueStep(flags: seq<bool>, i: nat)
    requires i < |flags|
    ensures CountTrue(flags[..i + 1]) == CountTrue(flags[..i]) + (if flags[i] then 1 else 0)
  {
    assert flags[..i + 1][..i] == flags[..i];
  }

  /** A loop's prefix grows by the element it has just read. */
  lemma PrefixStep<T>(s: seq<T>, i: nat)
    requires i < |s|
    ensures s[..i + 1] == s[..i] + [s[i]]
  {
  }

  /** Positions at which a flag is set. */
  function SetPositions(flags: seq<bool>): set<nat> {
    set i: nat | i < |flags| && flags[i]
  }

  /** The counter equals the number of positions whose flag is set. */
  lemma {:induction false} CountTrueIsCardinality(flags: seq<bool>)
    ensures CountTrue(flags) == |SetPositions(flags)|
  {
    if flags != [] {
      var n := |flags| - 1;
      var front := flags[..n];
      CountTrueIsCardinality(front);
      if flags[n] {
        assert SetPositions(flags) == SetPositions(front) + {n};
        assert n !in SetPositions(front);
      } else {
        assert SetPositions(flags) == SetPositions(front);
      }
    }
  }

  /** A flag list that is set wherever another one is has at least as many flags set. */
  lemma {:induction false} CountTrueMonotone(a: seq<bool>, b: seq<bool>)
    requires |a| == |b|
    requires forall i :: 0 <= i < |a| && a[i] ==> b[i]
    ensures CountTrue(a) <= CountTrue(b)
  {
    if a != [] {
      var n := |a| - 1;
      CountTrueMonotone(a[..n], b[..n]);
    }
  }

  /** No flag set means a zero count, and conversely. */
  lemma {:induction false} CountTrueZero(flags: seq<bool>)
    ensures CountTrue(flags) == 0 <==> forall i :: 0 <= i < |flags| ==> !flags[i]
  {
    if flags != [] {
      var n := |flags| - 1;
      CountTrueZero(flags[..n]);
      assert forall i :: 0 <= i < n ==> flags[..n][i] == flags[i];
    }
  }

  /** The negated flags: the "pending" side of a completion flag list. */
  function Negated(flags: seq<bool>): (r: seq<bool>)
    ensures |r| == |flags|
    ensures forall i :: 0 <= i < |flags| ==> r[i] == !flags[i]
  {
    seq(|flags|, i requires 0 <= i < |flags| => !flags[i])
  }

  /** Every entry is counted on exactly one side: set plus unset is the length. */
  lemma {:induction false} SetPlusUnset(flags: seq<bool>)
    ensures CountTrue(flags) + CountTrue(Negated(flags)) == |flags|
  {
    if flags != [] {
      var n := |flags| - 1;
      SetPlusUnset(flags[..n]);
      assert Negated(flags)[..n] == Negated(flags[..n]);
    }
  }

  /** The sum of the four quadrant counters never exceeds the number of
      entries, and reaches it exactly when every entry is a valid label. */
  lemma {:induction false} QuadrantCountsSum(labels: seq<string>)
    ensures CountLabel(labels, "Q1") + CountLabel(labels, "Q2") + CountLabel(labels, "Q3") + CountLabel(labels, "Q4") <= |labels|
    ensures (CountLabel(labels, "Q1") + CountLabel(labels, "Q2") + CountLabel(labels, "Q3") + CountLabel(labels, "Q4") == |labels|)
            <==> (forall i :: 0 <= i < |labels| ==> labels[i] in QuadrantLabels)
  {
    if labels != [] {
      var n := |labels| - 1;
      QuadrantCountsSum(labels[..n]);
      assert forall i :: 0 <= i < n ==> labels[..n][i] == labels[i];
    }
  }

  /** The two counter dictionaries of a statistics answer hold the counts
      of `labels` (one key per valid quadrant) and of `completed` (one key
      per status). */
  predicate Tallied(byQuadrant: map<string, nat>, byStatus: map<string, nat>, labels: seq<string>, completed: seq<bool>) {
    && byQuadrant.Keys == QuadrantLabels
    && (forall q :: q in byQuadrant ==> byQuadrant[q] == CountLabel(labels, q))
    && byStatus.Keys == {CompletedKey, PendingKey}
    && byStatus[CompletedKey] == CountTrue(completed)
    && byStatus[PendingKey] == CountTrue(Negated(completed))
  }

  /** What the statistics endpoints promise about their answer for a task
      list with quadrant labels `labels` and completion flags `completed`. */
  predicate Describes(stats: TaskStats, labels: seq<string>, completed: seq<bool>) {
    && |completed| == |labels|
    && stats.totalTasks == |labels|
    && Tallied(stats.byQuadrant, stats.byStatus, labels, completed)
  }

  /** The freshly initialised dictionaries tally the empty list. */
  lemma TalliedInitially()
    ensures Tallied(map["Q1" := 0, "Q2" := 0, "Q3" := 0, "Q4" := 0], map[CompletedKey := 0, PendingKey := 0], [], [])
  {
    assert CompletedKey[0] != PendingKey[0];
  }

  /** One iteration of a counting loop: bump the quadrant counter when the
      label is one of its keys, and bump exactly one status counter. */
  lemma TallyOneMore(byQuadrant: map<string, nat>, byStatus: map<string, nat>, labels: seq<string>, completed: seq<bool>,
                     quadrant: string, isCompleted: bool)
    requires Tallied(byQuadrant, byStatus, labels, completed)
    ensures Tallied(
      if quadrant in byQuadrant then byQuadrant[quadrant := byQuadrant[quadrant] + 1] else byQuadrant,
      if isCompleted then byStatus[CompletedKey := byStatus[CompletedKey] + 1]
      else byStatus[PendingKey := byStatus[PendingKey] + 1],
      labels + [quadrant], completed + [isCompleted])
  {
    assert CompletedKey[0] != PendingKey[0];
    var ls := labels + [quadrant];
    var cs := completed + [isCompleted];
    assert ls[..|labels|] == labels;
    assert cs[..|completed|] == completed;
    assert Negated(cs)[..|completed|] == Negated(completed);
    if quadrant in byQuadrant {
      assert byQuadrant[quadrant := byQuadrant[quadrant] + 1].Keys == byQuadrant.Keys;
    }
  }

  /** The counting identities of a statistics answer: completed plus pending
      is the total; the quadrant counters add up to at most the total, and to
      exactly the total when every label is valid. */
  lemma StatsIdentities(stats: TaskStats, labels: seq<string>, completed: seq<bool>)
    requires Describes(stats, labels, completed)
    ensures stats.byStatus[CompletedKey] + stats.byStatus[PendingKey] == stats.totalTasks
    ensures stats.byQuadrant["Q1"] + stats.byQuadrant["Q2"] + stats.byQuadrant["Q3"] + stats.byQuadrant["Q4"] <= stats.totalTasks
    ensures (stats.byQuadrant["Q1"] + stats.byQuadrant["Q2"] + stats.byQuadrant["Q3"] + stats.byQuadrant["Q4"] == stats.totalTasks)
            <==> (forall i :: 0 <= i < |labels| ==> labels[i] in QuadrantLabels)
  {
    SetPlusUnset(completed);
    QuadrantCountsSum(labels);
  }
}
