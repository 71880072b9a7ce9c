/** The derived views of the task list: the progress percentage, the three
    counters, the two "first three incomplete" panels and the filtered full
    list. Each is a pure function of the list; the markup built from them is
    not modelled. */
module Views {
  import opened Tasks

  /** `tasks.filter(t => !t.completed)` */
  function Incomplete(s: seq<Task>): (r: seq<Task>)
    ensures forall t :: t in r <==> t in s && !t.completed
  {
    Filter((t: Task) => !t.completed, s)
  }

  /** `tasks.filter(t => t.completed)` */
  function Done(s: seq<Task>): (r: seq<Task>)
    ensures forall t :: t in r <==> t in s && t.completed
  {
    Filter((t: Task) => t.completed, s)
  }

  /** `tasks.filter(t => t.priority === "high")` */
  function HighPriority(s: seq<Task>): (r: seq<Task>)
    ensures forall t :: t in r <==> t in s && t.priority == High
  {
    Filter((t: Task) => t.priority == High, s)
  }

  function CompletedCount(s: seq<Task>): nat { |Done(s)| }

  function PendingCount(s: seq<Task>): nat { |Incomplete(s)| }

  function HighPriorityCount(s: seq<Task>): (n: nat)
    ensures n <= |s|
  {
    |HighPriority(s)|
  }

  /** Every task is either completed or pending, so the two counters add up
      to the length of the list. */
  lemma CountsPartition(s: seq<Task>)
    ensures CompletedCount(s) + PendingCount(s) == |s|
  {
    FilterSplit((t: Task) => t.completed, (t: Task) => !t.completed, s);
  }

  lemma MulLe(a: int, b: int, d: int)
    requires a <= b && 0 <= d
    ensures a * d <= b * d
  {
  }

  /** `n / d` is the unique `q` with `q * d <= n < q * d + d`. */
  lemma DivUnique(n: int, d: int, q: int)
    requires d > 0 && q * d <= n < q * d + d
    ensures n / d == q
  {
    var k := n / d;
    assert k * d <= n < k * d + d;
    if k < q {
      MulLe(k + 1, q, d);
    } else if k > q {
      MulLe(q + 1, k, d);
    }
  }

  /** `Math.round((completed / total) * 100)` in exact arithmetic: the
      integer nearest to 100 * completed / total, halves rounded up. */
  function RoundPercent(completed: nat, total: nat): (r: nat)
    requires 0 < total && completed <= total
    ensures r <= 100
    ensures (2 * r - 1) * total <= 200 * completed < (2 * r + 1) * total
  {
    var n, d := 200 * completed + total, 2 * total;
    var q := n / d;
    assert q * d <= n < q * d + d;
    assert q <= 100 by {
      if q > 100 {
        MulLe(101, q, d);
      }
    }
    assert (2 * q - 1) * total == q * d - total;
    assert (2 * q + 1) * total == q * d + total;
    q
  }

  /** The rounded percentage reaches 100 exactly when the completed share
      is at least 99.5%. */
  lemma RoundPercentHundred(completed: nat, total: nat)
    requires 0 < total && completed <= total
    ensures RoundPercent(completed, total) == 100 <==> 199 * total <= 200 * completed
  {
    if 199 * total <= 200 * completed {
      DivUnique(200 * completed + total, 2 * total, 100);
    }
  }

  /** The progress bar: 0 for an empty list, otherwise the rounded
      percentage of completed tasks. */
  function Progress(s: seq<Task>): (r: nat)
    ensures r <= 100
    ensures s == [] ==> r == 0
  {
    if |s| > 0 then RoundPercent(CompletedCount(s), |s|) else 0
  }

  /** A non-empty list whose tasks are all completed shows 100%. */
  lemma ProgressAllDone(s: seq<Task>)
    requires |s| > 0
    requires forall i :: 0 <= i < |s| ==> s[i].completed
    ensures Progress(s) == 100
  {
    FilterKeepsAll((t: Task) => t.completed, s);
    RoundPercentHundred(|s|, |s|);
  }

  /** For fewer than 200 tasks, 100% is shown exactly when every task is
      completed. */
  lemma ProgressHundredIff(s: seq<Task>)
    requires 0 < |s| < 200
    ensures Progress(s) == 100 <==> forall i :: 0 <= i < |s| ==> s[i].completed
  {
    FilterKeepsAll((t: Task) => t.completed, s);
    RoundPercentHundred(CompletedCount(s), |s|);
  }

  /** From 200 tasks on, a single pending task is rounded away: the bar
      reads 100% although not every task is completed. */
  lemma ProgressRoundsUpWithOnePending(s: seq<Task>)
    requires |s| >= 200
    requires CompletedCount(s) == |s| - 1
    ensures Progress(s) == 100
    ensures exists i :: 0 <= i < |s| && !s[i].completed
  {
    FilterKeepsAll((t: Task) => t.completed, s);
    RoundPercentHundred(|s| - 1, |s|);
  }

  /** Two tasks with one completed show 50%. */
  lemma ProgressHalf(s: seq<Task>)
    requires |s| == 2 && CompletedCount(s) == 1
    ensures Progress(s) == 50
  {
    DivUnique(200 + 2, 4, 50);
  }

  /** `.slice(0, n)`: the first `n` elements, or all of them if fewer. */
  function Take(s: seq<Task>, n: nat): (r: seq<Task>)
    ensures |r| == if n <= |s| then n else |s|
    ensures r == s[..|r|]
  {
    if n <= |s| then s[..n] else s
  }

  /** The active-tasks and focus panels: `tasks.filter(t => !t.completed).slice(0, 3)`. */
  function FirstIncomplete(s: seq<Task>): seq<Task> {
    Take(Incomplete(s), 3)
  }

  /** The panels hold min(3, #incomplete) tasks, all incomplete, and they
      are the first incomplete tasks in insertion order. */
  lemma FirstIncompleteShape(s: seq<Task>)
    ensures |FirstIncomplete(s)| == if PendingCount(s) < 3 then PendingCount(s) else 3
    ensures FirstIncomplete(s) == Incomplete(s)[..|FirstIncomplete(s)|]
    ensures forall t :: t in FirstIncomplete(s) ==> t in s && !t.completed
  {
    var r := FirstIncomplete(s);
    forall t | t in r ensures t in s && !t.completed {
      assert t in Incomplete(s);
    }
  }

  /** The value of the filter select that selects task `t`. */
  predicate Selects(filter: string, t: Task) {
    if filter == "pending" then !t.completed
    else if filter == "completed" then t.completed
    else if filter == "high" then t.priority == High
    else true
  }

  /** The full list as the filter select narrows it. */
  function FilteredTasks(s: seq<Task>, filter: string): seq<Task> {
    if filter == "pending" then Incomplete(s)
    else if filter == "completed" then Done(s)
    else if filter == "high" then HighPriority(s)
    else s
  }

  /** The filtered list keeps exactly the tasks the filter selects. */
  lemma FilteredTasksMembers(s: seq<Task>, filter: string)
    ensures forall t :: t in FilteredTasks(s, filter) <==> t in s && Selects(filter, t)
  {
  }

  /** A filter value other than the three named ones shows the whole list. */
  lemma FilteredTasksOther(s: seq<Task>, filter: string)
    requires filter != "pending" && filter != "completed" && filter != "high"
    ensures FilteredTasks(s, filter) == s
    ensures forall t :: Selects(filter, t)
  {
  }

  /** The filtered list preserves insertion order: filtering a concatenation
      is the concatenation of the filtered parts, and a single task is kept
      exactly when the filter selects it. */
  lemma {:induction false} FilteredTasksOrder(a: seq<Task>, b: seq<Task>, filter: string)
    ensures FilteredTasks(a + b, filter) == FilteredTasks(a, filter) + FilteredTasks(b, filter)
  {
    if filter == "pending" {
      FilterAppend((t: Task) => !t.completed, a, b);
    } else if filter == "completed" {
      FilterAppend((t: Task) => t.completed, a, b);
    } else if filter == "high" {
      FilterAppend((t: Task) => t.priority == High, a, b);
    }
  }

  lemma FilteredTasksSingle(t: Task, filter: string)
    ensures FilteredTasks([t], filter) == if Selects(filter, t) then [t] else []
  {
    assert [t][1..] == [];
  }
}
