/** The task record of the to-do list, the store's invariants, and the
    sequence operations (filter, find, maximum) that the store and the
    views are built from. */
module Tasks {

  datatype Option<T> = None | Some(value: T)

  /** The three values of the priority select. */
  datatype Priority = Low | Medium | High

  /** The status text a task carries beside its completed flag. */
  datatype Status = Pending | Completed

  datatype Task = Task(
    id: nat,
    title: string,
    description: string,
    priority: Priority,
    status: Status,
    date: string,
    time: string,
    completed: bool)

  /** The status that mirrors a completed flag: `completed ? "completed" : "pending"`. */
  function StatusOf(completed: bool): (st: Status)
    ensures st == Completed <==> completed
  {
    if completed then Completed else Pending
  }

  predicate Mirrored(t: Task) {
    t.status == StatusOf(t.completed)
  }

  predicate AllMirrored(s: seq<Task>) {
    forall i :: 0 <= i < |s| ==> Mirrored(s[i])
  }

  predicate UniqueIds(s: seq<Task>) {
    forall i, j :: 0 <= i < j < |s| ==> s[i].id != s[j].id
  }

  /** Every id present is below the counter, so the counter is a fresh id. */
  predicate Below(s: seq<Task>, counter: nat) {
    forall i :: 0 <= i < |s| ==> s[i].id < counter
  }

  /** The three invariants of the task store. */
  predicate WellFormed(s: seq<Task>, counter: nat) {
    UniqueIds(s) && Below(s, counter) && AllMirrored(s)
  }

  /** `Array.prototype.filter`: the elements of `s` that satisfy `p`, in order. */
  function Filter(p: Task -> bool, s: seq<Task>): (r: seq<Task>)
    ensures |r| <= |s|
    ensures forall x :: x in r <==> x in s && p(x)
  {
    if s == [] then []
    else (if p(s[0]) then [s[0]] else []) + Filter(p, s[1..])
  }

  /** Filtering distributes over concatenation: the kept elements stay in
      their original relative order. */
  lemma {:induction false} FilterAppend(p: Task -> bool, a: seq<Task>, b: seq<Task>)
    ensures Filter(p, a + b) == Filter(p, a) + Filter(p, b)
  {
    if a == [] {
      assert a + b == b;
    } else {
      assert (a + b)[0] == a[0];
      assert (a + b)[1..] == a[1..] + b;
      FilterAppend(p, a[1..], b);
    }
  }

  /** Filtering keeps everything exactly when every element satisfies `p`. */
  lemma {:induction false} FilterKeepsAll(p: Task -> bool, s: seq<Task>)
    ensures Filter(p, s) == s <==> forall i :: 0 <= i < |s| ==> p(s[i])
    ensures |Filter(p, s)| == |s| <==> forall i :: 0 <= i < |s| ==> p(s[i])
  {
    if s != [] {
      FilterKeepsAll(p, s[1..]);
      assert forall i :: 0 < i < |s| ==> s[1..][i - 1] == s[i];
    }
  }

  /** A predicate and its negation split a sequence: the two filtered parts
      add up to the whole. */
  lemma {:induction false} FilterSplit(p: Task -> bool, q: Task -> bool, s: seq<Task>)
    requires forall x :: q(x) == !p(x)
    ensures |Filter(p, s)| + |Filter(q, s)| == |s|
  {
    if s != [] {
      FilterSplit(p, q, s[1..]);
    }
  }

  /** `Array.prototype.find` by id, as the index of the first task whose id matches. */
  function FindIndex(s: seq<Task>, id: nat): (r: Option<nat>)
    ensures r.Some? ==> r.value < |s| && s[r.value].id == id
    ensures r.Some? ==> forall j :: 0 <= j < r.value ==> s[j].id != id
    ensures r.None? <==> forall j :: 0 <= j < |s| ==> s[j].id != id
  {
    if s == [] then None
    else if s[0].id == id then Some(0)
    else match FindIndex(s[1..], id)
      case None => None
      case Some(k) => Some(k + 1)
  }

  /** `Math.max(...s.map(t => t.id))` for a non-empty list. */
  function MaxId(s: seq<Task>): (m: nat)
    requires |s| > 0
    ensures exists i :: 0 <= i < |s| && s[i].id == m
    ensures forall i :: 0 <= i < |s| ==> s[i].id <= m
  {
    if |s| == 1 then s[0].id
    else
      var rest := MaxId(s[1..]);
      assert forall i :: 1 <= i < |s| ==> s[i] == s[1..][i - 1];
      if s[0].id >= rest then s[0].id else rest
  }
}
