/** The task store: the list of tasks and the id counter that the page keeps
    as global state, with the operations that change them. The pure
    functions describe each operation's effect on the list; the class holds
    the state and its methods perform the updates. */
module Store {
  import opened Tasks

  /** What the task form hands to the add operation; the description is
      optional, as the form itself does not send one. */
  datatype TaskData = TaskData(
    title: string,
    description: Option<string>,
    priority: Priority,
    date: string,
    time: string)

  /** The record the add operation builds: the given id, pending and not
      completed, and an empty description when none was given. */
  function NewTask(data: TaskData, id: nat): Task {
    Task(id, data.title,
         match data.description case Some(d) => d case None => "",
         data.priority, Pending, data.date, data.time, false)
  }

  /** The two sample tasks seeded into an empty store; each task's date is
      read from the clock separately, so the two dates are two parameters. */
  function Seed(firstDate: string, secondDate: string): (s: seq<Task>)
    ensures |s| == 2 && s[0].id == 1 && s[1].id == 2
    ensures forall i :: 0 <= i < |s| ==> !s[i].completed && s[i].status == Pending
    ensures WellFormed(s, 3)
  {
    [ Task(1, "Plan week study", "Make a schedule for DSA & Web dev", High,
           Pending, firstDate, "09:00", false),
      Task(2, "Finish project README", "Write docs before push", Medium,
           Pending, secondDate, "14:00", false) ]
  }

  /** A completion toggle: the flag flips, the status follows the new flag,
      and nothing else about the task changes. */
  function Flip(t: Task): (r: Task)
    ensures r.completed == !t.completed && Mirrored(r)
    ensures r.(completed := t.completed, status := t.status) == t
  {
    var c := !t.completed;
    t.(completed := c, status := StatusOf(c))
  }

  /** Flipping twice restores a task whose status mirrored its flag. */
  lemma FlipTwice(t: Task)
    requires Mirrored(t)
    ensures Flip(Flip(t)) == t
  {
  }

  /** The list after toggling the first task whose id is `id`. */
  function ToggleFirst(s: seq<Task>, id: nat): seq<Task> {
    match FindIndex(s, id)
    case None => s
    case Some(i) => s[i := Flip(s[i])]
  }

  /** Toggling flips the first task with the id and leaves every other
      position, the length and the ids as they were. */
  lemma ToggleFirstShape(s: seq<Task>, id: nat)
    ensures |ToggleFirst(s, id)| == |s|
    ensures forall j :: 0 <= j < |s| ==> ToggleFirst(s, id)[j].id == s[j].id
    ensures forall j :: 0 <= j < |s| ==>
      ToggleFirst(s, id)[j] ==
        if s[j].id == id && (forall k :: 0 <= k < j ==> s[k].id != id)
        then Flip(s[j]) else s[j]
  {
    var r := ToggleFirst(s, id);
    match FindIndex(s, id)
    case None =>
    case Some(i) =>
      forall j | 0 <= j < |s|
        ensures r[j] == if s[j].id == id && (forall k :: 0 <= k < j ==> s[k].id != id)
                        then Flip(s[j]) else s[j]
      {
        if j > i {
          assert !(forall k :: 0 <= k < j ==> s[k].id != id) by { assert s[i].id == id; }
        }
      }
  }

  /** An id no task carries leaves the list as it was. */
  lemma ToggleAbsent(s: seq<Task>, id: nat)
    requires forall j :: 0 <= j < |s| ==> s[j].id != id
    ensures ToggleFirst(s, id) == s
  {
  }

  /** `FindIndex` looks only at ids, so two lists with the same ids at the
      same positions give the same answer. */
  lemma {:induction false} FindIndexSameIds(s: seq<Task>, r: seq<Task>, id: nat)
    requires |s| == |r|
    requires forall j :: 0 <= j < |s| ==> s[j].id == r[j].id
    ensures FindIndex(s, id) == FindIndex(r, id)
  {
    if s != [] && s[0].id != id {
      FindIndexSameIds(s[1..], r[1..], id);
    }
  }

  /** Toggling the same id twice restores the list, when every status
      mirrored its flag beforehand. */
  lemma ToggleTwice(s: seq<Task>, id: nat)
    requires AllMirrored(s)
    ensures ToggleFirst(ToggleFirst(s, id), id) == s
  {
    var r := ToggleFirst(s, id);
    match FindIndex(s, id)
    case None =>
    case Some(i) =>
      ToggleFirstShape(s, id);
      FindIndexSameIds(s, r, id);
      FlipTwice(s[i]);
      assert r[i := Flip(r[i])] == s;
  }

  /** Toggling keeps the store's invariants. */
  lemma ToggleWellFormed(s: seq<Task>, counter: nat, id: nat)
    requires WellFormed(s, counter)
    ensures WellFormed(ToggleFirst(s, id), counter)
  {
    ToggleFirstShape(s, id);
  }

  /** The list after `tasks.filter(t => t.id !== id)`. */
  function Without(s: seq<Task>, id: nat): seq<Task> {
    Filter((t: Task) => t.id != id, s)
  }

  /** Deleting keeps exactly the tasks whose id differs. */
  lemma WithoutMembers(s: seq<Task>, id: nat)
    ensures forall t :: t in Without(s, id) <==> t in s && t.id != id
  {
  }

  /** Deleting keeps the remaining tasks in their original relative order. */
  lemma WithoutOrder(a: seq<Task>, b: seq<Task>, id: nat)
    ensures Without(a + b, id) == Without(a, id) + Without(b, id)
  {
    FilterAppend((t: Task) => t.id != id, a, b);
  }

  /** Deleting an id no task carries leaves the list as it was. */
  lemma WithoutAbsent(s: seq<Task>, id: nat)
    requires forall j :: 0 <= j < |s| ==> s[j].id != id
    ensures Without(s, id) == s
  {
    FilterKeepsAll((t: Task) => t.id != id, s);
  }

  /** With unique ids, deleting an id that is present removes exactly one task. */
  lemma {:induction false} WithoutPresent(s: seq<Task>, id: nat, i: nat)
    requires UniqueIds(s)
    requires i < |s| && s[i].id == id
    ensures |Without(s, id)| == |s| - 1
  {
    if i == 0 {
      assert forall j :: 0 <= j < |s[1..]| ==> s[1..][j].id != id by {
        forall j | 0 <= j < |s[1..]| ensures s[1..][j].id != id {
          assert s[1..][j] == s[j + 1];
        }
      }
      WithoutAbsent(s[1..], id);
    } else {
      assert s[1..][i - 1] == s[i];
      WithoutPresent(s[1..], id, i - 1);
    }
  }

  /** A filtered list of tasks with unique ids still has unique ids. */
  lemma {:induction false} FilterUniqueIds(p: Task -> bool, s: seq<Task>)
    requires UniqueIds(s)
    ensures UniqueIds(Filter(p, s))
  {
    if s != [] {
      var rest := s[1..];
      assert UniqueIds(rest) by {
        forall i, j | 0 <= i < j < |rest| ensures rest[i].id != rest[j].id {
          assert rest[i] == s[i + 1] && rest[j] == s[j + 1];
        }
      }
      FilterUniqueIds(p, rest);
      var fr := Filter(p, rest);
      forall k | 0 <= k < |fr| ensures fr[k].id != s[0].id {
        assert fr[k] in rest;
        var m :| 0 <= m < |rest| && rest[m] == fr[k];
        assert rest[m] == s[m + 1];
      }
    }
  }

  /** Deleting keeps the store's invariants. */
  lemma WithoutWellFormed(s: seq<Task>, counter: nat, id: nat)
    requires WellFormed(s, counter)
    ensures WellFormed(Without(s, id), counter)
  {
    var r := Without(s, id);
    FilterUniqueIds((t: Task) => t.id != id, s);
    forall k | 0 <= k < |r| ensures r[k].id < counter && Mirrored(r[k]) {
      assert r[k] in s;
    }
  }

  /** Adding a task with the counter as its id keeps the store's invariants
      once the counter moves on by one. */
  lemma AddWellFormed(s: seq<Task>, counter: nat, data: TaskData)
    requires WellFormed(s, counter)
    ensures WellFormed(s + [NewTask(data, counter)], counter + 1)
  {
    var r := s + [NewTask(data, counter)];
    assert forall i :: 0 <= i < |s| ==> r[i] == s[i];
  }

  /** What the form holds after an edit: the edit copies title, date, time
      and priority into the form, and the form sends back those four. */
  function FormDataOf(t: Task): TaskData {
    TaskData(t.title, None, t.priority, t.date, t.time)
  }

  /** Editing a task and submitting the form again replaces it by a task at
      the end of the list with the same title, priority, date and time, a
      fresh id, no description and no completion; the invariants hold. */
  lemma EditResubmit(s: seq<Task>, counter: nat, i: nat)
    requires WellFormed(s, counter)
    requires i < |s|
    ensures var t := s[i];
            var r := Without(s, t.id) + [NewTask(FormDataOf(t), counter)];
            && |r| == |s|
            && WellFormed(r, counter + 1)
            && r[|r| - 1].id == counter != t.id
            && r[|r| - 1].title == t.title && r[|r| - 1].priority == t.priority
            && r[|r| - 1].date == t.date && r[|r| - 1].time == t.time
            && r[|r| - 1].description == "" && !r[|r| - 1].completed
  {
    var t := s[i];
    WithoutPresent(s, t.id, i);
    WithoutWellFormed(s, counter, t.id);
    AddWellFormed(Without(s, t.id), counter, FormDataOf(t));
  }

  /** The counter is not "the largest id plus one" once the task with the
      largest id is deleted: after seeding and deleting task 2, the largest
      id is 1 while the counter, and so the next id, stays 3. */
  lemma DeleteLargestKeepsCounter(firstDate: string, secondDate: string, data: TaskData)
    ensures var s := Without(Seed(firstDate, secondDate), 2);
            && |s| == 1 && s[0].id == 1 && WellFormed(s, 3) && MaxId(s) + 1 == 2
            && NewTask(data, 3).id == 3
  {
    var seed := Seed(firstDate, secondDate);
    assert seed[1..] == [seed[1]] && [seed[1]][1..] == [];
    assert Without([seed[1]], 2) == [];
    assert Without(seed, 2) == [seed[0]];
    WithoutWellFormed(seed, 3, 2);
  }

  /** The page's task list and id counter. */
  class TaskStore {
    var tasks: seq<Task>
    var counter: nat

    predicate Valid()
      reads this
    {
      WellFormed(tasks, counter)
    }

    /** The state before initialisation: no tasks, counter 1. */
    constructor ()
      ensures tasks == [] && counter == 1 && Valid()
    {
      tasks := [];
      counter := 1;
    }

    /** Seeds the two sample tasks into an empty store, or adopts the
        loaded list and moves the counter past its largest id. */
    method Initialize(stored: seq<Task>, firstDate: string, secondDate: string)
      modifies this
      ensures stored == [] ==> tasks == Seed(firstDate, secondDate) && counter == 3
      ensures stored != [] ==> tasks == stored && counter == MaxId(stored) + 1
      ensures Below(tasks, counter)
      ensures stored != [] ==> exists i :: 0 <= i < |tasks| && tasks[i].id == counter - 1
      ensures UniqueIds(stored) && AllMirrored(stored) ==> Valid()
    {
      if |stored| == 0 {
        tasks := Seed(firstDate, secondDate);
        counter := 3;
      } else {
        tasks := stored;
        counter := MaxId(stored) + 1;
      }
    }

    /** Appends a new pending task whose id is the counter, and advances
        the counter by one. */
    method AddTask(data: TaskData)
      modifies this
      ensures tasks == old(tasks) + [NewTask(data, old(counter))]
      ensures counter == old(counter) + 1
      ensures |tasks| == |old(tasks)| + 1 && tasks[..|old(tasks)|] == old(tasks)
      ensures tasks[|tasks| - 1].id == old(counter)
      ensures !tasks[|tasks| - 1].completed && tasks[|tasks| - 1].status == Pending
      ensures tasks[|tasks| - 1].description ==
                if data.description.Some? then data.description.value else ""
      ensures old(Below(tasks, counter)) ==> Below(tasks, counter)
      ensures old(Valid()) ==> Valid()
    {
      if Valid() {
        AddWellFormed(tasks, counter, data);
      }
      var t := NewTask(data, counter);
      counter := counter + 1;
      tasks := tasks + [t];
      assert tasks[..|old(tasks)|] == old(tasks);
    }

    /** Flips the completed flag of the first task with the id, and its
        status with it; an absent id changes nothing. */
    method ToggleTaskComplete(id: nat)
      modifies this
      ensures tasks == ToggleFirst(old(tasks), id)
      ensures counter == old(counter)
      ensures (forall j :: 0 <= j < |old(tasks)| ==> old(tasks)[j].id != id) ==> tasks == old(tasks)
      ensures old(Valid()) ==> Valid()
    {
      if Valid() {
        ToggleWellFormed(tasks, counter, id);
      }
      match FindIndex(tasks, id) {
        case Some(i) =>
          tasks := tasks[i := Flip(tasks[i])];
        case None =>
      }
    }

    /** Removes every task with the id; the counter stays. */
    method DeleteTask(id: nat)
      modifies this
      ensures tasks == Without(old(tasks), id)
      ensures counter == old(counter)
      ensures (forall j :: 0 <= j < |old(tasks)| ==> old(tasks)[j].id != id) ==> tasks == old(tasks)
      ensures old(Valid()) ==> Valid()
    {
      if Valid() {
        WithoutWellFormed(tasks, counter, id);
      }
      if forall j :: 0 <= j < |tasks| ==> tasks[j].id != id {
        WithoutAbsent(tasks, id);
      }
      tasks := Without(tasks, id);
    }

    /** Finds the task with the id, returns it (its title, date, time and
        priority are what the form receives) and deletes it. */
    method EditTask(id: nat) returns (found: Option<Task>)
      modifies this
      ensures found.None? <==> forall j :: 0 <= j < |old(tasks)| ==> old(tasks)[j].id != id
      ensures found.Some? ==> found.value in old(tasks) && found.value.id == id
      ensures found == match FindIndex(old(tasks), id)
                       case None => None
                       case Some(i) => Some(old(tasks)[i])
      ensures tasks == Without(old(tasks), id)
      ensures counter == old(counter)
      ensures old(Valid()) ==> Valid()
    {
      match FindIndex(tasks, id) {
        case Some(i) =>
          found := Some(tasks[i]);
          DeleteTask(id);
        case None =>
          found := None;
          WithoutAbsent(tasks, id);
      }
    }
  }
}
