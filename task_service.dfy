/**
 * The in-memory task service: a class holding the task sequence, three
 * mutators that change it in place, and read-only queries over it.
 * Clock readings are parameters: `now`, the local start of today and of
 * tomorrow, and the instant one week after `now`.
 */
module TaskRepository {
  import opened Wrappers
  import opened Seqs
  import opened TaskModel

  /** The one error the service throws: `new Error('Task not found')`. */
  datatype ServiceError = TaskNotFound

  /** No two stored tasks share an id. The source does not enforce this. */
  predicate UniqueIds(tasks: seq<Task>) {
    forall i, j :: 0 <= i < j < |tasks| ==> tasks[i].id != tasks[j].id
  }

  /** `this.tasks.findIndex(t => t.id === id)`. */
  function IndexOfId(tasks: seq<Task>, id: string): (r: Option<nat>)
    ensures r.Some? ==> r.value < |tasks| && tasks[r.value].id == id
    ensures r.Some? ==> forall j :: 0 <= j < r.value ==> tasks[j].id != id
    ensures r.None? <==> forall j :: 0 <= j < |tasks| ==> tasks[j].id != id
  {
    FirstIndex(tasks, (t: Task) => t.id == id)
  }

  /** `getById`: the first task with that id, or None for `null`. */
  function FindById(tasks: seq<Task>, id: string): (r: Option<Task>)
    ensures r.None? <==> forall j :: 0 <= j < |tasks| ==> tasks[j].id != id
    ensures r.Some? ==> exists i :: 0 <= i < |tasks| && tasks[i] == r.value && r.value.id == id &&
                                    forall j :: 0 <= j < i ==> tasks[j].id != id
  {
    match IndexOfId(tasks, id)
    case None => None
    case Some(i) => Some(tasks[i])
  }

  /** `getByCategory`: the tasks whose category equals `categoryId`, in storage order. */
  function FilterByCategory(tasks: seq<Task>, categoryId: string): (r: seq<Task>)
    ensures forall t :: t in r <==> t in tasks && t.categoryId == categoryId
  {
    Filter(tasks, (t: Task) => t.categoryId == categoryId)
  }

  /** `t => t.status === status`. */
  function HasStatus(status: string): Task -> bool {
    (t: Task) => t.status == status
  }

  /** `getByStatus`: the tasks whose status equals `status`, in storage order, as many as there are. */
  function FilterByStatus(tasks: seq<Task>, status: string): (r: seq<Task>)
    ensures forall t :: t in r <==> t in tasks && t.status == status
    ensures |r| == CountWhere(tasks, HasStatus(status))
  {
    FilterLength(tasks, HasStatus(status));
    Filter(tasks, HasStatus(status))
  }

  /** The overdue test shared by `getOverdue` and `getStats`. */
  predicate IsOverdueAt(t: Task, now: int) {
    t.status != Completed && t.dueDate < now
  }

  function OverdueAt(now: int): Task -> bool {
    (t: Task) => IsOverdueAt(t, now)
  }

  /** `getOverdue`: the tasks not completed whose due date is before `now`, as many as there are. */
  function OverdueTasks(tasks: seq<Task>, now: int): (r: seq<Task>)
    ensures forall t :: t in r <==> t in tasks && t.status != Completed && t.dueDate < now
    ensures |r| == CountWhere(tasks, OverdueAt(now))
  {
    FilterLength(tasks, OverdueAt(now));
    Filter(tasks, OverdueAt(now))
  }

  /** `getDueToday`: the tasks due in `[startOfToday, startOfTomorrow)`, whatever their status. */
  function TasksDueToday(tasks: seq<Task>, startOfToday: int, startOfTomorrow: int): (r: seq<Task>)
    ensures forall t :: t in r <==> t in tasks && startOfToday <= t.dueDate < startOfTomorrow
  {
    Filter(tasks, (t: Task) => startOfToday <= t.dueDate < startOfTomorrow)
  }

  /** `getUpcoming`: the tasks not completed due in `(now, nextWeek]`. */
  function UpcomingTasks(tasks: seq<Task>, now: int, nextWeek: int): (r: seq<Task>)
    ensures forall t :: t in r <==> t in tasks && now < t.dueDate <= nextWeek && t.status != Completed
  {
    Filter(tasks, (t: Task) => now < t.dueDate <= nextWeek && t.status != Completed)
  }

  /** No task is both overdue and upcoming at the same instant. */
  lemma OverdueUpcomingDisjoint(tasks: seq<Task>, now: int, nextWeek: int, t: Task)
    ensures !(t in OverdueTasks(tasks, now) && t in UpcomingTasks(tasks, now, nextWeek))
  {
  }

  /** A completed task due today is still listed by `getDueToday`, but never by `getOverdue`. */
  lemma DueTodayKeepsCompleted(tasks: seq<Task>, t: Task, now: int, startOfToday: int, startOfTomorrow: int)
    requires t in tasks && t.status == Completed && startOfToday <= t.dueDate < startOfTomorrow
    ensures t in TasksDueToday(tasks, startOfToday, startOfTomorrow)
    ensures t !in OverdueTasks(tasks, now)
  {
  }

  /** Multiplying by a non-negative factor keeps the order. */
  lemma MulMonotone(d: nat, a: int, b: int)
    requires a <= b
    ensures d * a <= d * b
  {
    assert d * b - d * a == d * (b - a);
  }

  /** An integer `x` with `d * x <= n < d * x + d` is the quotient `n / d`. */
  lemma QuotientUnique(n: int, d: int, x: int)
    requires d > 0 && d * x <= n < d * x + d
    ensures x == n / d
  {
    var q := n / d;
    assert d * q <= n < d * q + d;
    if x < q {
      MulMonotone(d, x + 1, q);
    } else if q < x {
      MulMonotone(d, q + 1, x);
    }
  }

  /** The quotient `q` of `(200 * part + total) / (2 * total)` rounds `100 * part / total` to the nearest integer, half up. */
  lemma RoundingFacts(part: nat, total: nat, q: int)
    requires 0 < total && part <= total && q == (200 * part + total) / (2 * total)
    ensures 2 * q * total <= 200 * part + total < 2 * q * total + 2 * total
    ensures 0 <= q <= 100
    ensures part == total ==> q == 100
    ensures part == 0 ==> q == 0
  {
    var n, d := 200 * part + total, 2 * total;
    assert d * q <= n < d * q + d;
    assert 2 * q * total == d * q;
    if q > 100 {
      MulMonotone(d, 101, q);
    }
    if q < 0 {
      MulMonotone(d, q, -1);
    }
    if part == total {
      assert d * 100 <= n < d * 100 + d;
      QuotientUnique(n, d, 100);
    }
    if part == 0 {
      assert d * 0 <= n < d * 0 + d;
      QuotientUnique(n, d, 0);
    }
  }

  /** `Math.round(part / total * 100)` with half-way cases rounded up; 0 when `total` is 0. */
  function RoundedPercent(part: nat, total: nat): (r: nat)
    requires part <= total
    ensures total == 0 ==> r == 0
    ensures total > 0 ==> 2 * r * total <= 200 * part + total < 2 * r * total + 2 * total
    ensures r <= 100
    ensures total > 0 && part == total ==> r == 100
    ensures part == 0 ==> r == 0
  {
    if total > 0 then
      var q := (200 * part + total) / (2 * total);
      RoundingFacts(part, total, q);
      q
    else 0
  }

  /** The result of `getStats`. */
  datatype Stats = Stats(total: nat, completed: nat, pending: nat, inProgress: nat, overdue: nat, completionRate: nat)

  /** Tasks with three pairwise different statuses never outnumber the tasks. */
  lemma {:induction false} StatusCountsBound(tasks: seq<Task>, a: string, b: string, c: string)
    requires a != b && b != c && a != c
    ensures |FilterByStatus(tasks, a)| + |FilterByStatus(tasks, b)| + |FilterByStatus(tasks, c)| <= |tasks|
  {
    if tasks != [] {
      StatusCountsBound(tasks[1..], a, b, c);
    }
  }

  /** Overdue tasks are never completed, so they fit among the tasks that are not. */
  lemma {:induction false} OverdueCountBound(tasks: seq<Task>, now: int)
    ensures |OverdueTasks(tasks, now)| + |FilterByStatus(tasks, Completed)| <= |tasks|
  {
    if tasks != [] {
      OverdueCountBound(tasks[1..], now);
    }
  }

  /** `getStats`, with a single reading of the clock. */
  function ComputeStats(tasks: seq<Task>, now: int): (s: Stats)
    ensures s.total == |tasks|
    ensures s.completed == CountWhere(tasks, HasStatus(Completed))
    ensures s.pending == CountWhere(tasks, HasStatus(Pending))
    ensures s.inProgress == CountWhere(tasks, HasStatus(InProgress))
    ensures s.overdue == CountWhere(tasks, OverdueAt(now))
    ensures s.completed + s.pending + s.inProgress <= s.total
    ensures s.overdue <= s.total - s.completed
    ensures s.completionRate <= 100
    ensures s.total == 0 ==> s == Stats(0, 0, 0, 0, 0, 0)
    ensures s.total > 0 ==> 2 * s.completionRate * s.total <= 200 * s.completed + s.total < 2 * s.completionRate * s.total + 2 * s.total
  {
    var completed := |FilterByStatus(tasks, Completed)|;
    StatusCountsBound(tasks, Completed, Pending, InProgress);
    OverdueCountBound(tasks, now);
    Stats(
      |tasks|,
      completed,
      |FilterByStatus(tasks, Pending)|,
      |FilterByStatus(tasks, InProgress)|,
      |OverdueTasks(tasks, now)|,
      RoundedPercent(completed, |tasks|))
  }

  /** The service object: `this.tasks` and the operations on it. */
  class TaskService {
    var tasks: seq<Task>

    /** `new TaskService()` starts from the mock data, passed in here. */
    constructor (initial: seq<Task>)
      ensures tasks == initial
    {
      tasks := initial;
    }

    /** `getAll`: a copy of the stored list, the same tasks in the same order. */
    function GetAll(): (r: seq<Task>)
      reads this
      ensures |r| == |tasks| && forall i :: 0 <= i < |r| ==> r[i] == tasks[i]
    {
      tasks
    }

    /** `getById`: a copy of the first task with that id, or `null` when there is none. */
    function GetById(id: string): (r: Option<Task>)
      reads this
      ensures r.None? <==> forall j :: 0 <= j < |tasks| ==> tasks[j].id != id
      ensures r.Some? ==> exists i :: 0 <= i < |tasks| && tasks[i] == r.value && r.value.id == id &&
                                      forall j :: 0 <= j < i ==> tasks[j].id != id
    {
      FindById(tasks, id)
    }

    /** `getByCategory`: exactly the stored tasks in that category. */
    function GetByCategory(categoryId: string): (r: seq<Task>)
      reads this
      ensures forall t :: t in r <==> t in tasks && t.categoryId == categoryId
    {
      FilterByCategory(tasks, categoryId)
    }

    /** `getByStatus`: exactly the stored tasks with that status, one per matching record. */
    function GetByStatus(status: string): (r: seq<Task>)
      reads this
      ensures forall t :: t in r <==> t in tasks && t.status == status
      ensures |r| == CountWhere(tasks, HasStatus(status))
    {
      FilterByStatus(tasks, status)
    }

    /** `getOverdue`: exactly the stored tasks not completed and due before `now`. */
    function GetOverdue(now: int): (r: seq<Task>)
      reads this
      ensures forall t :: t in r <==> t in tasks && t.status != Completed && t.dueDate < now
      ensures |r| == CountWhere(tasks, OverdueAt(now))
    {
      OverdueTasks(tasks, now)
    }

    /** `getDueToday`: exactly the stored tasks due from local midnight up to the next one. */
    function GetDueToday(startOfToday: int, startOfTomorrow: int): (r: seq<Task>)
      reads this
      ensures forall t :: t in r <==> t in tasks && startOfToday <= t.dueDate < startOfTomorrow
    {
      TasksDueToday(tasks, startOfToday, startOfTomorrow)
    }

    /** `getUpcoming`: exactly the stored tasks not completed, due after `now` and by `nextWeek`. */
    function GetUpcoming(now: int, nextWeek: int): (r: seq<Task>)
      reads this
      ensures forall t :: t in r <==> t in tasks && now < t.dueDate <= nextWeek && t.status != Completed
    {
      UpcomingTasks(tasks, now, nextWeek)
    }

    /** `getStats`: the counts over the stored tasks and the rounded completion rate. */
    function GetStats(now: int): (s: Stats)
      reads this
      ensures s.total == |tasks|
      ensures s.completed == CountWhere(tasks, HasStatus(Completed))
      ensures s.pending == CountWhere(tasks, HasStatus(Pending))
      ensures s.inProgress == CountWhere(tasks, HasStatus(InProgress))
      ensures s.overdue == CountWhere(tasks, OverdueAt(now))
      ensures s.completionRate <= 100
      ensures s.total > 0 ==> 2 * s.completionRate * s.total <= 200 * s.completed + s.total < 2 * s.completionRate * s.total + 2 * s.total
    {
      ComputeStats(tasks, now)
    }

    /** `create`: appends the new record and returns it. */
    method Create(data: NewTask, freshId: string, now: int) returns (t: Task)
      modifies this
      ensures t == NewRecord(data, freshId, now)
      ensures tasks == old(tasks) + [t]
    {
      t := NewRecord(data, freshId, now);
      tasks := tasks + [t];
    }

    /** `update`: merges `updates` into the first task with that id, or throws. */
    method Update(id: string, updates: TaskPatch) returns (r: Result<Task, ServiceError>)
      modifies this
      ensures IndexOfId(old(tasks), id).None? ==> r == Err(TaskNotFound) && tasks == old(tasks)
      ensures IndexOfId(old(tasks), id).Some? ==>
        var i := IndexOfId(old(tasks), id).value;
        tasks == old(tasks)[i := Merge(old(tasks)[i], updates)] && r == Ok(tasks[i])
    {
      var index := IndexOfId(tasks, id);
      if index.None? {
        return Err(TaskNotFound);
      }
      var i := index.value;
      tasks := tasks[i := Merge(tasks[i], updates)];
      r := Ok(tasks[i]);
    }

    /** `delete`: removes the first task with that id, or throws. */
    method Delete(id: string) returns (r: Result<bool, ServiceError>)
      modifies this
      ensures IndexOfId(old(tasks), id).None? ==> r == Err(TaskNotFound) && tasks == old(tasks)
      ensures IndexOfId(old(tasks), id).Some? ==>
        var i := IndexOfId(old(tasks), id).value;
        tasks == old(tasks)[..i] + old(tasks)[i + 1..] && r == Ok(true)
    {
      var index := IndexOfId(tasks, id);
      if index.None? {
        return Err(TaskNotFound);
      }
      var i := index.value;
      tasks := tasks[..i] + tasks[i + 1..];
      r := Ok(true);
    }
  }

  /** With an id no stored task has, `getById` finds the created task. */
  lemma {:induction false} CreateThenFind(tasks: seq<Task>, t: Task)
    requires forall j :: 0 <= j < |tasks| ==> tasks[j].id != t.id
    ensures FindById(tasks + [t], t.id) == Some(t)
    ensures UniqueIds(tasks) ==> UniqueIds(tasks + [t])
  {
    assert (tasks + [t])[|tasks|] == t;
    assert forall j :: 0 <= j < |tasks| ==> (tasks + [t])[j] == tasks[j];
  }

  /** After an update that keeps the id, `getById` returns the merged record. */
  lemma {:induction false} UpdateThenFind(tasks: seq<Task>, id: string, updates: TaskPatch)
    requires IndexOfId(tasks, id).Some?
    requires updates.id.None? || updates.id == Some(id)
    ensures var i := IndexOfId(tasks, id).value;
      FindById(tasks[i := Merge(tasks[i], updates)], id) == Some(Merge(tasks[i], updates))
  {
    var i := IndexOfId(tasks, id).value;
    var after := tasks[i := Merge(tasks[i], updates)];
    assert after[i].id == id;
    assert forall j :: 0 <= j < i ==> after[j] == tasks[j];
  }

  /** An update that keeps the id keeps the ids unique. */
  lemma UpdateKeepsUniqueIds(tasks: seq<Task>, i: nat, updates: TaskPatch)
    requires UniqueIds(tasks) && i < |tasks|
    requires updates.id.None? || updates.id == Some(tasks[i].id)
    ensures UniqueIds(tasks[i := Merge(tasks[i], updates)])
  {
  }

  /** `delete` removes exactly one record and keeps the others in order. */
  lemma DeleteRemovesOne(tasks: seq<Task>, i: nat)
    requires i < |tasks|
    ensures |tasks[..i] + tasks[i + 1..]| == |tasks| - 1
    ensures forall j :: 0 <= j < i ==> (tasks[..i] + tasks[i + 1..])[j] == tasks[j]
    ensures forall j :: i < j < |tasks| ==> (tasks[..i] + tasks[i + 1..])[j - 1] == tasks[j]
    ensures multiset(tasks[..i] + tasks[i + 1..]) == multiset(tasks) - multiset{tasks[i]}
  {
    assert tasks == tasks[..i] + [tasks[i]] + tasks[i + 1..];
  }

  /** With unique ids, a deleted task is gone: `getById` gives None and a second `delete` throws. */
  lemma {:induction false} DeleteThenFind(tasks: seq<Task>, id: string)
    requires UniqueIds(tasks) && IndexOfId(tasks, id).Some?
    ensures var i := IndexOfId(tasks, id).value;
      var after := tasks[..i] + tasks[i + 1..];
      FindById(after, id) == None && IndexOfId(after, id) == None && UniqueIds(after)
  {
    var i := IndexOfId(tasks, id).value;
    var after := tasks[..i] + tasks[i + 1..];
    forall j | 0 <= j < |after|
      ensures after[j].id != id
    {
      if j < i {
        assert after[j] == tasks[j];
      } else {
        assert after[j] == tasks[j + 1];
        assert tasks[i].id == id;
      }
    }
  }

  /** `getStats` on an empty service is all zeros. */
  lemma EmptyStats(now: int)
    ensures ComputeStats([], now) == Stats(0, 0, 0, 0, 0, 0)
  {
  }

  /** One pending task due yesterday is overdue and counted as such. */
  lemma OverdueScenario(a: Task, now: int)
    requires a.status == Pending && a.dueDate == now - 86400000
    ensures OverdueTasks([a], now) == [a]
    ensures ComputeStats([a], now).overdue == 1
  {
    assert OverdueTasks([a], now) == [a] by {
      assert [a][1..] == [];
    }
  }
}
