/**
 * The task card's classification of one task: the status its checkbox
 * toggles to, the overdue flag, the due-date colour and text, the status
 * badge colour, and the category it shows. The date-library tests
 * `isPast`, `isToday` and `isThisWeek` arrive as booleans.
 */
module TaskCard {
  import opened Wrappers
  import opened Seqs
  import opened TaskModel
  import opened TaskRepository
  import opened TaskList

  /** A category as the category store returns it. */
  datatype Category = Category(id: string, name: string, color: string)

  /** The label beside the due date; the date itself is formatted by the date library. */
  datatype DueDateText = OverdueSince(date: int) | DueToday | Weekday(date: int) | FullDate(date: int)

  /** The checkbox's new status: a completed task reopens, anything else completes. */
  function ToggledStatus(status: string): (r: string)
    ensures r == Pending <==> status == Completed
    ensures r == Completed <==> status != Completed
  {
    if status == Completed then Pending else Completed
  }

  /** Toggling twice restores `pending` and `completed`; `in-progress` comes back as `pending`. */
  lemma ToggleTwice(status: string)
    ensures status == Pending || status == Completed ==> ToggledStatus(ToggledStatus(status)) == status
    ensures status == InProgress ==> ToggledStatus(status) == Completed && ToggledStatus(ToggledStatus(status)) == Pending
  {
  }

  /** `isPast(dueDate) && task.status !== 'completed'`. */
  function IsOverdue(isPast: bool, status: string): (r: bool)
    ensures r ==> status != Completed
    ensures r <==> isPast && status != Completed
  {
    isPast && status != Completed
  }

  /** With `isPast` read at `now`, the card's flag agrees with the service's overdue list. */
  lemma CardOverdueMatchesService(tasks: seq<Task>, t: Task, now: int)
    requires t in tasks
    ensures IsOverdue(t.dueDate < now, t.status) <==> t in OverdueTasks(tasks, now)
  {
  }

  /** `getDueDateColor`: completed first, then overdue, then due today, then the default. */
  function DueDateColor(status: string, isOverdue: bool, isDueToday: bool): (r: string)
    ensures r == "text-gray-500" <==> status == Completed
    ensures r == "text-error" <==> status != Completed && isOverdue
    ensures r == "text-warning" <==> status != Completed && !isOverdue && isDueToday
    ensures r == "text-gray-600" <==> status != Completed && !isOverdue && !isDueToday
  {
    if status == Completed then "text-gray-500"
    else if isOverdue then "text-error"
    else if isDueToday then "text-warning"
    else "text-gray-600"
  }

  /** `getDueDateText`: overdue first, then due today, then this week, then the full date. */
  function DueDateLabel(dueDate: int, isOverdue: bool, isDueToday: bool, isDueThisWeek: bool): (r: DueDateText)
    ensures r.OverdueSince? <==> isOverdue
    ensures r.DueToday? <==> !isOverdue && isDueToday
    ensures r.Weekday? <==> !isOverdue && !isDueToday && isDueThisWeek
    ensures r.FullDate? <==> !isOverdue && !isDueToday && !isDueThisWeek
    ensures !r.DueToday? ==> r.date == dueDate
  {
    if isOverdue then OverdueSince(dueDate)
    else if isDueToday then DueToday
    else if isDueThisWeek then Weekday(dueDate)
    else FullDate(dueDate)
  }

  /** A completed task's label never says overdue, whatever the clock says. */
  lemma CompletedNeverOverdue(t: Task, isPast: bool, isDueToday: bool, isDueThisWeek: bool)
    requires t.status == Completed
    ensures !DueDateLabel(t.dueDate, IsOverdue(isPast, t.status), isDueToday, isDueThisWeek).OverdueSince?
    ensures DueDateColor(t.status, IsOverdue(isPast, t.status), isDueToday) == "text-gray-500"
  {
  }

  /** `getStatusColor`: the badge variant for a status. */
  function StatusColor(status: string): (r: string)
    ensures r == "success" <==> status == Completed
    ensures r == "primary" <==> status == InProgress
    ensures r == "default" <==> status != Completed && status != InProgress
  {
    if status == Completed then "success"
    else if status == InProgress then "primary"
    else "default"
  }

  function HasCategoryId(categoryId: string): Category -> bool {
    (c: Category) => c.id == categoryId
  }

  /** `categories.find(c => c.id === task.categoryId)`: the first category with that id. */
  function FindCategory(categories: seq<Category>, categoryId: string): (r: Option<Category>)
    ensures r.None? <==> forall j :: 0 <= j < |categories| ==> categories[j].id != categoryId
    ensures r.Some? ==> exists i :: 0 <= i < |categories| && categories[i] == r.value && r.value.id == categoryId &&
                                    forall j :: 0 <= j < i ==> categories[j].id != categoryId
  {
    Find(categories, HasCategoryId(categoryId))
  }

  /** The category badge is shown exactly when some category has the task's category id. */
  lemma BadgeShownIff(categories: seq<Category>, t: Task)
    ensures FindCategory(categories, t.categoryId).Some? <==> exists c :: c in categories && c.id == t.categoryId
  {
    if c :| c in categories && c.id == t.categoryId {
      var i :| 0 <= i < |categories| && categories[i] == c;
    }
  }

  /**
   * `handleStatusToggle`: asks the service to flip the status, then hands the
   * returned task to the list's update handler. A failed update leaves both as they were.
   */
  method HandleStatusToggle(task: Task, service: TaskService, listTasks: seq<Task>) returns (newList: seq<Task>)
    modifies service
    ensures IndexOfId(old(service.tasks), task.id).None? ==>
      service.tasks == old(service.tasks) && newList == listTasks
    ensures IndexOfId(old(service.tasks), task.id).Some? ==>
      var i := IndexOfId(old(service.tasks), task.id).value;
      var updated := Merge(old(service.tasks)[i], StatusPatch(ToggledStatus(task.status)));
      service.tasks == old(service.tasks)[i := updated] && newList == ReplaceById(listTasks, updated)
  {
    var result := service.Update(task.id, StatusPatch(ToggledStatus(task.status)));
    match result
    case Ok(updated) =>
      newList := ReplaceById(listTasks, updated);
    case Err(_) =>
      newList := listTasks;
  }

  /**
   * `handleDelete`: when the user confirms, asks the service to delete the
   * task and then hands its id to the list's delete handler.
   */
  method HandleDelete(task: Task, confirmed: bool, service: TaskService, listTasks: seq<Task>) returns (newList: seq<Task>)
    modifies service
    ensures !confirmed || IndexOfId(old(service.tasks), task.id).None? ==>
      service.tasks == old(service.tasks) && newList == listTasks
    ensures confirmed && IndexOfId(old(service.tasks), task.id).Some? ==>
      var i := IndexOfId(old(service.tasks), task.id).value;
      service.tasks == old(service.tasks)[..i] + old(service.tasks)[i + 1..] && newList == RemoveById(listTasks, task.id)
  {
    newList := listTasks;
    if !confirmed {
      return;
    }
    var result := service.Delete(task.id);
    if result.Ok? {
      newList := RemoveById(listTasks, task.id);
    }
  }

  /** Two toggles from an up-to-date card restore a pending or completed task. */
  lemma ToggleTwiceRestoresTask(t: Task)
    requires t.status == Pending || t.status == Completed
    ensures var once := Merge(t, StatusPatch(ToggledStatus(t.status)));
      Merge(once, StatusPatch(ToggledStatus(once.status))) == t
  {
  }
}
