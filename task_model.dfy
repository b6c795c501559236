/**
 * The task record shared by the service and the components, and the two ways
 * a record is built: the object literal in `create` and the shallow merge
 * `{ ...task, ...updates }` in `update`.
 */
module TaskModel {
  import opened Wrappers

  const Completed: string := "completed"
  const Pending: string := "pending"
  const InProgress: string := "in-progress"

  /**
   * A stored task. Timestamps are integers; `status` is any string, as in the
   * source (only the three constants above are produced by the components).
   * `description` is "" when the task has none.
   */
  datatype Task = Task(
    id: string,
    title: string,
    description: string,
    categoryId: string,
    dueDate: int,
    reminderTime: Option<int>,
    status: string,
    createdAt: int,
    parentTaskId: Option<string>)

  /** An `updates` object: a field is Some exactly when the object has that key. */
  datatype TaskPatch = TaskPatch(
    id: Option<string>,
    title: Option<string>,
    description: Option<string>,
    categoryId: Option<string>,
    dueDate: Option<int>,
    reminderTime: Option<Option<int>>,
    status: Option<string>,
    createdAt: Option<int>,
    parentTaskId: Option<Option<string>>)

  /** The `taskData` argument of `create`: the form's fields plus any keys a caller adds. */
  datatype NewTask = NewTask(
    title: string,
    description: string,
    categoryId: string,
    dueDate: int,
    reminderTime: Option<int>,
    id: Option<string>,
    status: Option<string>,
    createdAt: Option<int>,
    parentTaskId: Option<Option<string>>)

  const NoChanges: TaskPatch := TaskPatch(None, None, None, None, None, None, None, None, None)

  /** `{ status: s }`, the patch the card's checkbox sends. */
  function StatusPatch(s: string): TaskPatch {
    NoChanges.(status := Some(s))
  }

  /** One field of an object spread: the patch's value when its key is present, else the old value. */
  predicate Spread<T(==)>(key: Option<T>, before: T, after: T) {
    match key
    case Some(v) => after == v
    case None => after == before
  }

  /** `{ ...t, ...p }`: every key present in `p` wins, every other field is kept. */
  function Merge(t: Task, p: TaskPatch): (r: Task)
    ensures Spread(p.id, t.id, r.id) && Spread(p.title, t.title, r.title)
    ensures Spread(p.description, t.description, r.description)
    ensures Spread(p.categoryId, t.categoryId, r.categoryId) && Spread(p.dueDate, t.dueDate, r.dueDate)
    ensures Spread(p.reminderTime, t.reminderTime, r.reminderTime) && Spread(p.status, t.status, r.status)
    ensures Spread(p.createdAt, t.createdAt, r.createdAt)
    ensures Spread(p.parentTaskId, t.parentTaskId, r.parentTaskId)
  {
    Task(
      p.id.GetOr(t.id),
      p.title.GetOr(t.title),
      p.description.GetOr(t.description),
      p.categoryId.GetOr(t.categoryId),
      p.dueDate.GetOr(t.dueDate),
      p.reminderTime.GetOr(t.reminderTime),
      p.status.GetOr(t.status),
      p.createdAt.GetOr(t.createdAt),
      p.parentTaskId.GetOr(t.parentTaskId))
  }

  /** Merging the empty object changes nothing. */
  lemma MergeNoChanges(t: Task)
    ensures Merge(t, NoChanges) == t
  {
  }

  /** Applying the same updates twice is the same as applying them once. */
  lemma MergeIdempotent(t: Task, p: TaskPatch)
    ensures Merge(Merge(t, p), p) == Merge(t, p)
  {
  }

  /** Setting the status and then setting it back restores the record (reopening a completed task). */
  lemma StatusRoundTrip(t: Task, s: string)
    ensures Merge(t, StatusPatch(s)).status == s
    ensures Merge(Merge(t, StatusPatch(s)), StatusPatch(t.status)) == t
  {
  }

  /**
   * The object literal of `create`: `id` first (so a caller's `id` wins), then
   * the caller's keys, then `createdAt` and `status` (so the caller's are ignored).
   */
  function NewRecord(data: NewTask, freshId: string, now: int): (t: Task)
    ensures t.id == data.id.GetOr(freshId)
    ensures t.status == Pending && t.createdAt == now
    ensures t.title == data.title && t.description == data.description
    ensures t.categoryId == data.categoryId && t.dueDate == data.dueDate
    ensures t.reminderTime == data.reminderTime
    ensures t.parentTaskId == data.parentTaskId.GetOr(None)
  {
    Task(
      data.id.GetOr(freshId),
      data.title,
      data.description,
      data.categoryId,
      data.dueDate,
      data.reminderTime,
      Pending,
      now,
      data.parentTaskId.GetOr(None))
  }

  /** Whatever `status` and `createdAt` the caller passes, the new record is the same. */
  lemma NewRecordIgnoresStatusAndCreatedAt(data: NewTask, freshId: string, now: int, s: Option<string>, c: Option<int>)
    ensures NewRecord(data.(status := s, createdAt := c), freshId, now) == NewRecord(data, freshId, now)
  {
  }

  /**
   * The spread of a whole `taskData` object as an `updates` object (the form's
   * edit path): the form's fields always overwrite, so an empty reminder clears
   * a stored one; the other keys win only when the caller set them.
   */
  function AsPatch(data: NewTask): (p: TaskPatch)
    ensures forall t: Task ::
              Merge(t, p) ==
                Task(data.id.GetOr(t.id), data.title, data.description, data.categoryId, data.dueDate,
                     data.reminderTime, data.status.GetOr(t.status), data.createdAt.GetOr(t.createdAt),
                     data.parentTaskId.GetOr(t.parentTaskId))
  {
    TaskPatch(data.id, Some(data.title), Some(data.description), Some(data.categoryId),
              Some(data.dueDate), Some(data.reminderTime), data.status, data.createdAt, data.parentTaskId)
  }
}
