/**
 * The task form: required-field validation, the change handler that edits
 * one field and clears its error, and the `taskData` object it submits to
 * the task service.
 */
module TaskForm {
  import opened Wrappers
  import opened Strings
  import opened TaskModel
  import opened TaskRepository

  datatype Field = Title | Description | CategoryId | DueDate | ReminderTime

  /** The form's inputs, all strings as the browser delivers them; "" is an empty input. */
  datatype FormData = FormData(
    title: string,
    description: string,
    categoryId: string,
    dueDate: string,
    reminderTime: string)

  type Errors = map<Field, string>

  /** The form's local state: `formData` and `errors`. */
  datatype FormState = FormState(data: FormData, errors: Errors)

  function FieldValue(form: FormData, f: Field): string {
    match f
    case Title => form.title
    case Description => form.description
    case CategoryId => form.categoryId
    case DueDate => form.dueDate
    case ReminderTime => form.reminderTime
  }

  const TitleRequired := "Title is required"
  const CategoryRequired := "Category is required"
  const DueDateRequired := "Due date is required"

  /** The message shown under a required field left empty. */
  function RequiredMessage(f: Field): (m: string)
    ensures m != "" <==> f == Title || f == CategoryId || f == DueDate
  {
    match f
    case Title => TitleRequired
    case CategoryId => CategoryRequired
    case DueDate => DueDateRequired
    case _ => ""
  }

  /** The three checks of `validateForm` all pass. */
  predicate FormIsValid(form: FormData) {
    !AllWhitespace(form.title) && form.categoryId != "" && form.dueDate != ""
  }

  /**
   * `validateForm`: builds the error object one required field at a time and
   * reports whether it stayed empty.
   */
  method ValidateForm(form: FormData) returns (valid: bool, errors: Errors)
    ensures Title in errors <==> AllWhitespace(form.title)
    ensures CategoryId in errors <==> form.categoryId == ""
    ensures DueDate in errors <==> form.dueDate == ""
    ensures Description !in errors && ReminderTime !in errors
    ensures forall f :: f in errors ==> errors[f] == RequiredMessage(f) && errors[f] != ""
    ensures valid <==> errors == map[]
    ensures valid <==> FormIsValid(form)
  {
    var newErrors: Errors := map[];
    var titleBlank := IsBlank(form.title);
    if titleBlank {
      newErrors := newErrors[Title := TitleRequired];
    }
    if form.categoryId == "" {
      newErrors := newErrors[CategoryId := CategoryRequired];
    }
    if form.dueDate == "" {
      newErrors := newErrors[DueDate := DueDateRequired];
    }
    errors := newErrors;
    valid := |errors.Keys| == 0;
    NoKeysIffEmpty(errors);
  }

  /** `Object.keys(errors).length === 0` holds exactly for the empty error object. */
  lemma NoKeysIffEmpty(errors: Errors)
    ensures |errors.Keys| == 0 <==> errors == map[]
  {
    if errors != map[] {
      var f :| f in errors;
      assert f in errors.Keys;
    }
  }

  /** A title of spaces, tabs or line breaks is rejected like an empty one. */
  lemma WhitespaceTitleRejected(form: FormData)
    requires |form.title| > 0 && AllWhitespace(form.title)
    ensures !FormIsValid(form)
  {
  }

  /** `{ ...prev, [name]: value }`. */
  function WithField(form: FormData, name: Field, value: string): (r: FormData)
    ensures FieldValue(r, name) == value
    ensures forall f :: f != name ==> FieldValue(r, f) == FieldValue(form, f)
  {
    match name
    case Title => form.(title := value)
    case Description => form.(description := value)
    case CategoryId => form.(categoryId := value)
    case DueDate => form.(dueDate := value)
    case ReminderTime => form.(reminderTime := value)
  }

  /** `handleChange`: sets the field and, when it shows an error, blanks that error. */
  function HandleChange(state: FormState, name: Field, value: string): (r: FormState)
    ensures FieldValue(r.data, name) == value
    ensures forall f :: f != name ==> FieldValue(r.data, f) == FieldValue(state.data, f)
    ensures r.errors.Keys == state.errors.Keys
    ensures forall f :: f in state.errors && f != name ==> r.errors[f] == state.errors[f]
    ensures name in state.errors ==> r.errors[name] == ""
    ensures name !in state.errors || state.errors[name] == "" ==> r.errors == state.errors
  {
    var errors := if name in state.errors && state.errors[name] != "" then state.errors[name := ""] else state.errors;
    FormState(WithField(state.data, name, value), errors)
  }

  /**
   * The `taskData` object of `handleSubmit`: the form's fields, the due date
   * parsed, and the reminder parsed or null when its input is empty.
   */
  function TaskData(form: FormData, parseDate: string -> int): (d: NewTask)
    ensures d.title == form.title && d.description == form.description && d.categoryId == form.categoryId
    ensures d.dueDate == parseDate(form.dueDate)
    ensures d.reminderTime.None? <==> form.reminderTime == ""
    ensures d.reminderTime.Some? ==> d.reminderTime.value == parseDate(form.reminderTime)
    ensures d.id.None? && d.status.None? && d.createdAt.None? && d.parentTaskId.None?
  {
    NewTask(
      form.title,
      form.description,
      form.categoryId,
      parseDate(form.dueDate),
      if form.reminderTime != "" then Some(parseDate(form.reminderTime)) else None,
      None, None, None, None)
  }

  /** A task created from the form is pending, takes the generated id and has no parent. */
  lemma CreatedFromForm(form: FormData, parseDate: string -> int, freshId: string, now: int)
    ensures var t := NewRecord(TaskData(form, parseDate), freshId, now);
      t.id == freshId && t.status == Pending && t.createdAt == now && t.parentTaskId == None &&
      (t.reminderTime == None <==> form.reminderTime == "")
  {
  }

  /**
   * `handleSubmit`: an invalid form sends nothing; otherwise an edit goes to
   * `update` with the task's id and a new task goes to `create`.
   */
  method HandleSubmit(form: FormData, editing: Option<Task>, service: TaskService,
                      parseDate: string -> int, freshId: string, now: int)
    returns (submitted: Option<Result<Task, ServiceError>>)
    modifies service
    ensures !FormIsValid(form) ==> submitted == None && service.tasks == old(service.tasks)
    ensures FormIsValid(form) && editing.None? ==>
      var t := NewRecord(TaskData(form, parseDate), freshId, now);
      submitted == Some(Ok(t)) && service.tasks == old(service.tasks) + [t]
    ensures FormIsValid(form) && editing.Some? && IndexOfId(old(service.tasks), editing.value.id).None? ==>
      submitted == Some(Err(TaskNotFound)) && service.tasks == old(service.tasks)
    ensures FormIsValid(form) && editing.Some? && IndexOfId(old(service.tasks), editing.value.id).Some? ==>
      var i := IndexOfId(old(service.tasks), editing.value.id).value;
      var merged := Merge(old(service.tasks)[i], AsPatch(TaskData(form, parseDate)));
      service.tasks == old(service.tasks)[i := merged] && submitted == Some(Ok(merged))
  {
    var valid, _ := ValidateForm(form);
    if !valid {
      return None;
    }
    var taskData := TaskData(form, parseDate);
    if editing.Some? {
      var result := service.Update(editing.value.id, AsPatch(taskData));
      submitted := Some(result);
    } else {
      var created := service.Create(taskData, freshId, now);
      submitted := Some(Ok(created));
    }
  }
}
