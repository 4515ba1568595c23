/**
 * The `Task` value object: a constructor that validates every field and
 * fails on the first bad one, and `to_dict`, the flat record that the
 * manager stores.
 */
module Tasks {
  import opened Results
  import opened Text
  import opened Dates

  datatype Priority = Low | Medium | High

  /** The three priority spellings the constructor accepts. */
  function PriorityName(p: Priority): string {
    match p
    case Low => "низкий"
    case Medium => "средний"
    case High => "высокий"
  }

  /** `priority in ["низкий", "средний", "высокий"]`, read back as a Priority. */
  function ParsePriority(s: string): (r: Option<Priority>)
    ensures r.Some? ==> PriorityName(r.value) == s
    ensures r.None? ==> forall p: Priority :: PriorityName(p) != s
  {
    if s == "низкий" then Some(Low)
    else if s == "средний" then Some(Medium)
    else if s == "высокий" then Some(High)
    else None
  }

  /** The status a new task gets when none is given ("not done"). */
  const DefaultStatus: string := "Не выполнена"

  /** A date that exists, the only kind a `datetime.date` holds. */
  type CalendarDate = d: Date | ValidDate(d) witness Date(1, 1, 1)

  /** One distinct error per check of the constructor, in the order it checks them. */
  datatype TaskError = EmptyTitle | EmptyDescription | EmptyCategory | BadDueDate | BadPriority

  /** A constructed task; `id` stays `None` until the manager assigns one. */
  datatype Task = Task(
    id: Option<int>,
    title: string,
    description: string,
    category: string,
    dueDate: CalendarDate,
    priority: Priority,
    status: string)

  /** The invariants a constructed task satisfies. */
  predicate ValidTask(t: Task) {
    !AllSpace(t.title) && !AllSpace(t.description) && !AllSpace(t.category)
  }

  /**
   * `Task(title, description, category, due_date, priority, status)`:
   * title, description and category must not be blank after strip(), the
   * due date must parse, the priority must be one of the three names.
   */
  function NewTask(title: string, description: string, category: string,
                   dueDate: string, priority: string, status: string := DefaultStatus): (r: Result<Task, TaskError>)
    ensures r == Err(EmptyTitle) <==> AllSpace(title)
    ensures r == Err(EmptyDescription) <==> !AllSpace(title) && AllSpace(description)
    ensures r == Err(EmptyCategory) <==>
      !AllSpace(title) && !AllSpace(description) && AllSpace(category)
    ensures r == Err(BadDueDate) <==>
      !AllSpace(title) && !AllSpace(description) && !AllSpace(category) && ParseDate(dueDate).None?
    ensures r == Err(BadPriority) <==>
      !AllSpace(title) && !AllSpace(description) && !AllSpace(category) && ParseDate(dueDate).Some?
      && ParsePriority(priority).None?
    ensures r.Ok? ==> ValidTask(r.value)
    ensures r.Ok? ==> r.value.id == None && r.value.status == status
    ensures r.Ok? ==> r.value.title == title && r.value.description == description && r.value.category == category
    ensures r.Ok? ==> Some(r.value.dueDate) == ParseDate(dueDate) && PriorityName(r.value.priority) == priority
  {
    if Strip(title) == [] then Err(EmptyTitle)
    else if Strip(description) == [] then Err(EmptyDescription)
    else if Strip(category) == [] then Err(EmptyCategory)
    else
      match ParseDate(dueDate)
      case None => Err(BadDueDate)
      case Some(d) =>
        match ParsePriority(priority)
        case None => Err(BadPriority)
        case Some(p) => Ok(Task(None, title, description, category, d, p, status))
  }

  /** The flat record of `to_dict`: seven keys, the date as text, the priority by name. */
  datatype Record = Record(
    id: Option<int>,
    title: string,
    description: string,
    category: string,
    dueDate: string,
    priority: string,
    status: string)

  /** `task.to_dict()`. */
  function ToRecord(t: Task): (r: Record)
    ensures IsCanonical(r.dueDate) && ParseDate(r.dueDate) == Some(t.dueDate)
    ensures ParsePriority(r.priority) == Some(t.priority)
    ensures r.id == t.id && r.status == t.status
    ensures r.title == t.title && r.description == t.description && r.category == t.category
  {
    ParseFormat(t.dueDate);
    Record(t.id, t.title, t.description, t.category, FormatDate(t.dueDate), PriorityName(t.priority), t.status)
  }

  /**
   * A valid task can be constructed again from its own record: the
   * constructor accepts everything `to_dict` writes.
   */
  lemma ReconstructFromRecord(t: Task)
    requires ValidTask(t)
    ensures NewTask(t.title, t.description, t.category, ToRecord(t).dueDate, ToRecord(t).priority, t.status)
            == Ok(t.(id := None))
  {
  }

  /** For a canonical `YYYY-MM-DD` due date, `to_dict()["due_date"]` is the text that was given. */
  lemma DueDateRoundTrip(title: string, description: string, category: string,
                         dueDate: string, priority: string, status: string)
    requires IsCanonical(dueDate)
    requires NewTask(title, description, category, dueDate, priority, status).Ok?
    ensures ToRecord(NewTask(title, description, category, dueDate, priority, status).value).dueDate == dueDate
  {
    FormatParse(dueDate);
  }

  /** Without a status argument a new task is "not done", and it has no id yet. */
  lemma DefaultsOnSuccess(title: string, description: string, category: string,
                          dueDate: string, priority: string)
    requires NewTask(title, description, category, dueDate, priority).Ok?
    ensures NewTask(title, description, category, dueDate, priority).value.status == "Не выполнена"
    ensures NewTask(title, description, category, dueDate, priority).value.id == None
  {
  }

  /** A task with day-first due date "30-11-2024" is refused with the date error. */
  lemma DayFirstDateRefused()
    ensures NewTask("Название", "Описание", "Работа", "30-11-2024", "средний") == Err(BadDueDate)
  {
    assert !IsSpace("Название"[0]) && !IsSpace("Описание"[0]) && !IsSpace("Работа"[0]);
    RejectsDayFirst();
  }

  /**
   * The task of the example scenario is accepted, and its record keeps the
   * due date exactly as it was typed.
   */
  lemma ExampleTaskAccepted()
    ensures NewTask("Название", "Описание", "Работа", "2024-11-30", "средний").Ok?
    ensures ToRecord(NewTask("Название", "Описание", "Работа", "2024-11-30", "средний").value).dueDate
      == "2024-11-30"
  {
    var title, description, category := "Название", "Описание", "Работа";
    var dueDate, priority := "2024-11-30", "средний";
    assert !IsSpace(title[0]) && !IsSpace(description[0]) && !IsSpace(category[0]);
    assert !AllSpace(title) && !AllSpace(description) && !AllSpace(category);
    ParseCanonicalDigits(dueDate);
    assert ParseDate(dueDate).Some?;
    assert ParsePriority(priority) == Some(Medium);
    DueDateRoundTrip(title, description, category, dueDate, priority, DefaultStatus);
  }
}
