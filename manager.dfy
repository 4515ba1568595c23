/**
 * `TaskManager`: the ordered list of task records held in memory, the
 * snapshot last written to the backing file, and the operations that add,
 * delete, edit, search and list records.
 */
module Manager {
  import opened Results
  import opened Text
  import opened Tasks
  import opened Filtering

  // ---------------------------------------------------------------------
  // Arguments and errors
  // ---------------------------------------------------------------------

  /** What the caller passes to `add_task`: a `Task` instance or some other value. */
  datatype Candidate = IsTask(task: Task) | NotATask

  /** What the caller passes to `delete_task`: an integer, or text for `int()` to convert. */
  datatype IdArg = IntId(n: int) | TextId(text: string)

  /** The exceptions the manager raises. */
  datatype ManagerError =
    | NotATaskError   // TypeError from add_task
    | IdNotNumeric    // ValueError from delete_task
    | TaskNotFound    // ValueError from edit_task

  /** `int(task_id)` in `delete_task`. */
  function ParseId(arg: IdArg): (r: Option<int>)
    ensures arg.IntId? ==> r == Some(arg.n)
    ensures arg.TextId? ==> r == ParseInt(arg.text)
  {
    match arg
    case IntId(n) => Some(n)
    case TextId(s) => ParseInt(s)
  }

  /**
   * The keyword arguments of `edit_task`, one optional value per key that a
   * record has; keys a record lacks are never written, so they are not here.
   */
  datatype Updates = Updates(
    id: Option<int>,
    title: Option<string>,
    description: Option<string>,
    category: Option<string>,
    dueDate: Option<string>,
    priority: Option<string>,
    status: Option<string>)

  const NoUpdates: Updates := Updates(None, None, None, None, None, None, None)

  /** A supplied text value that Python treats as true: present and non-empty. */
  predicate Given(v: Option<string>) {
    v.Some? && v.value != ""
  }

  /** A supplied integer value that Python treats as true: present and non-zero. */
  predicate GivenId(v: Option<int>) {
    v.Some? && v.value != 0
  }

  /** A field after an update: the new value when one was given, the old one otherwise. */
  predicate Overrides(v: Option<string>, before: string, after: string) {
    if Given(v) then after == v.value else after == before
  }

  /** The same for the id, which counts as given when it is not zero. */
  predicate OverridesId(v: Option<int>, before: Option<int>, after: Option<int>) {
    if GivenId(v) then after == v else after == before
  }

  /** One field of `ApplyUpdates`. */
  function Override(v: Option<string>, before: string): (after: string)
    ensures Overrides(v, before, after)
  {
    if Given(v) then v.value else before
  }

  /** `for key, value in updates.items(): if key in task and value: task[key] = value`. */
  function ApplyUpdates(rec: Record, u: Updates): (r: Record)
    ensures OverridesId(u.id, rec.id, r.id)
    ensures Overrides(u.title, rec.title, r.title)
    ensures Overrides(u.description, rec.description, r.description)
    ensures Overrides(u.category, rec.category, r.category)
    ensures Overrides(u.dueDate, rec.dueDate, r.dueDate)
    ensures Overrides(u.priority, rec.priority, r.priority)
    ensures Overrides(u.status, rec.status, r.status)
  {
    Record(
      if GivenId(u.id) then u.id else rec.id,
      Override(u.title, rec.title),
      Override(u.description, rec.description),
      Override(u.category, rec.category),
      Override(u.dueDate, rec.dueDate),
      Override(u.priority, rec.priority),
      Override(u.status, rec.status))
  }

  // ---------------------------------------------------------------------
  // The record sequence each operation produces
  // ---------------------------------------------------------------------

  /** `add_task` on `s`: the task gets id `len(s) + 1` and its record goes at the end. */
  function Appended(s: seq<Record>, t: Task): (r: seq<Record>)
    ensures |r| == |s| + 1 && r[..|s|] == s
    ensures r[|s|].id == Some(|s| + 1)
    ensures r[|s|] == ToRecord(t).(id := Some(|s| + 1))
  {
    s + [ToRecord(t.(id := Some(|s| + 1)))]
  }

  /** The test of `delete_task`'s comprehension: `task["id"] != task_id`. */
  function KeepOthers(n: int): (keep: Record -> bool)
    ensures forall rec: Record :: keep(rec) <==> rec.id != Some(n)
  {
    (rec: Record) => rec.id != Some(n)
  }

  /** The position of the first record with the given id, which `edit_task` changes. */
  function FirstWithId(s: seq<Record>, id: int): (r: Option<nat>)
    ensures r.Some? ==> r.value < |s| && s[r.value].id == Some(id)
    ensures r.Some? ==> forall j :: 0 <= j < r.value ==> s[j].id != Some(id)
    ensures r.None? ==> forall j :: 0 <= j < |s| ==> s[j].id != Some(id)
  {
    if s == [] then None
    else if s[0].id == Some(id) then Some(0)
    else
      match FirstWithId(s[1..], id)
      case None => None
      case Some(k) => Some(k + 1)
  }

  /** `keyword.lower() in task["title"].lower()`. */
  predicate MatchesTitle(rec: Record, keyword: string) {
    Contains(Lower(rec.title), Lower(keyword))
  }

  /** The test of `find_tasks`'s comprehension. */
  function TitleMatches(keyword: string): (keep: Record -> bool)
    ensures forall rec: Record :: keep(rec) <==> MatchesTitle(rec, keyword)
  {
    (rec: Record) => MatchesTitle(rec, keyword)
  }

  /** The test of `list_tasks`'s comprehension: `task["category"] == category`. */
  function InCategory(category: string): (keep: Record -> bool)
    ensures forall rec: Record :: keep(rec) <==> rec.category == category
  {
    (rec: Record) => rec.category == category
  }

  // ---------------------------------------------------------------------
  // The manager
  // ---------------------------------------------------------------------

  class TaskManager {
    /** The records in memory, in insertion order. */
    var tasks: seq<Record>
    /** The content of the backing file: `None` when it is missing or not valid data. */
    var stored: Option<seq<Record>>

    /**
     * `TaskManager(file_name)`: load the records from the file, or start
     * with none when the file is missing or unreadable.
     */
    constructor (file: Option<seq<Record>>)
      ensures tasks == (if file.Some? then file.value else [])
      ensures stored == file
    {
      tasks := if file.Some? then file.value else [];
      stored := file;
    }

    /** `save_tasks`: overwrite the file with the records in memory. */
    method SaveTasks()
      modifies this`stored
      ensures stored == Some(tasks)
    {
      stored := Some(tasks);
    }

    /** `add_task(task)`: number the task, append its record, save. */
    method AddTask(arg: Candidate) returns (r: Result<Task, ManagerError>)
      modifies this
      ensures arg.NotATask? ==> r == Err(NotATaskError) && tasks == old(tasks) && stored == old(stored)
      ensures arg.IsTask? ==> r == Ok(arg.task.(id := Some(|old(tasks)| + 1)))
      ensures arg.IsTask? ==> tasks == Appended(old(tasks), arg.task) && stored == Some(tasks)
    {
      if arg.NotATask? {
        return Err(NotATaskError);
      }
      var task := arg.task.(id := Some(|tasks| + 1));
      tasks := tasks + [ToRecord(task)];
      SaveTasks();
      r := Ok(task);
    }

    /** The list comprehension of `delete_task`: the records whose id is not `n`, in order. */
    static method Remaining(all: seq<Record>, n: int) returns (kept: seq<Record>)
      ensures kept == Filter(all, KeepOthers(n))
    {
      kept := [];
      var i := 0;
      while i < |all|
        invariant 0 <= i <= |all|
        invariant kept == Filter(all[..i], KeepOthers(n))
      {
        FilterExtend(all, i, KeepOthers(n));
        if all[i].id != Some(n) {
          kept := kept + [all[i]];
        }
        i := i + 1;
      }
      assert all[..i] == all;
    }

    /** `delete_task(task_id)`: convert the id, drop every record that has it, save. */
    method DeleteTask(arg: IdArg) returns (r: Outcome<ManagerError>)
      modifies this
      ensures ParseId(arg).None? ==> r == Fail(IdNotNumeric) && tasks == old(tasks) && stored == old(stored)
      ensures ParseId(arg).Some? ==> r == Pass && stored == Some(tasks)
      ensures ParseId(arg).Some? ==> tasks == Filter(old(tasks), KeepOthers(ParseId(arg).value))
    {
      var parsed := ParseId(arg);
      if parsed.None? {
        return Fail(IdNotNumeric);
      }
      var kept := Remaining(tasks, parsed.value);
      tasks := kept;
      SaveTasks();
      r := Pass;
    }

    /**
     * `edit_task(task_id, **updates)`: overwrite the supplied fields of the
     * first record with that id and save; raise when there is none.
     */
    method EditTask(taskId: int, u: Updates) returns (r: Outcome<ManagerError>)
      modifies this
      ensures FirstWithId(old(tasks), taskId).None? ==>
        r == Fail(TaskNotFound) && tasks == old(tasks) && stored == old(stored)
      ensures FirstWithId(old(tasks), taskId).Some? ==>
        var k := FirstWithId(old(tasks), taskId).value;
        r == Pass && tasks == old(tasks)[k := ApplyUpdates(old(tasks)[k], u)] && stored == Some(tasks)
    {
      var i := 0;
      while i < |tasks|
        invariant 0 <= i <= |tasks|
        invariant forall j :: 0 <= j < i ==> tasks[j].id != Some(taskId)
      {
        if tasks[i].id == Some(taskId) {
          tasks := tasks[i := ApplyUpdates(tasks[i], u)];
          SaveTasks();
          return Pass;
        }
        i := i + 1;
      }
      r := Fail(TaskNotFound);
    }

    /**
     * `find_tasks(keyword)`: the records whose title contains the keyword,
     * ignoring case, in their original order.
     */
    function FindTasks(keyword: string): (r: seq<Record>)
      reads this
      ensures forall rec :: rec in r <==> rec in tasks && MatchesTitle(rec, keyword)
      ensures forall rec :: multiset(r)[rec] == if MatchesTitle(rec, keyword) then multiset(tasks)[rec] else 0
      ensures IsSubsequence(r, tasks)
    {
      FilterMembers(tasks, TitleMatches(keyword));
      FilterCount(tasks, TitleMatches(keyword));
      FilterOrder(tasks, TitleMatches(keyword));
      Filter(tasks, TitleMatches(keyword))
    }

    /**
     * `list_tasks(category)`: every record when no category (or an empty
     * one) is given, otherwise those with exactly that category, in order.
     */
    function ListTasks(category: Option<string>): (r: seq<Record>)
      reads this
      ensures category.None? || category.value == "" ==> r == tasks
      ensures category.Some? && category.value != "" ==>
        forall rec :: rec in r <==> rec in tasks && rec.category == category.value
      ensures category.Some? && category.value != "" ==>
        forall rec :: multiset(r)[rec] == if rec.category == category.value then multiset(tasks)[rec] else 0
      ensures IsSubsequence(r, tasks)
    {
      if category.Some? && category.value != "" then
        FilterMembers(tasks, InCategory(category.value));
        FilterCount(tasks, InCategory(category.value));
        FilterOrder(tasks, InCategory(category.value));
        Filter(tasks, InCategory(category.value))
      else
        SubsequenceRefl(tasks);
        tasks
    }
  }

  /** Every sequence is a subsequence of itself. */
  lemma {:induction false} SubsequenceRefl(s: seq<Record>)
    ensures IsSubsequence(s, s)
  {
    if s != [] {
      SubsequenceRefl(s[1..]);
    }
  }

  // ---------------------------------------------------------------------
  // Ids assigned by add_task
  // ---------------------------------------------------------------------

  /** The records are numbered 1, 2, 3, ... in order. */
  predicate IdsSequential(s: seq<Record>) {
    forall i :: 0 <= i < |s| ==> s[i].id == Some(i + 1)
  }

  /** The records that a run of `add_task` calls, one per task of `ts`, leaves after `s`. */
  function AddAll(s: seq<Record>, ts: seq<Task>): (r: seq<Record>)
    ensures |r| == |s| + |ts|
    decreases ts
  {
    if ts == [] then s else AddAll(Appended(s, ts[0]), ts[1..])
  }

  /**
   * A run of `add_task` calls keeps what was there, appends one record per
   * task in call order, and numbers the i-th added task `|s| + i + 1`.
   */
  lemma {:induction false} AddAllShape(s: seq<Record>, ts: seq<Task>)
    ensures |AddAll(s, ts)| == |s| + |ts|
    ensures AddAll(s, ts)[..|s|] == s
    ensures forall i :: 0 <= i < |ts| ==> AddAll(s, ts)[|s| + i] == ToRecord(ts[i]).(id := Some(|s| + i + 1))
    decreases ts
  {
    if ts != [] {
      var s' := Appended(s, ts[0]);
      AddAllShape(s', ts[1..]);
      var r := AddAll(s, ts);
      assert r == AddAll(s', ts[1..]);
      assert r[..|s|] == r[..|s'|][..|s|];
      forall i | 0 <= i < |ts|
        ensures r[|s| + i] == ToRecord(ts[i]).(id := Some(|s| + i + 1))
      {
        if i == 0 {
          assert r[|s|] == r[..|s'|][|s|] == s'[|s|];
        } else {
          assert r[|s| + i] == r[|s'| + (i - 1)];
          assert ts[1..][i - 1] == ts[i];
        }
      }
    }
  }

  /** Adding N tasks to an empty manager numbers them 1..N in the order they were added. */
  lemma AddToEmptyNumbersInOrder(ts: seq<Task>)
    ensures |AddAll([], ts)| == |ts|
    ensures IdsSequential(AddAll([], ts))
    ensures forall i :: 0 <= i < |ts| ==> AddAll([], ts)[i].title == ts[i].title
  {
    AddAllShape([], ts);
    forall i | 0 <= i < |ts|
      ensures AddAll([], ts)[i].id == Some(i + 1) && AddAll([], ts)[i].title == ts[i].title
    {
      assert AddAll([], ts)[0 + i] == ToRecord(ts[i]).(id := Some(0 + i + 1));
    }
  }

  /** Numbered records never share an id. */
  lemma SequentialIdsDistinct(s: seq<Record>)
    requires IdsSequential(s)
    ensures forall i, j :: 0 <= i < j < |s| ==> s[i].id != s[j].id
  {
  }

  /**
   * The id is the length plus one, not a counter: after adding two tasks and
   * deleting the first, the next task gets id 2 again and two records share it.
   */
  lemma {:induction false} IdReusedAfterDelete(t1: Task, t2: Task, t3: Task)
    ensures var afterDelete := Filter(Appended(Appended([], t1), t2), KeepOthers(1));
            var afterAdd := Appended(afterDelete, t3);
            |afterAdd| == 2 && afterAdd[0].id == Some(2) && afterAdd[1].id == Some(2)
  {
    var two := Appended(Appended([], t1), t2);
    assert two == [two[0]] + [two[1]];
    FilterAppend([two[0]], [two[1]], KeepOthers(1));
    assert [two[0]][1..] == [] && [two[1]][1..] == [];
    assert Filter(two, KeepOthers(1)) == [two[1]];
  }

  // ---------------------------------------------------------------------
  // delete_task
  // ---------------------------------------------------------------------

  /**
   * After deleting id n no record has id n, and every record with another
   * id is still there, as often as before.
   */
  lemma DeleteRemovesExactly(s: seq<Record>, n: int)
    ensures forall rec :: rec in Filter(s, KeepOthers(n)) ==> rec.id != Some(n)
    ensures forall rec :: rec in s && rec.id != Some(n) ==> rec in Filter(s, KeepOthers(n))
    ensures forall rec: Record :: rec.id != Some(n) ==> multiset(Filter(s, KeepOthers(n)))[rec] == multiset(s)[rec]
  {
    FilterMembers(s, KeepOthers(n));
    FilterCount(s, KeepOthers(n));
  }

  /** The survivors keep their relative order: deletion distributes over any split of the list. */
  lemma DeleteKeepsOrder(a: seq<Record>, b: seq<Record>, n: int)
    ensures Filter(a + b, KeepOthers(n)) == Filter(a, KeepOthers(n)) + Filter(b, KeepOthers(n))
    ensures IsSubsequence(Filter(a + b, KeepOthers(n)), a + b)
  {
    FilterAppend(a, b, KeepOthers(n));
    FilterOrder(a + b, KeepOthers(n));
  }

  /** Deleting an id that no record has leaves the list as it was. */
  lemma DeleteAbsentUnchanged(s: seq<Record>, n: int)
    requires forall rec :: rec in s ==> rec.id != Some(n)
    ensures Filter(s, KeepOthers(n)) == s
  {
    FilterKeepsAll(s, KeepOthers(n));
  }

  /** Text ids are converted as `int()` does; an id written as text deletes the same records. */
  lemma DeleteByText(n: int)
    requires |NatDigits(if n < 0 then -n else n)| <= IntMaxStrDigits
    ensures ParseId(TextId(Show(n))) == ParseId(IntId(n)) == Some(n)
  {
    ParseShow(n);
  }

  // ---------------------------------------------------------------------
  // edit_task
  // ---------------------------------------------------------------------

  /** Applying the same updates a second time changes nothing more. */
  lemma ApplyUpdatesIdempotent(rec: Record, u: Updates)
    ensures ApplyUpdates(ApplyUpdates(rec, u), u) == ApplyUpdates(rec, u)
  {
  }

  /** Without updates, or with only empty values, the record stays as it was. */
  lemma EmptyUpdatesChangeNothing(rec: Record, u: Updates)
    requires !GivenId(u.id) && !Given(u.title) && !Given(u.description) && !Given(u.category)
    requires !Given(u.dueDate) && !Given(u.priority) && !Given(u.status)
    ensures ApplyUpdates(rec, u) == rec
  {
  }

  // ---------------------------------------------------------------------
  // find_tasks
  // ---------------------------------------------------------------------

  /** The search ignores case in the keyword: a lower-cased keyword finds the same records. */
  lemma SearchIgnoresKeywordCase(rec: Record, keyword: string)
    ensures MatchesTitle(rec, keyword) == MatchesTitle(rec, Lower(keyword))
  {
    LowerIdempotent(keyword);
  }

  /** Upper-casing a title does not change which keywords find it. */
  lemma SearchIgnoresTitleCase(rec: Record, keyword: string)
    ensures MatchesTitle(rec.(title := Upper(rec.title)), keyword) == MatchesTitle(rec, keyword)
  {
    LowerUpper(rec.title);
  }

  /** An empty keyword is contained in every title, so it finds every record. */
  lemma {:induction false} EmptyKeywordFindsAll(s: seq<Record>)
    ensures Filter(s, TitleMatches("")) == s
  {
    forall rec | rec in s
      ensures TitleMatches("")(rec)
    {
      assert Lower("") == [];
      assert [] <= Lower(rec.title);
    }
    FilterKeepsAll(s, TitleMatches(""));
  }

  /** "nam" finds a task titled "Name": the match is on a lower-cased substring. */
  lemma SearchExample(rec: Record, keyword: string)
    requires rec.title == "Name" && keyword == "nam"
    ensures MatchesTitle(rec, keyword)
  {
    var title := Lower(rec.title);
    var key := Lower(keyword);
    assert title[0] == 'n' && title[1] == 'a' && title[2] == 'm';
    assert key == title[..3];
  }

  // ---------------------------------------------------------------------
  // A session as a client sees it
  // ---------------------------------------------------------------------

  /**
   * Add a task to an empty manager and find it by its title: exactly that
   * task's record is found. Each step follows from the contracts above.
   */
  method ExampleAddAndFind(t: Task) returns (found: seq<Record>)
    ensures |found| == 1 && found[0].title == t.title && found[0].id == Some(1)
  {
    var m := new TaskManager(None);
    var added := m.AddTask(IsTask(t));
    assert |m.tasks| == 1 && m.tasks[0].id == Some(1) && m.tasks[0].title == t.title;

    found := m.FindTasks(t.title);
    var rec := m.tasks[0];
    assert Lower(t.title) <= Lower(t.title);
    assert MatchesTitle(rec, t.title);
    assert multiset(found)[rec] == 1;
    assert forall x :: x in found ==> x == rec;
    SingleRecord(found, rec);
  }

  /** A sequence holding one copy of `rec` and nothing else is `[rec]`. */
  lemma SingleRecord(s: seq<Record>, rec: Record)
    requires multiset(s)[rec] == 1 && forall x :: x in s ==> x == rec
    ensures s == [rec]
  {
    assert multiset(s) == multiset{rec} by {
      forall x
        ensures multiset(s)[x] == multiset{rec}[x]
      {
        if x != rec {
          assert x !in s;
        }
      }
    }
    assert |s| == |multiset(s)| == 1;
    assert s[0] in s;
  }

  /**
   * Add a task to an empty manager, give it a new title, then try an id
   * that is not there.
   */
  method ExampleEdit(t: Task, newTitle: string) returns (edited: Outcome<ManagerError>, missing: Outcome<ManagerError>, listed: seq<Record>)
    requires newTitle != ""
    ensures edited == Pass && missing == Fail(TaskNotFound)
    ensures |listed| == 1 && listed[0].title == newTitle && listed[0].status == t.status
  {
    var m := new TaskManager(None);
    var added := m.AddTask(IsTask(t));
    assert |m.tasks| == 1 && m.tasks[0].id == Some(1);

    var edit := NoUpdates.(title := Some(newTitle));
    edited := m.EditTask(1, edit);
    missing := m.EditTask(2, edit);
    listed := m.ListTasks(None);
  }

  /** Add a task to an empty manager and delete it by its id: the list and the file are empty. */
  method ExampleDelete(t: Task) returns (deleted: Outcome<ManagerError>, listed: seq<Record>, stored: Option<seq<Record>>)
    ensures deleted == Pass && listed == [] && stored == Some([])
  {
    var m := new TaskManager(None);
    var added := m.AddTask(IsTask(t));
    assert |m.tasks| == 1 && m.tasks[0].id == Some(1);

    deleted := m.DeleteTask(IntId(1));
    listed := m.ListTasks(None);
    stored := m.stored;
  }
}
