# Task list: validated tasks and the task manager

This project models the core of a small single-user task list written in
Python (`main.py`). The core has two parts.

- **`Task`**: a value object whose constructor validates each field and fails
  on the first bad one. Title, description and category must not be blank
  after `strip()`. The due date must parse with `strptime("%Y-%m-%d")` as a
  date that exists. The priority must be one of `"низкий"`, `"средний"` or
  `"высокий"`. `to_dict` turns a task into a flat record of seven keys.
  The due date is written back as `YYYY-MM-DD`.
- **`TaskManager`**: an ordered list of records held in memory. It also holds
  the content of a backing file, which is rewritten after every successful
  add, edit or delete. `add_task` numbers a task `len(tasks) + 1` and appends
  its record. `delete_task` converts the id with `int()` and removes every
  record that has it. `edit_task` overwrites the supplied non-empty fields of
  the first record with the id. `find_tasks` matches a keyword against
  titles, ignoring case. `list_tasks` filters by exact category.

Modules, one file each:

| file | module | models |
|---|---|---|
| `results.dfy` | `Results` | `Option`, `Result` and `Outcome`, which stand for Python's `None` and raised exceptions |
| `text.dfy` | `Text` | `str.isspace`, `strip()`, `lower()`, the substring test `in`, and `int()` on text |
| `dates.dfy` | `Dates` | the grammar `strptime` accepts for `%Y-%m-%d`, Gregorian calendar validity, and `strftime` |
| `filtering.dfy` | `Filtering` | the list comprehension `[x for x in s if keep(x)]` |
| `tasks.dfy` | `Tasks` | `Task.__init__` as `NewTask`, which returns a `Result` with one error per failed check, and `Task.to_dict` as `ToRecord` |
| `manager.dfy` | `Manager` | the class `TaskManager`, with fields `tasks` and `stored` and one method per operation |

The manager is a class because the source changes its list in place.
`AddTask`, `DeleteTask` and `EditTask` state their whole new state:

- `tasks` is given as a function of `old(tasks)`.
- `stored` is `Some(tasks)` after success and unchanged after an error.

`EditTask` runs the source's loop with loop invariants. The list
comprehension of `delete_task` is the loop of `TaskManager.Remaining`, which
works on a copy of the list and is proved against `Filtering.Filter`.
`FindTasks` and `ListTasks` only read, so they are functions. Each is
specified by the elements it keeps, how often each element occurs, and its
order (it is a subsequence of `tasks`).

The id rule is kept as written: the new id is `len(tasks) + 1`. After a
deletion, a new task can receive an id that a remaining record already has.
`IdReusedAfterDelete` shows this happening.

Three expectations one might have of a task list are not what the code
does, and the model follows the code:

- One might expect the due date to be accepted only in the exact form
  `YYYY-MM-DD`. The code's `strptime` also
  accepts an unpadded month or day (`2024-1-5`) and a space-padded day
  (`2024-01- 5`). `Dates.ParseDate` accepts these too. The round trip
  `to_dict()["due_date"] == due_date` is proved only for canonical text.
  `UnpaddedAccepted` and `UnpaddedNormalised` show that unpadded text is
  written back padded.
- One might expect the status to be validated, with an unknown status
  refused. The code never checks `status`, either at construction or on
  edit, and neither does the model.
- One might expect the priorities to be the English words low, medium and
  high. The code accepts only the three Russian words above.

`int()` and `strip()` do not agree on whitespace. The information separators
U+001C to U+001F count as whitespace for `str.isspace()` and `strip()`, but
`int()` does not skip them and refuses any text that contains them
(`int("\x1c1")` raises). `int()` also refuses more than 4300 digits.
`Text.ParseInt` models both rules.

## Model

| member | source | states |
|---|---|---|
| `Text.IsSpace` | main.py:9 | the characters for which `str.isspace()` holds, which `strip()` removes |
| `Text.TrimLeft` | main.py:9 | the left part of `strip()`: the result is a suffix of the input and everything dropped before it is whitespace; it is empty exactly when the input is all whitespace; otherwise it starts with a non-space |
| `Text.TrimRight` | main.py:9 | the right part of `strip()`: the result is a prefix of the input and everything dropped after it is whitespace; it is empty exactly when the input is all whitespace; otherwise it ends with a non-space |
| `Text.Strip` | main.py:9-14 | `s.strip()` is the slice of `s` between a whitespace prefix and a whitespace suffix; it is empty exactly when every character is whitespace (`str.isspace`); otherwise it starts and ends with a non-space |
| `Text.StripUnpadded` | main.py:9 | `strip()` leaves text that starts and ends with a non-space unchanged |
| `Text.StripPadded` | main.py:9 | `strip()` gives the same result when whitespace is added on either side |
| `Text.UpperChar` | main.py:85 | upper-casing one character, for the Latin and Cyrillic letters only: a lower-case one becomes upper-case; every other character is left as it is (see "## Left out") |
| `Text.LowerChar` | main.py:85 | lower-casing one character: the result is never upper-case; other characters are unchanged; an upper-case letter becomes a lower-case letter whose upper-case form is that same letter |
| `Text.Upper` | main.py:85 | `s.upper()` keeps the length and upper-cases position by position |
| `Text.LowerUpperChar` | main.py:85 | a character and its upper-case form lower-case to the same character |
| `Text.LowerUpper` | main.py:85 | `s.upper().lower() == s.lower()` for the modelled case mappings (it fails in Python for `"ß"`) |
| `Text.Lower` | main.py:85 | `s.lower()` keeps the length, lower-cases position by position, and leaves no upper-case letter |
| `Text.LowerIdempotent` | main.py:85 | lower-casing twice is the same as lower-casing once |
| `Text.Contains` | main.py:85 | the substring test `needle in hay`: a prefix of `hay`, or contained in its tail |
| `Text.ContainsAt` | main.py:85 | `needle in hay` holds exactly when `needle` is the slice of `hay` at some offset |
| `Text.Pad` | main.py:35 | the zero-padded field of `strftime`: exactly `w` digits whose value is `n` |
| `Text.PadDigitsValue` | main.py:35 | padding the value of a digit string to its own length gives back the same string |
| `Text.NatDigits` | main.py:68 | `str(n)` for a natural number: non-empty, all digits, denoting `n`, and without a leading zero unless it is `"0"` |
| `Text.RemoveUnderscores` | main.py:68 | the digits that `int()` reads once the underscores are dropped; a string of digits only is unchanged |
| `Text.Unsigned` | main.py:68 | the part `int()` reads as digits after an optional `+` or `-`: the whole text when there is no sign, otherwise the text after the sign |
| `Text.ParseSigned` | main.py:68 | `int()` after whitespace is stripped: it succeeds exactly when the text is an optional sign and a digit group of at most 4300 digits; the value is the group's digits, negated after a minus |
| `Text.ParseInt` | main.py:67-70 | `int(text)` succeeds exactly when the text has no information separator and its stripped form is an optional sign and a digit group of at most 4300 digits; blank text is refused |
| `Text.ParseIntIgnoresPadding` | main.py:68 | surrounding whitespace without separators does not change what `int()` reads |
| `Text.ParseDigits` | main.py:68 | `int(text)` reads a plain digit string as its decimal value |
| `Text.ParseShow` | main.py:68 | `int(str(n)) == n` for every integer of at most 4300 digits |
| `Text.ParseNegative` | main.py:68 | a minus sign followed by digits reads as the negated value of the digits |
| `Text.ParseIntUnpadded` | main.py:68 | on text that starts and ends with a digit, `int()` succeeds exactly for a digit group and gives its value |
| `Text.ParseIntNeedsDigit` | main.py:67-70 | text without any digit raises, which is the "id must be a number" error |
| `Text.ParseIntSkipsUnderscore` | main.py:68 | a single underscore between digits is skipped (`int("1_000") == 1000`) |
| `Text.ParseIntRefusesDoubleUnderscore` | main.py:68 | two underscores in a row are refused |
| `Dates.DaysInMonth` | main.py:16 | 31 days for months 1, 3, 5, 7, 8, 10 and 12; 30 for months 4, 6, 9 and 11; 29 exactly for February of a Gregorian leap year; 28 otherwise |
| `Dates.IsLeapYear` | main.py:16 | the Gregorian leap-year rule `datetime.date` applies |
| `Dates.ValidDate` | main.py:16 | the dates `datetime.date` accepts: year 1..9999, month 1..12, day within the month |
| `Dates.IsMonthField` | main.py:16 | the text strptime's `%m` matches: one or two digits with a value from 1 to 12 |
| `Dates.IsDayField` | main.py:16 | the text strptime's `%d` matches: one or two digits with a value from 1 to 31, or a space and a non-zero digit |
| `Dates.FieldValue` | main.py:16 | a month or day field denotes a number from 1 to 31 |
| `Dates.FieldValueIsInt` | main.py:16 | that number is what `int()` reads from the field (`" 5"` is 5, `"07"` is 7) |
| `Dates.ParseDate` | main.py:15-18 | `strptime(due_date, "%Y-%m-%d").date()` succeeds only with a date that exists (year 1..9999, month 1..12, day within the month), and only on text of 8 to 10 characters with four year digits and a dash |
| `Dates.ParseDateHasShape` | main.py:16 | text that parses is four year digits, a dash, a `%m` field, a dash and a `%d` field, and the date is read from those fields |
| `Dates.ParseDateOfShape` | main.py:15-18 | text of that shape parses exactly when its fields name an existing date, and then to that date |
| `Dates.TenCharactersCanonical` | main.py:16 | ten characters that parse are `YYYY-MM-DD` unless the day is space-padded |
| `Dates.FormatDate` | main.py:35 | `strftime("%Y-%m-%d")` writes the complete `YYYY-MM-DD` form |
| `Dates.ParseFormat` | main.py:15-18 | parsing what `strftime` wrote gives back the same date |
| `Dates.ParseCanonical` | main.py:15-18 | on `YYYY-MM-DD` text, parsing succeeds exactly when the three digit groups name an existing date, and then gives that date |
| `Dates.FormatParse` | main.py:35 | on `YYYY-MM-DD` text that parses, formatting the result gives back the same text |
| `Dates.ParseCanonicalDigits` | main.py:15-18 | the result of parsing `YYYY-MM-DD` text, with the digit groups evaluated |
| `Dates.RejectsDayFirst` | test_main.py:21-23 | `"30-11-2024"` is refused |
| `Dates.LeapDay2024` | main.py:16 | February 29th parses in 2024, a leap year |
| `Dates.LeapDay2000` | main.py:16 | February 29th parses in 2000, a century divisible by 400 |
| `Dates.NoLeapDay1900` | main.py:16 | February 29th is refused in 1900, a century not divisible by 400 |
| `Dates.NoLeapDay2023` | main.py:16 | February 29th is refused in 2023, a common year |
| `Dates.RejectsApril31` | main.py:15-18 | April 31st is refused |
| `Dates.RejectsYearZero` | main.py:15-18 | year 0 is refused |
| `Dates.RejectsMonth13` | main.py:15-18 | month 13 is refused |
| `Dates.UnpaddedAccepted` | main.py:16 | `strptime` also accepts the unpadded `"2024-1-5"` |
| `Dates.RoundTripIffCanonical` | main.py:35 | for text that parses, `strftime` of the parsed date gives the same text back exactly when the text is canonical `YYYY-MM-DD` |
| `Dates.UnpaddedNormalised` | main.py:35 | `"2024-1-5"` is accepted but written back as different text |
| `Filtering.Filter` | main.py:71 | a list comprehension never returns more elements than its input |
| `Filtering.FilterMembers` | main.py:71 | the comprehension keeps exactly the elements that pass the test |
| `Filtering.FilterCount` | main.py:71 | each element that passes is kept as often as it occurs; the others are dropped |
| `Filtering.FilterOrder` | main.py:71 | the kept elements stay in their original order (a subsequence) |
| `Filtering.FilterAppend` | main.py:71 | filtering a concatenation is the concatenation of the filtered parts |
| `Filtering.FilterKeepsAll` | main.py:71 | when every element passes, the list is unchanged |
| `Filtering.FilterIdempotent` | main.py:71 | filtering twice with the same test is the same as filtering once |
| `Tasks.PriorityName` | main.py:19 | the three priority names, `"низкий"`, `"средний"` and `"высокий"` |
| `Tasks.ParsePriority` | main.py:19-20 | a priority is accepted only if it is one of the three names, and it reads back to that name |
| `Tasks.NewTask` | main.py:8-27 | each failed check gives its own error, in the order title, description, category, date, priority (blank means all whitespace); success gives a valid task with no id, the given text fields and status, and the parsed date and priority |
| `Tasks.ToRecord` | main.py:29-38 | `to_dict` writes the date as `YYYY-MM-DD` text that parses back to the task's date, writes the priority by a name that parses back to it, and copies the other fields |
| `Tasks.ReconstructFromRecord` | main.py:29-38 | the constructor accepts what `to_dict` wrote and rebuilds the same task without its id |
| `Tasks.DueDateRoundTrip` | main.py:35 | for a canonical `YYYY-MM-DD` due date, `to_dict()["due_date"]` equals the text that was given |
| `Tasks.DefaultsOnSuccess` | main.py:8 | without a status argument a new task has status `"Не выполнена"` and no id |
| `Tasks.DayFirstDateRefused` | test_main.py:21-23 | `Task(..., "30-11-2024", ...)` fails with the date error |
| `Tasks.ExampleTaskAccepted` | test_main.py:15 | the task used by the tests is accepted, and its date is stored as given |
| `Manager.ParseId` | main.py:67-68 | an integer id is taken as it is; a text id is read by `int()` |
| `Manager.KeepOthers` | main.py:71 | the test of `delete_task`'s comprehension holds exactly for records whose id differs |
| `Manager.MatchesTitle` | main.py:85 | the lower-cased keyword occurs in the lower-cased title |
| `Manager.TitleMatches` | main.py:85 | the test of `find_tasks`'s comprehension holds exactly for matching titles |
| `Manager.InCategory` | main.py:89 | the test of `list_tasks`'s comprehension holds exactly for records of the category |
| `Manager.ApplyUpdates` | main.py:77-79 | each supplied non-empty value (a non-zero id) replaces its field; every other field keeps its value |
| `Manager.Appended` | main.py:62-63 | the record list after `add_task`: earlier records are unchanged, and one record is appended with id `len + 1` and the task's other fields |
| `Manager.FirstWithId` | main.py:75-76 | finds the first record with the id, or reports that no record has it |
| `Manager.TaskManager.constructor` | main.py:44-53 | records come from the file, or the list is empty when the file is missing or not valid JSON |
| `Manager.TaskManager.SaveTasks` | main.py:55-57 | the file then holds exactly the records in memory |
| `Manager.TaskManager.AddTask` | main.py:59-64 | a non-`Task` is rejected and nothing changes; otherwise the task gets id `len + 1`, its record is appended, and the file is rewritten |
| `Manager.TaskManager.Remaining` | main.py:71 | the comprehension keeps exactly the records whose id is not the given one, in order |
| `Manager.TaskManager.DeleteTask` | main.py:66-72 | a non-numeric id is rejected and nothing changes; otherwise the records whose id differs are kept in order, and the file is rewritten even when nothing was removed |
| `Manager.TaskManager.EditTask` | main.py:74-82 | only the first record with the id is updated, and the file is rewritten; with no such record it fails with "not found", and neither the list nor the file changes |
| `Manager.TaskManager.FindTasks` | main.py:84-85 | exactly the records whose lower-cased title contains the lower-cased keyword, each as often as in the list, in list order |
| `Manager.TaskManager.ListTasks` | main.py:87-90 | the whole list when no category or an empty one is given; otherwise exactly the records of that category, in list order |
| `Manager.AddAll` | main.py:59-64 | repeated `add_task` adds one record per task |
| `Manager.AddAllShape` | main.py:59-64 | repeated `add_task` keeps earlier records and appends one record per task, in call order, numbered from `len + 1` |
| `Manager.AddToEmptyNumbersInOrder` | test_main.py:13-18 | adding N tasks to an empty manager gives ids 1..N in order, with the titles in call order |
| `Manager.SequentialIdsDistinct` | main.py:62 | records numbered 1, 2, 3, ... have distinct ids |
| `Manager.IdReusedAfterDelete` | main.py:62 | add two tasks, delete id 1, add a third: two records now have id 2 |
| `Manager.DeleteRemovesExactly` | main.py:71 | after deleting id n no record has id n; every record with another id remains, as often as before |
| `Manager.DeleteKeepsOrder` | main.py:71 | survivors keep their relative order |
| `Manager.DeleteAbsentUnchanged` | main.py:71 | deleting an id that no record has leaves the list unchanged |
| `Manager.DeleteByText` | main.py:68 | an id given as text (`str(n)`, at most 4300 digits) deletes the same records as the integer `n` |
| `Manager.ApplyUpdatesIdempotent` | main.py:77-79 | applying the same updates twice is the same as applying them once |
| `Manager.EmptyUpdatesChangeNothing` | main.py:77-79 | updates that are all absent or empty leave the record unchanged |
| `Manager.SearchIgnoresKeywordCase` | main.py:85 | a keyword and its lower-cased form find the same records |
| `Manager.SearchIgnoresTitleCase` | main.py:85 | a title and its upper-cased form are found by the same keywords, for the modelled Latin and Cyrillic case mappings |
| `Manager.EmptyKeywordFindsAll` | main.py:85 | the empty keyword finds every record |
| `Manager.SearchExample` | main.py:85 | the keyword `"nam"` finds a task titled `"Name"` |
| `Manager.ExampleAddAndFind` | test_main.py:42-48 | after one `add_task` on an empty manager, searching for the task's title finds exactly its record, with id 1 |
| `Manager.ExampleEdit` | test_main.py:34-39 | editing id 1 with a new title succeeds and the listed record has that title and its old status; editing id 2 fails with "not found" |
| `Manager.ExampleDelete` | test_main.py:26-31 | deleting the only task by its id leaves the list and the file empty |

## Left out

- The interactive `main()` menu (main.py:93-168) is console input and output around the operations above.
- File I/O and JSON are not modelled. `stored` stands for the file's content, and `None` means a file that is missing (`FileNotFoundError`) or not valid JSON (`JSONDecodeError`), the two cases main.py:52 catches. The file name, the encoding options and write failures are not modelled. Loading a JSON value that is not a list of seven-key records is not modelled either.
- Manager.TaskManager.constructor: a file that is not valid UTF-8 raises `UnicodeDecodeError`, and a file that cannot be read raises another `OSError`; main.py:52 catches neither, so `TaskManager()` raises where the model starts from the stored content or from an empty list.
- Dates.ParseDate: Python's `\d` and `int()` also accept non-ASCII decimal digits (Arabic-Indic, for example). The model reads ASCII digits only.
- Dates.FormatDate: on some platforms `strftime("%Y")` does not zero-pad years below 1000. The model always writes four digits.
- Text.LowerChar: Python's `lower()` covers all of Unicode. The model lower-cases only the Latin letters A-Z and the Cyrillic block U+0400..U+042F. It leaves every other character unchanged, so it also omits the mappings that change a string's length.
- Text.UpperChar: `upper()` is modelled only for the Latin letters a-z and the Cyrillic block U+0430..U+045F; Python also upper-cases other letters (`'é'.upper()` is `'É'`) and some to longer strings (`'ß'.upper()` is `'SS'`). main.py does not call `upper()`; `UpperChar`, `Upper` and `LowerUpper` serve only to state that search ignores case, so `LowerUpper` and `SearchIgnoresTitleCase` hold for those letters only. In Python `'ß'.upper().lower()` is `'ss'`, so `find_tasks("ß")` finds "Straße" but not "STRASSE".
- Text.ParseInt: `int()` also accepts non-ASCII digits. On a float or `None`, it truncates or raises `TypeError` instead. The model covers only integers and text. The 4300-digit limit is the default of `sys.set_int_max_str_digits` (Python 3.11 and later); a program that changes it is not modelled.
- Text.Show: `str(n)` of an integer with more than 4300 digits raises `ValueError` as well; `Show` does not, which is why the lemmas about it require at most 4300 digits.
- Manager.TaskManager.AddTask: the source writes the new id into the `Task` object it was given (`task.id = ...`). The model returns the updated task instead.
- Manager.TaskManager.ListTasks: the source returns its own list object when no category is given, so later changes show through that object. The model returns a value, so the aliasing is not modelled.
- Manager.TaskManager.EditTask: the source changes the record dictionary in place. Any list returned earlier that holds the same dictionary sees the change; the model does not show this sharing. The id is taken as an integer, so a text id (which the source compares without conversion and never matches) is not modelled.
- Manager.ApplyUpdates: the source accepts arbitrary keyword arguments. The model has one optional value for each of the seven record keys. Other keys are never written, because no record has them. Values of the wrong type (say, a number as a title) are not modelled.
- Python's dynamic typing is not modelled. For example, a non-string title raises `AttributeError` at `strip()`. Every argument has its declared type.
