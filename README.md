# learning-rust, modelled in Dafny

This project models the small Rust programs and libraries of the
learning-rust repository and proves what they compute. It covers:

- **todo_list**: the command parser (`build_command`, `parse_text_arg`,
  `BuildError::val`). It also covers the task record and the task table
  `TaskList`. The table loads `;`-separated lines, adds, deletes, does and
  undoes tasks, picks the next free id, and lists and saves the tasks in
  ascending id order.
- **department_employees**: the read–classify–respond loop over
  `Add E to D`, `Show D` and `Exit`. Departments map to their employees in
  insertion order.
- **median_and_mode**: sorting a fixed list, the median position
  `len / 2 - 1`, counting every item, and choosing the item with the
  largest count.
- **pig_latin**: the word-by-word rewrite and the join.
- **iterators**: `shows_in_size` and the facts its tests state about
  `next`, `sum` and `map`.
- **adder**: `can_hold` (strict), `add_two`, `greeting` and `Guess::new`.
- **rectangle_area**: `square`, `area` and `can_hold` (non-strict), and the
  values of `main`.
- **fibonacci**: the loop that prints twenty Fibonacci numbers.
- **loops**: the five loop functions.
- **twelve_days_of_christmas**: the nested loops that print the song.
- **add_one**.

Code that changes state step by step is modelled as methods with loops.
Examples are the task table (a `class` whose methods update its map and its
printer output), the loader loop, `get_next_task_id`, `print_tasks`,
`sync_to_file`, the department loop, the counting and selection loops, the
pig-latin loop, the Fibonacci loop, the loops program and the song. Most
of these methods are proved against a specification function, and the
properties are then proved about that function. The five functions of the
loops program are proved against the values and the lines they produce.

Several standard-library behaviours are modelled once, in `RustStr`:
`split_whitespace`, `trim`, `split`, `lines`, `join`, `parse::<usize>`,
decimal formatting and ASCII lowercasing. `RustInt` holds the integer types
`i32` and `u32`. Output is modelled as the sequence of lines or messages a
program prints. Console input is modelled as a sequence of lines, and a
file's content as an optional string.

The todo_list crate does not compile as it stands. Its `Task` methods and
`TaskStatus::val` are called but not defined in `task.rs`. The loader's
`while let Some(line) = content.lines().next()` never advances. The model
gives these their evident meaning:

- a task is stored as `id;status;text`;
- a status reads `pending` or `done`;
- the loader visits each line of the file once.

The greeting test of adder (`greeting_contains_name`) fails as written:
`greeting` ignores its argument. `Adder.GreetingOmitsCarol` proves that it
fails.

## Model

| member | source | states |
|---|---|---|
| TodoTask.StatusVal | todo_list/src/task.rs:1-4 | a status reads "pending" or "done", and "pending" exactly for `Pending` |
| TodoTask.TaskId.New | todo_list/src/task.rs:9-17 | `TaskId::new` wraps the number that `val` gives back |
| TodoTask.TaskIdEquality | todo_list/src/task.rs:6-7 | two ids are equal iff the numbers they wrap are equal (derived `PartialEq`) |
| TodoTask.Task.New | todo_list/src/task.rs:19-23 | a new task has the given id and text and is pending |
| TodoTask.Task.Do | todo_list/src/task_list.rs:96-97 | doing a task marks it done and keeps its id and text |
| TodoTask.Task.Undo | todo_list/src/task_list.rs:110-111 | undoing a task marks it pending and keeps its id and text |
| TodoTask.DoUndoRoundTrip | todo_list/src/task_list.rs:88-114 | do and undo reverse each other; undo after do restores a pending task, do after undo restores a done one |
| TodoTask.Task.ToCsv | todo_list/src/task_list.rs:187 | the line a task is saved as: its id, its status word and its text, joined by `;` |
| TodoCommand.ValInjective | todo_list/src/command.rs:24-38 | two errors have the same message iff they are the same error |
| TodoCommand.MissingArgumentMessage | todo_list/src/command.rs:28-33 | a message starts with "Missing argument: " exactly for `MissingArgument`, and the rest is its usage text |
| TodoCommand.TrimAll | todo_list/src/command.rs:55-56 | every piece is trimmed, and the length is kept |
| TodoCommand.TrimAllOfWords | todo_list/src/command.rs:55-56 | trimming leaves the pieces `split_whitespace` yields unchanged |
| TodoCommand.ParseTextArg | todo_list/src/command.rs:40-90 | the loop over the pieces returns `TextArg(input)`; the lone-quote panic is a precondition |
| TodoCommand.ClosingJoins | todo_list/src/command.rs:68-83 | after an opening quote, the pieces up to the first one ending in the quote are joined by single spaces, without the quote |
| TodoCommand.ClosingUnclosed | todo_list/src/command.rs:85-87 | if no later piece ends in the opening quote, the result is "" |
| TodoCommand.TextArgUnquoted | todo_list/src/command.rs:63-65 | several pieces whose first is not quoted give the first piece |
| TodoCommand.TextArgQuotedStart | todo_list/src/command.rs:58-62 | a quoted first piece starts the collection with its text after the quote |
| TodoCommand.QuotedTextArg | todo_list/src/command.rs:55-89 | `'a b … c'` followed by any words gives "a b … c", and no panic |
| TodoCommand.UnclosedTextArg | todo_list/src/command.rs:85-87 | a quoted first word that no later word closes gives "" |
| TodoCommand.MissingCommandNameIffNoWords | todo_list/src/command.rs:109-112 | `MissingCommandName` is returned iff there is no word |
| TodoCommand.MissingCommandNameIffBlank | todo_list/src/command.rs:105-112 | `build_command` reports `MissingCommandName` iff the line has no words |
| TodoCommand.UnknownCommandIffUnknownWord | todo_list/src/command.rs:114-145 | `UnknownCommand` is returned iff the lowercased first word is none of the six names |
| TodoCommand.UnknownCommandIffUnknownName | todo_list/src/command.rs:105-145 | on a non-blank line, `UnknownCommand` iff the lowercased first word is not a command name |
| TodoCommand.CommandWordsOfLine | todo_list/src/command.rs:106-107 | trimming and splitting a line of words joined by spaces gives the words back |
| TodoCommand.ListAndExitIgnoreArguments | todo_list/src/command.rs:114-145 | `list` and `exit`, in any case, build `List`/`Exit` whatever words follow |
| TodoCommand.IdCommandMissingArgument | todo_list/src/command.rs:141 | `do`/`undo`/`delete` alone report `MissingArgument("<name> TASK_ID")` |
| TodoCommand.IdCommandOfWords | todo_list/src/command.rs:126-140 | with an argument, a usize gives the command around that id and anything else `NotUsizeTaskId` |
| TodoCommand.IdCommandWithArgument | todo_list/src/command.rs:126-140 | the same for a whole line: only the first argument counts, and it is parsed as a usize |
| TodoCommand.IdCommandRoundTrip | todo_list/src/command.rs:126-140 | writing `<name> <n>` for a usize `n` and parsing the line gives the command on `TaskId(n)` back |
| TodoCommand.LowerCaseUnchanged | todo_list/src/command.rs:110 | lowercasing leaves a word of small letters unchanged |
| TodoCommand.LowerCaseName | todo_list/src/command.rs:126 | the id-command names are words that lowercasing keeps |
| TodoCommand.AddIffNonEmptyText | todo_list/src/command.rs:116-125 | `add` gives `Add(text)` iff the parsed text is non-empty, and otherwise `MissingArgument("add 'tast text'")` |
| TodoCommand.GraphicWord | todo_list/src/command.rs:107 | printable ASCII without a space is one word |
| TodoCommand.ParseTextArgSingleExamples | todo_list/src/command.rs:154-158 | `input` and `'input'` both give "input" |
| TodoCommand.ParseTextArgUnquotedExample | todo_list/src/command.rs:160-166 | several unquoted words give the first |
| TodoCommand.ParseTextArgSingleQuotedExample | todo_list/src/command.rs:168-174 | a quoted phrase gives the phrase without quotes |
| TodoCommand.QuotedExamplePieces | todo_list/src/command.rs:168-172 | the words of the quoted test phrase, as split |
| TodoCommand.QuotedExampleJoined | todo_list/src/command.rs:174 | the words of the test phrase joined by spaces |
| TodoCommand.ParseTextArgUnclosedExample | todo_list/src/command.rs:184-190 | an unclosed quote gives "" |
| TodoCommand.ParseTextArgTrailingWordsExample | todo_list/src/command.rs:192-201 | words after the closing quote are ignored |
| TodoCommand.BuildError.Val | todo_list/src/command.rs:24-38 | the message of each error: three fixed texts, and "Missing argument: " followed by the usage for `MissingArgument` |
| TodoCommand.Unquote | todo_list/src/command.rs:45-52 | a single piece loses its first and last character when it starts and ends with the same quote character, and is kept otherwise |
| TodoCommand.Closing | todo_list/src/command.rs:55-89 | after an opening quote: the collected text and the pieces up to the first one ending in that quote, joined by spaces and without the closing quote; "" when no piece closes it |
| TodoCommand.TextArg | todo_list/src/command.rs:40-90 | `parse_text_arg`: one piece, unquoted; otherwise the first piece when it is not quoted, the quoted phrase when it is, or "" when the quote is never closed |
| TodoCommand.CommandWords | todo_list/src/command.rs:106-107 | the words of the trimmed line |
| TodoCommand.AddPanics | todo_list/src/command.rs:116-118 | `add` followed by one lone quote character, on which `parse_text_arg` panics |
| TodoCommand.BuildFromWords | todo_list/src/command.rs:109-145 | no word gives `MissingCommandName`; the lowercased first word picks `list`, `add` with its text argument, `do`/`undo`/`delete` with a usize id, or `exit`; any other word gives `UnknownCommand` |
| TodoCommand.BuildCommand | todo_list/src/command.rs:105-145 | `build_command`: the line is trimmed and split into words, which decide the command as in `BuildFromWords` |
| TodoCommand.IdCommand | todo_list/src/command.rs:132-137 | `Do`, `UnDo` or `Delete` of the id, after the name |
| TodoCommand.BuildCommandOfWords | todo_list/src/command.rs:105-107 | trimming keeps the words; a line and its words rejoined by single spaces panic alike and build the same command |
| TodoCommand.PaddedLineWords | todo_list/src/command.rs:106-107 | whitespace before and after a line of words adds no word |
| TodoCommand.BuildCommandOfPaddedLine | todo_list/src/command.rs:105-145 | a line of words with whitespace around it builds what its words build |
| TodoCommand.EmptyLineTest | todo_list/src/command.rs:205-208 | the empty line builds `MissingCommandName` |
| TodoCommand.ListAndExitTest | todo_list/src/command.rs:211-213 | `"list  "` builds `List`, and `"exit  "` (command.rs:300-301) builds `Exit` |
| TodoCommand.IdMissingArgumentTest | todo_list/src/command.rs:238-283 | `do`, `undo` and `delete` alone build `MissingArgument("<name> TASK_ID")`, whose message starts with "Missing argument: <name>" |
| TodoCommand.IdOneTest | todo_list/src/command.rs:243-288 | `" do 1"`, `" undo 1"` and `" delete 1"` build the command on task 1 |
| TodoCommand.IdNotANumberTest | todo_list/src/command.rs:249-292 | `" do not_a_number"` and its `undo` and `delete` forms build `NotUsizeTaskId` |
| TodoCommand.NotANumberWord | todo_list/src/command.rs:249-250 | `not_a_number` is one word and does not parse as a usize |
| TodoCommand.IdBadArgument | todo_list/src/command.rs:126-130 | after a leading space, an id-taking name followed by a word that is no usize builds `NotUsizeTaskId` |
| TodoCommand.AddMissingTextTest | todo_list/src/command.rs:223-225 | `add` alone builds the usage error of `add`, whose message starts with "Missing argument: add" |
| TodoCommand.AddQuotedTextTest | todo_list/src/command.rs:227-231 | `" add 'Test task'"` and `" add \"Test task\""` build `Add("Test task")` |
| TodoCommand.QuotedTestArg | todo_list/src/command.rs:227-231 | the text argument of `'Test task'` or `"Test task"`, as split into words, is "Test task" |
| TodoCommand.UnknownCommandTest | todo_list/src/command.rs:308-310 | a line starting with the word `an` or `this` builds `UnknownCommand`, whatever follows; this covers "an extrange command" and each "this is not a… command" line of the tests (command.rs:215-303), none of which builds the command it names |
| TodoCommand.UnknownFirstWord | todo_list/src/command.rs:144 | a first word that names no command gives `UnknownCommand`, whatever follows |
| TodoTaskList.MinExists | todo_list/src/task_list.rs:117-118 | a non-empty set of ids has a least element |
| TodoTaskList.Min | todo_list/src/task_list.rs:117-118 | the least id of a non-empty set |
| TodoTaskList.SortedKeys | todo_list/src/task_list.rs:117-118 | the sorted keys: as many as keys, each a key, strictly ascending |
| TodoTaskList.SortedKeysComplete | todo_list/src/task_list.rs:117-118 | every key is among the sorted keys |
| TodoTaskList.GapFromIsFirstGap | todo_list/src/task_list.rs:142-154 | the scan from position `i` stops one past a present id, at an absent id, with every number between present |
| TodoTaskList.NextIdIsFirstGap | todo_list/src/task_list.rs:135-155 | the next id is absent; it is 1 for no ids; otherwise it is one past a present id, and every number from the smallest id up to it is present |
| TodoTaskList.NextIdIsFresh | todo_list/src/task_list.rs:135-155 | the id picked for a table is not in it, and it is 1 for an empty table |
| TodoTaskList.ParseLineAccepts | todo_list/src/task_list.rs:37-66 | a line is accepted iff it has exactly two `;`, a usize id and status "pending" or "done"; the text is the third part |
| TodoTaskList.ParseLineOfCsv | todo_list/src/task_list.rs:37-66 | a task's `id;status;text` line, text without `;`, parses back to the task |
| TodoTaskList.ParseLines | todo_list/src/task_list.rs:36-37 | each line parsed, in order |
| TodoTaskList.Accepted | todo_list/src/task_list.rs:64-67 | every accepted task is stored under its own id |
| TodoTaskList.Rejected | todo_list/src/task_list.rs:39-62 | at most one warning per line |
| TodoTaskList.AcceptedLastWins | todo_list/src/task_list.rs:67 | an accepted task that no later line overwrites is in the table |
| TodoTaskList.AcceptedFromResults | todo_list/src/task_list.rs:67 | every task in the table came from an accepted result |
| TodoTaskList.LoadedTasksLastWins | todo_list/src/task_list.rs:36-68 | a loaded id holds the task of the last accepted line with that id |
| TodoTaskList.LoadedTasksFromLines | todo_list/src/task_list.rs:36-68 | every loaded task comes from some line of the file |
| TodoTaskList.Listing | todo_list/src/task_list.rs:116-125 | one notice `id\tstatus\ttext` per task, by ascending id |
| TodoTaskList.CsvLines | todo_list/src/task_list.rs:182-189 | one CSV line per task, by ascending id |
| TodoTaskList.ListingInAscendingOrder | todo_list/src/task_list.rs:117-124 | position `i` shows the task under the `i`-th smallest id, and ids strictly increase |
| TodoTaskList.ListingOneMore | todo_list/src/task_list.rs:120-124 | one more loop pass adds the next task's line |
| TodoTaskList.ListingCoversEveryTask | todo_list/src/task_list.rs:116-125 | every task is listed and saved |
| TodoTaskList.AcceptedInOrder | todo_list/src/task_list.rs:182-189 | every task accepted, by ascending id |
| TodoTaskList.ParseLinesOfCsv | todo_list/src/task_list.rs:37-66 | parsing the saved lines accepts every task, by ascending id |
| TodoTaskList.AcceptedOfSorted | todo_list/src/task_list.rs:64-67 | accepting the tasks of the first `n` sorted ids gives the table restricted to those ids |
| TodoTaskList.NothingRejectedOfSorted | todo_list/src/task_list.rs:39-62 | no warnings for saved tasks |
| TodoTaskList.AcceptedInOrderIsTable | todo_list/src/task_list.rs:64-67 | accepting every task in id order rebuilds the table |
| TodoTaskList.LinesOfSaved | todo_list/src/task_list.rs:185-189 | the saved file splits back into the saved lines |
| TodoTaskList.SaveLoadRoundTrip | todo_list/src/task_list.rs:22-75 | loading a saved table gives the same table, without warnings |
| TodoTaskList.CsvLineIsPlain | todo_list/src/task_list.rs:187 | a storable task's CSV line has no line break |
| TodoTaskList.AddInsertsOneFreshTask | todo_list/src/task_list.rs:127-133 | `add` inserts exactly one pending task with the text, under a fresh id; the other tasks are unchanged; nothing is printed |
| TodoTaskList.DeleteRemovesOnlyThatTask | todo_list/src/task_list.rs:157-170 | `delete` removes that id only, and prints a notice or warns about an unknown id |
| TodoTaskList.DoUndoChangeOnlyThatTask | todo_list/src/task_list.rs:88-114 | `do`/`undo` change only that task's status, or warn and change nothing for an unknown id |
| TodoTaskList.ExitAndListChangeNothing | todo_list/src/task_list.rs:77-86 | `exit` and `list` keep the table; `list` prints the listing |
| TodoTaskList.StepKeepsTasksKeyedById | todo_list/src/task_list.rs:77-86 | every command keeps each task under its own id |
| TodoTaskList.LoadOneMore | todo_list/src/task_list.rs:36-68 | one more line updates the table or adds one warning |
| TodoTaskList.TaskList.constructor | todo_list/src/task_list.rs:22-75 | a missing file gives an empty table; otherwise the table and warnings are those of its lines |
| TodoTaskList.TaskList.Execute | todo_list/src/task_list.rs:77-86 | the new table and output are those of `Step` for the command |
| TodoTaskList.TaskList.DoTask | todo_list/src/task_list.rs:88-100 | the task is marked done, or a warning is printed |
| TodoTaskList.TaskList.UndoTask | todo_list/src/task_list.rs:102-114 | the task is marked pending, or a warning is printed |
| TodoTaskList.TaskList.PrintTasks | todo_list/src/task_list.rs:116-125 | the table is unchanged, and the listing is appended to the output |
| TodoTaskList.TaskList.AddTask | todo_list/src/task_list.rs:127-133 | the table becomes `AfterAdd` of the text |
| TodoTaskList.TaskList.NextTaskId | todo_list/src/task_list.rs:135-155 | the loop over the sorted ids returns `NextId` |
| TodoTaskList.TaskList.DeleteTask | todo_list/src/task_list.rs:157-170 | the id is removed and the delete message printed |
| TodoTaskList.TaskList.SyncToFile | todo_list/src/task_list.rs:172-192 | the content written is every CSV line with its newline, by ascending id |
| TodoTaskList.GapFrom | todo_list/src/task_list.rs:142-154 | the scan from position `i` of the sorted ids: one past the first id whose successor is not the next number, or one past the last id |
| TodoTaskList.NextId | todo_list/src/task_list.rs:135-155 | `get_next_task_id`: 1 for no ids, otherwise the scan from the first sorted id |
| TodoTaskList.ParseLine | todo_list/src/task_list.rs:37-66 | a line of three `;`-separated parts with a usize id and status "pending" or "done" is that task; otherwise the warning for mismatched parts, an invalid id or an invalid status, checked in that order |
| TodoTaskList.SemicolonTextNotReloaded | todo_list/src/task_list.rs:37-43 | a task whose text holds a `;` is saved as a line of more than three parts, which the loader ignores with the "missmatched parts" warning |
| TodoTaskList.LoadedTasks | todo_list/src/task_list.rs:36-68 | the table the loader builds: the accepted lines in order, a later one overwriting an earlier one with the same id |
| TodoTaskList.LoadWarnings | todo_list/src/task_list.rs:36-68 | the warnings the loader prints: one per rejected line, in order |
| TodoTaskList.ListingLine | todo_list/src/task_list.rs:122 | a task listed as `id<TAB>status<TAB>text` |
| TodoTaskList.Saved | todo_list/src/task_list.rs:182-189 | the content `sync_to_file` writes: each CSV line followed by a newline, by ascending id |
| TodoTaskList.UnknownTaskMessage | todo_list/src/task_list.rs:91-92 | the warning "Unknown task with key <id>" |
| TodoTaskList.AfterAdd | todo_list/src/task_list.rs:127-133 | `add_task`: a pending task with the text is stored under the next id |
| TodoTaskList.DeleteMessage | todo_list/src/task_list.rs:157-167 | the notice "Task with key <id> successfully deleted" for a known id, the unknown-task warning otherwise |
| TodoTaskList.AfterDo | todo_list/src/task_list.rs:88-100 | `do_task`: a known task is marked done; an unknown id leaves the table as it is |
| TodoTaskList.AfterUndo | todo_list/src/task_list.rs:102-114 | `undo_task`: a known task is marked pending; an unknown id leaves the table as it is |
| TodoTaskList.UnknownWarnings | todo_list/src/task_list.rs:89-93 | `do_task` and `undo_task` print the unknown-task warning for an unknown id and nothing otherwise |
| TodoTaskList.Step | todo_list/src/task_list.rs:77-86 | `execute`: `Add`, `Delete`, `Do`, `List` and `UnDo` each change the table and print as their method does; `Exit` changes nothing and prints nothing |
| DepartmentEmployees.NameLength | department_employees/src/main.rs:20-21 | the longest `\w` run at the start |
| DepartmentEmployees.NameLengthOfNameThen | department_employees/src/main.rs:20 | a name followed by a non-name character is read whole |
| DepartmentEmployees.MatchAddOfLine | department_employees/src/main.rs:20 | `Add E to D` captures `E` and `D` |
| DepartmentEmployees.MatchAddIsLine | department_employees/src/main.rs:20 | a match is a line `Add E to D` with names `E` and `D` |
| DepartmentEmployees.MatchAddExactly | department_employees/src/main.rs:20-37 | the Add regex captures `(E, D)` iff the line is exactly `Add E to D` with `\w+` names |
| DepartmentEmployees.MatchShowExactly | department_employees/src/main.rs:21-40 | the Show regex captures `D` iff the line is exactly `Show D` |
| DepartmentEmployees.ClassifyAddLine | department_employees/src/main.rs:29 | `Add E to D` is an Add |
| DepartmentEmployees.ClassifyShowLine | department_employees/src/main.rs:38 | `Show D` is a Show |
| DepartmentEmployees.ClassifyExitIffPrefix | department_employees/src/main.rs:20-49 | a line is an Exit iff it starts with `Exit` (Add and Show lines never do) |
| DepartmentEmployees.Updated | department_employees/src/main.rs:34-35 | an Add appends the employee to its department and changes no other one; other actions leave the map alone |
| DepartmentEmployees.UntilExit | department_employees/src/main.rs:26-53 | the handled actions are the prefix before the first Exit |
| DepartmentEmployees.EmployeesInInsertionOrder | department_employees/src/main.rs:34-35 | a department lists exactly the employees added to it, in order; it exists iff one was added |
| DepartmentEmployees.ShowReportsAdded | department_employees/src/main.rs:42-47 | `Show D` prints the added employees joined by ", ", or says that the department does not exist |
| DepartmentEmployees.OnlyAddChangesTheMap | department_employees/src/main.rs:38-52 | without Adds the map stays empty, and each action prints one line |
| DepartmentEmployees.UntilExitOfPrefix | department_employees/src/main.rs:48-49 | stopping at the first Exit or at the end gives the handled prefix |
| DepartmentEmployees.AfterOneMore | department_employees/src/main.rs:26-53 | one more action updates the map and appends its reply |
| DepartmentEmployees.Actions | department_employees/src/main.rs:7-17 | each input line is trimmed and classified |
| DepartmentEmployees.Respond | department_employees/src/main.rs:29-52 | one pass for a non-Exit action: the updated map and its reply |
| DepartmentEmployees.Run | department_employees/src/main.rs:19-54 | the final map and output are those of the actions before the first Exit; the loop exits iff there is an Exit |
| DepartmentEmployees.MatchAdd | department_employees/src/main.rs:20 | `^Add (?P<employee>\w+) to (?P<department>\w+)$`: the two names when the whole line has that shape, nothing otherwise |
| DepartmentEmployees.MatchShow | department_employees/src/main.rs:21 | `^Show (?P<department>\w+)$`: the name when the whole line has that shape, nothing otherwise |
| DepartmentEmployees.StartsWithExit | department_employees/src/main.rs:22 | `^Exit`: the line starts with `Exit` |
| DepartmentEmployees.Classify | department_employees/src/main.rs:29-51 | the patterns are tried in the order Add, Show, Exit; a line none matches is unknown |
| DepartmentEmployees.Reply | department_employees/src/main.rs:37-51 | the line printed for each action: the added notice, the department's employees joined by ", " or the missing-department notice, nothing for Exit, "Unknwon action!" otherwise |
| DepartmentEmployees.RegistryAfter | department_employees/src/main.rs:26-53 | the map after the actions, from an empty one |
| DepartmentEmployees.PrintedAfter | department_employees/src/main.rs:26-53 | every line printed for the actions, in order |
| DepartmentEmployees.AddedTo | department_employees/src/main.rs:34-35 | the employees added to a department, in the order of the actions |
| MedianAndMode.AllAtLeastOfMultiset | median_and_mode/src/main.rs:7 | a lower bound carries over to a sub-multiset |
| MedianAndMode.Insert | median_and_mode/src/main.rs:7 | inserting keeps ascending order and adds the element to the multiset |
| MedianAndMode.InsertBehindFirst | median_and_mode/src/main.rs:7 | the insertion step keeps the order and the multiset |
| MedianAndMode.Sort | median_and_mode/src/main.rs:7 | `list.sort()` gives an ascending permutation |
| MedianAndMode.SplitFirst | median_and_mode/src/main.rs:7 | the multiset of a sequence is its first element plus the rest |
| MedianAndMode.FirstIsLeast | median_and_mode/src/main.rs:7 | the first element of an ascending sequence is its least |
| MedianAndMode.SameLeast | median_and_mode/src/main.rs:7 | two ascending permutations start alike |
| MedianAndMode.AscendingUnique | median_and_mode/src/main.rs:7 | two ascending sequences with the same elements are equal |
| MedianAndMode.SortIsTheAscendingPermutation | median_and_mode/src/main.rs:7 | any ascending permutation is the sorted list |
| MedianAndMode.MiddlePoint | median_and_mode/src/main.rs:10-11 | `len / 2 - 1` is in range and is the lower middle (one more element after it than before for even lengths, two for odd) |
| MedianAndMode.CountItems | median_and_mode/src/main.rs:19-23 | the map holds exactly the list's items, each with its number of occurrences |
| MedianAndMode.Copies | median_and_mode/src/main.rs:19-23 | `n` copies of one item |
| MedianAndMode.MultiplicitiesSum | median_and_mode/src/main.rs:19-23 | the counts over distinct keys add up to the size of the multiset |
| MedianAndMode.CountsSumToLength | median_and_mode/src/main.rs:19-23 | the counts add up to the list's length |
| MedianAndMode.SelectMode | median_and_mode/src/main.rs:25-37 | the item chosen has the largest count, and is the first with that count in the iteration order; (0, 0) for no items |
| MedianAndMode.RearrangedPermutes | median_and_mode/src/main.rs:7 | a rearrangement keeps the multiset |
| MedianAndMode.DistinctByInverse | median_and_mode/src/main.rs:7 | positions with an inverse are distinct |
| MedianAndMode.PlacesMatch | median_and_mode/src/main.rs:4-7 | each element of the sorted list sits at its place in the list |
| MedianAndMode.PlacesInverted | median_and_mode/src/main.rs:4-7 | the places have an inverse |
| MedianAndMode.SameElements | median_and_mode/src/main.rs:4-7 | the sorted list is a permutation of the list |
| MedianAndMode.SortedList | median_and_mode/src/main.rs:4-7 | sorting the list gives `[0, 1, 1, 2, 2, 2, 2, 3, 3, 4, 7, 7, 10, 21, 21, 45]` |
| MedianAndMode.RunFromStart | median_and_mode/src/main.rs:25-37 | an ascending run of `x` with more than three copies reaches position 3 |
| MedianAndMode.FourOccurrencesAreARun | median_and_mode/src/main.rs:25-37 | four occurrences in an ascending sequence form a run of four |
| MedianAndMode.AscendingByNeighbours | median_and_mode/src/main.rs:7 | ordered neighbours give an ascending sequence |
| MedianAndMode.SortedIsAscending | median_and_mode/src/main.rs:7 | the sorted literal is ascending |
| MedianAndMode.TwoFourTimes | median_and_mode/src/main.rs:4 | 2 occurs four times in the list |
| MedianAndMode.OnlyRunsOfFour | median_and_mode/src/main.rs:25-37 | if `v` is the only value repeated four positions apart, every other value occurs fewer than four times |
| MedianAndMode.RunsOfFourInSorted | median_and_mode/src/main.rs:25-37 | only 2 is repeated four positions apart in the sorted list |
| MedianAndMode.ModeOfList | median_and_mode/src/main.rs:25-37 | 2 occurs four times, and every other item fewer |
| MedianAndMode.MedianOfSorted | median_and_mode/src/main.rs:12-17 | the element at position 7 is 3 |
| MedianAndMode.SelectedTwo | median_and_mode/src/main.rs:25-37 | the selection picks 2 with count 4, whatever the iteration order |
| MedianAndMode.SameItems | median_and_mode/src/main.rs:19-23 | a permutation holds the same items |
| MedianAndMode.Summary | median_and_mode/src/main.rs:3-41 | for any map iteration order: sorted permutation, median position 7, median 3, mode 2 with 4 occurrences |
| PigLatin.PigWordRoundTrip | pig_latin/src/main.rs:13-20 | a rewritten word reads back as the original |
| PigLatin.ByteLengthConcat | pig_latin/src/main.rs:18 | byte lengths add under concatenation |
| PigLatin.PigWordBytes | pig_latin/src/main.rs:13-20 | a rewrite adds 4 bytes (vowel) or 3 bytes (other) |
| PigLatin.PigWords | pig_latin/src/main.rs:11-22 | one rewritten word per word, in order |
| PigLatin.AsciiWords | pig_latin/src/main.rs:18 | every word of an ASCII text starts with a one-byte character |
| PigLatin.TextIsRewritable | pig_latin/src/main.rs:4-18 | the program's text never makes `word[1..]` panic |
| PigLatin.Translate | pig_latin/src/main.rs:7-24 | the loop and join give the rewritten words joined by single spaces |
| PigLatin.PigWordIsWord | pig_latin/src/main.rs:13-20 | a rewritten word has no whitespace |
| PigLatin.TranslationWords | pig_latin/src/main.rs:11-24 | the result splits into one rewritten word per original word, and each reads back to it |
| PigLatin.StartsWithVowel | pig_latin/src/main.rs:9-13 | `(?i)^[aeiou]`: the first character is a vowel of either case |
| PigLatin.Rewritable | pig_latin/src/main.rs:13-18 | a word the loop rewrites without panicking: non-empty, and its first character is one byte when `word[1..]` slices it |
| PigLatin.PigWord | pig_latin/src/main.rs:13-20 | a vowel word gets "-hay" appended; any other word moves its first character to the end and gets "-ay" |
| Iterators.ShoesInSize | iterators/src/lib.rs:9-12 | every kept shoe has the size, and there are no more than the input has |
| Iterators.ShoesInSizeKeepsExactlyThatSize | iterators/src/lib.rs:9-12 | the filter keeps every shoe of the size as often as it occurs, drops the others, and keeps the order |
| Iterators.ShoesInSizeIdempotent | iterators/src/lib.rs:9-12 | filtering twice equals filtering once |
| Iterators.FiltersBySize | iterators/src/lib.rs:66-95 | the sneaker and the boot are kept and the sandal is dropped |
| Iterators.Next | iterators/src/lib.rs:22-28 | `next` hands out the next item and advances, or gives `None` at the end |
| Iterators.DrainFromStart | iterators/src/lib.rs:22-28 | drawing repeatedly gives every item in order, then `None` |
| Iterators.IteratorDemonstration | iterators/src/lib.rs:19-29 | `Some(1), Some(2), Some(3), None` |
| Iterators.IteratorSum | iterators/src/lib.rs:32-41 | the sum of `[1, 2, 3]` is 6 |
| Iterators.AddOneToEach | iterators/src/lib.rs:57 | the map adds one to each element and keeps the length |
| Iterators.SumOfAddOneToEach | iterators/src/lib.rs:57 | the map adds the length to the sum |
| Iterators.IteratorMap | iterators/src/lib.rs:44-64 | mapping `[1, 2, 3]` gives `[2, 3, 4]` |
| Iterators.Sum | iterators/src/lib.rs:38 | `sum`: the total of the items, 0 for none |
| Adder.CanHoldIsStrictOrder | adder/src/lib.rs:33-35 | `can_hold` (strict) never holds equal sizes, is asymmetric and transitive |
| Adder.HoldingTests | adder/src/lib.rs:43-69 | 8×7 holds 5×1, and not the reverse |
| Adder.AddTwoIsAddOneTwice | adder/src/lib.rs:72-74 | `add_two` is `add_one` applied twice |
| Adder.ItAddsTwo | adder/src/lib.rs:80-83 | `add_two(2)` is 4 |
| Adder.GreetingIgnoresName | adder/src/lib.rs:86-88 | the greeting is "Hello!" whatever the name |
| Adder.GreetingOmitsCarol | adder/src/lib.rs:95-102 | the greeting for "Carol" does not contain "Carol", so the test fails |
| Adder.NewGuessRange | adder/src/lib.rs:109-124 | a guess is made iff its value is in 1..=100, keeping the value; below 1 and above 100 the message names the violated bound |
| Adder.GreaterThan100 | adder/src/lib.rs:131-135 | `Guess::new(200)` fails with "less than or equal to 100" |
| Adder.Rectangle.CanHold | adder/src/lib.rs:33-35 | strictly wider and strictly taller |
| Adder.AddTwo | adder/src/lib.rs:72-74 | `a + 2` |
| Adder.Greeting | adder/src/lib.rs:86-88 | "Hello!", whatever the name |
| Adder.GuessMessage | adder/src/lib.rs:112-119 | the panic message "Guess value must be <bound>, got <value>." |
| Adder.NewGuess | adder/src/lib.rs:109-124 | `Guess::new`: the guess for 1 to 100, and otherwise the panic message for a value below 1 or above 100 |
| RectangleArea.Rectangle.Square | rectangle_area/src/main.rs:8-13 | a square has both sides equal to the size |
| RectangleArea.CanHoldIsPartialOrder | rectangle_area/src/main.rs:19-21 | `can_hold` (non-strict) is reflexive, antisymmetric and transitive |
| RectangleArea.AreaGrowsWithHolding | rectangle_area/src/main.rs:15-21 | a rectangle has at least the area of one it holds |
| RectangleArea.SquareFacts | rectangle_area/src/main.rs:8-21 | a square's area is the size squared; squares hold iff their sizes compare |
| RectangleArea.MainFacts | rectangle_area/src/main.rs:24-49 | rect1 is 60×50 with area 3000; it holds rect2 and not rect3; `square(3)` is 3×3 |
| RectangleArea.Rectangle.AreaFits | rectangle_area/src/main.rs:16 | the product of the sides fits a `u32` |
| RectangleArea.Rectangle.Area | rectangle_area/src/main.rs:15-17 | width times height |
| RectangleArea.Rectangle.CanHold | rectangle_area/src/main.rs:19-21 | at least as wide and at least as tall |
| Fibonacci.FibRecurrence | fibonacci/src/main.rs:13-14 | the numbers start 1, 1 and each is the sum of the two before it |
| Fibonacci.Pow2Monotone | fibonacci/src/main.rs:13 | powers of two grow with the exponent |
| Fibonacci.FibBound | fibonacci/src/main.rs:13 | the `n`-th number is at most `2^(n-1)` |
| Fibonacci.FitsI32 | fibonacci/src/main.rs:1-15 | the 21 numbers the loop computes fit in `i32`, so no addition overflows |
| Fibonacci.Fibonacci | fibonacci/src/main.rs:3-18 | twenty numbers are printed, the `k`-th being the `k`-th Fibonacci number |
| Fibonacci.FibPair | fibonacci/src/main.rs:9-15 | the pair of consecutive numbers the loop variables hold after `n` passes |
| Fibonacci.Fib | fibonacci/src/main.rs:4-14 | the `n`-th number of the series, counted from 1 |
| Loops.LoopWithResult | loops/src/main.rs:5-19 | the loop stops at counter 10 with result 20 |
| Loops.CompletedPasses | loops/src/main.rs:25-41 | each completed outer pass prints three lines |
| Loops.LoopWithLabels | loops/src/main.rs:21-45 | the labelled break leaves at count 2, after the printed lines of two passes and the partial third |
| Loops.AtMostTwoRemainingPerPass | loops/src/main.rs:29-38 | each completed pass prints `remaining = 10` then `remaining = 9` |
| Loops.LoopWithCondition | loops/src/main.rs:47-58 | it prints 3, 2, 1 and stops at 0 |
| Loops.LoopCollectionWithFor | loops/src/main.rs:60-68 | it visits 10, 20, 30, 40, 50 in order |
| Loops.LoopRange | loops/src/main.rs:70-77 | `(1..4).rev()` prints 3, 2, 1 |
| TwelveDays.PresentsDown | twelve_days_of_christmas/src/main.rs:28-30 | the inner loop lists `m` presents |
| TwelveDays.Verse | twelve_days_of_christmas/src/main.rs:22-33 | verse `d` has `d + 3` lines |
| TwelveDays.Sing | twelve_days_of_christmas/src/main.rs:1-34 | the nested loops print the song of twelve verses |
| TwelveDays.PresentsDownAt | twelve_days_of_christmas/src/main.rs:28-30 | the presents go from day `d` down |
| TwelveDays.VerseShape | twelve_days_of_christmas/src/main.rs:22-33 | a verse is its heading, the presents from the day down to the first, and a blank line |
| TwelveDays.EveryVerseEndsWithPartridge | twelve_days_of_christmas/src/main.rs:7-30 | every verse ends with the partridge before its blank line |
| TwelveDays.SongLength | twelve_days_of_christmas/src/main.rs:22-33 | `n` verses take `n(n+5)/2` lines |
| TwelveDays.VerseInSong | twelve_days_of_christmas/src/main.rs:22-33 | verse `d` follows the first `d` verses in every longer song |
| TwelveDays.HeadingsConcat | twelve_days_of_christmas/src/main.rs:23-26 | headings add under concatenation |
| TwelveDays.NoHeadings | twelve_days_of_christmas/src/main.rs:23-26 | lines without headings count none |
| TwelveDays.OneHeadingPerVerse | twelve_days_of_christmas/src/main.rs:23-30 | each verse has one heading when no present looks like one |
| TwelveDays.VerseCount | twelve_days_of_christmas/src/main.rs:22-33 | the song has one heading per verse |
| TwelveDays.NoPresentIsHeading | twelve_days_of_christmas/src/main.rs:7-20 | no present starts with "On the " |
| TwelveDays.TwelveVerses | twelve_days_of_christmas/src/main.rs:1-34 | the program prints exactly twelve verses |
| TwelveDays.Heading | twelve_days_of_christmas/src/main.rs:23-26 | "On the <ordinal> day of Christmas, my true love sent to me" |
| TwelveDays.Song | twelve_days_of_christmas/src/main.rs:22-33 | the verses of the first `n` days, in order |
| AddOne.AddOneIsSuccessor | add/add_one/src/lib.rs:3-5 | `add_one` gives the successor |
| AddOne.AddOneInjective | add/add_one/src/lib.rs:3-5 | different inputs give different results |
| AddOne.ItAddsOne | add/add_one/src/lib.rs:15-18 | `add_one(2)` is 3 |
| AddOne.AddOne | add/add_one/src/lib.rs:3-5 | `x + 1` |
| RustStr.Words | todo_list/src/command.rs:107 | `split_whitespace` yields only non-empty pieces without whitespace |
| RustStr.WordsOfTrim | todo_list/src/command.rs:106-107 | trimming does not change the words |
| RustStr.WordsOfJoin | pig_latin/src/main.rs:24 | words joined by single spaces split back into the same words |
| RustStr.Split | todo_list/src/task_list.rs:37 | `split(';')` gives one more piece than there are separators, none holding one |
| RustStr.SplitOfJoin | todo_list/src/task_list.rs:37 | pieces without the separator survive a join and a split |
| RustStr.LinesOfTerminated | todo_list/src/task_list.rs:36 | lines each followed by a newline split back into those lines |
| RustStr.ToAsciiLower | todo_list/src/command.rs:110 | lowercasing keeps the length and maps each letter |
| RustStr.ParseUsize | todo_list/src/command.rs:128 | a parsed usize is at most `usize::MAX` |
| RustStr.ParseUsizeOfNatToString | todo_list/src/task_list.rs:45 | formatting a usize and parsing it gives it back |
| RustStr.TrimStart | todo_list/src/command.rs:106 | `trim_start`: leading whitespace removed |
| RustStr.TrimEnd | todo_list/src/command.rs:106 | `trim_end`: trailing whitespace removed |
| RustStr.Trim | todo_list/src/command.rs:106 | `trim`: whitespace removed at both ends |
| RustStr.WordThenSpace | todo_list/src/command.rs:107 | a word followed by a space is the first word of the line |
| RustStr.Join | pig_latin/src/main.rs:24 | `join`: the pieces with the separator between each two |
| RustStr.Lines | todo_list/src/task_list.rs:36 | `lines`: the text cut after every newline, without the newline and a carriage return before it, and with no trailing empty line |
| RustStr.Terminated | todo_list/src/task_list.rs:185-189 | each line followed by a newline, concatenated |
| RustStr.NatToString | todo_list/src/task_list.rs:91 | the decimal digits of a number, without a sign or a leading zero |
| RustStr.IntToString | adder/src/lib.rs:112-119 | a signed number in decimal, with `-` before a negative one |

## Left out

- The crates web_server, concurrency, smart_pointers, minigrep and celsius_to_fahrenheit are not part of this model. The same goes for the todo_list `main` and `printer`: they are I/O and threads around the core.
- `add_rand` of add_one: it calls a random number generator.
- Console and file I/O: a program's input is a parameter, and its output is the sequence of lines it prints. Console prompts, `dbg!`, headers such as "Original list:", the "LIFTOFF!!!" and `>> Started` banners, and the loops' `println!` formats are not modelled.
- TodoTaskList.TaskList.constructor: a file that exists but cannot be read (the `?` on `read_to_string`) is not modelled. The file is either absent or its content is given.
- TodoTaskList.TaskList.SyncToFile: the failure of `File::create` is not modelled; the method returns the content it would write.
- TodoTaskList.TaskList.AddTask: `key + 1` and `last + 1` in `get_next_task_id` are unbounded here, while a `usize` would overflow at `usize::MAX`.
- TodoCommand.ParseTextArg: the panic on a lone quote character (`arg.get(1..0)`) is a precondition rather than a modelled panic.
- TodoCommand: the `build_command` tests are stated for the program's own lines, leading and trailing spaces included, except the `"this is not a … command"` lines, which `UnknownCommandTest` covers through their first word.
- RustStr.ToAsciiLower: `to_lowercase` is modelled on ASCII letters only. No command name is reached from a non-ASCII character.
- DepartmentEmployees: `\w` is taken as ASCII letters, digits and `_`. The end of input, where `read_line` returns an empty line for ever, is not modelled: the input is a finite sequence of lines.
- MedianAndMode.Sort: `Vec::sort` is modelled by its result, the ascending permutation, not by its algorithm.
- MedianAndMode.SelectMode: the `HashMap` iteration order is unspecified, so it is a parameter (any order that visits each key once).
- Iterators.Sum: the overflow panic of `i32` summation is not modelled; the sum is unbounded.
- TwelveDays.Sing: the tables are parameters (any two tables of twelve lines), and the program's own tables are constants.
- Fibonacci.Fibonacci: the numbers are returned instead of printed. The reference `Fib` is defined through pairs of consecutive numbers.
- Adder: the tests `will_pass`, `will_fail` and `will_work_result` are about the test harness, not the library.
- Adder.AddTwo: `requires a <= I32_MAX - 2` stands in for the overflow panic of `a + 2`, which is not modelled as a result.
- RectangleArea.Rectangle.Area: `requires AreaFits()` stands in for the `u32` overflow panic of `width * height`, which is not modelled as a result.
- TodoTaskList.SaveLoadRoundTrip: the round trip holds only for tasks whose text has no `;` and no line break. A text with `;` (as `add 'a;b'` stores) is saved as a line the loader rejects, as `TodoTaskList.SemicolonTextNotReloaded` proves; the CSV line is not escaped.
- AddOne.AddOneIsSuccessor: the `i32` overflow of `x + 1` at `i32::MAX` is a precondition, like the debug-build panic.
