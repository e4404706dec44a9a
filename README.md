# todo_list in Dafny

A model of the command-line todo list in `src/main.rs`. The program keeps a list of
tasks, each a description and a done flag. It loads the list from `tasks.json` at
start-up, then reads commands from the console. The commands are `add`, `list`,
`done`, `undone`, `delete`, `menu` and `exit`, matched after trimming and lower-casing
the line. Every operation that changes the list rewrites the whole file.

The model has seven modules, one file each:

- `text.dfy` (`Text`): `trim`, lower-casing and decimal numerals, with the facts the rest needs.
- `commands.dfy` (`Commands`): `Command` and `parse_command`.
- `tasks.dfy` (`Tasks`): `Task`, the `i32` index type, and the two list updates, set-flag and remove.
- `prompt.dfy` (`Prompt`): the index prompt loop shared by `done_task`, `undone_task` and `delete_task`.
- `display.dfy` (`Display`): the lines `list_task` prints.
- `operations.dfy` (`Operations`): the four operations in two forms:
  - effect functions;
  - methods of a `TaskList` class that update the list in place.

  The class's ghost `saved` field stands for the file's contents.
- `app.dfy` (`App`): the dispatch/exit loop of `main`. It has two forms:
  - a function `Drive` over all the input typed so far;
  - a `Run` method with a `while` loop, proved equal to `Drive`.

The console is modelled as a finite sequence of lines, the lines typed so far. Each
operation reads its own input from the lines after the command: a description, or
index entries. When the input ends while an operation is still prompting, the
outcome is `Pending` and the loop counts as still running. `str::parse::<i32>` is a
parameter `parse` of type `string -> Option<int32>`, applied to the trimmed line.

## Model

| member | source | states |
|---|---|---|
| Commands.ParseCommand | src/main.rs:23-34 | Each of the seven words maps to its command. Every other input maps to `Empty`, and `Empty` is returned exactly when the input is none of the seven words. |
| Commands.DispatchIgnoresCase | src/main.rs:344-345 | For every command but `Empty`, a line selects that command exactly when its trimmed form equals the command word, ignoring the case of ASCII letters. |
| Text.TrimSpec | src/main.rs:72 | The trimmed string is a contiguous slice of the input. Everything cut off on either side is whitespace, and the result neither starts nor ends with whitespace. |
| Text.ToLowerSpec | src/main.rs:344 | Lower-casing keeps the length and maps each character by itself. |
| Text.NatToString | src/main.rs:134 | The index printed by `{}` is a non-empty run of digits with no leading zero, and its decimal value is the number. |
| Tasks.SetDone | src/main.rs:173-177 | Behind the bounds check, only the flag of the task at the index changes. The length, that task's description and every other task stay. |
| Tasks.SetDoneOutOfRange | src/main.rs:184-186 | An index past the end leaves the list as it was. |
| Tasks.SetDoneAlreadyMarked | src/main.rs:174-175 | Marking a task that already has the flag changes nothing. |
| Tasks.SetDoneIdempotent | src/main.rs:173-177 | Setting the flag twice has the same result as setting it once. |
| Tasks.SetDoneUndo | src/main.rs:234-238 | `undone` after `done` (and the reverse) on a task that had the other flag restores the list. |
| Tasks.Remove | src/main.rs:296-297 | In range, the task at the index is gone and the later tasks move down one place, in order. Out of range, the list stays. |
| Tasks.RemoveInsert | src/main.rs:297 | Putting the removed task back at its position restores the list. |
| Tasks.RemoveIsPermutation | src/main.rs:297 | The surviving tasks plus the removed one are, as a multiset, the old list. |
| Prompt.FirstPositive | src/main.rs:149-167 | The prompt acts on the first positive entry and reports how many entries it read. Every earlier entry was non-numeric or not positive. It is still waiting exactly when no entry is positive. |
| Prompt.PromptIndex | src/main.rs:149-197 | The `loop` with its `continue` on a failed parse and its `break` after a positive index selects `FirstPositive` of the entries. |
| Prompt.SelectionIgnoresLaterInput | src/main.rs:195 | Once an index is chosen, the loop reads nothing more: entries after it do not change the selection. |
| Prompt.SkippedEntries | src/main.rs:158-167 | Rejected entries in front only delay the selection by their number. |
| Display.Listing | src/main.rs:124-136 | An empty list prints a blank line and the notice. Otherwise the listing is a blank line, `Your Tasks:` and the dashes, then one line per task, in order, numbered from 1. |
| Display.ListTask | src/main.rs:124-139 | The `for` loop over `enumerate()` builds exactly `Listing`, and it reads the list without changing it. |
| Display.TaskLineRoundTrip | src/main.rs:133-134 | Each `Listing` element for a task, the text of one `println!`, reads back to its number, done flag and description. |
| Operations.AddEffectSpec | src/main.rs:67-87 | Adding appends exactly one task, not done, whose description is the trimmed line. The earlier tasks are unchanged and the list is saved. |
| Operations.TaskList.AddTask | src/main.rs:62-94 | In place: the new list is the `AddEffect` list, the old tasks are a prefix, and the file holds the new list. |
| Operations.MarkEffectSpec | src/main.rs:149-197 | Marking waits without saving while no entry is positive. Otherwise it acts on the first positive entry and saves. Past the end, and on a task that already has the flag, the list stays. Otherwise the flag is set by `SetDone`. |
| Operations.TaskList.MarkTask | src/main.rs:149-197 | In place: the list, outcome and lines read are those of `MarkEffect`. The file is rewritten exactly when the effect saves. |
| Operations.TaskList.DoneTask | src/main.rs:142-200 | `done_task` is `MarkTask` with flag true. |
| Operations.TaskList.UndoneTask | src/main.rs:203-261 | `undone_task` is `MarkTask` with flag false. |
| Operations.DeleteEffectSpec | src/main.rs:264-318 | An empty list returns at once, without prompting or saving. Otherwise deleting waits while no entry is positive. It then saves, and either removes the chosen task and reports it, or leaves the list as it was for an index past the end. |
| Operations.TaskList.DeleteTask | src/main.rs:264-325 | In place: the list, outcome and lines read are those of `DeleteEffect`, with an in-place removal. The file is rewritten exactly when the effect saves. |
| Operations.MarkTwice | src/main.rs:173-175 | Repeating the same `done` or `undone` has the effect of doing it once, and the second call reports "already marked". |
| Operations.MarkIgnoresLaterInput | src/main.rs:195 | A finished mark is not affected by later input. |
| Operations.DeleteIgnoresLaterInput | src/main.rs:316 | A finished delete is not affected by later input. |
| App.Parsed | src/main.rs:152-158 | Each line reaches the index prompt as `parse` of its trimmed text, one entry per line, in order (likewise src/main.rs:213-219 and 277-283). |
| App.Execute | src/main.rs:346-374 | A command other than `exit` reads at most the lines after it. |
| App.Drive | src/main.rs:339-375 | The loop reads at most the input. If it ends, it has read at least one line. Otherwise it has read every line. |
| App.DriveEndsOnExit | src/main.rs:369 | The loop ends only on `exit`: when it has terminated, the last line it read normalises to `Exit`. |
| App.ExitIgnoresLaterInput | src/main.rs:369 | After `exit` nothing more is read: more input changes neither the final list nor the number of lines read. |
| App.EveryChangeIsSaved | src/main.rs:347-366 | A command that does not rewrite the file leaves the list unchanged, so the file always matches the list. |
| App.ReadOnlyCommands | src/main.rs:351-373 | `list`, `menu` and an unknown command read no input and leave the list and the file alone. `list` reports the listing. |
| App.ExecuteIgnoresLaterInput | src/main.rs:346-374 | A dispatched command that has finished is not affected by later input. |
| App.Dispatch | src/main.rs:346-374 | The `match command` runs, in place, exactly the effect `Execute` gives, and saves exactly when that effect saves. |
| App.Step | src/main.rs:340-374 | One iteration in place agrees with `Drive` and keeps the file in step with the list. |
| App.Run | src/main.rs:339-375 | The `loop` of `main` ends in the state, the list and the line count that `Drive` gives. If the file matched the list at the start, it still does. |
| Operations.TaskList.constructor | src/main.rs:328-331 | The list starts as `get_tasks` loaded it, and the file matches it. |

## Left out

- File path lookup (`get_tasks_file_path`), reading and writing `tasks.json`, and JSON (de)serialisation are not modelled. They are I/O. `saved` records what a save writes, and `TaskList.constructor` takes the loaded list as a parameter.
- The `io::Result` error paths are not modelled: a failed serialisation or file write, and a failed load in `main`. Note that the list stays changed in memory when a save fails.
- The messages printed by the operations are not modelled. Only the listing that the `list` command prints is modelled as text. Each operation's final message is an `Outcome` value. Not modelled at all:
  - the prompts (src/main.rs:65, 150, 211, 275);
  - the `"You chose {}"` echo (src/main.rs:165, 226, 290);
  - the `"Invalid index please input a number"` complaint (src/main.rs:161, 222, 286).

  So the model does not tell the complaint after a non-numeric entry from the silent retry after a number that is not positive. Both are rejected entries to `Prompt.FirstPositive`. `print_menu` appears only as the `MenuShown` outcome.
- The listings that the operations print themselves are not modelled, and no `Outcome` carries them. These are the ones after `add` (src/main.rs:89), before and after marking (src/main.rs:143, 179, 204, 240), and before and after deleting (src/main.rs:270, 320). `main` also prints the listing once at start-up (src/main.rs:333).
- Display.TaskLineRoundTrip: holds for each `Listing` element, not for each console line. A description containing a line break, which a loaded `tasks.json` may hold, prints across several console lines, and those lines can read as other tasks.
- `str::parse::<i32>` is the abstract parameter `parse`. Its grammar and range check are not modelled.
- Text.ToLowerSpec: `ToLower` lower-cases ASCII letters only, not all of Unicode `to_lowercase`. Dispatch is still exact. The only non-ASCII character that Rust lower-cases to a lone ASCII letter is U+212A KELVIN SIGN, which becomes `k`, and no command word contains `k`.
- End-of-file on standard input is not modelled. At end of input `read_line` leaves its buffer empty, which has three effects in the program:
  - `add_task` pushes and saves a task with an empty description (src/main.rs:69-78);
  - the index prompts repeat "Invalid index please input a number" forever;
  - the main loop repeats "No commands found re renter command" forever (src/main.rs:340-373).

  The model instead treats running out of typed input as waiting: the operation is `Pending` and the loop is still running.
- `done_task` and `undone_task` differ only in the flag and the messages, so they share one `MarkTask`.
