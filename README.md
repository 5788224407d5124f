# Menu navigator of the local Firebase emulator initializer

The program is a console tool. It shows a tree of numbered menu entries, reads
the user's choice from standard input, and runs the action named by the chosen
entry. The actions are creating and listing users, collections and documents,
or exiting. This project models the navigator in `internal/menu/menu.go`:
- the `MenuEntry` tree;
- `displayMenu`: show a level, read and trim one line, parse an integer, pick
  the first entry with that id, dispatch its action through the action table,
  descend into its children, and re-prompt on bad input;
- the action table that `MainMenu` builds, including the three closures that
  read further lines from the same reader or end the process.

The model is written twice.

- **As functions** (module `Menu`). Input is a finite `seq<string>` of lines.
  A run of `displayMenu` is a value `Run(events, rest, outcome)`:
  - the observable events: printed lines `Say`, prompts `Ask`, action-table
    invocations `Invoke`, calls into the user, collection and document packages
    `Call`, and `os.Exit` as `Halt`;
  - the lines left unread;
  - whether the call returned, the process exited, or the input ran out.

  The functions are `Render` (the printing of a level), `FirstMatch` (the
  matching loop), `ActionEffect` (a closure), `Dispatch` (the action step),
  `Select` (action step plus descent), `Display` (one call of `displayMenu`)
  and `Answer` (what `displayMenu` does with the line it read).
- **As methods** (module `Navigator`). These are in the program's own form. A
  `Terminal` object holds the shared reader's remaining lines and the output so
  far. The methods follow the Go statements: the printing loop, the `found`/`break`
  search, the recursive calls, and each closure body. Each method is proved to
  leave exactly the output and unread input that the corresponding function
  describes.

Module `MenuProperties` proves what the code promises about those functions.
Module `Scenarios` works through one concrete run. Module `Text` models the
standard-library pieces the navigator uses: `strings.TrimSpace`,
`strings.Repeat("  ", n)`, `%d` formatting and a decimal integer parse.

The code has no "0 = go back" option, and a level is not shown again after a
selection:
- a choice of `0` is only an entry whose id is 0, if one exists;
- after one successful selection (and any descent), a level `break`s out of its
  loop and returns to its caller;
- at the root, `MainMenu` then returns.

`Scenarios.NoGoBackAfterSelection` shows both on a concrete tree. The tree and
the action table are immutable values in the model, so no operation can change
them.

Input lines are given without their trailing newline. Every line the
navigator reads is passed through `strings.TrimSpace`, which removes the
newline as well.

## Model

| member | source | states |
|---|---|---|
| `Text.TrimSpaceTrims` | internal/menu/menu.go:93 | what `strings.TrimSpace` returns is a slice of the line with only white space (Unicode `White_Space`) cut from either end, and it starts and ends with a non-space |
| `Text.TrimSpace` | internal/menu/menu.go:93 | `strings.TrimSpace`; its contract is stated by `TrimSpaceTrims`, `TrimmedFromUnique` and `TrimSpacePadded` |
| `Text.TrimSpacePadded` | internal/menu/menu.go:93 | a string with non-space ends, padded with any white space on either side, trims back to exactly that string |
| `Text.Indent` | internal/menu/menu.go:84 | the indentation of level L is exactly 2·L spaces |
| `Text.FormatInt` | internal/menu/menu.go:88 | `%d` prints a non-empty string: a minus sign exactly for negative numbers, then decimal digits only |
| `Text.ParseInt` | internal/menu/menu.go:95-97 | a line is accepted only if it is an optional sign followed by one or more decimal digits; a negative value needs a minus sign |
| `Text.ParseFormatInt` | internal/menu/menu.go:88-96 | parsing what `%d` prints for any 64-bit id gives that id back |
| `Text.FormatParseInt` | internal/menu/menu.go:88-96 | the canonical spelling of a number (no `+`, no leading zeros, no `-0`) is the only such line that parses to it, and it is what `%d` prints |
| `Menu.NextLine` | internal/menu/menu.go:92 | the line a read yields: the next line, or "" past the end (specified with `Consume` by `Navigator.Terminal.ReadString`) |
| `Menu.Consume` | internal/menu/menu.go:92 | reading a line removes exactly the first line when there is one, and nothing otherwise, leaving the rest of the input in order |
| `Menu.EntryLines` | internal/menu/menu.go:87-89 | the listing of a level has exactly one line per entry |
| `Menu.Render` | internal/menu/menu.go:84-90 | what a level prints before it reads; its shape is stated by `RenderShape` and `EntryLinesAt` |
| `Menu.FirstMatch` | internal/menu/menu.go:103-106 | a match is an entry with the chosen id and no earlier entry has that id; no match means no entry has that id |
| `Menu.ActionEffect` | internal/menu/menu.go:57-77 | a closure reads no more lines than exist, ends the process exactly when it is the exit closure, never leaves the menu waiting for input, and invokes no other action |
| `Menu.Dispatch` | internal/menu/menu.go:107-113 | an empty action does nothing and reads nothing; a name in the table is invoked exactly once; an absent name prints the indented "not implemented" line, reads nothing and invokes nothing; only the exit closure ends the process, and the selection is never aborted |
| `Menu.StandardActions` | internal/menu/menu.go:52-78 | the table MainMenu builds; its entries are stated by `StandardExitOnly`, `StandardExternal`, `StandardCreateDocument`, `StandardListDocuments` and `StandardExit` |
| `Menu.Select` | internal/menu/menu.go:107-117 | the action step, then the descent into the children; stated by `SelectDescendsIffChildren`, `SelectLeavesSuffix` and `SelectExitIsLast` |
| `Menu.Display` | internal/menu/menu.go:83-125 | one call of `displayMenu`; stated by `DisplayOpensWithRender`, `EndOfInputStops`, `RejectedLinesRedisplay`, `AllRejectedRunsOut`, `LevelReturnsAfterOneSelection`, `DisplayLeavesSuffix` and `DisplayExitIsLast` |
| `Menu.Answer` | internal/menu/menu.go:93-124 | what `displayMenu` does with the line it read; stated by `InvalidInputRedisplays`, `UnknownChoiceRedisplays`, `ChoiceSelectsFirstMatch`, `TypedIdSelects`, `AnswerLeavesSuffix` and `AnswerExitIsLast` |
| `MenuProperties.RenderShape` | internal/menu/menu.go:84-90 | a level prints its indented title, then every entry once in declared order as indent + id + ". " + label, then the indented prompt, and nothing else |
| `MenuProperties.EntryLinesAt` | internal/menu/menu.go:87-89 | the i-th listed line is the i-th entry's |
| `MenuProperties.DisplayOpensWithRender` | internal/menu/menu.go:84-92 | whatever a level does begins with showing that level |
| `MenuProperties.EndOfInputStops` | internal/menu/menu.go:92 | with no line left, a level is shown and the run stops at its prompt with nothing read |
| `MenuProperties.InvalidInputRedisplays` | internal/menu/menu.go:95-101 | a line that is not an integer gives one "Invalid input" line, and then the same entries are shown again at the same level on the following lines |
| `MenuProperties.UnknownChoiceRedisplays` | internal/menu/menu.go:103-124 | an integer that is no entry's id gives one "Invalid choice" line, and then the same entries are shown again at the same level |
| `MenuProperties.ChoiceSelectsFirstMatch` | internal/menu/menu.go:103-119 | an id that matches selects the first matching entry, and after that selection the level prints nothing more |
| `MenuProperties.RejectedLineRedisplays` | internal/menu/menu.go:95-124 | one turned-down line costs the level display plus the matching complaint, and then the level starts over |
| `MenuProperties.RetriesInvokeNothing` | internal/menu/menu.go:97-101 | while lines are turned down, no action is invoked |
| `MenuProperties.RejectedLinesRedisplay` | internal/menu/menu.go:95-124 | any number of turned-down lines each cost exactly one redisplay with its complaint, and then the level is shown on the lines after them |
| `MenuProperties.AllRejectedRunsOut` | internal/menu/menu.go:92-124 | on input whose every line is turned down, the level is shown once per line plus once more, and the run stops with nothing left to read |
| `MenuProperties.LevelReturnsAfterOneSelection` | internal/menu/menu.go:103-119 | a level consumes turned-down lines, then exactly one accepted line, and then ends with whatever that selection does: it does not show itself again |
| `MenuProperties.TypedIdSelects` | internal/menu/menu.go:88-106 | typing back an id as it was printed, with any surrounding white space, selects the first entry carrying that id, which is never after the entry whose id was typed |
| `MenuProperties.SelectDescendsIffChildren` | internal/menu/menu.go:114-116 | after the action step, more output follows if and only if the process did not exit and the entry has children; that output is the entry's own children shown one level deeper, starting with the deeper title; otherwise the unread input is what the action step left |
| `MenuProperties.ActionEffectLeavesSuffix` | internal/menu/menu.go:57-73 | a closure only takes lines from the front of the shared input |
| `MenuProperties.DispatchLeavesSuffix` | internal/menu/menu.go:107-113 | the action step only takes lines from the front of the shared input |
| `MenuProperties.DisplayLeavesSuffix` | internal/menu/menu.go:83-125 | a level only takes lines from the front of the input, takes at least one when there is one, and runs out only when nothing is left |
| `MenuProperties.AnswerLeavesSuffix` | internal/menu/menu.go:93-124 | answering a line only takes further lines from the front of the input |
| `MenuProperties.SelectLeavesSuffix` | internal/menu/menu.go:107-117 | a selection, descent included, only takes lines from the front of the input |
| `MenuProperties.DispatchExitIsLast` | internal/menu/menu.go:74-77 | an action step that exits ends with the farewell line and `os.Exit(0)`; one that does not never ends the process |
| `MenuProperties.DisplayExitIsLast` | internal/menu/menu.go:74-77 | in any run of a level, an exit is the last thing that happens, right after the farewell line: no prompt, level or action follows it, and nothing else ends the process |
| `MenuProperties.AnswerExitIsLast` | internal/menu/menu.go:93-124 | the same for what a level does with the line it read |
| `MenuProperties.SelectExitIsLast` | internal/menu/menu.go:107-117 | the same for a selection with its descent |
| `MenuProperties.StandardExitOnly` | internal/menu/menu.go:52-78 | in the table MainMenu builds, "exit" is the only name bound to the closure that ends the process |
| `MenuProperties.StandardExternal` | internal/menu/menu.go:53-56 | the user and collection names invoke their function once, with no arguments and without reading a line |
| `MenuProperties.StandardCreateDocument` | internal/menu/menu.go:57-67 | "document.Create" prompts twice, reads the next two lines from the shared input, trims them, and passes them, in that order, to `document.Create` |
| `MenuProperties.StandardCreateDocumentAtEnd` | internal/menu/menu.go:57-67 | at end of input "document.Create" reads "" for both names, passes `("", "")` on and leaves nothing unread |
| `MenuProperties.StandardCreateDocumentLastLine` | internal/menu/menu.go:57-67 | with one line left, "document.Create" takes it, trimmed, as the collection name and reads "" for the file name |
| `MenuProperties.StandardListDocuments` | internal/menu/menu.go:68-73 | "document.List" prompts once, reads and trims the next line, and passes it to `document.List` |
| `MenuProperties.StandardListDocumentsAtEnd` | internal/menu/menu.go:68-73 | at end of input "document.List" passes "" on and leaves nothing unread |
| `MenuProperties.StandardExit` | internal/menu/menu.go:74-77 | "exit" prints the farewell line and ends the process with status 0, reading nothing |
| `Scenarios.NoGoBackAfterSelection` | internal/menu/menu.go:114-117 | on a root with a "Manage Data" submenu, the lines 2, 1, 0, 0 run collection.Create once and then return from the submenu and from the root with both 0 lines unread: 0 does not mean "go back" |
| `Navigator.Terminal.ReadString` | internal/menu/menu.go:92 | a read yields the next line, or "" once the input has ended, with the end reported where Go reports `io.EOF` on input whose every line ends in a newline (Go also reports `io.EOF` together with a last line that has no newline; the model has no such line), and removes that line from the shared input |
| `Navigator.Perform` | internal/menu/menu.go:108-109 | running a table entry leaves exactly the output, unread input and outcome of `ActionEffect` |
| `Navigator.CreateDocumentClosure` | internal/menu/menu.go:57-67 | the closure body leaves exactly the output and unread input of the "document.Create" closure |
| `Navigator.ListDocumentsClosure` | internal/menu/menu.go:68-73 | the closure body leaves exactly the output and unread input of the "document.List" closure |
| `Navigator.ExitClosure` | internal/menu/menu.go:74-77 | the closure body prints the farewell line and then ends the process |
| `Navigator.ShowLevel` | internal/menu/menu.go:84-90 | the printing that opens `displayMenu` appends exactly `Render` of the level and reads nothing |
| `Navigator.ShowEntries` | internal/menu/menu.go:87-89 | the loop over the entries appends exactly one line per entry in order |
| `Navigator.DisplayMenu` | internal/menu/menu.go:83-125 | one call of `displayMenu` leaves exactly the output, unread input and outcome of `Display` |
| `Navigator.Respond` | internal/menu/menu.go:93-124 | trimming, parsing, matching and retrying leave exactly the output, unread input and outcome of `Answer` |
| `Navigator.FindEntry` | internal/menu/menu.go:103-106 | the search loop stops at an entry with the chosen id with none before it, or reports that no entry has it |
| `Navigator.RunSelection` | internal/menu/menu.go:107-117 | the body of the match (action step, then descent) leaves exactly the output, unread input and outcome of `Select` |
| `Navigator.MainMenu` | internal/menu/menu.go:50-81 | `MainMenu` is one call of `displayMenu` at level 0 with the standard table |

## Left out

- `WelcomeScreen` (internal/menu/menu.go:24-29) and main.go: banner printing and startup, with no logic.
- `LoadMenuFromJSON` (internal/menu/menu.go:32-47): file reading and JSON decoding. The tree is given to the model directly. main.go:9 passes `"assets/menu.json"` and menu.go:33 prepends `"assets/"` again, so the program looks for `assets/assets/menu.json`. That path bug is outside the navigator.
- The packages user, collection and document are wrappers over the Firebase SDKs. They do environment, file and network I/O. They appear only as `Call` events with the arguments the navigator passes, so their own empty-string checks are not modelled.
- `collection.Create` reads its own line from standard input with `fmt.Scanln`, bypassing the shared `bufio.Reader`. How the two interleave is buffering behaviour. In the model the call reads no line of the shared input.
- menu.go:66 calls `document.Create` with two arguments while document.go:44 declares three, so the package does not compile as given. The model records the call with the two arguments menu.go passes.
- Text.ParseInt: the model accepts only an optional sign followed by decimal digits filling the whole trimmed line, within 64-bit range. `fmt.Sscan` also reads base prefixes (`0x`, `0b`, `0o`), reads a number with a leading zero as octal (so `010` is 8), and accepts underscores. It also stops at the first character that cannot continue the number, so for example a line `12abc` selects id 12 in Go but is an invalid input in the model.
- Navigator.DisplayMenu: Go ignores the `io.EOF` error of `ReadString`. At end of input every retry reads `""`, prints "Invalid input" and calls `displayMenu` again (menu.go:99), a recursion Go does not turn into a loop, so the run does not terminate normally: on a file or pipe it ends with a fatal stack overflow, on a terminal the read blocks again. The model stops at the prompt with the outcome `OutOfInput` instead. The closures, like Go, read `""` past the end of input.
- Navigator.ExitClosure: `os.Exit(0)` ends the process at once. The model records a `Halt(0)` event and returns the outcome `Exited`, and every caller returns immediately. `DisplayExitIsLast` proves that nothing follows.
- Text.TrimSpace works on Unicode code points (`seq<char>`). Go's handling of invalid UTF-8 bytes is not modelled.
- Output carries no formatting beyond the text of each line: `Say` is a line printed with its newline and `Ask` a prompt printed without one.
