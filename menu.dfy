/** The menu navigator of internal/menu/menu.go.

    The behaviour of one call of displayMenu is given twice: once as pure
    functions over the remaining input lines (Display, Select, Dispatch,
    ActionEffect), which return the events the call produces, the input it
    leaves unread and how it ended; and once, in module Navigator, as methods
    over a Terminal object (DisplayMenu, Perform, MainMenu) that follow the Go
    code statement by statement and are proved to produce exactly what the
    functions say. */
module Menu {
  import opened Text

  /** One node of the menu tree, as decoded from the configuration file
      (labelText is the entry's Label; `label` is a Dafny keyword). */
  datatype MenuEntry = MenuEntry(id: int64, labelText: string, action: string, subMenu: seq<MenuEntry>)

  /** What can be observed of the navigator. */
  datatype Event =
    | Say(text: string)                        // a line printed with its newline (the newline is not part of text)
    | Ask(text: string)                        // a prompt printed without a newline
    | Invoke(name: string)                     // the action table's entry under name is run
    | Call(callee: string, args: seq<string>)  // a function of another package is called
    | Halt(code: int)                          // os.Exit(code): the process ends

  /** The closures stored in the action table built by MainMenu. */
  datatype Action =
    | External(callee: string)   // a function of package user or collection, called with no arguments
    | CreateDocument             // prompts for a collection name and a file name, then calls document.Create
    | ListDocuments              // prompts for a collection name, then calls document.List
    | Exit                       // says goodbye and ends the process

  type ActionTable = map<string, Action>

  /** How a call ended: it returned to its caller, the process exited, or the
      input ran out at a menu prompt. */
  datatype Outcome = Returned | Exited | OutOfInput

  /** The events of a call, the input lines it left unread, and how it ended. */
  datatype Run = Run(events: seq<Event>, rest: seq<string>, outcome: Outcome)

  function Prepend(pre: seq<Event>, r: Run): Run {
    Run(pre + r.events, r.rest, r.outcome)
  }

  lemma AppendAssoc<T>(a: seq<T>, b: seq<T>, c: seq<T>)
    ensures a + b + c == a + (b + c)
  {}

  const MenuTitle := "Main Menu:"
  const ChoicePrompt := "Enter your choice: "
  const InvalidInputMessage := "Invalid input. Please enter the number of your choice."
  const InvalidChoiceMessage := "Invalid choice. Please try again."
  const CollectionPrompt := "Enter collection name: "
  const FilePrompt := "Enter JSON file name (e.g., data.json): "
  const Farewell := "Exiting the application. Goodbye!"

  function NotImplementedMessage(name: string): string {
    "Error: Action '" + name + "' not implemented."
  }

  /** The action table MainMenu builds. */
  function StandardActions(): ActionTable {
    map[
      "user.Create" := External("user.Create"),
      "user.List" := External("user.List"),
      "collection.Create" := External("collection.Create"),
      "collection.List" := External("collection.List"),
      "document.Create" := CreateDocument,
      "document.List" := ListDocuments,
      "exit" := Exit
    ]
  }

  /** The names of the actions invoked, in order. */
  function Invoked(events: seq<Event>): seq<string> {
    if events == [] then []
    else (if events[0].Invoke? then [events[0].name] else []) + Invoked(events[1..])
  }

  lemma {:induction false} InvokedAppend(a: seq<Event>, b: seq<Event>)
    ensures Invoked(a + b) == Invoked(a) + Invoked(b)
  {
    if a != [] {
      assert (a + b)[1..] == a[1..] + b;
      InvokedAppend(a[1..], b);
    } else {
      assert a + b == b;
    }
  }

  /** No event of the list is the invocation of an action. */
  predicate InvokesNothing(events: seq<Event>) {
    forall i :: 0 <= i < |events| ==> !events[i].Invoke?
  }

  lemma {:induction false} InvokedNone(events: seq<Event>)
    requires InvokesNothing(events)
    ensures Invoked(events) == []
  {
    if events != [] {
      assert InvokesNothing(events[1..]) by {
        forall i | 0 <= i < |events| - 1 ensures !events[1..][i].Invoke? {
          assert events[1..][i] == events[i + 1];
        }
      }
      InvokedNone(events[1..]);
    }
  }

  // ---------------------------------------------------------------------
  // Reading a line: bufio.Reader.ReadString('\n'), whose error every caller
  // in menu.go drops. Past the last line it yields "".
  // ---------------------------------------------------------------------

  function NextLine(input: seq<string>): string {
    if input == [] then "" else input[0]
  }

  function Consume(input: seq<string>): (r: seq<string>)
    ensures |r| <= |input| && r == input[|input| - |r|..]
    ensures input != [] ==> |r| == |input| - 1
    ensures input == [] ==> r == []
  {
    if input == [] then [] else input[1..]
  }

  // ---------------------------------------------------------------------
  // Rendering a level
  // ---------------------------------------------------------------------

  function EntryLine(item: MenuEntry, indent: string): string {
    indent + FormatInt(item.id) + ". " + item.labelText
  }

  /** The lines listing the entries of a level, one per entry. */
  function EntryLines(items: seq<MenuEntry>, indent: string): (r: seq<Event>)
    ensures |r| == |items|
  {
    if items == [] then []
    else EntryLines(items[..|items| - 1], indent) + [Say(EntryLine(items[|items| - 1], indent))]
  }

  /** What displayMenu prints before it reads (its shape is lemma
      MenuProperties.RenderShape). */
  function Render(items: seq<MenuEntry>, level: nat): (r: seq<Event>)
  {
    [Say(Indent(level) + MenuTitle)] + EntryLines(items, Indent(level)) + [Ask(Indent(level) + ChoicePrompt)]
  }

  // ---------------------------------------------------------------------
  // Matching a choice
  // ---------------------------------------------------------------------

  /** The position of the first entry whose id is the one chosen. */
  function FirstMatch(items: seq<MenuEntry>, id: int64): (r: Option<nat>)
    ensures r.Some? ==> r.value < |items| && items[r.value].id == id
    ensures r.Some? ==> forall j :: 0 <= j < r.value ==> items[j].id != id
    ensures r.None? ==> forall j :: 0 <= j < |items| ==> items[j].id != id
  {
    if items == [] then None
    else if items[0].id == id then Some(0)
    else match FirstMatch(items[1..], id)
      case None => None
      case Some(k) => Some(k + 1)
  }

  // ---------------------------------------------------------------------
  // The behaviour of the closures and of displayMenu, as functions
  // ---------------------------------------------------------------------

  /** What running one closure of the action table does. */
  function ActionEffect(a: Action, input: seq<string>): (r: Run)
    ensures |r.rest| <= |input|
    ensures r.outcome == Exited <==> a == Exit
    ensures r.outcome != OutOfInput
    ensures InvokesNothing(r.events)
  {
    match a
    case External(callee) =>
      Run([Call(callee, [])], input, Returned)
    case CreateDocument =>
      var collectionName := TrimSpace(NextLine(input));
      var fileName := TrimSpace(NextLine(Consume(input)));
      Run([Ask(CollectionPrompt), Ask(FilePrompt), Call("document.Create", [collectionName, fileName])],
          Consume(Consume(input)), Returned)
    case ListDocuments =>
      var collectionName := TrimSpace(NextLine(input));
      Run([Ask(CollectionPrompt), Call("document.List", [collectionName])], Consume(input), Returned)
    case Exit =>
      Run([Say(Farewell), Halt(0)], input, Exited)
  }

  /** The action step of a selected entry: nothing for an empty action name,
      the table's closure, invoked once, for a known one, and a message for
      an unknown one. Only the exit closure keeps control from coming back. */
  function Dispatch(action: string, level: nat, actions: ActionTable, input: seq<string>): (r: Run)
    ensures |r.rest| <= |input|
    ensures Invoked(r.events) == if action != "" && action in actions then [action] else []
    ensures r.outcome == Exited <==> action != "" && action in actions && actions[action] == Exit
    ensures r.outcome != OutOfInput
    ensures action == "" ==> r.events == [] && r.rest == input
    ensures action != "" && action !in actions ==>
      r.events == [Say(Indent(level) + NotImplementedMessage(action))] && r.rest == input
  {
    if action == "" then Run([], input, Returned)
    else if action in actions then
      var e := ActionEffect(actions[action], input);
      InvokedNone(e.events);
      InvokedAppend([Invoke(action)], e.events);
      assert Invoked([Invoke(action)]) == [action] by { assert [Invoke(action)][1..] == []; }
      Prepend([Invoke(action)], e)
    else
      var msg := Say(Indent(level) + NotImplementedMessage(action));
      assert Invoked([msg]) == [] by { assert [msg][1..] == []; }
      Run([msg], input, Returned)
  }

  /** What happens once an entry is selected: its action step, then, unless
      the process exited, a descent into its children one level deeper when
      it has any; then the level returns. */
  function Select(entry: MenuEntry, level: nat, actions: ActionTable, input: seq<string>): Run
    decreases |input|, 2
  {
    var d := Dispatch(entry.action, level, actions, input);
    if d.outcome == Exited then d
    else if |entry.subMenu| > 0 then Prepend(d.events, Display(entry.subMenu, level + 1, actions, d.rest))
    else Run(d.events, d.rest, Returned)
  }

  /** One call of displayMenu(items, level, actions, reader) on the given
      input lines: the level is shown, one line is read and answered. */
  function Display(items: seq<MenuEntry>, level: nat, actions: ActionTable, input: seq<string>): Run
    decreases |input|, 1
  {
    if input == [] then Run(Render(items, level), [], OutOfInput)
    else Prepend(Render(items, level), Answer(items, level, actions, input[0], input[1..]))
  }

  /** How displayMenu answers the line it read, with rest still unread: a line
      that is not an integer, or an integer that is no entry's id, gets a
      message and the level is shown again; otherwise the first entry with
      that id is selected. */
  function Answer(items: seq<MenuEntry>, level: nat, actions: ActionTable, line: string, rest: seq<string>): Run
    decreases |rest| + 1, 0
  {
    match ParseInt(TrimSpace(line))
    case None =>
      Prepend([Say(Indent(level) + InvalidInputMessage)], Display(items, level, actions, rest))
    case Some(id) =>
      match FirstMatch(items, id)
      case None =>
        Prepend([Say(Indent(level) + InvalidChoiceMessage)], Display(items, level, actions, rest))
      case Some(k) =>
        Select(items[k], level, actions, rest)
  }
}
