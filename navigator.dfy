/** The navigator in the program's own form: the shared bufio.Reader and
    standard output as one Terminal object, and displayMenu, the closures of
    the action table and MainMenu as methods that change it. Each method is
    proved to leave exactly the output, and the unread input, that the
    corresponding function of module Menu describes. */
module Navigator {
  import opened Text
  import opened Menu

  /** Standard input (the lines the shared bufio.Reader has still to deliver)
      and everything written so far. */
  class Terminal {
    var input: seq<string>
    var output: seq<Event>

    constructor (lines: seq<string>)
      ensures input == lines && output == []
    {
      input := lines;
      output := [];
    }

    /** reader.ReadString('\n'): the next line, and whether the input had
        already ended (Go's io.EOF error). */
    method ReadString() returns (line: string, atEnd: bool)
      modifies this
      ensures line == NextLine(old(input)) && input == Consume(old(input))
      ensures atEnd <==> old(input) == []
      ensures output == old(output)
    {
      atEnd := input == [];
      line := NextLine(input);
      input := Consume(input);
    }

    method Emit(e: Event)
      modifies this
      ensures output == old(output) + [e] && input == old(input)
    {
      output := output + [e];
    }
  }

  /** Runs one closure of the action table (menu.go, MainMenu). */
  method Perform(a: Action, term: Terminal) returns (outcome: Outcome)
    modifies term
    ensures var r := ActionEffect(a, old(term.input));
      term.output == old(term.output) + r.events && term.input == r.rest && outcome == r.outcome
  {
    match a
    case External(callee) =>
      term.Emit(Call(callee, []));
      outcome := Returned;
    case CreateDocument =>
      CreateDocumentClosure(term);
      outcome := Returned;
    case ListDocuments =>
      ListDocumentsClosure(term);
      outcome := Returned;
    case Exit =>
      ExitClosure(term);
      outcome := Exited;
  }

  /** The "document.Create" closure: two prompts, two trimmed lines, one call. */
  method CreateDocumentClosure(term: Terminal)
    modifies term
    ensures var r := ActionEffect(CreateDocument, old(term.input));
      term.output == old(term.output) + r.events && term.input == r.rest
  {
    term.Emit(Ask(CollectionPrompt));
    var collectionName, _ := term.ReadString();
    collectionName := TrimSpace(collectionName);
    term.Emit(Ask(FilePrompt));
    var fileName, _ := term.ReadString();
    fileName := TrimSpace(fileName);
    term.Emit(Call("document.Create", [collectionName, fileName]));
  }

  /** The "document.List" closure: one prompt, one trimmed line, one call. */
  method ListDocumentsClosure(term: Terminal)
    modifies term
    ensures var r := ActionEffect(ListDocuments, old(term.input));
      term.output == old(term.output) + r.events && term.input == r.rest
  {
    term.Emit(Ask(CollectionPrompt));
    var collectionName, _ := term.ReadString();
    collectionName := TrimSpace(collectionName);
    term.Emit(Call("document.List", [collectionName]));
  }

  /** The "exit" closure: the farewell, then os.Exit(0). */
  method ExitClosure(term: Terminal)
    modifies term
    ensures var r := ActionEffect(Exit, old(term.input));
      term.output == old(term.output) + r.events && term.input == r.rest
  {
    term.Emit(Say(Farewell));
    term.Emit(Halt(0));
  }

  /** The printing that opens displayMenu: the title, the entries and the prompt. */
  method ShowLevel(items: seq<MenuEntry>, level: nat, term: Terminal)
    modifies term
    ensures term.output == old(term.output) + Render(items, level) && term.input == old(term.input)
  {
    var indent := Indent(level);
    term.Emit(Say(indent + MenuTitle));
    ShowEntries(items, indent, term);
    term.Emit(Ask(indent + ChoicePrompt));
    AppendAssoc(old(term.output) + [Say(indent + MenuTitle)], EntryLines(items, indent), [Ask(indent + ChoicePrompt)]);
    AppendAssoc(old(term.output), [Say(indent + MenuTitle)], EntryLines(items, indent) + [Ask(indent + ChoicePrompt)]);
  }

  /** The loop over items that prints one line per entry. */
  method ShowEntries(items: seq<MenuEntry>, indent: string, term: Terminal)
    modifies term
    ensures term.output == old(term.output) + EntryLines(items, indent) && term.input == old(term.input)
  {
    for i := 0 to |items|
      invariant term.input == old(term.input)
      invariant term.output == old(term.output) + EntryLines(items[..i], indent)
    {
      ghost var line := Say(EntryLine(items[i], indent));
      assert items[..i + 1][..i] == items[..i];
      assert EntryLines(items[..i + 1], indent) == EntryLines(items[..i], indent) + [line];
      term.Emit(Say(indent + FormatInt(items[i].id) + ". " + items[i].labelText));
      AppendAssoc(old(term.output), EntryLines(items[..i], indent), [line]);
    }
    assert items[..|items|] == items;
  }

  /** displayMenu. Where the Go code ignores the end-of-input error and goes
      on reading "" forever, this method stops with OutOfInput. */
  method DisplayMenu(items: seq<MenuEntry>, level: nat, actions: ActionTable, term: Terminal)
    returns (outcome: Outcome)
    modifies term
    decreases |term.input|, 1
    ensures var r := Display(items, level, actions, old(term.input));
      term.output == old(term.output) + r.events && term.input == r.rest && outcome == r.outcome
  {
    ShowLevel(items, level, term);
    var line, atEnd := term.ReadString();
    if atEnd {
      outcome := OutOfInput;
      return;
    }
    outcome := Respond(items, level, actions, line, term);
    AppendAssoc(old(term.output), Render(items, level), Answer(items, level, actions, line, old(term.input)[1..]).events);
  }

  /** The rest of displayMenu once a line is read: trim and parse it, look the
      id up, and either run the selection or complain and call displayMenu
      again on the same level. */
  method Respond(items: seq<MenuEntry>, level: nat, actions: ActionTable, line: string, term: Terminal)
    returns (outcome: Outcome)
    modifies term
    decreases |term.input| + 1, 0
    ensures var r := Answer(items, level, actions, line, old(term.input));
      term.output == old(term.output) + r.events && term.input == r.rest && outcome == r.outcome
  {
    var indent := Indent(level);
    var input := TrimSpace(line);
    var parsed := ParseInt(input);
    if parsed.None? {
      term.Emit(Say(indent + InvalidInputMessage));
      outcome := DisplayMenu(items, level, actions, term);
      AppendAssoc(old(term.output), [Say(indent + InvalidInputMessage)], Display(items, level, actions, old(term.input)).events);
      return;
    }
    var selectedID := parsed.value;
    var found, k := FindEntry(items, selectedID);
    if found {
      assert FirstMatch(items, selectedID) == Some(k);
      outcome := RunSelection(items[k], level, actions, term);
    } else {
      assert FirstMatch(items, selectedID) == None;
      term.Emit(Say(indent + InvalidChoiceMessage));
      outcome := DisplayMenu(items, level, actions, term);
      AppendAssoc(old(term.output), [Say(indent + InvalidChoiceMessage)], Display(items, level, actions, old(term.input)).events);
    }
  }

  /** The search of displayMenu's loop: the items are scanned in order and the
      scan stops (found, break) at the first entry with the chosen id. */
  method FindEntry(items: seq<MenuEntry>, selectedID: int64) returns (found: bool, k: nat)
    ensures found ==> k < |items| && items[k].id == selectedID
    ensures found ==> forall j :: 0 <= j < k ==> items[j].id != selectedID
    ensures !found ==> forall j :: 0 <= j < |items| ==> items[j].id != selectedID
  {
    found := false;
    k := 0;
    while k < |items|
      invariant 0 <= k <= |items|
      invariant forall j :: 0 <= j < k ==> items[j].id != selectedID
    {
      if items[k].id == selectedID {
        found := true;
        break;
      }
      k := k + 1;
    }
  }

  /** The body of displayMenu's loop once an entry matched: the action step,
      then the descent into the entry's children. Where os.Exit ends the
      process, this returns Exited and its callers return at once. */
  method RunSelection(item: MenuEntry, level: nat, actions: ActionTable, term: Terminal)
    returns (outcome: Outcome)
    modifies term
    decreases |term.input|, 2
    ensures var r := Select(item, level, actions, old(term.input));
      term.output == old(term.output) + r.events && term.input == r.rest && outcome == r.outcome
  {
    ghost var d := Dispatch(item.action, level, actions, term.input);
    outcome := Returned;
    if item.action != "" {
      if item.action in actions {
        term.Emit(Invoke(item.action));
        ghost var e := ActionEffect(actions[item.action], term.input);
        outcome := Perform(actions[item.action], term);
        AppendAssoc(old(term.output), [Invoke(item.action)], e.events);
        if outcome == Exited {
          return;
        }
      } else {
        term.Emit(Say(Indent(level) + NotImplementedMessage(item.action)));
      }
    }
    assert term.output == old(term.output) + d.events && term.input == d.rest && outcome == d.outcome;
    if |item.subMenu| > 0 {
      outcome := DisplayMenu(item.subMenu, level + 1, actions, term);
      AppendAssoc(old(term.output), d.events, Display(item.subMenu, level + 1, actions, d.rest).events);
    }
  }

  /** MainMenu: the standard action table, and the root level shown at level 0. */
  method MainMenu(menuItems: seq<MenuEntry>, term: Terminal) returns (outcome: Outcome)
    modifies term
    ensures var r := Display(menuItems, 0, StandardActions(), old(term.input));
      term.output == old(term.output) + r.events && term.input == r.rest && outcome == r.outcome
  {
    outcome := DisplayMenu(menuItems, 0, StandardActions(), term);
  }
}
