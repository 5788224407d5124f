/** What the navigator of internal/menu/menu.go promises, proved about the
    functions of module Menu. */
module MenuProperties {
  import opened Text
  import opened Menu

  // ---------------------------------------------------------------------
  // Rendering
  // ---------------------------------------------------------------------

  /** A level is shown as its title, then every entry in declared order, each
      exactly once as "<id>. <label>", then the prompt, all of it indented by
      two spaces per level. */
  lemma {:induction false} RenderShape(items: seq<MenuEntry>, level: nat)
    ensures |Render(items, level)| == |items| + 2
    ensures Render(items, level)[0] == Say(Indent(level) + MenuTitle)
    ensures forall i :: 0 <= i < |items| ==> Render(items, level)[i + 1] == Say(EntryLine(items[i], Indent(level)))
    ensures Render(items, level)[|items| + 1] == Ask(Indent(level) + ChoicePrompt)
  {
    var indent := Indent(level);
    var head := [Say(indent + MenuTitle)];
    var lines := EntryLines(items, indent);
    var r := Render(items, level);
    assert r == (head + lines) + [Ask(indent + ChoicePrompt)];
    assert r[0] == (head + lines)[0];
    forall i | 0 <= i < |items| ensures r[i + 1] == Say(EntryLine(items[i], indent)) {
      assert r[i + 1] == (head + lines)[i + 1] == lines[i];
      EntryLinesAt(items, indent, i);
    }
  }

  /** The i-th listed line is the i-th entry's. */
  lemma {:induction false} EntryLinesAt(items: seq<MenuEntry>, indent: string, i: nat)
    requires i < |items|
    ensures EntryLines(items, indent)[i] == Say(EntryLine(items[i], indent))
    decreases |items|
  {
    if i < |items| - 1 {
      EntryLinesAt(items[..|items| - 1], indent, i);
    }
  }

  // ---------------------------------------------------------------------
  // One read at one level
  // ---------------------------------------------------------------------

  /** With no line left the level is shown and the run stops at its prompt. */
  lemma {:induction false} EndOfInputStops(items: seq<MenuEntry>, level: nat, actions: ActionTable)
    ensures Display(items, level, actions, []) == Run(Render(items, level), [], OutOfInput)
  {
  }

  /** A line that is not an integer gets one "Invalid input" message and the
      same entries are shown again at the same level; no action runs. */
  lemma {:induction false} InvalidInputRedisplays(items: seq<MenuEntry>, level: nat, actions: ActionTable, input: seq<string>)
    requires input != [] && ParseInt(TrimSpace(input[0])).None?
    ensures Display(items, level, actions, input)
         == Prepend(Render(items, level) + [Say(Indent(level) + InvalidInputMessage)],
                    Display(items, level, actions, input[1..]))
  {
    AppendAssoc(Render(items, level), [Say(Indent(level) + InvalidInputMessage)], Display(items, level, actions, input[1..]).events);
  }

  /** An integer that is no entry's id gets one "Invalid choice" message and the
      same entries are shown again at the same level; no action runs. */
  lemma {:induction false} UnknownChoiceRedisplays(items: seq<MenuEntry>, level: nat, actions: ActionTable, input: seq<string>)
    requires input != [] && ParseInt(TrimSpace(input[0])).Some?
    requires FirstMatch(items, ParseInt(TrimSpace(input[0])).value).None?
    ensures Display(items, level, actions, input)
         == Prepend(Render(items, level) + [Say(Indent(level) + InvalidChoiceMessage)],
                    Display(items, level, actions, input[1..]))
  {
    AppendAssoc(Render(items, level), [Say(Indent(level) + InvalidChoiceMessage)], Display(items, level, actions, input[1..]).events);
  }

  /** An integer that is an entry's id selects the first entry with that id;
      whatever follows is that selection, and the level shows nothing more. */
  lemma {:induction false} ChoiceSelectsFirstMatch(items: seq<MenuEntry>, level: nat, actions: ActionTable, input: seq<string>, k: nat)
    requires input != [] && ParseInt(TrimSpace(input[0])).Some?
    requires FirstMatch(items, ParseInt(TrimSpace(input[0])).value) == Some(k)
    ensures k < |items|
    ensures Display(items, level, actions, input)
         == Prepend(Render(items, level), Select(items[k], level, actions, input[1..]))
  {
  }

  /** What is shown at a level comes first in whatever that level does. */
  lemma {:induction false} DisplayOpensWithRender(items: seq<MenuEntry>, level: nat, actions: ActionTable, input: seq<string>)
    ensures var r := Display(items, level, actions, input);
      |Render(items, level)| <= |r.events| && r.events[..|Render(items, level)|] == Render(items, level)
  {
  }

  // ---------------------------------------------------------------------
  // Retrying and returning
  // ---------------------------------------------------------------------

  /** The line is turned down at this level: it is not an integer, or no
      entry has that id. */
  predicate Rejected(items: seq<MenuEntry>, line: string) {
    match ParseInt(TrimSpace(line))
    case None => true
    case Some(id) => FirstMatch(items, id).None?
  }

  /** The message a turned-down line gets. */
  function Complaint(level: nat, line: string): Event {
    if ParseInt(TrimSpace(line)).None? then Say(Indent(level) + InvalidInputMessage)
    else Say(Indent(level) + InvalidChoiceMessage)
  }

  /** What a level prints for a run of turned-down lines: for each of them the
      level is shown and the line's complaint follows. */
  function Retries(items: seq<MenuEntry>, level: nat, lines: seq<string>): seq<Event> {
    if lines == [] then []
    else Render(items, level) + [Complaint(level, lines[0])] + Retries(items, level, lines[1..])
  }

  lemma {:induction false} RenderInvokesNothing(items: seq<MenuEntry>, level: nat)
    ensures InvokesNothing(Render(items, level))
  {
    var r := Render(items, level);
    RenderShape(items, level);
    forall i | 0 <= i < |r| ensures !r[i].Invoke? {
      if 0 < i <= |items| {
        var j := i - 1;
        assert r[j + 1] == Say(EntryLine(items[j], Indent(level)));
      }
    }
  }

  /** While lines are turned down no action runs. */
  lemma {:induction false} RetriesInvokeNothing(items: seq<MenuEntry>, level: nat, lines: seq<string>)
    ensures Invoked(Retries(items, level, lines)) == []
  {
    if lines != [] {
      var shown := Render(items, level) + [Complaint(level, lines[0])];
      RenderInvokesNothing(items, level);
      assert InvokesNothing(shown);
      InvokedNone(shown);
      RetriesInvokeNothing(items, level, lines[1..]);
      InvokedAppend(shown, Retries(items, level, lines[1..]));
    }
  }

  /** One turned-down line: the level is shown, the complaint follows, and the
      level is shown again on the lines after it. */
  lemma {:induction false} RejectedLineRedisplays(items: seq<MenuEntry>, level: nat, actions: ActionTable, input: seq<string>)
    requires input != [] && Rejected(items, input[0])
    ensures Display(items, level, actions, input)
         == Prepend(Render(items, level) + [Complaint(level, input[0])], Display(items, level, actions, input[1..]))
  {
    if ParseInt(TrimSpace(input[0])).None? {
      InvalidInputRedisplays(items, level, actions, input);
    } else {
      UnknownChoiceRedisplays(items, level, actions, input);
    }
  }

  /** Each turned-down line costs one redisplay of the same level, at the same
      indentation, and nothing else. */
  lemma {:induction false} RejectedLinesRedisplay(items: seq<MenuEntry>, level: nat, actions: ActionTable,
                                                  lines: seq<string>, rest: seq<string>)
    requires forall j :: 0 <= j < |lines| ==> Rejected(items, lines[j])
    ensures Display(items, level, actions, lines + rest)
         == Prepend(Retries(items, level, lines), Display(items, level, actions, rest))
  {
    if lines == [] {
      assert lines + rest == rest;
    } else {
      var input := lines + rest;
      var shown := Render(items, level) + [Complaint(level, lines[0])];
      assert input[0] == lines[0] && input[1..] == lines[1..] + rest;
      RejectedLineRedisplays(items, level, actions, input);
      assert forall j :: 0 <= j < |lines| - 1 ==> lines[1..][j] == lines[j + 1];
      RejectedLinesRedisplay(items, level, actions, lines[1..], rest);
      AppendAssoc(shown, Retries(items, level, lines[1..]), Display(items, level, actions, rest).events);
    }
  }

  /** A level shown on input whose every line is turned down redisplays once
      per line and then waits at its prompt with nothing left to read. */
  lemma {:induction false} AllRejectedRunsOut(items: seq<MenuEntry>, level: nat, actions: ActionTable, input: seq<string>)
    requires forall j :: 0 <= j < |input| ==> Rejected(items, input[j])
    ensures Display(items, level, actions, input)
         == Run(Retries(items, level, input) + Render(items, level), [], OutOfInput)
  {
    RejectedLinesRedisplay(items, level, actions, input, []);
    assert input + [] == input;
  }

  /** A level reads turned-down lines until the first line it accepts, selects
      the first entry with that id, and then returns whatever the selection
      returns: it consumes exactly one accepted line and does not show itself
      again. */
  lemma {:induction false} LevelReturnsAfterOneSelection(items: seq<MenuEntry>, level: nat, actions: ActionTable,
                                                         lines: seq<string>, line: string, rest: seq<string>)
    requires forall j :: 0 <= j < |lines| ==> Rejected(items, lines[j])
    requires !Rejected(items, line)
    ensures ParseInt(TrimSpace(line)).Some?
    ensures FirstMatch(items, ParseInt(TrimSpace(line)).value).Some?
    ensures var k := FirstMatch(items, ParseInt(TrimSpace(line)).value).value;
      k < |items| &&
      Display(items, level, actions, lines + [line] + rest)
        == Prepend(Retries(items, level, lines) + Render(items, level), Select(items[k], level, actions, rest))
  {
    var tail := [line] + rest;
    assert lines + [line] + rest == lines + tail;
    RejectedLinesRedisplay(items, level, actions, lines, tail);
    var k := FirstMatch(items, ParseInt(TrimSpace(line)).value).value;
    assert tail[0] == line && tail[1..] == rest;
    ChoiceSelectsFirstMatch(items, level, actions, tail, k);
    AppendAssoc(Retries(items, level, lines), Render(items, level), Select(items[k], level, actions, rest).events);
  }

  /** ParseInt of what %d prints for an entry's id, padded with white space on
      either side, selects the first entry with that id. */
  lemma {:induction false} TypedIdSelects(items: seq<MenuEntry>, level: nat, actions: ActionTable,
                                          i: nat, pre: string, post: string, rest: seq<string>)
    requires i < |items|
    requires forall c :: c in pre ==> IsSpace(c)
    requires forall c :: c in post ==> IsSpace(c)
    ensures FirstMatch(items, items[i].id).Some? && FirstMatch(items, items[i].id).value <= i
    ensures Answer(items, level, actions, pre + FormatInt(items[i].id) + post, rest)
         == Select(items[FirstMatch(items, items[i].id).value], level, actions, rest)
  {
    var id := items[i].id;
    var f := FormatInt(id);
    assert !IsSpace(f[0]) by {
      if id >= 0 { assert IsDigit(f[0]); }
    }
    forall k | 0 <= k < |pre| ensures IsSpace(pre[k]) { assert pre[k] in pre; }
    forall k | 0 <= k < |post| ensures IsSpace(post[k]) { assert post[k] in post; }
    TrimSpacePadded(pre, f, post);
    ParseFormatInt(id);
  }

  // ---------------------------------------------------------------------
  // Descent
  // ---------------------------------------------------------------------

  /** After the action step of a selected entry, something more happens iff
      the process did not exit and the entry has children; then it is the
      entry's own children, shown one level deeper. */
  lemma {:induction false} SelectDescendsIffChildren(entry: MenuEntry, level: nat, actions: ActionTable, input: seq<string>)
    ensures var d := Dispatch(entry.action, level, actions, input);
            var r := Select(entry, level, actions, input);
      && |d.events| <= |r.events| && r.events[..|d.events|] == d.events
      && (|r.events| > |d.events| <==> d.outcome != Exited && |entry.subMenu| > 0)
      && (|r.events| > |d.events| ==> r.events[|d.events|] == Say(Indent(level + 1) + MenuTitle))
      && (d.outcome != Exited && |entry.subMenu| > 0 ==>
            r.events[|d.events|..] == Display(entry.subMenu, level + 1, actions, d.rest).events)
      && (d.outcome == Exited || |entry.subMenu| == 0 ==> r.rest == d.rest)
  {
    var d := Dispatch(entry.action, level, actions, input);
    if d.outcome != Exited && |entry.subMenu| > 0 {
      var sub := Display(entry.subMenu, level + 1, actions, d.rest);
      DisplayOpensWithRender(entry.subMenu, level + 1, actions, d.rest);
      RenderShape(entry.subMenu, level + 1);
      assert sub.events[0] == Say(Indent(level + 1) + MenuTitle);
      assert (d.events + sub.events)[..|d.events|] == d.events;
      assert (d.events + sub.events)[|d.events|..] == sub.events;
    }
  }

  // ---------------------------------------------------------------------
  // Consumption of the input
  // ---------------------------------------------------------------------

  /** r is what is left of s once some lines were read from its front. */
  ghost predicate IsSuffix(r: seq<string>, s: seq<string>) {
    |r| <= |s| && r == s[|s| - |r|..]
  }

  lemma SuffixTrans(a: seq<string>, b: seq<string>, c: seq<string>)
    requires IsSuffix(a, b) && IsSuffix(b, c)
    ensures IsSuffix(a, c)
  {
    assert c[|c| - |b|..][|b| - |a|..] == c[|c| - |a|..];
  }

  /** A closure only reads lines from the front of the input. */
  lemma {:induction false} ActionEffectLeavesSuffix(a: Action, input: seq<string>)
    ensures IsSuffix(ActionEffect(a, input).rest, input)
  {
    if a == CreateDocument {
      SuffixTrans(Consume(Consume(input)), Consume(input), input);
    }
  }

  lemma {:induction false} DispatchLeavesSuffix(action: string, level: nat, actions: ActionTable, input: seq<string>)
    ensures IsSuffix(Dispatch(action, level, actions, input).rest, input)
  {
    if action != "" && action in actions {
      ActionEffectLeavesSuffix(actions[action], input);
    }
  }

  /** A level reads lines only from the front of its input, reads at least
      one when there is one, and runs out only when nothing is left. */
  lemma {:induction false} DisplayLeavesSuffix(items: seq<MenuEntry>, level: nat, actions: ActionTable, input: seq<string>)
    ensures var r := Display(items, level, actions, input);
      IsSuffix(r.rest, input) && (input != [] ==> |r.rest| < |input|) && (r.outcome == OutOfInput ==> r.rest == [])
    decreases |input|, 1
  {
    if input != [] {
      AnswerLeavesSuffix(items, level, actions, input[0], input[1..]);
      SuffixTrans(Answer(items, level, actions, input[0], input[1..]).rest, input[1..], input);
    }
  }

  lemma {:induction false} AnswerLeavesSuffix(items: seq<MenuEntry>, level: nat, actions: ActionTable, line: string, rest: seq<string>)
    ensures var r := Answer(items, level, actions, line, rest);
      IsSuffix(r.rest, rest) && (r.outcome == OutOfInput ==> r.rest == [])
    decreases |rest| + 1, 0
  {
    match ParseInt(TrimSpace(line))
    case None =>
      DisplayLeavesSuffix(items, level, actions, rest);
    case Some(id) =>
      match FirstMatch(items, id)
      case None =>
        DisplayLeavesSuffix(items, level, actions, rest);
      case Some(k) =>
        SelectLeavesSuffix(items[k], level, actions, rest);
  }

  lemma {:induction false} SelectLeavesSuffix(entry: MenuEntry, level: nat, actions: ActionTable, input: seq<string>)
    ensures var r := Select(entry, level, actions, input);
      IsSuffix(r.rest, input) && (r.outcome == OutOfInput ==> r.rest == [])
    decreases |input|, 2
  {
    var d := Dispatch(entry.action, level, actions, input);
    DispatchLeavesSuffix(entry.action, level, actions, input);
    if d.outcome != Exited && |entry.subMenu| > 0 {
      DisplayLeavesSuffix(entry.subMenu, level + 1, actions, d.rest);
      SuffixTrans(Display(entry.subMenu, level + 1, actions, d.rest).rest, d.rest, input);
    }
  }

  // ---------------------------------------------------------------------
  // Exit is final
  // ---------------------------------------------------------------------

  /** No event of the list ends the process. */
  predicate HaltFree(events: seq<Event>) {
    forall i :: 0 <= i < |events| ==> !events[i].Halt?
  }

  /** A run that exited ends with the farewell and os.Exit(0), and nothing
      ended the process before; any other run never ends the process. */
  predicate ExitIsLast(r: Run) {
    if r.outcome == Exited then
      var n := |r.events|;
      n >= 2 && r.events[n - 2] == Say(Farewell) && r.events[n - 1] == Halt(0) && HaltFree(r.events[..n - 1])
    else HaltFree(r.events)
  }

  lemma PrependKeepsExitLast(pre: seq<Event>, r: Run)
    requires HaltFree(pre) && ExitIsLast(r)
    ensures ExitIsLast(Prepend(pre, r))
  {
    var all := pre + r.events;
    if r.outcome == Exited {
      var n := |r.events|;
      assert all[..|all| - 1] == pre + r.events[..n - 1];
      assert all[|all| - 2] == r.events[n - 2];
    }
    forall i | 0 <= i < |all| && !(r.outcome == Exited && i == |all| - 1) ensures !all[i].Halt? {
      if i >= |pre| {
        assert all[i] == r.events[i - |pre|];
        if r.outcome == Exited {
          assert r.events[..|r.events| - 1][i - |pre|] == r.events[i - |pre|];
        }
      }
    }
  }

  lemma {:induction false} RenderHaltFree(items: seq<MenuEntry>, level: nat)
    ensures HaltFree(Render(items, level))
  {
    var r := Render(items, level);
    RenderShape(items, level);
    forall i | 0 <= i < |r| ensures !r[i].Halt? {
      if 0 < i <= |items| {
        var j := i - 1;
        assert r[j + 1] == Say(EntryLine(items[j], Indent(level)));
      }
    }
  }

  lemma {:induction false} DispatchExitIsLast(action: string, level: nat, actions: ActionTable, input: seq<string>)
    ensures ExitIsLast(Dispatch(action, level, actions, input))
  {
    if action != "" && action in actions {
      var e := ActionEffect(actions[action], input);
      assert ExitIsLast(e);
      PrependKeepsExitLast([Invoke(action)], e);
    }
  }

  /** Once the exit closure runs, the process ends: no prompt, no other
      level and no other action follows, and nothing else ends it. */
  lemma {:induction false} DisplayExitIsLast(items: seq<MenuEntry>, level: nat, actions: ActionTable, input: seq<string>)
    ensures ExitIsLast(Display(items, level, actions, input))
    decreases |input|, 1
  {
    RenderHaltFree(items, level);
    if input != [] {
      AnswerExitIsLast(items, level, actions, input[0], input[1..]);
      PrependKeepsExitLast(Render(items, level), Answer(items, level, actions, input[0], input[1..]));
    }
  }

  lemma {:induction false} AnswerExitIsLast(items: seq<MenuEntry>, level: nat, actions: ActionTable, line: string, rest: seq<string>)
    ensures ExitIsLast(Answer(items, level, actions, line, rest))
    decreases |rest| + 1, 0
  {
    match ParseInt(TrimSpace(line))
    case None =>
      DisplayExitIsLast(items, level, actions, rest);
      PrependKeepsExitLast([Say(Indent(level) + InvalidInputMessage)], Display(items, level, actions, rest));
    case Some(id) =>
      match FirstMatch(items, id)
      case None =>
        DisplayExitIsLast(items, level, actions, rest);
        PrependKeepsExitLast([Say(Indent(level) + InvalidChoiceMessage)], Display(items, level, actions, rest));
      case Some(k) =>
        SelectExitIsLast(items[k], level, actions, rest);
  }

  lemma {:induction false} SelectExitIsLast(entry: MenuEntry, level: nat, actions: ActionTable, input: seq<string>)
    ensures ExitIsLast(Select(entry, level, actions, input))
    decreases |input|, 2
  {
    var d := Dispatch(entry.action, level, actions, input);
    DispatchExitIsLast(entry.action, level, actions, input);
    DispatchLeavesSuffix(entry.action, level, actions, input);
    if d.outcome != Exited && |entry.subMenu| > 0 {
      DisplayExitIsLast(entry.subMenu, level + 1, actions, d.rest);
      PrependKeepsExitLast(d.events, Display(entry.subMenu, level + 1, actions, d.rest));
    }
  }

  // ---------------------------------------------------------------------
  // The action table MainMenu builds
  // ---------------------------------------------------------------------

  /** "exit" is the only name bound to the closure that ends the process. */
  lemma StandardExitOnly()
    ensures forall name :: name in StandardActions() ==> (StandardActions()[name] == Exit <==> name == "exit")
  {
  }

  /** The four names bound to a function of package user or collection call
      that function, with no arguments and without reading a line. */
  lemma {:induction false} StandardExternal(name: string, level: nat, input: seq<string>)
    requires name in {"user.Create", "user.List", "collection.Create", "collection.List"}
    ensures Dispatch(name, level, StandardActions(), input) == Run([Invoke(name), Call(name, [])], input, Returned)
  {
    assert StandardActions()[name] == External(name);
  }

  /** "document.Create" asks for a collection and a file name, reads both from
      the same input as the menu, trims them and passes them on. */
  lemma {:induction false} StandardCreateDocument(level: nat, input: seq<string>)
    requires |input| >= 2
    ensures Dispatch("document.Create", level, StandardActions(), input)
         == Run([Invoke("document.Create"), Ask(CollectionPrompt), Ask(FilePrompt),
                 Call("document.Create", [TrimSpace(input[0]), TrimSpace(input[1])])],
                input[2..], Returned)
  {
    assert StandardActions()["document.Create"] == CreateDocument;
    assert input[1..][1..] == input[2..];
  }

  /** At end of input, "document.Create" reads "" for both names, as
      ReadString does past the end, and leaves nothing unread. */
  lemma {:induction false} StandardCreateDocumentAtEnd(level: nat)
    ensures Dispatch("document.Create", level, StandardActions(), [])
         == Run([Invoke("document.Create"), Ask(CollectionPrompt), Ask(FilePrompt),
                 Call("document.Create", ["", ""])], [], Returned)
  {
    assert StandardActions()["document.Create"] == CreateDocument;
    assert NextLine([]) == "" && Consume([]) == [];
    assert TrimSpace("") == "";
    assert ActionEffect(CreateDocument, [])
        == Run([Ask(CollectionPrompt), Ask(FilePrompt), Call("document.Create", ["", ""])], [], Returned);
  }

  /** With one line left, "document.Create" takes it as the collection name
      and reads "" for the file name. */
  lemma {:induction false} StandardCreateDocumentLastLine(level: nat, line: string)
    ensures Dispatch("document.Create", level, StandardActions(), [line])
         == Run([Invoke("document.Create"), Ask(CollectionPrompt), Ask(FilePrompt),
                 Call("document.Create", [TrimSpace(line), ""])], [], Returned)
  {
    assert StandardActions()["document.Create"] == CreateDocument;
    assert [line][1..] == [];
    assert TrimSpace("") == "";
  }

  /** "document.List" asks for a collection name, reads and trims one line and
      passes it on. */
  lemma {:induction false} StandardListDocuments(level: nat, input: seq<string>)
    requires |input| >= 1
    ensures Dispatch("document.List", level, StandardActions(), input)
         == Run([Invoke("document.List"), Ask(CollectionPrompt), Call("document.List", [TrimSpace(input[0])])],
                input[1..], Returned)
  {
    assert StandardActions()["document.List"] == ListDocuments;
  }

  /** At end of input, "document.List" passes "" on and leaves nothing unread. */
  lemma {:induction false} StandardListDocumentsAtEnd(level: nat)
    ensures Dispatch("document.List", level, StandardActions(), [])
         == Run([Invoke("document.List"), Ask(CollectionPrompt), Call("document.List", [""])], [], Returned)
  {
    assert StandardActions()["document.List"] == ListDocuments;
    assert TrimSpace("") == "";
  }

  /** "exit" says goodbye and ends the process with status 0, reading nothing. */
  lemma {:induction false} StandardExit(level: nat, input: seq<string>)
    ensures Dispatch("exit", level, StandardActions(), input)
         == Run([Invoke("exit"), Say(Farewell), Halt(0)], input, Exited)
  {
    assert StandardActions()["exit"] == Exit;
  }
}
