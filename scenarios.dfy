/** A worked run of the navigator on a small tree, showing that the menu has
    no "go back" entry of its own and that a level returns after one
    selection instead of showing itself again. */
module Scenarios {
  import opened Text
  import opened Menu
  import opened MenuProperties

  const Manage := MenuEntry(2, "Manage Data", "", [MenuEntry(1, "Create Collection", "collection.Create", [])])

  function SampleMenu(): seq<MenuEntry> {
    [MenuEntry(1, "Create User", "user.Create", []), Manage, MenuEntry(0, "Exit", "exit", [])]
  }

  lemma {:induction false} ReadsId(line: string, id: int64)
    requires line == FormatInt(id)
    ensures ParseInt(TrimSpace(line)) == Some(id)
  {
    TrimSpacePadded([], line, []);
    assert [] + line + [] == line;
    ParseFormatInt(id);
  }

  /** Inside "Manage Data", "1" runs collection.Create and the submenu returns. */
  lemma {:induction false} SubmenuRunsOnce()
    ensures Display(Manage.subMenu, 1, StandardActions(), ["1", "0", "0"])
         == Run(Render(Manage.subMenu, 1) + [Invoke("collection.Create"), Call("collection.Create", [])], ["0", "0"], Returned)
  {
    var sub := Manage.subMenu;
    var t := StandardActions();
    ReadsId("1", 1);
    assert ["1", "0", "0"][1..] == ["0", "0"];
    StandardExternal("collection.Create", 1, ["0", "0"]);
    assert FirstMatch(sub, 1) == Some(0);
    ChoiceSelectsFirstMatch(sub, 1, t, ["1", "0", "0"], 0);
  }

  /** The lines two levels show add no invocation to what follows them. */
  lemma {:induction false} InvokedAfterTwoLevels(outer: seq<MenuEntry>, l0: nat, inner: seq<MenuEntry>, l1: nat, tail: seq<Event>)
    ensures Invoked(Render(outer, l0) + (Render(inner, l1) + tail)) == Invoked(tail)
  {
    RenderInvokesNothing(outer, l0);
    RenderInvokesNothing(inner, l1);
    InvokedNone(Render(outer, l0));
    InvokedNone(Render(inner, l1));
    InvokedAppend(Render(inner, l1), tail);
    InvokedAppend(Render(outer, l0), Render(inner, l1) + tail);
  }

  /** Choosing "2" and then "1" runs collection.Create once; the submenu then
      returns, and so does the root: the two "0" lines that follow are left
      unread, so neither works as a "go back" or reaches the Exit entry. */
  lemma {:induction false} NoGoBackAfterSelection()
    ensures var r := Display(SampleMenu(), 0, StandardActions(), ["2", "1", "0", "0"]);
      r.outcome == Returned && r.rest == ["0", "0"] && Invoked(r.events) == ["collection.Create"]
  {
    RootReturnsAfterSubmenu(SampleMenu(), StandardActions(), ["2", "1", "0", "0"]);
  }

  /** The same run, with the tree, the table and the input passed in. */
  lemma {:induction false} RootReturnsAfterSubmenu(items: seq<MenuEntry>, t: ActionTable, input: seq<string>)
    requires items == SampleMenu() && t == StandardActions() && input == ["2", "1", "0", "0"]
    ensures var r := Display(items, 0, t, input);
      r.outcome == Returned && r.rest == ["0", "0"] && Invoked(r.events) == ["collection.Create"]
  {
    var leaf := [Invoke("collection.Create"), Call("collection.Create", [])];
    RootSelectsManage(items, t, input);
    ManageDescends(t, ["1", "0", "0"]);
    SubmenuRunsOnce();
    assert Invoked(leaf) == ["collection.Create"] by {
      assert leaf[1..][1..] == [];
    }
    InvokedAfterTwoLevels(items, 0, Manage.subMenu, 1, leaf);
    assert [] + (Render(Manage.subMenu, 1) + leaf) == Render(Manage.subMenu, 1) + leaf;
  }

  /** At the root, "2" selects "Manage Data". */
  lemma {:induction false} RootSelectsManage(items: seq<MenuEntry>, t: ActionTable, input: seq<string>)
    requires items == SampleMenu() && input == ["2", "1", "0", "0"]
    ensures Display(items, 0, t, input) == Prepend(Render(items, 0), Select(Manage, 0, t, ["1", "0", "0"]))
  {
    ReadsId("2", 2);
    assert FirstMatch(items, 2) == Some(1);
    ChoiceSelectsFirstMatch(items, 0, t, input, 1);
    assert input[1..] == ["1", "0", "0"];
  }

  /** "Manage Data" has no action of its own and shows its children. */
  lemma {:induction false} ManageDescends(t: ActionTable, rest: seq<string>)
    ensures Select(Manage, 0, t, rest) == Prepend([], Display(Manage.subMenu, 1, t, rest))
  {
  }
}
