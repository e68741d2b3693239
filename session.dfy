/** Short command sequences on a fresh store, with the states they must reach. */
module Session {
  import opened Text
  import opened Tasks
  import opened AppState

  /** `"  Bob  ".trim()` is `"Bob"`. */
  lemma TrimPadded()
    ensures Trim("  Bob  ") == "Bob"
  {
    assert SkipLeading("  Bob  ", 2) == 2;
    assert SkipLeading("  Bob  ", 0) == 2;
    assert SkipTrailing("  Bob  ", 2, 5) == 5;
    assert SkipTrailing("  Bob  ", 2, 7) == 5;
    assert "  Bob  "[2..5] == "Bob";
  }

  /**
   * Names are stored trimmed and in insertion order; a blank name is ignored.
   * With `a == "Alice"` and `b == "  Bob  "` this is the users list
   * `[{name: "Alice"}, {name: "Bob"}]` (see TrimPadded).
   */
  method TwoUsers(a: string, b: string, blank: string)
    requires IsCleanText(a) && Trim(b) != [] && AllWhitespace(blank)
  {
    TrimOfTrimmed(a);
    var s := new Store();
    s.AddUser(a);
    s.AddUser(b);
    s.AddUser(blank);
    assert s.users == [User(a, [])] + [User(Trim(b), [])];
    assert s.sel == None;
  }

  /** With no user selected, every task command is a no-op. */
  method NoSelection(a: string, x: string, y: string)
    requires IsCleanText(a) && IsCleanText(x) && IsCleanText(y)
  {
    var s := new Store();
    s.AddUser(a);
    ghost var before := s.users;
    s.AddTask(x);
    s.ToggleTask(0);
    s.DeleteTask(0);
    s.EditTask(0, y);
    assert s.users == before;
  }

  /** Adding and toggling tasks of the selected user, and the counts shown for it. */
  method AddAndToggle(a: string, t1: string, t2: string)
    requires IsCleanText(a) && IsCleanText(t1) && IsCleanText(t2)
  {
    TrimOfTrimmed(a);
    TrimOfTrimmed(t1);
    TrimOfTrimmed(t2);
    var s := new Store();
    s.AddUser(a);
    s.SelectUser(0);
    s.AddTask(t1);
    s.AddTask(t2);
    assert s.users[0].tasks == [Task(t1, false)] + [Task(t2, false)];
    s.ToggleTask(0);
    assert |s.users| == 1 && s.users[0].name == a;
    assert s.users[0].tasks == [Task(t1, true), Task(t2, false)];
    assert s.users == [User(a, [Task(t1, true), Task(t2, false)])];
    assert s.Progress(0) == (1, 2) by {
      CompletedCountToggled([Task(t1, false), Task(t2, false)], 0);
    }
    s.ToggleTask(0);
    s.ToggleTask(0);
    assert s.users[0].tasks == [Task(t1, true), Task(t2, false)];
  }

  /** Editing keeps the completion flag, a blank edit is ignored, and deletion closes the gap. */
  method EditAndDelete(s: Store, t1: string, t2: string, t3: string)
    requires s.Valid() && s.sel == Some(0)
    requires s.users[0].tasks == [Task(t1, true), Task(t2, false)]
    requires IsCleanText(t3)
    modifies s
  {
    TrimOfTrimmed(t3);
    s.EditTask(1, "");
    assert s.users[0].tasks == [Task(t1, true), Task(t2, false)];
    s.EditTask(0, t3);
    assert s.users[0].tasks == [Task(t3, true), Task(t2, false)];
    s.DeleteTask(0);
    assert s.users[0].tasks == [Task(t2, false)];
    s.DeleteTask(5);
    assert s.users[0].tasks == [Task(t2, false)];
  }

  /** The theme starts light and strictly alternates. */
  method Themes() {
    var s := new Store();
    s.ToggleTheme();
    assert s.theme == Dark;
    s.ToggleTheme();
    assert s.theme == Light;
  }
}
