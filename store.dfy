/**
 * The state held by the `App` component: the users, the optional selected
 * user and the theme, with one method per command the component hands to
 * its views. Every rejected input (a string that trims to empty, or a task
 * command with no user selected) leaves the whole state as it was.
 */
module AppState {
  import opened Text
  import opened Tasks

  datatype Option<T> = None | Some(value: T)

  datatype Theme = Light | Dark

  /** `theme === "light" ? "dark" : "light"`: the other theme. */
  function Flip(t: Theme): (r: Theme)
    ensures r != t
  {
    if t == Light then Dark else Light
  }

  lemma FlipTwice(t: Theme)
    ensures Flip(Flip(t)) == t
  {
  }

  /** `b` is `a` with at most the user at position `k` replaced. */
  ghost predicate SameExcept(a: seq<User>, b: seq<User>, k: nat) {
    |a| == |b| && forall j :: 0 <= j < |a| && j != k ==> a[j] == b[j]
  }

  class Store {
    var users: seq<User>
    var sel: Option<nat>
    var theme: Theme

    /** The selection is absent or a valid index, and every name and task text is clean. */
    ghost predicate Valid()
      reads this
    {
      (sel.Some? ==> sel.value < |users|) &&
      forall k :: 0 <= k < |users| ==> ValidUser(users[k])
    }

    constructor ()
      ensures Valid()
      ensures users == [] && sel == None && theme == Light
    {
      users, sel, theme := [], None, Light;
    }

    /** `addUser(name)`: appends a user named `name.trim()` with no tasks, unless that is empty. */
    method AddUser(name: string)
      requires Valid()
      modifies this`users
      ensures Valid()
      ensures Trim(name) == [] ==> users == old(users)
      ensures Trim(name) != [] ==> users == old(users) + [User(Trim(name), [])]
      ensures sel == old(sel) && theme == old(theme)
    {
      var trimmed := Trim(name);
      if trimmed == [] {
        return;
      }
      TrimOfTrimmed(trimmed);
      users := users + [User(trimmed, [])];
    }

    /** `selectUser(index)`. */
    method SelectUser(index: nat)
      requires Valid()
      requires index < |users|
      modifies this`sel
      ensures Valid()
      ensures sel == Some(index)
      ensures users == old(users) && theme == old(theme)
    {
      sel := Some(index);
    }

    /** `deselectUser()`. */
    method DeselectUser()
      requires Valid()
      modifies this`sel
      ensures Valid()
      ensures sel == None
      ensures users == old(users) && theme == old(theme)
    {
      sel := None;
    }

    /** `addTask(text)`: appends the uncompleted task `text.trim()` to the selected user. */
    method AddTask(text: string)
      requires Valid()
      modifies this`users
      ensures Valid()
      ensures old(sel).None? || Trim(text) == [] ==> users == old(users)
      ensures old(sel).Some? && Trim(text) != [] ==>
        var k := old(sel).value;
        SameExcept(old(users), users, k) &&
        users[k].name == old(users)[k].name &&
        users[k].tasks == old(users)[k].tasks + [Task(Trim(text), false)]
      ensures sel == old(sel) && theme == old(theme)
    {
      if sel.None? {
        return;
      }
      var trimmed := Trim(text);
      if trimmed == [] {
        return;
      }
      TrimOfTrimmed(trimmed);
      var k := sel.value;
      var u := users[k];
      u := u.(tasks := u.tasks + [Task(trimmed, false)]);
      users := users[k := u];
    }

    /** `toggleTask(i)`: flips the completion of task `i` of the selected user. */
    method ToggleTask(i: nat)
      requires Valid()
      requires sel.Some? ==> i < |users[sel.value].tasks|
      modifies this`users
      ensures Valid()
      ensures old(sel).None? ==> users == old(users)
      ensures old(sel).Some? ==>
        var k := old(sel).value;
        SameExcept(old(users), users, k) &&
        users[k].name == old(users)[k].name &&
        users[k].tasks == Toggled(old(users)[k].tasks, i)
      ensures sel == old(sel) && theme == old(theme)
    {
      if sel.None? {
        return;
      }
      var k := sel.value;
      var u := users[k];
      var task := u.tasks[i];
      task := task.(completed := !task.completed);
      users := users[k := u.(tasks := u.tasks[i := task])];
    }

    /**
     * `deleteTask(i)`: `splice(i, 1)` on the selected user's tasks. An index
     * at or past the end removes nothing, as `splice` does.
     */
    method DeleteTask(i: nat)
      requires Valid()
      modifies this`users
      ensures Valid()
      ensures old(sel).None? ==> users == old(users)
      ensures old(sel).Some? && i >= |old(users)[old(sel).value].tasks| ==> users == old(users)
      ensures old(sel).Some? && i < |old(users)[old(sel).value].tasks| ==>
        var k := old(sel).value;
        SameExcept(old(users), users, k) &&
        users[k].name == old(users)[k].name &&
        users[k].tasks == Removed(old(users)[k].tasks, i)
      ensures sel == old(sel) && theme == old(theme)
    {
      if sel.None? {
        return;
      }
      var k := sel.value;
      var u := users[k];
      if i >= |u.tasks| {
        return;
      }
      users := users[k := u.(tasks := u.tasks[..i] + u.tasks[i + 1..])];
    }

    /** `editTask(i, newText)`: gives task `i` of the selected user the text `newText.trim()`, unless that is empty. */
    method EditTask(i: nat, newText: string)
      requires Valid()
      requires sel.Some? && Trim(newText) != [] ==> i < |users[sel.value].tasks|
      modifies this`users
      ensures Valid()
      ensures old(sel).None? || Trim(newText) == [] ==> users == old(users)
      ensures old(sel).Some? && Trim(newText) != [] ==>
        var k := old(sel).value;
        SameExcept(old(users), users, k) &&
        users[k].name == old(users)[k].name &&
        users[k].tasks == Edited(old(users)[k].tasks, i, Trim(newText))
      ensures sel == old(sel) && theme == old(theme)
    {
      if sel.None? {
        return;
      }
      var trimmed := Trim(newText);
      if trimmed == [] {
        return;
      }
      TrimOfTrimmed(trimmed);
      var k := sel.value;
      var u := users[k];
      var task := u.tasks[i].(text := trimmed);
      users := users[k := u.(tasks := u.tasks[i := task])];
    }

    /** `toggleTheme()`. */
    method ToggleTheme()
      requires Valid()
      modifies this`theme
      ensures Valid()
      ensures theme == Flip(old(theme))
      ensures users == old(users) && sel == old(sel)
    {
      theme := if theme == Light then Dark else Light;
    }

    /** The sidebar's "completed / total" for user `k`: a completed count that never exceeds the total. */
    function Progress(k: nat): (r: (nat, nat))
      reads this
      requires k < |users|
      ensures r.1 == |users[k].tasks|
      ensures r.0 <= r.1
      ensures r.0 == 0 <==> forall j :: 0 <= j < |users[k].tasks| ==> !users[k].tasks[j].completed
    {
      (CompletedCount(users[k].tasks), |users[k].tasks|)
    }
  }
}
