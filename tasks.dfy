/**
 * Tasks and users as values, the per-task edits the store applies, and the
 * completed/total count shown for the selected user.
 */
module Tasks {
  import opened Text

  datatype Task = Task(text: string, completed: bool)

  datatype User = User(name: string, tasks: seq<Task>)

  /** Every name and every task text is non-empty and trimmed. */
  ghost predicate ValidUser(u: User) {
    IsCleanText(u.name) && forall j :: 0 <= j < |u.tasks| ==> IsCleanText(u.tasks[j].text)
  }

  /** `tasks.filter(t => t.completed)`; CompletedTasksExact says what it keeps. */
  function CompletedTasks(ts: seq<Task>): (r: seq<Task>)
    ensures |r| <= |ts|
  {
    if ts == [] then []
    else if ts[0].completed then [ts[0]] + CompletedTasks(ts[1..])
    else CompletedTasks(ts[1..])
  }

  /**
   * The filter keeps only completed tasks of the list and every completed
   * task of it, and it keeps the whole list exactly when all are completed.
   */
  lemma {:induction false} CompletedTasksExact(ts: seq<Task>)
    ensures forall j :: 0 <= j < |CompletedTasks(ts)| ==>
      CompletedTasks(ts)[j].completed && CompletedTasks(ts)[j] in ts
    ensures forall j :: 0 <= j < |ts| && ts[j].completed ==> ts[j] in CompletedTasks(ts)
    ensures |CompletedTasks(ts)| == |ts| <==> forall j :: 0 <= j < |ts| ==> ts[j].completed
  {
    if ts != [] {
      CompletedTasksExact(ts[1..]);
      assert forall j :: 1 <= j < |ts| ==> ts[j] == ts[1..][j - 1];
    }
  }

  /** The completed count of the sidebar; it never exceeds the total `|ts|`. */
  function CompletedCount(ts: seq<Task>): (n: nat)
    ensures n <= |ts|
    ensures n == 0 <==> forall j :: 0 <= j < |ts| ==> !ts[j].completed
  {
    CompletedTasksExact(ts);
    var r := CompletedTasks(ts);
    assert r != [] ==> r[0] in ts;
    |r|
  }

  /** Filtering distributes over concatenation. */
  lemma {:induction false} CompletedTasksConcat(a: seq<Task>, b: seq<Task>)
    ensures CompletedTasks(a + b) == CompletedTasks(a) + CompletedTasks(b)
  {
    if a != [] {
      var head := if a[0].completed then [a[0]] else [];
      assert (a + b)[0] == a[0];
      assert (a + b)[1..] == a[1..] + b;
      assert CompletedTasks(a + b) == head + CompletedTasks(a[1..] + b);
      CompletedTasksConcat(a[1..], b);
      assert CompletedTasks(a) == head + CompletedTasks(a[1..]);
      assert head + (CompletedTasks(a[1..]) + CompletedTasks(b))
          == (head + CompletedTasks(a[1..])) + CompletedTasks(b);
    } else {
      assert a + b == b;
    }
  }

  function Bit(b: bool): nat {
    if b then 1 else 0
  }

  /** The task list after `toggleTask(i)`: task `i` has its flag flipped, nothing else changes. */
  function Toggled(ts: seq<Task>, i: nat): (r: seq<Task>)
    requires i < |ts|
    ensures |r| == |ts|
    ensures r[i].text == ts[i].text && r[i].completed == !ts[i].completed
    ensures forall j :: 0 <= j < |ts| && j != i ==> r[j] == ts[j]
  {
    ts[i := ts[i].(completed := !ts[i].completed)]
  }

  /** The task list after `deleteTask(i)`: task `i` is gone and the rest keep their relative order. */
  function Removed(ts: seq<Task>, i: nat): (r: seq<Task>)
    requires i < |ts|
    ensures |r| == |ts| - 1
    ensures forall j :: 0 <= j < i ==> r[j] == ts[j]
    ensures forall j :: i <= j < |r| ==> r[j] == ts[j + 1]
  {
    ts[..i] + ts[i + 1..]
  }

  /** The task list after `editTask(i, s)`: task `i` gets `text`, keeps its flag; nothing else changes. */
  function Edited(ts: seq<Task>, i: nat, text: string): (r: seq<Task>)
    requires i < |ts|
    ensures |r| == |ts|
    ensures r[i].text == text && r[i].completed == ts[i].completed
    ensures forall j :: 0 <= j < |ts| && j != i ==> r[j] == ts[j]
  {
    ts[i := ts[i].(text := text)]
  }

  /** Toggling the same task twice restores the list. */
  lemma ToggledTwice(ts: seq<Task>, i: nat)
    requires i < |ts|
    ensures Toggled(Toggled(ts, i), i) == ts
  {
  }

  /** Splits a list around position `i`. */
  lemma SplitAt(ts: seq<Task>, i: nat)
    requires i < |ts|
    ensures ts == ts[..i] + [ts[i]] + ts[i + 1..]
  {
  }

  /** Toggling moves the completed count by exactly one and keeps the total. */
  lemma {:induction false} CompletedCountToggled(ts: seq<Task>, i: nat)
    requires i < |ts|
    ensures |Toggled(ts, i)| == |ts|
    ensures CompletedCount(Toggled(ts, i)) + Bit(ts[i].completed)
         == CompletedCount(ts) + Bit(!ts[i].completed)
  {
    var r := Toggled(ts, i);
    SplitAt(ts, i);
    SplitAt(r, i);
    assert r[..i] == ts[..i] && r[i + 1..] == ts[i + 1..];
    CompletedTasksConcat(ts[..i] + [ts[i]], ts[i + 1..]);
    CompletedTasksConcat(ts[..i], [ts[i]]);
    CompletedTasksConcat(r[..i] + [r[i]], r[i + 1..]);
    CompletedTasksConcat(r[..i], [r[i]]);
  }

  /** Deleting a task removes it from the completed count exactly when it was completed. */
  lemma {:induction false} CompletedCountRemoved(ts: seq<Task>, i: nat)
    requires i < |ts|
    ensures CompletedCount(Removed(ts, i)) + Bit(ts[i].completed) == CompletedCount(ts)
  {
    SplitAt(ts, i);
    CompletedTasksConcat(ts[..i] + [ts[i]], ts[i + 1..]);
    CompletedTasksConcat(ts[..i], [ts[i]]);
    CompletedTasksConcat(ts[..i], ts[i + 1..]);
  }

  /** Editing a task's text leaves the completed count unchanged. */
  lemma {:induction false} CompletedCountEdited(ts: seq<Task>, i: nat, text: string)
    requires i < |ts|
    ensures CompletedCount(Edited(ts, i, text)) == CompletedCount(ts)
  {
    var r := Edited(ts, i, text);
    SplitAt(ts, i);
    SplitAt(r, i);
    assert r[..i] == ts[..i] && r[i + 1..] == ts[i + 1..];
    CompletedTasksConcat(ts[..i] + [ts[i]], ts[i + 1..]);
    CompletedTasksConcat(ts[..i], [ts[i]]);
    CompletedTasksConcat(r[..i] + [r[i]], r[i + 1..]);
    CompletedTasksConcat(r[..i], [r[i]]);
  }

  /** A new task is added uncompleted: the total grows by one and the completed count stays. */
  lemma CompletedCountAppended(ts: seq<Task>, text: string)
    ensures CompletedCount(ts + [Task(text, false)]) == CompletedCount(ts)
  {
    CompletedTasksConcat(ts, [Task(text, false)]);
  }
}
