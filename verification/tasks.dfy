/**
  The task list of the TaskManager component: task records, the three
  filter modes with their counts, and the component state that `addTask`,
  `toggleTask` and `deleteTask` update.
 */
module Tasks {
  import opened Text
  import opened Seqs

  datatype Priority = Low | Medium | High

  /** One to-do item. `id` comes from the clock at creation and `createdAt`
      is the creation time as an ISO-8601 string. */
  datatype Task = Task(id: int, text: string, completed: bool, createdAt: string, priority: Priority)

  datatype FilterType = All | Active | Completed

  /** Every task id occurs at most once. */
  predicate DistinctIds(tasks: seq<Task>) {
    forall i, j :: 0 <= i < j < |tasks| ==> tasks[i].id != tasks[j].id
  }

  predicate HasId(tasks: seq<Task>, id: int) {
    exists i :: 0 <= i < |tasks| && tasks[i].id == id
  }

  /** Every task text is non-empty and already trimmed, as `addTask` stores it. */
  predicate TextsTrimmed(tasks: seq<Task>) {
    forall i :: 0 <= i < |tasks| ==> tasks[i].text != [] && Trim(tasks[i].text) == tasks[i].text
  }

  predicate IsCompleted(t: Task) { t.completed }

  predicate IsActive(t: Task) { !t.completed }

  /** The predicate handed to `tasks.filter` for a filter mode. */
  predicate Shows(filter: FilterType, t: Task) {
    if filter == Active then IsActive(t)
    else if filter == Completed then IsCompleted(t)
    else true
  }

  /** `completedCount`: zero exactly when no task is completed. */
  function CompletedCount(tasks: seq<Task>): (n: nat)
    ensures n <= |tasks|
    ensures n == 0 <==> forall i :: 0 <= i < |tasks| ==> !tasks[i].completed
  {
    var r := Filter(tasks, IsCompleted);
    SubsequenceMembers(r, tasks);
    |r|
  }

  /** `activeCount`: zero exactly when every task is completed. */
  function ActiveCount(tasks: seq<Task>): (n: nat)
    ensures n <= |tasks|
    ensures n == 0 <==> forall i :: 0 <= i < |tasks| ==> tasks[i].completed
  {
    var r := Filter(tasks, IsActive);
    SubsequenceMembers(r, tasks);
    |r|
  }

  /** The list shown for a filter mode: the whole list for All, and otherwise
      exactly the active or exactly the completed tasks, in list order, as
      many as the matching count says. */
  function FilteredTasks(tasks: seq<Task>, filter: FilterType): (r: seq<Task>)
    ensures IsSubsequence(r, tasks)
    ensures filter == All ==> r == tasks
    ensures filter == Active ==>
      (forall i :: 0 <= i < |r| ==> !r[i].completed) &&
      (forall i :: 0 <= i < |tasks| && !tasks[i].completed ==> tasks[i] in r) &&
      |r| == ActiveCount(tasks)
    ensures filter == Completed ==>
      (forall i :: 0 <= i < |r| ==> r[i].completed) &&
      (forall i :: 0 <= i < |tasks| && tasks[i].completed ==> tasks[i] in r) &&
      |r| == CompletedCount(tasks)
  {
    var shows := t => Shows(filter, t);
    if filter == All then
      FilterKeepsAll(tasks, shows);
      Filter(tasks, shows)
    else if filter == Active then
      FilterCongruent(tasks, shows, IsActive);
      Filter(tasks, shows)
    else
      FilterCongruent(tasks, shows, IsCompleted);
      Filter(tasks, shows)
  }

  /** The active and the completed tasks together are the whole list: the
      two counts add up to its length and no task is in both views. */
  lemma {:induction false} CountsAddUp(tasks: seq<Task>)
    ensures ActiveCount(tasks) + CompletedCount(tasks) == |tasks|
    ensures multiset(FilteredTasks(tasks, Active)) + multiset(FilteredTasks(tasks, Completed)) == multiset(tasks)
    ensures forall t :: t in FilteredTasks(tasks, Active) ==> t !in FilteredTasks(tasks, Completed)
  {
    FilterPartition(tasks, IsActive, IsCompleted);
    var active, completed := FilteredTasks(tasks, Active), FilteredTasks(tasks, Completed);
    FilterCongruent(tasks, t => Shows(Active, t), IsActive);
    FilterCongruent(tasks, t => Shows(Completed, t), IsCompleted);
  }

  /** `tasks.map(...)` in `toggleTask`: each task with the given id has its
      `completed` flag negated; every other task, and every other field, is
      kept. */
  function Toggled(tasks: seq<Task>, id: int): (r: seq<Task>)
    ensures |r| == |tasks|
    ensures forall i :: 0 <= i < |tasks| && tasks[i].id != id ==> r[i] == tasks[i]
    ensures forall i :: 0 <= i < |tasks| && tasks[i].id == id ==>
      r[i] == tasks[i].(completed := !tasks[i].completed)
  {
    if tasks == [] then []
    else
      var t := tasks[0];
      [if t.id == id then t.(completed := !t.completed) else t] + Toggled(tasks[1..], id)
  }

  /** Toggling the same id twice restores the list. */
  lemma {:induction false} ToggleInvolution(tasks: seq<Task>, id: int)
    ensures Toggled(Toggled(tasks, id), id) == tasks
  {
  }

  /** Toggling an id that is not in the list changes nothing. */
  lemma {:induction false} ToggleAbsent(tasks: seq<Task>, id: int)
    requires !HasId(tasks, id)
    ensures Toggled(tasks, id) == tasks
  {
  }

  /** Toggling keeps ids (so their distinctness) and texts. */
  lemma {:induction false} ToggleKeepsInvariants(tasks: seq<Task>, id: int)
    ensures DistinctIds(tasks) ==> DistinctIds(Toggled(tasks, id))
    ensures TextsTrimmed(tasks) ==> TextsTrimmed(Toggled(tasks, id))
  {
    var r := Toggled(tasks, id);
    if DistinctIds(tasks) {
      forall i, j | 0 <= i < j < |r| ensures r[i].id != r[j].id {
        ToggledKeepsFields(tasks, id, i);
        ToggledKeepsFields(tasks, id, j);
      }
    }
    if TextsTrimmed(tasks) {
      forall i | 0 <= i < |r| ensures r[i].text != [] && Trim(r[i].text) == r[i].text {
        ToggledKeepsFields(tasks, id, i);
      }
    }
  }

  lemma ToggledKeepsFields(tasks: seq<Task>, id: int, i: int)
    requires 0 <= i < |tasks|
    ensures Toggled(tasks, id)[i].id == tasks[i].id
    ensures Toggled(tasks, id)[i].text == tasks[i].text
  {
  }

  /** `tasks.filter(task => task.id !== id)` in `deleteTask`: exactly the
      tasks with another id, in their order. */
  function WithoutId(tasks: seq<Task>, id: int): (r: seq<Task>)
    ensures IsSubsequence(r, tasks)
    ensures forall i :: 0 <= i < |r| ==> r[i].id != id
    ensures forall i :: 0 <= i < |tasks| && tasks[i].id != id ==> tasks[i] in r
    ensures forall t :: multiset(r)[t] == if t.id != id then multiset(tasks)[t] else 0
  {
    Filter(tasks, (t: Task) => t.id != id)
  }

  /** Deleting an id that is not in the list changes nothing. */
  lemma {:induction false} DeleteAbsent(tasks: seq<Task>, id: int)
    requires !HasId(tasks, id)
    ensures WithoutId(tasks, id) == tasks
  {
    FilterKeepsAll(tasks, (t: Task) => t.id != id);
  }

  /** With distinct ids, deleting a present id removes exactly one task. */
  lemma {:induction false} DeleteRemovesOne(tasks: seq<Task>, id: int)
    requires DistinctIds(tasks)
    requires HasId(tasks, id)
    ensures |WithoutId(tasks, id)| == |tasks| - 1
    decreases |tasks|
  {
    var rest := tasks[1..];
    if tasks[0].id == id {
      assert !HasId(rest, id) by {
        forall i | 0 <= i < |rest| ensures rest[i].id != id {
          assert rest[i] == tasks[i + 1];
        }
      }
      DeleteAbsent(rest, id);
    } else {
      assert HasId(rest, id) by {
        var k :| 0 <= k < |tasks| && tasks[k].id == id;
        assert rest[k - 1].id == id;
      }
      DeleteRemovesOne(rest, id);
    }
  }

  /** A subsequence of a list with distinct ids has distinct ids, so
      deleting keeps ids distinct. */
  lemma {:induction false} SubsequenceKeepsDistinctIds(a: seq<Task>, b: seq<Task>)
    requires IsSubsequence(a, b)
    requires DistinctIds(b)
    ensures DistinctIds(a)
    decreases |b|
  {
    if a != [] {
      if a[0] == b[0] && IsSubsequence(a[1..], b[1..]) {
        SubsequenceKeepsDistinctIds(a[1..], b[1..]);
        SubsequenceMembers(a[1..], b[1..]);
        forall i, j | 0 <= i < j < |a| ensures a[i].id != a[j].id {
          if i == 0 {
            assert a[j] in b[1..] by { assert a[j] == a[1..][j - 1]; }
            var k :| 0 <= k < |b[1..]| && b[1..][k] == a[j];
            assert b[k + 1] == a[j];
          } else {
            assert a[i] == a[1..][i - 1] && a[j] == a[1..][j - 1];
          }
        }
      } else {
        SubsequenceKeepsDistinctIds(a, b[1..]);
      }
    }
  }

  /** A subsequence of a list with trimmed texts has trimmed texts, so
      deleting keeps texts trimmed. */
  lemma SubsequenceKeepsTrimmedTexts(a: seq<Task>, b: seq<Task>)
    requires IsSubsequence(a, b)
    requires TextsTrimmed(b)
    ensures TextsTrimmed(a)
  {
    SubsequenceMembers(a, b);
    forall i | 0 <= i < |a| ensures a[i].text != [] && Trim(a[i].text) == a[i].text {
      assert a[i] in b;
      var k :| 0 <= k < |b| && b[k] == a[i];
    }
  }

  /** Deleting keeps ids distinct and texts trimmed. */
  lemma DeleteKeepsInvariants(tasks: seq<Task>, id: int)
    ensures DistinctIds(tasks) ==> DistinctIds(WithoutId(tasks, id))
    ensures TextsTrimmed(tasks) ==> TextsTrimmed(WithoutId(tasks, id))
  {
    var r := WithoutId(tasks, id);
    if DistinctIds(tasks) {
      SubsequenceKeepsDistinctIds(r, tasks);
    }
    if TextsTrimmed(tasks) {
      SubsequenceKeepsTrimmedTexts(r, tasks);
    }
  }

  /** The state of the TaskManager component. `tasks` is the list kept in
      local storage; the other three fields are the form inputs. */
  class TaskManager {
    var tasks: seq<Task>
    var newTaskText: string
    var filter: FilterType
    var priority: Priority

    /** `filteredTasks`: the tasks the selected filter mode shows, in list
        order. */
    function Visible(): (r: seq<Task>)
      reads this
      ensures IsSubsequence(r, tasks)
      ensures forall i :: 0 <= i < |r| ==> Shows(filter, r[i])
      ensures forall i :: 0 <= i < |tasks| && Shows(filter, tasks[i]) ==> tasks[i] in r
      ensures filter == All ==> r == tasks
    {
      FilteredTasks(tasks, filter)
    }

    /** The component as first rendered, with `stored` the list read from
        local storage (the empty list when none is stored). */
    constructor (stored: seq<Task>)
      ensures tasks == stored && newTaskText == [] && filter == All && priority == Medium
    {
      tasks := stored;
      newTaskText := [];
      filter := All;
      priority := Medium;
    }

    /** The text input's change handler. */
    method SetNewTaskText(text: string)
      modifies this
      ensures newTaskText == text
      ensures tasks == old(tasks) && filter == old(filter) && priority == old(priority)
    {
      newTaskText := text;
    }

    /** The priority select's change handler. */
    method SetPriority(p: Priority)
      modifies this
      ensures priority == p
      ensures tasks == old(tasks) && newTaskText == old(newTaskText) && filter == old(filter)
    {
      priority := p;
    }

    /** The filter buttons' click handler. */
    method SetFilter(f: FilterType)
      modifies this
      ensures filter == f
      ensures tasks == old(tasks) && newTaskText == old(newTaskText) && priority == old(priority)
    {
      filter := f;
    }

    /** `addTask`, with `now` the value of `Date.now()` and `timestamp` that
        of `new Date().toISOString()`. Blank input changes nothing; otherwise
        one task with the trimmed text, the selected priority and
        `completed == false` is appended and the input is cleared. Ids stay
        distinct when `now` is fresh, and texts stay trimmed. */
    method AddTask(now: int, timestamp: string)
      modifies this
      ensures IsBlank(old(newTaskText)) ==> tasks == old(tasks) && newTaskText == old(newTaskText)
      ensures !IsBlank(old(newTaskText)) ==>
        && tasks == old(tasks) + [Task(now, Trim(old(newTaskText)), false, timestamp, old(priority))]
        && newTaskText == []
      ensures filter == old(filter) && priority == old(priority)
      ensures DistinctIds(old(tasks)) && !HasId(old(tasks), now) ==> DistinctIds(tasks)
      ensures TextsTrimmed(old(tasks)) ==> TextsTrimmed(tasks)
    {
      var text := Trim(newTaskText);
      if text != [] {
        var task := Task(now, text, false, timestamp, priority);
        TrimIdempotent(newTaskText);
        tasks := tasks + [task];
        newTaskText := [];
      }
    }

    /** `toggleTask(id)`: the list becomes `Toggled(tasks, id)`. */
    method ToggleTask(id: int)
      modifies this
      ensures tasks == Toggled(old(tasks), id)
      ensures newTaskText == old(newTaskText) && filter == old(filter) && priority == old(priority)
      ensures DistinctIds(old(tasks)) ==> DistinctIds(tasks)
      ensures TextsTrimmed(old(tasks)) ==> TextsTrimmed(tasks)
    {
      ToggleKeepsInvariants(tasks, id);
      tasks := Toggled(tasks, id);
    }

    /** `deleteTask(id)`: the list becomes `WithoutId(tasks, id)`. */
    method DeleteTask(id: int)
      modifies this
      ensures tasks == WithoutId(old(tasks), id)
      ensures newTaskText == old(newTaskText) && filter == old(filter) && priority == old(priority)
      ensures DistinctIds(old(tasks)) ==> DistinctIds(tasks)
      ensures TextsTrimmed(old(tasks)) ==> TextsTrimmed(tasks)
    {
      DeleteKeepsInvariants(tasks, id);
      tasks := WithoutId(tasks, id);
    }
  }
}
