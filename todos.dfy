/**
 * The task list of the todo application: the task record, the list and the
 * pending input, the three handlers that replace the list (add, toggle,
 * delete) and the two views the page shows (active and completed tasks).
 * Every handler computes a new list from the old one; nothing is updated in
 * place.
 */
module TodoList {
  import opened Text
  import opened Sequences

  /** One task. `id` comes from the clock when the task is created. */
  datatype Todo = Todo(id: int, text: string, completed: bool)

  /** The component's state: the list of tasks and the text in the input field. */
  datatype State = State(todos: seq<Todo>, inputValue: string)

  /** Some task in `todos` carries `id`. */
  predicate HasId(todos: seq<Todo>, id: int) {
    exists i :: 0 <= i < |todos| && todos[i].id == id
  }

  /** No two tasks share an id. The application hopes for this but does not enforce it. */
  predicate UniqueIds(todos: seq<Todo>) {
    forall i, j :: 0 <= i < j < |todos| ==> todos[i].id != todos[j].id
  }

  /** Number of tasks whose id is `id`. */
  function CountWithId(todos: seq<Todo>, id: int): nat {
    CountWhere(todos, (t: Todo) => t.id == id)
  }

  // ---------------------------------------------------------------------------
  // The two views

  predicate IsActive(t: Todo) { !t.completed }

  predicate IsCompleted(t: Todo) { t.completed }

  /** The tasks shown in the "active" column, in list order. */
  function ActiveTodos(todos: seq<Todo>): (r: seq<Todo>)
    ensures forall i :: 0 <= i < |r| ==> !r[i].completed
  {
    Filter(todos, IsActive)
  }

  /** The tasks shown in the "completed" column, in list order. */
  function CompletedTodos(todos: seq<Todo>): (r: seq<Todo>)
    ensures forall i :: 0 <= i < |r| ==> r[i].completed
  {
    Filter(todos, IsCompleted)
  }

  /**
   * The two columns split the list: every task is in exactly one of them,
   * each keeps the list order, the list is a merge of the two, and the two
   * counts on the page add up to the number of tasks.
   */
  lemma ViewsPartition(todos: seq<Todo>)
    ensures Interleaves(todos, ActiveTodos(todos), CompletedTodos(todos))
    ensures IsSubsequence(ActiveTodos(todos), todos)
    ensures IsSubsequence(CompletedTodos(todos), todos)
    ensures |ActiveTodos(todos)| + |CompletedTodos(todos)| == |todos|
    ensures multiset(ActiveTodos(todos)) + multiset(CompletedTodos(todos)) == multiset(todos)
    ensures forall i :: 0 <= i < |todos| ==>
              (todos[i] in ActiveTodos(todos) <==> !todos[i].completed) &&
              (todos[i] in CompletedTodos(todos) <==> todos[i].completed)
  {
    FilterSplitInterleaves(todos, IsActive, IsCompleted);
    FilterMembers(todos, IsActive);
    FilterMembers(todos, IsCompleted);
    InterleavingSubsequences(todos, ActiveTodos(todos), CompletedTodos(todos));
    InterleavingMultiset(todos, ActiveTodos(todos), CompletedTodos(todos));
  }

  // ---------------------------------------------------------------------------
  // addTodo

  /** The task created from the input field: its text as typed, not yet completed. */
  function NewTodo(id: int, text: string): Todo {
    Todo(id, text, false)
  }

  /**
   * Submitting the form. Input that `trim` reduces to the empty string is
   * ignored; otherwise a new task carrying `newId` and the untrimmed input is
   * appended and the input field is cleared.
   */
  function AddTodo(st: State, newId: int): (r: State)
    ensures IsBlank(st.inputValue) ==> r == st
    ensures !IsBlank(st.inputValue) ==>
              && r.inputValue == ""
              && |r.todos| == |st.todos| + 1
              && r.todos[..|st.todos|] == st.todos
              && r.todos[|st.todos|] == Todo(newId, st.inputValue, false)
  {
    TrimEmptyIffBlank(st.inputValue);
    if Trim(st.inputValue) != [] then
      State(st.todos + [NewTodo(newId, st.inputValue)], "")
    else
      st
  }

  /** A new task shows up at the end of the active column; the completed column is unchanged. */
  lemma AddTodoViews(st: State, newId: int)
    requires !IsBlank(st.inputValue)
    ensures ActiveTodos(AddTodo(st, newId).todos)
            == ActiveTodos(st.todos) + [Todo(newId, st.inputValue, false)]
    ensures CompletedTodos(AddTodo(st, newId).todos) == CompletedTodos(st.todos)
  {
    var t := Todo(newId, st.inputValue, false);
    assert AddTodo(st, newId).todos == st.todos + [t];
    FilterAppend(st.todos, [t], IsActive);
    FilterAppend(st.todos, [t], IsCompleted);
    assert Filter([t], IsActive) == [t];
    assert Filter([t], IsCompleted) == [];
  }

  /** With an id no task has yet, adding keeps ids unique. */
  lemma AddTodoKeepsIdsUnique(st: State, newId: int)
    requires UniqueIds(st.todos) && !HasId(st.todos, newId)
    ensures UniqueIds(AddTodo(st, newId).todos)
  {
  }

  // ---------------------------------------------------------------------------
  // toggleTodo

  /** The callback `toggleTodo` maps over the list: flip the task if its id matches. */
  function Toggled(t: Todo, id: int): Todo {
    if t.id == id then t.(completed := !t.completed) else t
  }

  /** `todos.map(todo => Toggled(todo, id))`. */
  function ToggleTodo(todos: seq<Todo>, id: int): (r: seq<Todo>)
    ensures |r| == |todos|
  {
    if todos == [] then [] else [Toggled(todos[0], id)] + ToggleTodo(todos[1..], id)
  }

  /**
   * Toggling keeps every task's position, id and text, and flips `completed`
   * on exactly the tasks whose id is `id`.
   */
  lemma {:induction false} ToggleTodoAt(todos: seq<Todo>, id: int, i: int)
    requires 0 <= i < |todos|
    ensures ToggleTodo(todos, id)[i].id == todos[i].id
    ensures ToggleTodo(todos, id)[i].text == todos[i].text
    ensures ToggleTodo(todos, id)[i].completed != todos[i].completed <==> todos[i].id == id
    ensures todos[i].id != id ==> ToggleTodo(todos, id)[i] == todos[i]
  {
    if i > 0 {
      ToggleTodoAt(todos[1..], id, i - 1);
    }
  }

  /** Toggling the same id twice gives back the original list. */
  lemma {:induction false} ToggleTodoTwice(todos: seq<Todo>, id: int)
    ensures ToggleTodo(ToggleTodo(todos, id), id) == todos
  {
    if todos != [] {
      ToggleTodoTwice(todos[1..], id);
      assert ToggleTodo(todos, id)[1..] == ToggleTodo(todos[1..], id);
    }
  }

  /** Toggling leaves the list as it was exactly when no task has that id. */
  lemma {:induction false} ToggleTodoUnchangedIffAbsent(todos: seq<Todo>, id: int)
    ensures ToggleTodo(todos, id) == todos <==> !HasId(todos, id)
  {
    var r := ToggleTodo(todos, id);
    if HasId(todos, id) {
      var i :| 0 <= i < |todos| && todos[i].id == id;
      ToggleTodoAt(todos, id, i);
      assert r[i] != todos[i];
    } else {
      forall i | 0 <= i < |todos| ensures r[i] == todos[i] {
        ToggleTodoAt(todos, id, i);
      }
    }
  }

  /**
   * Toggling moves the matching tasks between the columns: the active count
   * loses the matching active tasks and gains the matching completed ones.
   */
  lemma {:induction false} ToggleTodoActiveCount(todos: seq<Todo>, id: int)
    ensures |ActiveTodos(ToggleTodo(todos, id))| + CountWhere(todos, (t: Todo) => t.id == id && !t.completed)
            == |ActiveTodos(todos)| + CountWhere(todos, (t: Todo) => t.id == id && t.completed)
  {
    if todos != [] {
      ToggleTodoActiveCount(todos[1..], id);
      assert ToggleTodo(todos, id)[1..] == ToggleTodo(todos[1..], id);
    }
  }

  /** Toggling keeps ids unique. */
  lemma ToggleTodoKeepsIdsUnique(todos: seq<Todo>, id: int)
    requires UniqueIds(todos)
    ensures UniqueIds(ToggleTodo(todos, id))
  {
    forall i | 0 <= i < |todos| ensures ToggleTodo(todos, id)[i].id == todos[i].id {
      ToggleTodoAt(todos, id, i);
    }
  }

  // ---------------------------------------------------------------------------
  // deleteTodo

  /** `todos.filter(todo => todo.id !== id)`. */
  function DeleteTodo(todos: seq<Todo>, id: int): (r: seq<Todo>)
    ensures forall i :: 0 <= i < |r| ==> r[i].id != id && r[i] in todos
    ensures forall j :: 0 <= j < |todos| && todos[j].id != id ==> todos[j] in r
  {
    FilterMembers(todos, (t: Todo) => t.id != id);
    Filter(todos, (t: Todo) => t.id != id)
  }

  /** The tasks that survive a delete keep their relative order. */
  lemma DeleteTodoKeepsOrder(todos: seq<Todo>, id: int)
    ensures IsSubsequence(DeleteTodo(todos, id), todos)
  {
    FilterIsSubsequence(todos, (t: Todo) => t.id != id);
  }

  /** Deleting removes exactly the tasks with that id. */
  lemma DeleteTodoLength(todos: seq<Todo>, id: int)
    ensures |DeleteTodo(todos, id)| == |todos| - CountWithId(todos, id)
  {
    FilterLength(todos, (t: Todo) => t.id != id, (t: Todo) => t.id == id);
  }

  /** Deleting the same id again changes nothing. */
  lemma DeleteTodoIdempotent(todos: seq<Todo>, id: int)
    ensures DeleteTodo(DeleteTodo(todos, id), id) == DeleteTodo(todos, id)
  {
    FilterIdempotent(todos, (t: Todo) => t.id != id);
  }

  /** Deleting leaves the list as it was exactly when no task has that id. */
  lemma DeleteTodoUnchangedIffAbsent(todos: seq<Todo>, id: int)
    ensures DeleteTodo(todos, id) == todos <==> !HasId(todos, id)
  {
    FilterUnchangedIffAllKept(todos, (t: Todo) => t.id != id);
  }

  /** Any filter of a list with unique ids has unique ids. */
  lemma {:induction false} FilterKeepsIdsUnique(todos: seq<Todo>, keep: Todo -> bool)
    requires UniqueIds(todos)
    ensures UniqueIds(Filter(todos, keep))
  {
    if todos != [] {
      FilterKeepsIdsUnique(todos[1..], keep);
      var rest := Filter(todos[1..], keep);
      FilterMembers(todos[1..], keep);
      forall k | 0 <= k < |rest| ensures rest[k].id != todos[0].id {
        var j :| 0 <= j < |todos[1..]| && todos[1..][j] == rest[k];
        assert todos[j + 1] == rest[k];
      }
      if keep(todos[0]) {
        var r := Filter(todos, keep);
        assert r == [todos[0]] + rest;
        forall i, j | 0 <= i < j < |r| ensures r[i].id != r[j].id {
          assert r[j] == rest[j - 1];
          if i > 0 { assert r[i] == rest[i - 1]; }
        }
      }
    }
  }

  /** Deleting keeps ids unique. */
  lemma DeleteTodoKeepsIdsUnique(todos: seq<Todo>, id: int)
    requires UniqueIds(todos)
    ensures UniqueIds(DeleteTodo(todos, id))
  {
    FilterKeepsIdsUnique(todos, (t: Todo) => t.id != id);
  }

  /** With unique ids, at most one task carries a given id, and one does when the id is present. */
  lemma {:induction false} CountWithIdUnique(todos: seq<Todo>, id: int)
    requires UniqueIds(todos)
    ensures CountWithId(todos, id) == if HasId(todos, id) then 1 else 0
  {
    if todos != [] {
      CountWithIdUnique(todos[1..], id);
      assert CountWithId(todos, id)
             == (if todos[0].id == id then 1 else 0) + CountWithId(todos[1..], id);
      if HasId(todos, id) && todos[0].id != id {
        var i :| 0 <= i < |todos| && todos[i].id == id;
        assert todos[1..][i - 1].id == id;
      }
      if HasId(todos[1..], id) {
        var i :| 0 <= i < |todos[1..]| && todos[1..][i].id == id;
        assert todos[i + 1].id == id;
      }
    }
  }

  /** With unique ids, deleting a present id shortens the list by one. */
  lemma DeleteTodoUniqueDropsOne(todos: seq<Todo>, id: int)
    requires UniqueIds(todos)
    ensures |DeleteTodo(todos, id)| == if HasId(todos, id) then |todos| - 1 else |todos|
  {
    DeleteTodoLength(todos, id);
    CountWithIdUnique(todos, id);
  }
}
