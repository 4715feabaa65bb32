/**
 * The application as a whole: the task list, the input field and the browser
 * store the list is mirrored to. The store holds one entry under the key
 * "todos"; the JSON encoding of that entry is abstracted to the list it
 * encodes. Startup reads the entry once; after every change of the list the
 * whole list is written back.
 */
module App {
  import opened Text
  import opened Sequences
  import opened TodoList

  datatype Option<T> = None | Some(value: T)

  /** What can sit under the "todos" key, as far as reading it back is concerned. */
  datatype Entry =
    | EmptyString              // a stored "", which is falsy
    | Encoded(todos: seq<Todo>) // the JSON text of a list of tasks
    | Unparseable              // text on which JSON.parse throws

  /** Reading the entry either yields a list or throws while parsing. */
  datatype Loaded = Loaded(todos: seq<Todo>) | ParseFailure

  /** What the state initialiser computes from `localStorage.getItem('todos')`. */
  function LoadTodos(stored: Option<Entry>): (r: Loaded)
    ensures r.ParseFailure? <==> stored == Some(Unparseable)
    ensures stored == None ==> r == Loaded([])
    ensures stored == Some(EmptyString) ==> r == Loaded([])
  {
    match stored
    case None => Loaded([])
    case Some(EmptyString) => Loaded([])
    case Some(Encoded(todos)) => Loaded(todos)
    case Some(Unparseable) => ParseFailure
  }

  /**
   * `localStorage.setItem('todos', JSON.stringify(todos))`: the whole entry is
   * replaced, and reading it back gives the list that was saved.
   */
  function SaveTodos(todos: seq<Todo>): (stored: Option<Entry>)
    ensures LoadTodos(stored) == Loaded(todos)
  {
    Some(Encoded(todos))
  }

  /** The mounted component and the store entry beside it. */
  datatype Session = Session(state: State, stored: Option<Entry>)

  /** The store holds exactly the list on the page. */
  predicate Synced(s: Session) {
    s.stored == SaveTodos(s.state.todos)
  }

  /**
   * Mounting the component: the list comes from the store (empty when there is
   * no entry), the input is empty, and the mount-time run of the write-through
   * effect stores the list again. A parse failure aborts the mount.
   */
  function Startup(stored: Option<Entry>): (r: Option<Session>)
    ensures r.None? <==> stored == Some(Unparseable)
    ensures stored == None ==> r == Some(Session(State([], ""), SaveTodos([])))
    ensures stored.Some? && stored.value.Encoded? ==> r.Some? && r.value.state.todos == stored.value.todos
    ensures r.Some? ==> Synced(r.value) && r.value.state.inputValue == ""
    ensures r.Some? ==> LoadTodos(stored) == Loaded(r.value.state.todos)
  {
    match LoadTodos(stored)
    case Loaded(todos) => Some(Session(State(todos, ""), SaveTodos(todos)))
    case ParseFailure => None
  }

  /** What the user can do on the page. */
  datatype Event =
    | InputChanged(text: string) // typing in the input field
    | Submitted(newId: int)      // submitting the form; `newId` is the clock reading
    | ToggleClicked(id: int)     // a checkbox
    | DeleteClicked(id: int)     // a delete button

  /**
   * One user action: the handler's new state, then the write-through effect,
   * which runs whenever the handler replaced the list.
   */
  function Step(s: Session, e: Event): (r: Session)
    ensures Synced(s) ==> Synced(r)
    ensures e.InputChanged? ==> r.state == State(s.state.todos, e.text) && r.stored == s.stored
    ensures e.Submitted? && IsBlank(s.state.inputValue) ==> r == s
    ensures e.Submitted? && !IsBlank(s.state.inputValue) ==>
              r.state == AddTodo(s.state, e.newId) && r.stored == SaveTodos(r.state.todos)
    ensures e.ToggleClicked? ==>
              r.state == State(ToggleTodo(s.state.todos, e.id), s.state.inputValue)
              && r.stored == SaveTodos(r.state.todos)
    ensures e.DeleteClicked? ==>
              r.state == State(DeleteTodo(s.state.todos, e.id), s.state.inputValue)
              && r.stored == SaveTodos(r.state.todos)
  {
    match e
    case InputChanged(text) =>
      Session(State(s.state.todos, text), s.stored)
    case Submitted(newId) =>
      TrimEmptyIffBlank(s.state.inputValue);
      var st := AddTodo(s.state, newId);
      if Trim(s.state.inputValue) != [] then Session(st, SaveTodos(st.todos)) else s
    case ToggleClicked(id) =>
      var todos := ToggleTodo(s.state.todos, id);
      Session(State(todos, s.state.inputValue), SaveTodos(todos))
    case DeleteClicked(id) =>
      var todos := DeleteTodo(s.state.todos, id);
      Session(State(todos, s.state.inputValue), SaveTodos(todos))
  }

  /** A sequence of user actions, in order. */
  function Run(s: Session, events: seq<Event>): (r: Session)
    ensures Synced(s) ==> Synced(r)
    decreases |events|
  {
    if events == [] then s else Run(Step(s, events[0]), events[1..])
  }

  /**
   * After any sequence of actions since a successful startup, reloading the
   * page shows the list as it was last changed, with an empty input field.
   */
  lemma ReloadRestoresList(stored: Option<Entry>, events: seq<Event>)
    requires stored != Some(Unparseable)
    ensures Startup(stored).Some?
    ensures LoadTodos(Run(Startup(stored).value, events).stored)
            == Loaded(Run(Startup(stored).value, events).state.todos)
    ensures Startup(Run(Startup(stored).value, events).stored)
            == Some(Session(State(Run(Startup(stored).value, events).state.todos, ""),
                            Run(Startup(stored).value, events).stored))
  {
  }

  /** A deleted task is gone from the store too, so no reload brings it back. */
  lemma DeleteIsDurable(s: Session, id: int)
    ensures LoadTodos(Step(s, DeleteClicked(id)).stored).Loaded?
    ensures !HasId(LoadTodos(Step(s, DeleteClicked(id)).stored).todos, id)
  {
  }

  /** Typing a non-blank text and submitting it appends one active task and clears the input. */
  lemma TypeAndSubmit(s: Session, text: string, id: int)
    requires !IsBlank(text)
    ensures Run(s, [InputChanged(text), Submitted(id)])
            == Session(State(s.state.todos + [Todo(id, text, false)], ""),
                       SaveTodos(s.state.todos + [Todo(id, text, false)]))
  {
    var a := Step(s, InputChanged(text));
    TrimEmptyIffBlank(text);
    assert [InputChanged(text), Submitted(id)][1..] == [Submitted(id)];
    assert Run(s, [InputChanged(text), Submitted(id)]) == Run(a, [Submitted(id)]);
    assert Run(a, [Submitted(id)]) == Run(Step(a, Submitted(id)), []);
  }

  /**
   * Starting from an empty store: type a text, submit, tick the new task, type
   * a second text, submit. The active column then shows the second task and
   * the completed column the first; a blank submission afterwards leaves the
   * list and the store as they were and only the input field changes.
   */
  lemma AddTickAddScenario(first: string, second: string, blank: string, id1: int, id2: int, id3: int)
    requires !IsBlank(first) && !IsBlank(second) && IsBlank(blank)
    ensures
      var s1 := Run(Startup(None).value,
                    [InputChanged(first), Submitted(id1), ToggleClicked(id1),
                     InputChanged(second), Submitted(id2)]);
      && ActiveTodos(s1.state.todos) == [Todo(id2, second, false)]
      && CompletedTodos(s1.state.todos) == [Todo(id1, first, true)]
      && s1.state.inputValue == ""
      && Run(s1, [InputChanged(blank), Submitted(id3)]) == Session(State(s1.state.todos, blank), s1.stored)
  {
    var s1 := Run(Startup(None).value,
                  [InputChanged(first), Submitted(id1), ToggleClicked(id1),
                   InputChanged(second), Submitted(id2)]);
    ScenarioList(first, second, id1, id2);
    ScenarioViews(Todo(id1, first, true), Todo(id2, second, false));
    BlankSubmit(s1, blank, id3);
  }

  /** The list and the input after the five actions of the scenario. */
  lemma ScenarioList(first: string, second: string, id1: int, id2: int)
    requires !IsBlank(first) && !IsBlank(second)
    ensures Run(Startup(None).value,
                [InputChanged(first), Submitted(id1), ToggleClicked(id1),
                 InputChanged(second), Submitted(id2)]).state
            == State([Todo(id1, first, true), Todo(id2, second, false)], "")
  {
    var s0 := Startup(None).value;
    var head := [InputChanged(first), Submitted(id1)];
    var tail := [ToggleClicked(id1), InputChanged(second), Submitted(id2)];
    RunAppend(s0, head, tail);
    assert head + tail
           == [InputChanged(first), Submitted(id1), ToggleClicked(id1),
               InputChanged(second), Submitted(id2)];
    TypeAndSubmit(s0, first, id1);
    TickThenAdd(Run(s0, head), id1, second, id2);
  }

  /** Ticking the only task, then adding a second one. */
  lemma TickThenAdd(s: Session, id1: int, second: string, id2: int)
    requires |s.state.todos| == 1 && s.state.todos[0].id == id1 && !s.state.todos[0].completed
    requires !IsBlank(second)
    ensures Run(s, [ToggleClicked(id1), InputChanged(second), Submitted(id2)]).state
            == State([s.state.todos[0].(completed := true), Todo(id2, second, false)], "")
  {
    var c := Step(s, ToggleClicked(id1));
    assert ToggleTodo(s.state.todos, id1) == [s.state.todos[0].(completed := true)];
    assert [ToggleClicked(id1), InputChanged(second), Submitted(id2)][1..]
           == [InputChanged(second), Submitted(id2)];
    TypeAndSubmit(c, second, id2);
  }

  /** Typing a blank text and submitting it changes only the input field. */
  lemma BlankSubmit(s: Session, blank: string, id: int)
    requires IsBlank(blank)
    ensures Run(s, [InputChanged(blank), Submitted(id)]) == Session(State(s.state.todos, blank), s.stored)
  {
    var f := Step(s, InputChanged(blank));
    assert [InputChanged(blank), Submitted(id)][1..] == [Submitted(id)];
    assert Run(s, [InputChanged(blank), Submitted(id)]) == Run(f, [Submitted(id)]);
    assert Run(f, [Submitted(id)]) == Run(Step(f, Submitted(id)), []);
  }

  /** The same with "Buy milk" and "Walk dog". */
  lemma BuyMilkScenario()
    ensures
      var s1 := Run(Startup(None).value,
                    [InputChanged("Buy milk"), Submitted(1), ToggleClicked(1),
                     InputChanged("Walk dog"), Submitted(2)]);
      && ActiveTodos(s1.state.todos) == [Todo(2, "Walk dog", false)]
      && CompletedTodos(s1.state.todos) == [Todo(1, "Buy milk", true)]
  {
    ScenarioTexts();
    AddTickAddScenario("Buy milk", "Walk dog", "  ", 1, 2, 3);
  }

  /** The two texts of the scenario are not blank; two spaces are. */
  lemma ScenarioTexts()
    ensures !IsBlank("Buy milk") && !IsBlank("Walk dog") && IsBlank("  ")
  {
    assert !IsWhitespace("Buy milk"[0]);
    assert !IsWhitespace("Walk dog"[0]);
  }

  /** A completed task followed by an active one splits into one task per column. */
  lemma ScenarioViews(done: Todo, open: Todo)
    requires done.completed && !open.completed
    ensures ActiveTodos([done, open]) == [open]
    ensures CompletedTodos([done, open]) == [done]
  {
    assert [done, open][1..] == [open];
    assert [open][1..] == [];
    assert Filter([open], IsActive) == [open];
    assert Filter([open], IsCompleted) == [];
    assert Filter([done, open], IsActive) == Filter([open], IsActive);
    assert Filter([done, open], IsCompleted) == [done] + Filter([open], IsCompleted);
  }

  /** Running two batches of actions is running them one after the other. */
  lemma {:induction false} RunAppend(s: Session, xs: seq<Event>, ys: seq<Event>)
    ensures Run(s, xs + ys) == Run(Run(s, xs), ys)
    decreases |xs|
  {
    if xs == [] {
      assert xs + ys == ys;
    } else {
      assert (xs + ys)[0] == xs[0] && (xs + ys)[1..] == xs[1..] + ys;
      RunAppend(Step(s, xs[0]), xs[1..], ys);
    }
  }
}
