/** The todo controller of hooks/useTodos.ts: the in-memory todo list plus a
    loading flag, and the operations that transform the list and persist it.
    Every mutation goes through `SaveTodos`, which commits the new list to the
    hook state only after the write succeeded. Ids and timestamps (`Date.now()`,
    `new Date().toISOString()`) are parameters. */
module TodoController {
  import opened Wrappers
  import opened Types
  import opened Seqs
  import opened Text
  import opened Validation
  import opened Storage

  datatype TodoState = TodoState(todos: seq<Todo>, loading: bool)

  /** The hook's state before its load effect has run. */
  const Initial := TodoState([], true)

  /** What one call leaves behind: the hook state, the store, the alerts it
      raised in order, and the error its promise rejects with, if any. */
  datatype Step = Step(state: TodoState, store: Store, notices: seq<Notice>, thrown: Option<StorageError>)

  const CreateFailedMessage := "No se pudo crear la tarea"
  const UpdateFailedMessage := "No se pudo actualizar la tarea"
  const DeleteFailedMessage := "No se pudo eliminar la tarea"
  const ReorderFailedMessage := "No se pudo reordenar las tareas"

  /** `storedTodos || []`: a falsy stored value reads as the empty list. A truthy
      value that is not a todo array cannot be represented and counts as
      undecodable (`None`). */
  function DecodeTodos(v: Value): (r: Option<seq<Todo>>)
    ensures !Truthy(v) ==> r == Some([])
    ensures v.TodoList? ==> r == Some(v.todos)
    ensures r.None? <==> Truthy(v) && !v.TodoList?
  {
    if !Truthy(v) then Some([])
    else if v.TodoList? then Some(v.todos)
    else None
  }

  /** `loadTodos`: replaces the list with the stored one (the empty list when the
      key was never written), keeps it on a failed read, and always ends loading. */
  function LoadTodos(st: TodoState, store: Store, readFails: bool): (r: TodoState)
    ensures !r.loading
    ensures readFails ==> r.todos == st.todos
    ensures !readFails && TodosKey !in store ==> r.todos == []
    ensures !readFails && TodosKey in store && !Truthy(store[TodosKey]) ==> r.todos == []
    ensures !readFails && TodosKey in store && store[TodosKey].TodoList? ==> r.todos == store[TodosKey].todos
  {
    match Get(store, TodosKey, readFails)
    case Failure(_) => st.(loading := false)
    case Success(v) =>
      match DecodeTodos(v)
      case Some(todos) => TodoState(todos, false)
      case None => st.(loading := false)
  }

  /** Loading right after a successful save gives back the saved list, whatever
      the hook held when it loads. */
  lemma SaveThenLoad(st: TodoState, store: Store, newTodos: seq<Todo>, other: TodoState)
    ensures var saved := SaveTodos(st, store, newTodos, false);
      LoadTodos(other, saved.store, false) == TodoState(newTodos, false)
  {
    var saved := SaveTodos(st, store, newTodos, false);
    assert Get(saved.store, TodosKey, false) == Success(TodoList(newTodos));
  }

  /** `saveTodos`: writes first, then commits; a failed write leaves state and
      store untouched and is rethrown. */
  function SaveTodos(st: TodoState, store: Store, newTodos: seq<Todo>, writeFails: bool): (r: Step)
    ensures r.notices == [] && r.state.loading == st.loading
    ensures writeFails ==> r.state == st && r.store == store && r.thrown == Some(WriteError(TodosKey))
    ensures !writeFails ==> r.state.todos == newTodos && r.thrown == None
    ensures !writeFails ==> Get(r.store, TodosKey, false) == Success(TodoList(newTodos))
    ensures !writeFails ==> OnlyKeyChanged(store, r.store, TodosKey)
  {
    match Put(store, TodosKey, TodoList(newTodos), writeFails)
    case Failure(e) => Step(st, store, [], Some(e))
    case Success(s) => Step(st.(todos := newTodos), s, [], None)
  }

  /** A mutation's `try { await saveTodos(...) } catch { Alert; throw }`. */
  function SaveOrAlert(st: TodoState, store: Store, newTodos: seq<Todo>, writeFails: bool, message: string): (r: Step)
    ensures writeFails ==> r.notices == [Notice(ErrorTitle, message)]
    ensures !writeFails ==> r.notices == []
    ensures r.state == SaveTodos(st, store, newTodos, writeFails).state
    ensures r.store == SaveTodos(st, store, newTodos, writeFails).store
    ensures r.thrown == SaveTodos(st, store, newTodos, writeFails).thrown
  {
    var s := SaveTodos(st, store, newTodos, writeFails);
    if s.thrown.Some? then s.(notices := [Notice(ErrorTitle, message)]) else s
  }

  /** `addTodo`: validation first (text, then categories), each rejection an
      alert with no write and no state change; an accepted text is appended,
      trimmed and not completed, and committed only if the write succeeds. */
  function AddTodo(st: TodoState, store: Store, text: string, categories: seq<string>,
                   id: string, now: string, writeFails: bool): (r: Step)
    ensures r.state.loading == st.loading
    ensures Validate(text, categories) != Accepted ==>
      r.state == st && r.store == store && r.thrown == None &&
      r.notices == [Notice(ErrorTitle, Validate(text, categories).Message())]
    ensures Validate(text, categories) == Accepted && !writeFails ==>
      |r.state.todos| == |st.todos| + 1 && r.state.todos[..|st.todos|] == st.todos &&
      r.state.todos[|st.todos|] == Todo(id, Trim(text), false, now, categories) &&
      r.notices == [] && r.thrown == None &&
      Get(r.store, TodosKey, false) == Success(TodoList(r.state.todos)) &&
      OnlyKeyChanged(store, r.store, TodosKey)
    ensures Validate(text, categories) == Accepted && writeFails ==>
      r.state == st && r.store == store &&
      r.notices == [Notice(ErrorTitle, CreateFailedMessage)] && r.thrown == Some(WriteError(TodosKey))
  {
    var verdict := Validate(text, categories);
    if verdict != Accepted then
      Step(st, store, [Notice(ErrorTitle, verdict.Message())], None)
    else
      var item := Todo(id, Trim(text), false, now, categories);
      SaveOrAlert(st, store, st.todos + [item], writeFails, CreateFailedMessage)
  }

  /** The todo with `completed` flipped when its id is `id`, unchanged otherwise. */
  function FlipIf(t: Todo, id: string): (r: Todo)
    ensures r.(completed := t.completed) == t
    ensures r.completed != t.completed <==> t.id == id
  {
    if t.id == id then t.(completed := !t.completed) else t
  }

  /** The list `toggleTodo` saves: same length and order, every field but
      `completed` kept, and `completed` flipped exactly on the todos with that id. */
  function Toggled(todos: seq<Todo>, id: string): (r: seq<Todo>)
    ensures |r| == |todos|
    ensures forall i :: 0 <= i < |todos| ==>
      r[i].id == todos[i].id && r[i].text == todos[i].text &&
      r[i].createdAt == todos[i].createdAt && r[i].categories == todos[i].categories
    ensures forall i :: 0 <= i < |todos| ==> (r[i].completed != todos[i].completed <==> todos[i].id == id)
  {
    seq(|todos|, i requires 0 <= i < |todos| => FlipIf(todos[i], id))
  }

  /** Toggling the same id twice restores the list. */
  lemma ToggleTwice(todos: seq<Todo>, id: string)
    ensures Toggled(Toggled(todos, id), id) == todos
  {
  }

  /** Toggling an id no todo carries changes nothing. */
  lemma ToggleUnknown(todos: seq<Todo>, id: string)
    requires id !in Ids(todos)
    ensures Toggled(todos, id) == todos
  {
    assert forall i :: 0 <= i < |todos| ==> Ids(todos)[i] == todos[i].id;
  }

  function ToggleTodo(st: TodoState, store: Store, id: string, writeFails: bool): (r: Step)
    ensures !writeFails ==> r.state.todos == Toggled(st.todos, id) && r.thrown == None
    ensures !writeFails ==> r.notices == [] && Get(r.store, TodosKey, false) == Success(TodoList(Toggled(st.todos, id)))
    ensures !writeFails ==> OnlyKeyChanged(store, r.store, TodosKey)
    ensures r.state.loading == st.loading
    ensures writeFails ==> r.state == st && r.store == store && r.thrown == Some(WriteError(TodosKey))
    ensures writeFails ==> r.notices == [Notice(ErrorTitle, UpdateFailedMessage)]
  {
    SaveOrAlert(st, store, Toggled(st.todos, id), writeFails, UpdateFailedMessage)
  }

  /** Keeps a todo unless it carries `id`. */
  function HasOtherId(id: string): (p: Todo -> bool) {
    (t: Todo) => t.id != id
  }

  /** The list `deleteTodo` saves: the todos whose id differs, in order. */
  function Without(todos: seq<Todo>, id: string): (r: seq<Todo>)
    ensures IsSubsequence(r, todos)
    ensures forall t :: multiset(r)[t] == if t.id != id then multiset(todos)[t] else 0
  {
    FilterIsSubsequence(HasOtherId(id), todos);
    FilterCounts(HasOtherId(id), todos);
    Filter(HasOtherId(id), todos)
  }

  /** Deleting an id no todo carries leaves the list equal. */
  lemma DeleteUnknown(todos: seq<Todo>, id: string)
    requires id !in Ids(todos)
    ensures Without(todos, id) == todos
  {
    assert forall i :: 0 <= i < |todos| ==> Ids(todos)[i] == todos[i].id;
    FilterKeepsAll(HasOtherId(id), todos);
  }

  /** With distinct ids, deleting the id found at position `k` removes exactly
      that position. */
  lemma DeleteRemovesOne(todos: seq<Todo>, k: int)
    requires DistinctIds(todos) && 0 <= k < |todos|
    ensures Without(todos, todos[k].id) == todos[..k] + todos[k + 1..]
  {
    var p := HasOtherId(todos[k].id);
    var before, after := todos[..k], todos[k + 1..];
    forall x | x in before ensures p(x) {
      var i :| 0 <= i < |before| && before[i] == x;
      assert todos[i] == x;
    }
    forall x | x in after ensures p(x) {
      var i :| 0 <= i < |after| && after[i] == x;
      assert todos[k + 1 + i] == x;
    }
    assert todos == before + [todos[k]] + after;
    FilterDropsOne(p, before, todos[k], after);
  }

  function DeleteTodo(st: TodoState, store: Store, id: string, writeFails: bool): (r: Step)
    ensures !writeFails ==> r.state.todos == Without(st.todos, id) && r.thrown == None
    ensures !writeFails ==> r.notices == [] && Get(r.store, TodosKey, false) == Success(TodoList(Without(st.todos, id)))
    ensures !writeFails ==> OnlyKeyChanged(store, r.store, TodosKey)
    ensures r.state.loading == st.loading
    ensures writeFails ==> r.state == st && r.store == store && r.thrown == Some(WriteError(TodosKey))
    ensures writeFails ==> r.notices == [Notice(ErrorTitle, DeleteFailedMessage)]
  {
    SaveOrAlert(st, store, Without(st.todos, id), writeFails, DeleteFailedMessage)
  }

  /** `reorderTodos`: the given list is saved verbatim. */
  function ReorderTodos(st: TodoState, store: Store, reordered: seq<Todo>, writeFails: bool): (r: Step)
    ensures !writeFails ==> r.state.todos == reordered && r.thrown == None
    ensures !writeFails ==> r.notices == [] && Get(r.store, TodosKey, false) == Success(TodoList(reordered))
    ensures !writeFails ==> OnlyKeyChanged(store, r.store, TodosKey)
    ensures r.state.loading == st.loading
    ensures writeFails ==> r.state == st && r.store == store && r.thrown == Some(WriteError(TodosKey))
    ensures writeFails ==> r.notices == [Notice(ErrorTitle, ReorderFailedMessage)]
  {
    SaveOrAlert(st, store, reordered, writeFails, ReorderFailedMessage)
  }

  datatype ButtonStyle = CancelStyle | DestructiveStyle

  /** A button of a native alert; `deletes` is the id its handler deletes. */
  datatype PromptButton = PromptButton(text: string, style: ButtonStyle, deletes: Option<string>)

  datatype Prompt = Prompt(title: string, message: string, buttons: seq<PromptButton>)

  /** `confirmDeleteTodo`: only raises a two-button prompt; it touches neither
      state nor store (it is given neither). Only the destructive button
      carries the deletion of `id`. */
  function ConfirmDeleteTodo(id: string): (p: Prompt)
    ensures p.title == "Eliminar tarea" && p.message == "¿Estás seguro que deseas eliminar esta tarea?"
    ensures |p.buttons| == 2
    ensures p.buttons[0].text == "Cancelar" && p.buttons[0].style == CancelStyle
    ensures p.buttons[1].text == "Eliminar" && p.buttons[1].style == DestructiveStyle
    ensures forall b :: 0 <= b < |p.buttons| ==> (p.buttons[b].deletes.Some? <==> p.buttons[b].text == "Eliminar")
    ensures forall b :: 0 <= b < |p.buttons| && p.buttons[b].deletes.Some? ==> p.buttons[b].deletes.value == id
  {
    Prompt("Eliminar tarea", "¿Estás seguro que deseas eliminar esta tarea?",
      [ PromptButton("Cancelar", CancelStyle, None),
        PromptButton("Eliminar", DestructiveStyle, Some(id)) ])
  }

  /** The user presses button `b` of a prompt. */
  function Press(p: Prompt, b: int, st: TodoState, store: Store, writeFails: bool): (r: Step)
    requires 0 <= b < |p.buttons|
    ensures p.buttons[b].deletes.None? ==> r.state == st && r.store == store && r.notices == [] && r.thrown == None
    ensures p.buttons[b].deletes.Some? ==> r == DeleteTodo(st, store, p.buttons[b].deletes.value, writeFails)
  {
    match p.buttons[b].deletes
    case None => Step(st, store, [], None)
    case Some(id) => DeleteTodo(st, store, id, writeFails)
  }

  /** On the delete prompt, 'Cancelar' has no effect at all and 'Eliminar' is
      exactly `deleteTodo(id)`. */
  lemma ConfirmThenPress(id: string, b: int, st: TodoState, store: Store, writeFails: bool)
    requires 0 <= b < 2
    ensures var p := ConfirmDeleteTodo(id);
      p.buttons[b].text == "Cancelar" ==> Press(p, b, st, store, writeFails) == Step(st, store, [], None)
    ensures var p := ConfirmDeleteTodo(id);
      p.buttons[b].text == "Eliminar" ==> Press(p, b, st, store, writeFails) == DeleteTodo(st, store, id, writeFails)
  {
  }

  /** A failed add leaves no trace: adding again afterwards is the same as if
      the failed attempt had never happened. */
  lemma FailedAddIsInvisible(st: TodoState, store: Store, text: string, categories: seq<string>,
                             id: string, now: string, id2: string, now2: string, writeFails: bool)
    ensures var s1 := AddTodo(st, store, text, categories, id, now, true);
      AddTodo(s1.state, s1.store, text, categories, id2, now2, writeFails)
        == AddTodo(st, store, text, categories, id2, now2, writeFails)
  {
  }

  lemma ToggleSingleton(t: Todo, id: string)
    ensures Toggled([t], id) == [FlipIf(t, id)]
  {
    assert Toggled([t], id)[0] == FlipIf(t, id);
  }

  /** Add "Buy milk" under `personal`, toggle it, then on the delete prompt
      press 'Cancelar' (nothing changes) and 'Eliminar' (the list is empty). */
  lemma BuyMilkScenario(store: Store, milk: string, id: string, now: string, s1: Step, s2: Step, s3: Step, s4: Step)
    requires milk == "Buy milk"
    requires s1 == AddTodo(TodoState([], false), store, milk, ["personal"], id, now, false)
    requires s2 == ToggleTodo(s1.state, s1.store, id, false)
    requires s3 == Press(ConfirmDeleteTodo(id), 0, s2.state, s2.store, false)
    requires s4 == Press(ConfirmDeleteTodo(id), 1, s3.state, s3.store, false)
    ensures s1.state.todos == [Todo(id, milk, false, now, ["personal"])]
    ensures s2.state.todos == [Todo(id, milk, true, now, ["personal"])]
    ensures s3.state == s2.state
    ensures s4.state.todos == []
  {
    var todo := Todo(id, milk, false, now, ["personal"]);
    var done := todo.(completed := true);
    AddBuyMilk(store, milk, id, now);
    ToggleSingleton(todo, id);
    assert s2.state.todos == [done];
    FilterCons(HasOtherId(id), done, []);
  }

  /** Adding an accepted, already trimmed text to an empty list gives exactly
      that one todo. */
  lemma AddToEmpty(store: Store, text: string, categories: seq<string>, id: string, now: string)
    requires Validate(text, categories) == Accepted && Trim(text) == text
    ensures AddTodo(TodoState([], false), store, text, categories, id, now, false).state.todos
      == [Todo(id, text, false, now, categories)]
  {
  }

  /** The first step of `BuyMilkScenario`: the text is accepted as it is. */
  lemma AddBuyMilk(store: Store, milk: string, id: string, now: string)
    requires milk == "Buy milk"
    ensures AddTodo(TodoState([], false), store, milk, ["personal"], id, now, false).state.todos
      == [Todo(id, milk, false, now, ["personal"])]
  {
    assert milk[0] == 'B' && milk[|milk| - 1] == 'k' && |milk| == 8;
    TrimKeepsTrimmed(milk);
    AddToEmpty(store, milk, ["personal"], id, now);
  }
}
