/** One row of the list, components/TodoList/TodoItem.tsx: the category tags
    it shows for its todo, and the id its checkbox and delete action hand to
    the callbacks the screen wires to `toggleTodo` and `confirmDeleteTodo`. */
module TodoItem {
  import opened Wrappers
  import opened Types
  import opened Seqs
  import opened Storage
  import TodoController

  /** Keeps a category whose id is among `ids`. */
  function HasIdIn(ids: seq<string>): (p: Category -> bool) {
    (c: Category) => c.id in ids
  }

  /** `categories.filter(cat => todo.categories.includes(cat.id))`: the
      categories, in their own order, whose id the todo refers to. */
  function TodoCategories(categories: seq<Category>, todo: Todo): (r: seq<Category>)
    ensures IsSubsequence(r, categories)
    ensures forall c :: c in r <==> c in categories && c.id in todo.categories
  {
    FilterIsSubsequence(HasIdIn(todo.categories), categories);
    FilterMembers(HasIdIn(todo.categories), categories);
    Filter(HasIdIn(todo.categories), categories)
  }

  /** The tags are the categories the todo refers to, in the category list's
      order and multiplicity: a subsequence of `categories` containing a
      category exactly when its id is among the todo's ids. */
  lemma TagsResolve(categories: seq<Category>, todo: Todo)
    ensures IsSubsequence(TodoCategories(categories, todo), categories)
    ensures forall c :: c in TodoCategories(categories, todo) <==> c in categories && c.id in todo.categories
    ensures forall c ::
      multiset(TodoCategories(categories, todo))[c] == if c.id in todo.categories then multiset(categories)[c] else 0
  {
    FilterIsSubsequence(HasIdIn(todo.categories), categories);
    FilterMembers(HasIdIn(todo.categories), categories);
    FilterCounts(HasIdIn(todo.categories), categories);
  }

  /** An id with no matching category yields no tag: the ids that do show are
      exactly the todo's ids that some category carries. */
  lemma DanglingIdsDropped(categories: seq<Category>, todo: Todo, id: string)
    ensures (exists c :: c in TodoCategories(categories, todo) && c.id == id)
      <==> id in todo.categories && exists c :: c in categories && c.id == id
  {
    TagsResolve(categories, todo);
  }

  /** Only the set of ids matters: repeating or reordering the todo's ids
      changes nothing. */
  lemma TagsIgnoreRepeatedIds(categories: seq<Category>, todo: Todo, other: Todo)
    requires forall id :: id in todo.categories <==> id in other.categories
    ensures TodoCategories(categories, todo) == TodoCategories(categories, other)
  {
    FilterCongruent(HasIdIn(todo.categories), HasIdIn(other.categories), categories);
  }

  /** With a duplicate-free category list the tags are duplicate-free, however
      often the todo repeats an id. */
  lemma TagsDistinct(categories: seq<Category>, todo: Todo)
    requires NoDuplicates(categories)
    ensures NoDuplicates(TodoCategories(categories, todo))
  {
    FilterNoDuplicates(HasIdIn(todo.categories), categories);
  }

  datatype Gesture = CheckboxPress | DeleteActionPress

  /** The callback a gesture on the row invokes, with its argument. */
  datatype Callback = OnToggle(id: string) | OnDelete(id: string)

  /** The checkbox calls `onToggle(todo.id)`, the swipe's delete action
      `onDelete(todo.id)`. */
  function Dispatch(todo: Todo, g: Gesture): (r: Callback)
    ensures r.id == todo.id
    ensures r.OnToggle? <==> g == CheckboxPress
  {
    match g
    case CheckboxPress => OnToggle(todo.id)
    case DeleteActionPress => OnDelete(todo.id)
  }

  /** With distinct ids, the checkbox of row `k` flips that row and no other. */
  lemma CheckboxFlipsOwnRow(st: TodoController.TodoState, store: Store, k: int)
    requires DistinctIds(st.todos) && 0 <= k < |st.todos|
    ensures var r := TodoController.ToggleTodo(st, store, Dispatch(st.todos[k], CheckboxPress).id, false);
      forall i :: 0 <= i < |st.todos| ==> (r.state.todos[i].completed != st.todos[i].completed <==> i == k)
  {
  }

  /** With distinct ids, confirming the delete prompt raised from row `k`
      removes exactly that row. */
  lemma DeleteRemovesOwnRow(st: TodoController.TodoState, store: Store, k: int)
    requires DistinctIds(st.todos) && 0 <= k < |st.todos|
    ensures var p := TodoController.ConfirmDeleteTodo(Dispatch(st.todos[k], DeleteActionPress).id);
      TodoController.Press(p, 1, st, store, false).state.todos == st.todos[..k] + st.todos[k + 1..]
  {
    TodoController.DeleteRemovesOne(st.todos, k);
  }
}
