/** The input form of components/TodoInput/TodoInput.tsx: its text and
    category selection, the add handler that validates before calling the
    parent's `onAddTodo` and resets only when that call succeeded, the
    membership toggle on the selection, and the add button's enabled state. */
module TodoInput {
  import opened Wrappers
  import opened Types
  import opened Seqs
  import opened Text
  import opened Validation
  import opened Storage
  import TodoController

  datatype InputState = InputState(text: string, selected: seq<string>)

  /** The form before anything is typed or chosen. */
  const Initial := InputState("", [])

  /** The arguments handed to `onAddTodo`. */
  datatype Submission = Submission(text: string, categories: seq<string>)

  /** The form's state afterwards, the alert it raised, and what it submitted. */
  datatype InputStep = InputStep(state: InputState, notice: Option<Notice>, submitted: Option<Submission>)

  /** `handleAddTodo`. Whether the awaited `onAddTodo` rejects is a parameter;
      its error is logged and swallowed. */
  function HandleAddTodo(st: InputState, addRejects: bool): (r: InputStep)
    ensures Validate(st.text, st.selected) != Accepted ==>
      r == InputStep(st, Some(Notice(ErrorTitle, Validate(st.text, st.selected).Message())), None)
    ensures Validate(st.text, st.selected) == Accepted ==>
      r.notice == None && r.submitted == Some(Submission(st.text, st.selected))
    ensures Validate(st.text, st.selected) == Accepted && !addRejects ==> r.state == Initial
    ensures Validate(st.text, st.selected) == Accepted && addRejects ==> r.state == st
  {
    var verdict := Validate(st.text, st.selected);
    if verdict != Accepted then
      InputStep(st, Some(Notice(ErrorTitle, verdict.Message())), None)
    else
      var submission := Submission(st.text, st.selected);
      InputStep(if addRejects then st else Initial, None, Some(submission))
  }

  /** Removes every copy of `x`. */
  function Differs(x: string): (p: string -> bool) {
    (y: string) => y != x
  }

  /** `toggleCategorySelection`: drops `categoryId` when selected, appends it
      otherwise. Its membership flips, every other id keeps its membership,
      and the other ids keep their relative order and multiplicity. */
  function ToggleCategorySelection(selected: seq<string>, categoryId: string): (r: seq<string>)
    ensures categoryId in r <==> categoryId !in selected
    ensures forall x :: x != categoryId ==> (x in r <==> x in selected)
    ensures Filter(Differs(categoryId), r) == Filter(Differs(categoryId), selected)
    ensures categoryId !in selected ==> r == selected + [categoryId]
  {
    var p := Differs(categoryId);
    FilterMembers(p, selected);
    if categoryId in selected then
      FilterIdempotent(p, selected);
      Filter(p, selected)
    else
      FilterConcat(p, selected, [categoryId]);
      FilterCons(p, categoryId, []);
      selected + [categoryId]
  }

  /** Toggling keeps a selection free of duplicates. */
  lemma ToggleKeepsNoDuplicates(selected: seq<string>, categoryId: string)
    requires NoDuplicates(selected)
    ensures NoDuplicates(ToggleCategorySelection(selected, categoryId))
  {
    if categoryId in selected {
      FilterNoDuplicates(Differs(categoryId), selected);
    }
  }

  /** Toggling an unselected id twice restores the selection. */
  lemma ToggleAbsentTwice(selected: seq<string>, categoryId: string)
    requires categoryId !in selected
    ensures ToggleCategorySelection(ToggleCategorySelection(selected, categoryId), categoryId) == selected
  {
    var p := Differs(categoryId);
    FilterKeepsAll(p, selected);
    FilterConcat(p, selected, [categoryId]);
    FilterCons(p, categoryId, []);
  }

  /** Toggling a selected id twice moves it, alone, to the end. */
  lemma TogglePresentTwice(selected: seq<string>, categoryId: string)
    requires categoryId in selected
    ensures ToggleCategorySelection(ToggleCategorySelection(selected, categoryId), categoryId)
      == Filter(Differs(categoryId), selected) + [categoryId]
  {
    FilterMembers(Differs(categoryId), selected);
  }

  /** The add button's `disabled` condition, negated: a non-blank text and a
      non-empty selection. The 100-character limit is not part of it. */
  function AddButtonEnabled(st: InputState): (enabled: bool)
    ensures enabled <==> !AllWhitespace(st.text) && |st.selected| > 0
  {
    TrimEmptyIff(st.text);
    !(Trim(st.text) == "" || |st.selected| == 0)
  }

  /** Every text the handler accepts enables the button; the converse fails
      only on the length limit. */
  lemma ButtonVersusValidation(st: InputState)
    ensures AddButtonEnabled(st) <==> !AllWhitespace(st.text) && |st.selected| > 0
    ensures Validate(st.text, st.selected) == Accepted ==> AddButtonEnabled(st)
    ensures AddButtonEnabled(st) && Validate(st.text, st.selected) != Accepted ==> |st.text| > MaxTextLength
  {
    TrimEmptyIff(st.text);
  }

  /** The form's step and the controller's step of one submission. */
  datatype Submitted = Submitted(form: InputStep, controller: TodoController.Step)

  /** The form wired to the todo controller as the screen does: the form's
      validation runs, then the controller's `addTodo`, whose rejection keeps
      the form filled. */
  function SubmitToController(form: InputState, todos: TodoController.TodoState, store: Store,
                              id: string, now: string, writeFails: bool): (r: Submitted)
    ensures Validate(form.text, form.selected) != Accepted ==>
      r.controller == TodoController.Step(todos, store, [], None) && r.form.state == form
    ensures Validate(form.text, form.selected) == Accepted ==> (r.controller.notices == [] <==> !writeFails)
  {
    if Validate(form.text, form.selected) != Accepted then
      Submitted(HandleAddTodo(form, false), TodoController.Step(todos, store, [], None))
    else
      var added := TodoController.AddTodo(todos, store, form.text, form.selected, id, now, writeFails);
      Submitted(HandleAddTodo(form, added.thrown.Some?), added)
  }

  /** Through the controller, the form is cleared exactly when the new todo was
      committed, and the committed todo carries the trimmed text. */
  lemma FormClearsIffCommitted(form: InputState, todos: TodoController.TodoState, store: Store,
                               id: string, now: string, writeFails: bool)
    requires Validate(form.text, form.selected) == Accepted
    ensures var r := SubmitToController(form, todos, store, id, now, writeFails);
      (r.form.state == Initial <==> |r.controller.state.todos| == |todos.todos| + 1)
    ensures var r := SubmitToController(form, todos, store, id, now, writeFails);
      !writeFails ==> r.controller.state.todos[|todos.todos|].text == Trim(form.text)
  {
    if form == Initial {
      TrimEmptyIff(form.text);
    }
  }
}
