# todo-list-category, modelled in Dafny

A model of the logic of the React Native to-do app *todo-list-category*.
Todos carry category ids. Categories are coloured tags seeded with three defaults.
Every mutation is persisted to device storage.

The model covers:

- the todo controller hook (`useTodos`): validation, add, toggle, delete, confirm-before-delete, reorder and load. Each mutation is committed to memory only after its write succeeded;
- the list screen: the category filter that derives the visible list, and the `onDragEnd` reconciliation that writes a dragged order back into the full list;
- the input form: the same validation, reset on success only, the category-selection toggle and the add button's enabled state;
- the category service (seed on absent, fall back to defaults on any failure) and its hook (commit after write);
- the generic storage hook: load only a truthy value, set optimistically;
- a todo row: which categories it shows as tags, and which id its checkbox and delete action report;
- the custom alert: which callbacks each way of leaving it fires, and in what order.

Storage is an abstract `map<string, Value>`. Whether a read or a write fails is a parameter of each operation.
`Date.now()` ids, ISO timestamps and the outcome of awaited calls are parameters too.
User-facing alerts are `Notice` values returned with each step.

Modules, one per source file, plus shared ones:

- `Wrappers`: `Option`, `Result`;
- `Seqs`: order-preserving filter, subsequence, and the merge that is its inverse;
- `Types`: `Todo`, `Category`, default categories;
- `Text`: JavaScript `trim`;
- `Validation`: the add-validation both callers share;
- `Storage`: the fallible store and JS truthiness;
- `TodoController`, `TodoList`, `TodoInput`, `CategoryService`, `CategoryHook`, `StorageHook`, `TodoItem`, `CustomAlert`.

## Model

| member | source | states |
|---|---|---|
| Types.DefaultCategories | constants/DefaultCategories.ts:3-22 | The seed list has exactly the ids `personal`, `trabajo`, `compras`, in that order, with their names and colours, and each entry carries its own clock reading as creation time (the three readings may differ) |
| Text.TrimStart | hooks/useTodos.ts:37 | Leading white space removal: the result is a suffix; everything cut off is ECMAScript white space or a line terminator; the result does not start with one |
| Text.IsWhitespace | hooks/useTodos.ts:37 | The characters `trim()` removes: the ECMAScript WhiteSpace set (TAB, VT, FF, SP, NBSP, ZWNBSP and the Unicode space separators) and the LineTerminator set (LF, CR, LS, PS) |
| Text.TrimEnd | hooks/useTodos.ts:37 | Trailing white space removal: the result is a prefix; everything cut off is white space; the result does not end with white space |
| Text.Trim | hooks/useTodos.ts:37 | `text.trim()`, also used at hooks/useTodos.ts:49 and TodoInput.tsx:17 and 60: the result is never longer than the text. What it keeps and cuts is stated by `Text.TrimIsSlice` and `Text.TrimEmptyIff` |
| Text.TrimOffset | hooks/useTodos.ts:49 | The trimmed text is the slice of the text at some offset, with only white space before and after it |
| Text.TrimIsSlice | hooks/useTodos.ts:49 | The trimmed text is a contiguous slice, surrounded only by white space, whose first and last characters are not white space |
| Text.TrimEmptyIff | hooks/useTodos.ts:37 | `text.trim() === ''` holds exactly when every character of the text is white space (both directions) |
| Text.TrimKeepsTrimmed | hooks/useTodos.ts:49 | A text that neither starts nor ends with white space is its own trim |
| Text.TrimIdempotent | hooks/useTodos.ts:49 | Trimming twice is trimming once |
| Validation.Validate | hooks/useTodos.ts:37-44 | Accepts iff the text is not all white space, the untrimmed length is at most 100 and a category is given. A text fault is reported whatever the categories. An accepted text trims to 1..100 characters |
| Validation.LimitCountsPadding | hooks/useTodos.ts:37 | A text whose trimmed form has exactly 100 characters is still rejected when one space of padding makes it 101 long |
| Storage.Get | services/storageService.ts:13-21 | A failing read rejects with a read error for that key; an absent key reads as null; otherwise the stored value is returned |
| Storage.Truthy | hooks/useTodos.ts:18 | JavaScript truthiness of a stored value: null, false, 0 and the empty string are falsy, and every array, even an empty one, is truthy. It decides `storedTodos \|\| []` here, `!categories` at services/categoryService.ts:10 and `if (value)` at hooks/useStorage.ts:12 |
| Storage.Put | services/storageService.ts:4-11 | A failing write rejects and changes nothing; a successful one adds the key and leaves every other key's value alone |
| Storage.GetAfterPut | services/storageService.ts:4-21 | A successful write is read back verbatim |
| Storage.PutIsolated | services/storageService.ts:4-21 | A write to one key is invisible when reading any other key |
| TodoController.DecodeTodos | hooks/useTodos.ts:17-18 | A falsy stored value falls back to the empty list, and a stored todo array is used as it is |
| TodoController.LoadTodos | hooks/useTodos.ts:15-24 | After loading, `loading` is false in every case. A failed read keeps the list. An absent key or a falsy stored value gives `[]` (`storedTodos \|\| []`). A stored array replaces the list |
| TodoController.SaveThenLoad | hooks/useTodos.ts:15-29 | Loading right after a successful save gives back the saved list with `loading` false, whatever the hook held before |
| TodoController.SaveTodos | hooks/useTodos.ts:26-34 | On write failure the state and store are unchanged and the write error is rethrown. On success the list is committed, reads back from the todos key, and no other key changes |
| TodoController.SaveOrAlert | hooks/useTodos.ts:56-60 | A mutation's catch raises exactly one alert with its message when the save failed and none otherwise, with the save's effects otherwise unchanged |
| TodoController.AddTodo | hooks/useTodos.ts:36-61 | A rejection raises its alert and writes nothing. An accepted add with a successful write gives old list ++ [new item] with trimmed text, `completed` false, the given categories, id and time; it is persisted under the todos key, no other key changes and `loading` is kept. A failed write leaves everything unchanged, alerts "No se pudo crear la tarea" and rethrows the write error |
| TodoController.Toggled | hooks/useTodos.ts:65-67 | Same length and order; every field other than `completed` is kept; `completed` flips exactly on the todos with the given id |
| TodoController.ToggleTwice | hooks/useTodos.ts:63-67 | Toggling the same id twice restores the list |
| TodoController.ToggleUnknown | hooks/useTodos.ts:65-67 | Toggling an id no todo carries changes nothing |
| TodoController.ToggleTodo | hooks/useTodos.ts:63-73 | A successful save commits the toggled list, stores exactly that list under the todos key, changes no other key and raises no alert. A failed one keeps the state and store, alerts "No se pudo actualizar la tarea" and rethrows the write error. `loading` is kept either way |
| TodoController.ToggleSingleton | hooks/useTodos.ts:65-67 | On a one-item list, toggling flips that item's `completed` exactly when the id matches |
| TodoController.Without | hooks/useTodos.ts:77 | The kept todos are a subsequence of the list, holding every copy of each todo with another id and none with the given id |
| TodoController.DeleteUnknown | hooks/useTodos.ts:77 | Deleting an unknown id leaves the list equal |
| TodoController.DeleteRemovesOne | hooks/useTodos.ts:75-78 | With distinct ids, deleting the id at position k removes exactly that position |
| TodoController.DeleteTodo | hooks/useTodos.ts:75-83 | A successful save commits the filtered list, stores exactly that list under the todos key, changes no other key and raises no alert. A failed one keeps the state and store, alerts "No se pudo eliminar la tarea" and rethrows the write error. `loading` is kept either way |
| TodoController.ReorderTodos | hooks/useTodos.ts:100-107 | The given list is committed and persisted verbatim under the todos key, with no other key changed and no alert. A failed write keeps the state and store, alerts "No se pudo reordenar las tareas" and rethrows the write error. `loading` is kept either way |
| TodoController.ConfirmDeleteTodo | hooks/useTodos.ts:85-98 | Only a prompt is raised: titled "Eliminar tarea" with its question, and two buttons, 'Cancelar' in cancel style first and 'Eliminar' in destructive style second. Only the 'Eliminar' button carries a deletion, and of that id |
| TodoController.ConfirmThenPress | hooks/useTodos.ts:89-95 | On the delete prompt, 'Cancelar' leaves state and store identical, and 'Eliminar' is exactly `deleteTodo(id)` |
| TodoController.Press | hooks/useTodos.ts:89-95 | Pressing a prompt button without a handler changes nothing and raises nothing. Pressing one whose handler deletes an id is `deleteTodo` of that id |
| TodoController.FailedAddIsInvisible | hooks/useTodos.ts:46-60 | A failed add leaves no trace: a later add behaves as if the failed one never happened |
| TodoController.AddToEmpty | hooks/useTodos.ts:47-56 | An accepted, already trimmed text added to an empty list gives exactly that one todo |
| TodoController.AddBuyMilk | hooks/useTodos.ts:47-56 | Adding "Buy milk" under `personal` to an empty list gives the single uncompleted todo with that text |
| TodoController.BuyMilkScenario | hooks/useTodos.ts:36-98 | Add "Buy milk", toggle it (it becomes completed), then on the delete prompt press 'Cancelar' (nothing changes) and then 'Eliminar' (the list is empty) |
| Seqs.Filter | hooks/useTodos.ts:77 | `Array.prototype.filter`, also at components/TodoList/TodoList.tsx:28, components/TodoList/TodoItem.tsx:27 and components/TodoInput/TodoInput.tsx:39: the result is never longer than the input. Its order, its membership in both directions and its counts are stated by the `Seqs.Filter*` lemmas that follow |
| Seqs.FilterIsSubsequence | components/TodoList/TodoList.tsx:28-30 | `Array.filter` keeps order: its result is a subsequence of its input |
| Seqs.FilterCounts | components/TodoList/TodoList.tsx:28-30 | `Array.filter` keeps every copy of each passing element and no copy of any other |
| Seqs.FilterMembers | components/TodoList/TodoList.tsx:28-30 | An element is in the filter iff it is in the input and passes |
| Seqs.FilterIdempotent | components/TodoList/TodoList.tsx:27-31 | Filtering twice with the same predicate is filtering once |
| Seqs.MergeIntoFilter | components/TodoList/TodoList.tsx:54-64 | Merging a new order of the selected elements back and filtering again gives exactly that order |
| Seqs.MergeIntoCounts | components/TodoList/TodoList.tsx:54-64 | The merge swaps the selected elements for the new ones, counted element by element |
| Seqs.MergeIntoOwnFilter | components/TodoList/TodoList.tsx:54-64 | Merging a sequence's own selection back leaves it unchanged |
| TodoList.FilteredTodos | components/TodoList/TodoList.tsx:27-31 | With no active filter the view is the list itself. Otherwise it is the filter of the todos with some category among the active ones |
| TodoList.HasActiveCategory | components/TodoList/TodoList.tsx:29 | `todo.categories.some(cat => activeFilters.includes(cat))`: some category id of the todo is among the active filters |
| TodoList.Visible | components/TodoList/TodoList.tsx:27-31 | A todo is shown when no filter is active, or when it has an active category |
| TodoList.ViewIsVisibleSubsequence | components/TodoList/TodoList.tsx:27-31 | The view is an order-preserving subsequence of the list holding every copy of each visible todo and nothing else |
| TodoList.InViewIff | components/TodoList/TodoList.tsx:28-30 | A todo is in the view iff it is in the list and visible under the active filters |
| TodoList.UncategorisedHidden | components/TodoList/TodoList.tsx:29 | A todo without categories is excluded whenever a filter is active |
| TodoList.FilterViewIdempotent | components/TodoList/TodoList.tsx:27-31 | Filtering the view again changes nothing |
| TodoList.FindIndex | components/TodoList/TodoList.tsx:58 | `findIndex` by id: -1 iff no todo has the id, otherwise the first position holding it |
| TodoList.LastWithId | components/TodoList/TodoList.tsx:57-62 | The last dragged item with a given id: it sits at some position of the dragged order after which no item carries the id; none exactly when no dragged item has that id |
| TodoList.Reconciled | components/TodoList/TodoList.tsx:55-62 | Slot-by-slot reference for the handler: the first slot of each id holds the last dragged item with that id. The result has the list's length |
| TodoList.DragEnd | components/TodoList/TodoList.tsx:54-64 | The handler's loop yields a list with the same id at every position as the original, equal to the slot-by-slot reference |
| TodoList.ForeignItemsIgnored | components/TodoList/TodoList.tsx:58-60 | A slot whose id no dragged item carries keeps its todo |
| TodoList.LastWithIdConcat | components/TodoList/TodoList.tsx:57-62 | In a concatenated dragged order, the surviving write for an id comes from the second part if it carries the id, else from the first |
| TodoList.ForeignItemDropped | components/TodoList/TodoList.tsx:58-60 | A dragged item whose id no todo carries can be removed from anywhere in the dragged order without changing the saved list: `findIndex` gives -1 and the item is skipped |
| TodoList.ReconcileOwnItems | components/TodoList/TodoList.tsx:57-62 | With distinct ids, writing back items taken from the list returns the list unchanged |
| TodoList.DragOrderIsLost | components/TodoList/TodoList.tsx:54-64 | With distinct ids, for every gesture result drawn from the view (every permutation of it in particular), filtered or not, the list handed to `onReorderTodos` equals the original: the drag is never saved |
| TodoList.SwapIsUndone | components/TodoList/TodoList.tsx:54-64 | Without a filter, dragging b above a in [a, b] saves [a, b] |
| TodoList.DuplicateIdOverwrite | components/TodoList/TodoList.tsx:58-60 | Two different todos sharing an id collapse into two copies of the second, even when nothing moved |
| TodoList.MergeReordered | components/TodoList/TodoList.tsx:54-64 | Corrected reconciliation: same length, and every todo hidden by the filter stays in its slot |
| TodoList.MergeRealizesGesture | components/TodoList/TodoList.tsx:54-64 | For every permutation of the view, the corrected list's view is the dragged order, hidden todos keep their slots, and the list is a permutation of the original |
| TodoList.MergeWithoutDragIsIdentity | components/TodoList/TodoList.tsx:54-64 | Without a drag the corrected reconciliation saves the list unchanged, duplicate ids included |
| TodoInput.HandleAddTodo | components/TodoInput/TodoInput.tsx:16-34 | A rejection raises its alert and submits nothing. An accepted form submits its text and selection, resets to ('', []) when `onAddTodo` resolves, and keeps both when it rejects |
| TodoInput.ToggleCategorySelection | components/TodoInput/TodoInput.tsx:36-44 | The id's membership flips; every other id keeps its membership, relative order and multiplicity; an absent id is appended at the end |
| TodoInput.ToggleKeepsNoDuplicates | components/TodoInput/TodoInput.tsx:38-42 | Toggling keeps a duplicate-free selection duplicate-free |
| TodoInput.ToggleAbsentTwice | components/TodoInput/TodoInput.tsx:36-44 | Toggling an unselected id twice restores the selection |
| TodoInput.TogglePresentTwice | components/TodoInput/TodoInput.tsx:36-44 | Toggling a selected id twice moves it, once, to the end of the other ids |
| TodoInput.ButtonVersusValidation | components/TodoInput/TodoInput.tsx:60-65 | The button is enabled iff the text is not blank and a category is selected. Every accepted form has it enabled; an enabled but rejected form is over 100 characters |
| TodoInput.AddButtonEnabled | components/TodoInput/TodoInput.tsx:60-65 | The add button is enabled exactly when the text is not all white space and at least one category is selected |
| TodoInput.SubmitToController | components/TodoInput/TodoInput.tsx:26-33 | The form's rejection never reaches the controller. An accepted submission alerts in the controller exactly when the write fails |
| TodoInput.FormClearsIffCommitted | components/TodoInput/TodoInput.tsx:26-33 | Through the controller, the form is cleared iff the new todo was committed, and the committed todo has the trimmed text |
| CategoryService.GetCategories | services/categoryService.ts:7-19 | Never rejects. The result is the stored list or the defaults. A read failure gives the defaults. A stored list, even empty, is returned with no write. A falsy value is seeded with the defaults, which are returned even if the seeding fails |
| CategoryService.SaveCategories | services/categoryService.ts:21-28 | On success the list reads back verbatim and no other key changes. On failure it rejects with the generic 'Error saving categories' |
| CategoryService.SeedOnce | services/categoryService.ts:10-14 | After a successful seed, the next read returns the same defaults with no second write |
| CategoryService.SaveThenGet | services/categoryService.ts:7-28 | A saved list is what the next read returns, with no write |
| CategoryHook.ApplyLoaded | hooks/useCategories.ts:12-19 | A loaded list replaces the state; a rejection keeps it; loading ends either way |
| CategoryHook.LoadCategories | hooks/useCategories.ts:11-20 | After the load effect, loading is false and the list is the stored list or the defaults |
| CategoryHook.FirstLoad | hooks/useCategories.ts:7-20 | The hook starts empty and loading; after its first load it holds the service's answer and is not loading |
| CategoryHook.SaveCategories | hooks/useCategories.ts:25-33 | State changes only after the write succeeded, and then the list reads back from the categories key and no other key changes. On failure state and store are unchanged and the service's error is rethrown |
| CategoryHook.SaveKeepsStateAndStoreInStep | hooks/useCategories.ts:25-33 | If the committed list matched storage before a save, it matches afterwards, whether or not the write failed |
| StorageHook.Init | hooks/useStorage.ts:5-6 | The state starts at the initial value and loading |
| StorageHook.Load | hooks/useStorage.ts:8-22 | Only a truthy stored value replaces the state; absent, falsy or unreadable values keep it; loading ends in every case |
| StorageHook.SetValue | hooks/useStorage.ts:25-33 | The state takes the value even when the write fails. A failed write changes no storage and rethrows. A successful one reads back the value and changes no other key |
| StorageHook.FailedWriteDiverges | hooks/useStorage.ts:27-32 | After a failed write the hook shows a value storage does not hold, unless storage already held it |
| StorageHook.FalsyValueNotReloaded | hooks/useStorage.ts:11-14 | A falsy value written through the hook is not restored by a later load: the state falls back to the initial value |
| TodoItem.TagsResolve | components/TodoList/TodoItem.tsx:27 | The tags are a subsequence of the category list, in its order. A category is a tag iff its id is among the todo's ids, with its multiplicity from the category list |
| TodoItem.TodoCategories | components/TodoList/TodoItem.tsx:27 | The tags are a subsequence of the category list, and a category is a tag iff it is in the list and its id is among the todo's ids |
| TodoItem.DanglingIdsDropped | components/TodoList/TodoItem.tsx:27 | An id shows as a tag iff the todo has it and some category carries it; dangling ids are dropped |
| TodoItem.TagsIgnoreRepeatedIds | components/TodoList/TodoItem.tsx:27 | Only the set of the todo's ids matters: repeating or reordering them changes no tag |
| TodoItem.TagsDistinct | components/TodoList/TodoItem.tsx:27 | With a duplicate-free category list the tags are duplicate-free, however often the todo repeats an id |
| TodoItem.Dispatch | components/TodoList/TodoItem.tsx:33-64 | Both the delete action and the checkbox report the row's own `todo.id`; only the checkbox reports a toggle |
| TodoItem.CheckboxFlipsOwnRow | components/TodoList/TodoItem.tsx:64 | With distinct ids, the checkbox of row k flips `completed` on row k and on no other |
| TodoItem.DeleteRemovesOwnRow | components/TodoList/TodoItem.tsx:37 | With distinct ids, confirming the prompt raised by row k's delete action removes exactly row k |
| CustomAlert.WithDefaults | components/CustomAlert/CustomAlert.tsx:15-24 | The cancel button is off unless requested. The labels default to 'Aceptar' and 'Cancelar' and are otherwise the given ones |
| CustomAlert.Buttons | components/CustomAlert/CustomAlert.tsx:44-61 | The confirm button is always present and last. A cancel button with the cancel label is present iff `showCancelButton` |
| CustomAlert.Fired | components/CustomAlert/CustomAlert.tsx:25-30 | Every exit fires `onClose` exactly once, as the last callback. `onConfirm` fires, before `onClose`, iff the confirm button is used and `onConfirm` was given |
| CustomAlert.EveryButtonCloses | components/CustomAlert/CustomAlert.tsx:44-61 | Every shown button closes the alert exactly once, last |
| CustomAlert.WithoutConfirmOnlyCloses | components/CustomAlert/CustomAlert.tsx:26-29 | Without `onConfirm`, every exit, the confirm button included, only closes |

## Left out

- Device storage, `AsyncStorage` and JSON (de)serialisation are modelled only as an abstract key-value map whose reads and writes may fail. `removeData` is not used by the modelled code.
- TodoController.DecodeTodos: a truthy stored value that is not a todo array cannot be represented. The app would use it as it is. The model treats it as undecodable and keeps the previous list.
- CategoryService.GetCategories: a truthy stored value that is not a category array is treated as unreadable and yields the defaults. The app would return it as it is.
- Validation.Validate: lengths count Unicode scalar values. JavaScript's `length` counts UTF-16 code units, so a text with characters outside the Basic Multilingual Plane can be longer in the app than in the model.
- The length limit follows the code. The alert promises "entre 1 y 100 caracteres", which suggests a limit on the trimmed text, but the code checks the untrimmed length. `Validation.LimitCountsPadding` shows the difference.
- `Date.now()` ids and `new Date().toISOString()` timestamps are parameters. The three clock readings behind the default categories' creation times are parameters too, one per entry.
- React scheduling is not modelled: `useEffect` timing, batched state updates, and the stale closures that overlapping async mutations read. Each operation is one atomic step on the state it is given.
- Rendering is not modelled: styles, icons, Modal, Swipeable, DraggableFlatList, keyboard dismissal. Native alerts appear only as `Notice` values.
- `console.error` logging is not modelled.
- The alert visibility and handler fields that `app/(tabs)/index.tsx` reads from `useTodos` belong to a different revision of that hook than the one modelled. That screen is used only for its wiring of the add, toggle and delete callbacks.
- `utils/normalize.js` (floating-point layout scaling) and the WatermelonDB files under `model/` and `app/index.tsx` are not part of this model.
- `components/TodoItem.tsx`, `components/CategorySelector/*` and `components/TodoFilter/TodoFilter.tsx` only render and forward callbacks, and are not part of this model.
- `constants/StorageKeys.ts` is not part of this model. The two keys are distinct constants.
- Seqs.Filter: its own contract states only the length bound. Order, membership and counts are stated once, in `Seqs.FilterIsSubsequence`, `Seqs.FilterMembers` and `Seqs.FilterCounts`, so that the many proofs that mention a filter do not carry extra quantifiers.
- Text.Trim: its own contract states only the length bound. The slice, white-space and non-white-ends facts are stated once, in `Text.TrimIsSlice` and `Text.TrimEmptyIff`. As `ensures` clauses on the function they would come into every proof that mentions a trimmed text and make those proofs far more expensive.
- TodoList.Reconciled: its own contract states only the length. What it computes is tied to the handler by `TodoList.DragEnd` and characterised by the lemmas after it.

## Findings

| source | as written | input that shows it | evidently intended | confidence | as-written member | corrected member |
|---|---|---|---|---|---|---|
| components/TodoList/TodoList.tsx:57-62 | Each dragged item is written back at the index its id already occupies, so every position keeps its id and the new order is never saved | no filter, todos [a, b] with distinct ids, dragged to [b, a]: `onReorderTodos` receives [a, b] | the visible slots take the dragged items in their new order; hidden todos keep their slots | high (proved for every permutation of the view); not executed | TodoList.DragOrderIsLost | TodoList.MergeRealizesGesture |
| components/TodoList/TodoList.tsx:58-60 | `findIndex` by id always finds the first of two todos sharing an id (ids are `Date.now()`), so the second overwrites the first | todos [a, b] with a.id == b.id and a != b, dropped without moving: [b, b] is saved and a is lost | a drop without movement saves the list unchanged | medium (needs two adds in the same millisecond); not executed | TodoList.DuplicateIdOverwrite | TodoList.MergeWithoutDragIsIdentity |
