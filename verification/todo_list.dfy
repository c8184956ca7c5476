/** The list screen of components/TodoList/TodoList.tsx: the category filter that
    derives the visible list, and the `onDragEnd` handler that writes a dragged
    (filtered) order back into the full list before it is saved.

    The handler writes every dragged item back at the index where its id already
    sits, so the reconciled list carries the same id at every position as the
    list it started from: the new order never reaches storage. `MergeReordered`
    is the reconciliation the handler evidently intends. */
module TodoList {
  import opened Wrappers
  import opened Types
  import opened Seqs

  /** `todo.categories.some(cat => activeFilters.includes(cat))`. */
  predicate HasActiveCategory(t: Todo, active: seq<string>) {
    exists c :: c in t.categories && c in active
  }

  function MatchesAny(active: seq<string>): (p: Todo -> bool) {
    (t: Todo) => HasActiveCategory(t, active)
  }

  /** Shown on screen: every todo while no filter is on, else those with an
      active category. */
  predicate Visible(t: Todo, active: seq<string>) {
    |active| == 0 || HasActiveCategory(t, active)
  }

  function VisibleUnder(active: seq<string>): (p: Todo -> bool) {
    (t: Todo) => Visible(t, active)
  }

  /** The `filteredTodos` expression. With no active filter it is the list
      itself; in every case it is the visible todos in their original order. */
  function FilteredTodos(todos: seq<Todo>, active: seq<string>): (r: seq<Todo>)
    ensures |active| == 0 ==> r == todos
    ensures r == Filter(VisibleUnder(active), todos)
  {
    if |active| > 0 then
      FilterCongruent(MatchesAny(active), VisibleUnder(active), todos);
      Filter(MatchesAny(active), todos)
    else
      FilterKeepsAll(VisibleUnder(active), todos);
      todos
  }

  /** The view is an order-preserving subsequence of the list holding every copy
      of each visible todo and nothing else. */
  lemma ViewIsVisibleSubsequence(todos: seq<Todo>, active: seq<string>)
    ensures IsSubsequence(FilteredTodos(todos, active), todos)
    ensures forall t ::
      multiset(FilteredTodos(todos, active))[t] == if Visible(t, active) then multiset(todos)[t] else 0
  {
    FilterIsSubsequence(VisibleUnder(active), todos);
    FilterCounts(VisibleUnder(active), todos);
  }

  /** Membership in the view, in both directions. */
  lemma InViewIff(todos: seq<Todo>, active: seq<string>, t: Todo)
    ensures t in FilteredTodos(todos, active) <==> t in todos && Visible(t, active)
  {
    FilterMembers(VisibleUnder(active), todos);
  }

  /** A todo without categories disappears as soon as any filter is active. */
  lemma UncategorisedHidden(todos: seq<Todo>, active: seq<string>, t: Todo)
    requires |active| > 0 && t.categories == []
    ensures t !in FilteredTodos(todos, active)
  {
    InViewIff(todos, active, t);
  }

  /** Filtering the view again changes nothing. */
  lemma FilterViewIdempotent(todos: seq<Todo>, active: seq<string>)
    ensures FilteredTodos(FilteredTodos(todos, active), active) == FilteredTodos(todos, active)
  {
    FilterIdempotent(VisibleUnder(active), todos);
  }

  /** `updatedTodos.findIndex(t => t.id === id)`: the first position holding
      `id`, or -1 when there is none. */
  function FindIndex(todos: seq<Todo>, id: string): (r: int)
    ensures -1 <= r < |todos|
    ensures r == -1 <==> forall i :: 0 <= i < |todos| ==> todos[i].id != id
    ensures r >= 0 ==> todos[r].id == id && forall i :: 0 <= i < r ==> todos[i].id != id
    decreases |todos|
  {
    if |todos| == 0 then -1
    else if todos[0].id == id then 0
    else
      var k := FindIndex(todos[1..], id);
      if k == -1 then -1 else k + 1
  }

  /** Two lists carrying the same id at every position. */
  predicate SameIds(a: seq<Todo>, b: seq<Todo>) {
    |a| == |b| && forall i :: 0 <= i < |a| ==> a[i].id == b[i].id
  }

  /** `FindIndex` only looks at the ids. */
  lemma FindIndexByIds(a: seq<Todo>, b: seq<Todo>, id: string)
    requires SameIds(a, b)
    ensures FindIndex(a, id) == FindIndex(b, id)
  {
  }

  /** The last item of `data` carrying `id`: the write that survives. */
  function LastWithId(data: seq<Todo>, id: string): (r: Option<Todo>)
    ensures r.None? <==> forall k :: 0 <= k < |data| ==> data[k].id != id
    ensures r.Some? ==> r.value in data && r.value.id == id
    ensures r.Some? ==> exists k :: 0 <= k < |data| && data[k] == r.value
                                  && forall m :: k < m < |data| ==> data[m].id != id
    decreases |data|
  {
    if |data| == 0 then None
    else if data[|data| - 1].id == id then Some(data[|data| - 1])
    else LastWithId(data[..|data| - 1], id)
  }

  /** What slot `i` holds after the handler has walked `data`: the last dragged
      item with the slot's id if `i` is the first slot with that id, else the
      original todo. */
  function SlotAfterDrag(todos: seq<Todo>, data: seq<Todo>, i: int): (r: Todo)
    requires 0 <= i < |todos|
    ensures r.id == todos[i].id
    ensures r != todos[i] ==> r in data && FindIndex(todos, todos[i].id) == i
  {
    if FindIndex(todos, todos[i].id) == i then
      match LastWithId(data, todos[i].id)
      case Some(d) => d
      case None => todos[i]
    else todos[i]
  }

  /** Reference definition of the reconciliation, slot by slot. */
  function Reconciled(todos: seq<Todo>, data: seq<Todo>): (r: seq<Todo>)
    ensures |r| == |todos|
  {
    seq(|todos|, i requires 0 <= i < |todos| => SlotAfterDrag(todos, data, i))
  }

  /** The `onDragEnd` handler: copy the list, and for each dragged item in its
      new order overwrite the first slot with the same id, if any. The result
      carries the same id at every position as `todos`. */
  method DragEnd(todos: seq<Todo>, data: seq<Todo>) returns (updated: seq<Todo>)
    ensures SameIds(updated, todos)
    ensures updated == Reconciled(todos, data)
  {
    updated := todos;
    var k := 0;
    while k < |data|
      invariant 0 <= k <= |data|
      invariant SameIds(updated, todos)
      invariant forall i :: 0 <= i < |todos| ==> updated[i] == SlotAfterDrag(todos, data[..k], i)
    {
      var item := data[k];
      var j := FindIndex(updated, item.id);
      FindIndexByIds(updated, todos, item.id);
      ghost var before := updated;
      if j != -1 {
        updated := updated[j := item];
      }
      DragStep(todos, data[..k], item, before, updated);
      PrefixExtend(data, k);
      k := k + 1;
    }
    assert data[..|data|] == data;
  }

  /** One iteration of the handler's loop, on the slot-by-slot description. */
  lemma DragStep(todos: seq<Todo>, done: seq<Todo>, item: Todo, updated: seq<Todo>, next: seq<Todo>)
    requires SameIds(updated, todos)
    requires forall i :: 0 <= i < |todos| ==> updated[i] == SlotAfterDrag(todos, done, i)
    requires var j := FindIndex(todos, item.id);
      next == if j != -1 then updated[j := item] else updated
    ensures SameIds(next, todos)
    ensures forall i :: 0 <= i < |todos| ==> next[i] == SlotAfterDrag(todos, done + [item], i)
  {
    var j := FindIndex(todos, item.id);
    assert |next| == |todos|;
    forall i | 0 <= i < |todos|
      ensures next[i] == SlotAfterDrag(todos, done + [item], i)
    {
      SlotStep(todos, done, item, i);
      assert next[i] == if i == j then item else updated[i];
    }
    assert j != -1 ==> next[j].id == todos[j].id;
  }

  /** Walking one more dragged item changes only the first slot with its id. */
  lemma SlotStep(todos: seq<Todo>, done: seq<Todo>, item: Todo, i: int)
    requires 0 <= i < |todos|
    ensures SlotAfterDrag(todos, done + [item], i)
      == if i == FindIndex(todos, item.id) then item else SlotAfterDrag(todos, done, i)
  {
    assert (done + [item])[..|done|] == done;
    if todos[i].id != item.id {
      assert LastWithId(done + [item], todos[i].id) == LastWithId(done, todos[i].id);
    } else {
      assert LastWithId(done + [item], todos[i].id) == Some(item);
    }
  }

  /** Dragged items whose id is not in the list are ignored: a slot whose id no
      dragged item carries keeps its todo. */
  lemma ForeignItemsIgnored(todos: seq<Todo>, data: seq<Todo>, i: int)
    requires 0 <= i < |todos|
    requires forall k :: 0 <= k < |data| ==> data[k].id != todos[i].id
    ensures Reconciled(todos, data)[i] == todos[i]
  {
  }

  /** The last item with `id` in `p + q` is the last one in `q`, or failing
      that the last one in `p`. */
  lemma {:induction false} LastWithIdConcat(p: seq<Todo>, q: seq<Todo>, id: string)
    ensures LastWithId(p + q, id) == if LastWithId(q, id).Some? then LastWithId(q, id) else LastWithId(p, id)
    decreases |q|
  {
    if |q| == 0 {
      assert p + q == p;
    } else if q[|q| - 1].id != id {
      assert (p + q)[..|p + q| - 1] == p + q[..|q| - 1];
      LastWithIdConcat(p, q[..|q| - 1], id);
    }
  }

  /** A dragged item whose id no todo carries has no effect, wherever it sits
      in the dragged order. */
  lemma ForeignItemDropped(todos: seq<Todo>, before: seq<Todo>, d: Todo, after: seq<Todo>)
    requires forall i :: 0 <= i < |todos| ==> todos[i].id != d.id
    ensures Reconciled(todos, before + [d] + after) == Reconciled(todos, before + after)
  {
    forall i | 0 <= i < |todos|
      ensures Reconciled(todos, before + [d] + after)[i] == Reconciled(todos, before + after)[i]
    {
      var id := todos[i].id;
      LastWithIdConcat(before + [d], after, id);
      LastWithIdConcat(before, after, id);
      assert (before + [d])[..|before|] == before;
    }
  }

  /** With distinct ids, writing back items taken from the list itself returns
      the list unchanged. */
  lemma {:induction false} ReconcileOwnItems(todos: seq<Todo>, data: seq<Todo>)
    requires DistinctIds(todos)
    requires forall d :: d in data ==> d in todos
    ensures Reconciled(todos, data) == todos
  {
    forall i | 0 <= i < |todos|
      ensures Reconciled(todos, data)[i] == todos[i]
    {
      var x := todos[i].id;
      assert FindIndex(todos, x) == i;
      match LastWithId(data, x)
      case None =>
      case Some(d) =>
        var j :| 0 <= j < |todos| && todos[j] == d;
        assert todos[j].id == x;
    }
  }

  /** As written, the handler never changes the saved order: over a list with
      distinct ids, whatever the gesture hands back (a permutation of the view,
      or any items taken from it) reconciles to the original list, with or
      without a filter. */
  lemma DragOrderIsLost(todos: seq<Todo>, active: seq<string>, data: seq<Todo>)
    requires DistinctIds(todos)
    requires forall d :: d in data ==> d in FilteredTodos(todos, active)
    ensures Reconciled(todos, data) == todos
  {
    forall d | d in data ensures d in todos {
      InViewIff(todos, active, d);
    }
    ReconcileOwnItems(todos, data);
  }

  /** Concrete instance: with no filter, dragging `b` above `a` saves `[a, b]`. */
  lemma SwapIsUndone(a: Todo, b: Todo)
    requires a.id != b.id
    ensures Reconciled([a, b], [b, a]) == [a, b]
    ensures FilteredTodos([a, b], []) == [a, b]
  {
    assert FindIndex([a, b], b.id) == 1;
  }

  /** As written, two todos sharing an id (two adds in the same millisecond)
      collapse into one even when nothing moved: the second overwrites the first. */
  lemma DuplicateIdOverwrite(a: Todo, b: Todo)
    requires a.id == b.id && a != b
    ensures Reconciled([a, b], [a, b]) == [b, b]
  {
    assert FindIndex([a, b], b.id) == 0;
    assert [a, b][..1] == [a];
  }

  /** The evident intent: the visible slots receive the dragged items in their
      new order; hidden slots keep their todo. Extra dragged items are ignored
      and missing ones leave the slot as it was. */
  function MergeReordered(todos: seq<Todo>, active: seq<string>, data: seq<Todo>): (r: seq<Todo>)
    ensures |r| == |todos|
    ensures forall i :: 0 <= i < |todos| && !Visible(todos[i], active) ==> r[i] == todos[i]
  {
    MergeInto(VisibleUnder(active), todos, data)
  }

  /** For any gesture result, the corrected reconciliation realises the drag:
      the filtered view of the saved list is the dragged order, hidden todos
      keep their slots, and the saved list is a permutation of the old one. */
  lemma MergeRealizesGesture(todos: seq<Todo>, active: seq<string>, data: seq<Todo>)
    requires multiset(data) == multiset(FilteredTodos(todos, active))
    ensures var r := MergeReordered(todos, active, data);
      && FilteredTodos(r, active) == data
      && multiset(r) == multiset(todos)
      && forall i :: 0 <= i < |todos| && !Visible(todos[i], active) ==> r[i] == todos[i]
  {
    var view := FilteredTodos(todos, active);
    assert |data| == |multiset(data)| == |multiset(view)| == |view|;
    forall d | d in data ensures Visible(d, active) {
      assert d in multiset(data);
      InViewIff(todos, active, d);
    }
    MergeIntoFilter(VisibleUnder(active), todos, data);
    MergeIntoCounts(VisibleUnder(active), todos, data);
    var r := MergeReordered(todos, active, data);
    assert forall x :: multiset(r)[x] == multiset(todos)[x];
  }

  /** Without a drag, the corrected reconciliation saves the list unchanged,
      duplicate ids included. */
  lemma MergeWithoutDragIsIdentity(todos: seq<Todo>, active: seq<string>)
    ensures MergeReordered(todos, active, FilteredTodos(todos, active)) == todos
  {
    MergeIntoOwnFilter(VisibleUnder(active), todos);
  }
}
