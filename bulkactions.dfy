/** The bulk action panel (`selection/bulkActions.tsx`): it completes or
    deletes every selected todo by calling the store once per selected id,
    then clears the selection, and renders the selected titles as a Markdown
    list. The confirmation dialog's answer is the parameter `confirmed`; the
    clipboard write and its alerts are not modelled. */
module BulkActions {
  import opened Seqs
  import opened Todos
  import opened Selection

  /** The predicate of `selectedTodos`. */
  function IdIn(ids: seq<string>): Todo -> bool {
    (t: Todo) => t.id in ids
  }

  function IdNotIn(ids: seq<string>): Todo -> bool {
    (t: Todo) => t.id !in ids
  }

  /** `selectedTodos`: the selected todos in store order. */
  function SelectedTodos(todos: seq<Todo>, selectedIds: seq<string>): (r: seq<Todo>)
    ensures IsSubsequence(r, todos)
    ensures forall t :: t in r <==> t in todos && t.id in selectedIds
    ensures forall t :: multiset(r)[t] == if t.id in selectedIds then multiset(todos)[t] else 0
  {
    FilterIsSubsequence(todos, IdIn(selectedIds));
    FilterCounts(todos, IdIn(selectedIds));
    Filter(todos, IdIn(selectedIds))
  }

  /** The list after `setCompleted(id, true)` for each id of `ids` in turn. */
  function CompletedAll(todos: seq<Todo>, ids: seq<string>): seq<Todo>
    decreases |ids|
  {
    if ids == [] then todos
    else WithCompleted(CompletedAll(todos, ids[..|ids| - 1]), ids[|ids| - 1], true)
  }

  /** The list after `removeTodo(id)` for each id of `ids` in turn. */
  function RemovedAll(todos: seq<Todo>, ids: seq<string>): seq<Todo>
    decreases |ids|
  {
    if ids == [] then todos
    else Removed(RemovedAll(todos, ids[..|ids| - 1]), ids[|ids| - 1])
  }

  /** Completing ids one at a time completes exactly the todos whose id is
      among them and changes nothing else: not the length, not the order,
      not any other field. */
  lemma {:induction false} CompletedAllPointwise(todos: seq<Todo>, ids: seq<string>)
    ensures |CompletedAll(todos, ids)| == |todos|
    ensures forall i :: 0 <= i < |todos| ==>
      CompletedAll(todos, ids)[i] == if todos[i].id in ids then todos[i].(completed := true) else todos[i]
    decreases |ids|
  {
    if ids != [] {
      var init := ids[..|ids| - 1];
      CompletedAllPointwise(todos, init);
      assert ids == init + [ids[|ids| - 1]];
    }
  }

  /** Removing ids one at a time removes exactly the todos whose id is among
      them, keeping the others in order. */
  lemma {:induction false} RemovedAllIsFilter(todos: seq<Todo>, ids: seq<string>)
    ensures RemovedAll(todos, ids) == Filter(todos, IdNotIn(ids))
    decreases |ids|
  {
    if ids == [] {
      FilterAll(todos, IdNotIn(ids));
    } else {
      var init, last := ids[..|ids| - 1], ids[|ids| - 1];
      RemovedAllIsFilter(todos, init);
      assert ids == init + [last];
      FilterFilter(todos, IdNotIn(init), IdIsNot(last), IdNotIn(ids));
    }
  }

  /** `selectedTodos.map(todo => "- " + todo.title).join("\n")`. */
  function MarkdownList(todos: seq<Todo>): (r: string)
    ensures todos == [] ==> r == ""
    ensures |todos| == 1 ==> r == "- " + todos[0].title
  {
    Join(seq(|todos|, i requires 0 <= i < |todos| => "- " + todos[i].title), "\n")
  }

  /** Each further todo adds a line break and its item at the end. */
  lemma MarkdownListSnoc(todos: seq<Todo>, t: Todo)
    requires todos != []
    ensures MarkdownList(todos + [t]) == MarkdownList(todos) + "\n" + "- " + t.title
  {
    var items := seq(|todos|, i requires 0 <= i < |todos| => "- " + todos[i].title);
    assert seq(|todos + [t]|, i requires 0 <= i < |todos + [t]| => "- " + (todos + [t])[i].title) == items + ["- " + t.title];
    JoinSnoc(items, "- " + t.title, "\n");
  }

  /** The panel over the two stores. */
  class BulkActionsPanel {
    const store: TodoStore
    const selection: SelectionStore

    constructor (store: TodoStore, selection: SelectionStore)
      ensures this.store == store && this.selection == selection
    {
      this.store := store;
      this.selection := selection;
    }

    /** `selectedIds.length`, the count shown. */
    function SelectedCount(): nat
      reads selection
    {
      |selection.selectedIds|
    }

    /** The panel renders nothing while the count is 0. */
    predicate Visible()
      reads selection
      ensures Visible() <==> selection.selectedIds != []
    {
      SelectedCount() != 0
    }

    /** `handleBulkComplete`. */
    method HandleBulkComplete()
      modifies store, selection
      ensures store.todos == CompletedAll(old(store.todos), old(selection.selectedIds))
      ensures selection.selectedIds == []
    {
      var ids := selection.selectedIds;
      for i := 0 to |ids|
        invariant store.todos == CompletedAll(old(store.todos), ids[..i])
      {
        store.SetCompleted(ids[i], true);
        assert ids[..i + 1][..i] == ids[..i];
      }
      assert ids[..|ids|] == ids;
      selection.ClearSelection();
    }

    /** `handleBulkDelete`: only a confirmed deletion changes anything. */
    method HandleBulkDelete(confirmed: bool)
      modifies store, selection
      ensures confirmed ==> store.todos == RemovedAll(old(store.todos), old(selection.selectedIds))
      ensures confirmed ==> selection.selectedIds == []
      ensures !confirmed ==> store.todos == old(store.todos) && selection.selectedIds == old(selection.selectedIds)
    {
      if confirmed {
        var ids := selection.selectedIds;
        for i := 0 to |ids|
          invariant store.todos == RemovedAll(old(store.todos), ids[..i])
        {
          assert ids[..i + 1][..i] == ids[..i];
          assert RemovedAll(old(store.todos), ids[..i + 1]) == Removed(store.todos, ids[i]);
          store.RemoveTodo(ids[i]);
        }
        assert ids[..|ids|] == ids;
        selection.ClearSelection();
      }
    }
  }
}
