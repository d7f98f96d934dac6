/** The logic of the todo list component (`todoList.tsx`): its own overdue
    test, the flat filter-then-sort of the rows, and the edit and
    delete-confirmation state beside the store. */
module TodoList {
  import opened Seqs
  import opened Todos
  import opened TodoOrder
  import DateJudge

  /** The component's local `isOverdue`; it agrees with the shared classifier. */
  predicate IsOverdue(endAt: Option<int>, completed: bool, startOfToday: int)
    ensures IsOverdue(endAt, completed, startOfToday) == DateJudge.IsOverdue(endAt, completed, startOfToday)
    ensures IsOverdue(endAt, completed, startOfToday) <==>
      !completed && endAt.Some? && endAt.value != 0 && endAt.value < startOfToday
  {
    if DateJudge.Falsy(endAt) || completed then false
    else endAt.value < startOfToday
  }

  /** The rows to render: `todos` filtered (any filter value other than
      active or completed keeps them all), then a copy sorted by due date. */
  method SortedTodos(todos: seq<Todo>, filter: string, sort: string) returns (sortedTodos: seq<Todo>)
    ensures filter == "active" ==> multiset(sortedTodos) == multiset(Filter(todos, IsActive))
    ensures filter == "completed" ==> multiset(sortedTodos) == multiset(Filter(todos, IsCompleted))
    ensures filter == "active" ==> forall t :: t in sortedTodos <==> t in todos && !t.completed
    ensures filter == "completed" ==> forall t :: t in sortedTodos <==> t in todos && t.completed
    ensures filter != "active" && filter != "completed" ==> multiset(sortedTodos) == multiset(todos)
    ensures sort == "date-asc" ==> UndatedLast(sortedTodos) && DatedAscending(sortedTodos)
    ensures sort == "date-desc" ==> UndatedLast(sortedTodos) && DatedDescending(sortedTodos)
    ensures sort != "date-asc" && sort != "date-desc" ==> IsSubsequence(sortedTodos, todos)
    ensures sort != "date-asc" && sort != "date-desc" && filter != "active" && filter != "completed" ==>
      sortedTodos == todos
  {
    var filteredTodos := todos;
    if filter == "active" {
      filteredTodos := Filter(todos, IsActive);
      FilterIsSubsequence(todos, IsActive);
    } else if filter == "completed" {
      filteredTodos := Filter(todos, IsCompleted);
      FilterIsSubsequence(todos, IsCompleted);
    } else {
      SubsequenceReflexive(todos);
    }
    sortedTodos := filteredTodos;
    if sort == "date-asc" {
      SortDatedAscUndatedLast(filteredTodos);
      sortedTodos := Sort(filteredTodos, DatedAscUndatedLast);
    } else if sort == "date-desc" {
      SortDatedDescUndatedLast(filteredTodos);
      sortedTodos := Sort(filteredTodos, DatedDescUndatedLast);
    }
    assert multiset(sortedTodos) == multiset(filteredTodos);
    assert forall t :: t in sortedTodos <==> t in filteredTodos by {
      forall t ensures t in sortedTodos <==> t in filteredTodos {
        assert t in sortedTodos <==> t in multiset(sortedTodos);
        assert t in filteredTodos <==> t in multiset(filteredTodos);
      }
    }
  }

  /** The component's local state next to the store it drives. */
  class TodoListState {
    const store: TodoStore
    var editingId: Option<string>
    var deleteConfirmId: Option<string>

    constructor (store: TodoStore)
      ensures this.store == store
      ensures editingId == None && deleteConfirmId == None
    {
      this.store := store;
      editingId := None;
      deleteConfirmId := None;
    }

    /** JavaScript truthiness of the pending id: set and not "". */
    predicate ConfirmPending()
      reads this
    {
      deleteConfirmId.Some? && deleteConfirmId.value != ""
    }

    /** The edit button (`setEditingId(todo.id)`). */
    method StartEditing(id: string)
      modifies this
      ensures editingId == Some(id) && deleteConfirmId == old(deleteConfirmId)
    {
      editingId := Some(id);
    }

    /** The edit form's cancel (`setEditingId(null)`). */
    method CancelEditing()
      modifies this
      ensures editingId == None && deleteConfirmId == old(deleteConfirmId)
    {
      editingId := None;
    }

    /** `handleUpdate`: apply the edit, then leave edit mode. */
    method HandleUpdate(id: string, title: string, endAt: Option<int>)
      modifies this, store
      ensures store.todos == Updated(old(store.todos), id, title, endAt)
      ensures editingId == None && deleteConfirmId == old(deleteConfirmId)
    {
      store.UpdateTodo(id, title, endAt);
      editingId := None;
    }

    /** `handleDelete`: a completed todo goes at once; an incomplete one only
        opens the confirmation. */
    method HandleDelete(id: string, completed: bool)
      modifies this, store
      ensures !completed ==> deleteConfirmId == Some(id) && store.todos == old(store.todos)
      ensures completed ==> deleteConfirmId == old(deleteConfirmId) && store.todos == Removed(old(store.todos), id)
      ensures editingId == old(editingId)
    {
      if !completed {
        deleteConfirmId := Some(id);
      } else {
        store.RemoveTodo(id);
      }
    }

    /** `confirmDelete`: remove the pending todo and close the confirmation. */
    method ConfirmDelete()
      modifies this, store
      ensures old(ConfirmPending()) ==>
        store.todos == Removed(old(store.todos), old(deleteConfirmId).value) && deleteConfirmId == None
      ensures !old(ConfirmPending()) ==> store.todos == old(store.todos) && deleteConfirmId == old(deleteConfirmId)
      ensures editingId == old(editingId)
    {
      if deleteConfirmId.Some? && deleteConfirmId.value != "" {
        store.RemoveTodo(deleteConfirmId.value);
        deleteConfirmId := None;
      }
    }

    /** `cancelDelete`: close the confirmation, remove nothing. */
    method CancelDelete()
      modifies this
      ensures deleteConfirmId == None && editingId == old(editingId)
    {
      deleteConfirmId := None;
    }
  }
}
