/** The status counters (`todoStatus.tsx`). */
module TodoStatus {
  import opened Seqs
  import opened Todos

  /** `todos.length`: every todo is either active or completed. */
  function TotalCount(todos: seq<Todo>): (n: nat)
    ensures n == |todos|
    ensures n == |Filter(todos, IsActive)| + |Filter(todos, IsCompleted)|
  {
    FilterSplitsLength(todos, IsCompleted, IsActive);
    |todos|
  }

  /** The number of completed todos. */
  function CompletedCount(todos: seq<Todo>): (n: nat)
    ensures n <= |todos|
    ensures n == 0 <==> forall t :: t in todos ==> !t.completed
    ensures n == |todos| <==> forall t :: t in todos ==> t.completed
  {
    var done := Filter(todos, IsCompleted);
    FilterSplitsLength(todos, IsCompleted, IsActive);
    assert |done| == 0 <==> forall t :: t in todos ==> !t.completed by {
      if |done| != 0 {
        assert done[0] in done;
      }
    }
    assert |done| == |todos| <==> forall t :: t in todos ==> t.completed by {
      var open := Filter(todos, IsActive);
      if |done| != |todos| {
        assert open[0] in open;
      }
    }
    |done|
  }

  /** `totalCount - completedCount`: the number of incomplete todos. */
  function ActiveCount(todos: seq<Todo>): (n: int)
    ensures 0 <= n <= |todos|
    ensures n == |Filter(todos, IsActive)|
    ensures n + CompletedCount(todos) == TotalCount(todos)
  {
    FilterSplitsLength(todos, IsCompleted, IsActive);
    TotalCount(todos) - CompletedCount(todos)
  }

  /** Adding a todo adds one to the total and to the active count. */
  lemma AddCountsActive(todos: seq<Todo>, id: string, title: string, note: string, url: string, endAt: Option<int>)
    ensures TotalCount(Appended(todos, id, title, note, url, endAt)) == TotalCount(todos) + 1
    ensures ActiveCount(Appended(todos, id, title, note, url, endAt)) == ActiveCount(todos) + 1
    ensures CompletedCount(Appended(todos, id, title, note, url, endAt)) == CompletedCount(todos)
  {
    FilterAppend(todos, Todo(id, title, note, url, endAt, false), IsCompleted);
  }

  /** Completing every todo leaves no active todo. */
  lemma AllCompletedNoneActive(todos: seq<Todo>)
    requires forall t :: t in todos ==> t.completed
    ensures ActiveCount(todos) == 0 && CompletedCount(todos) == TotalCount(todos)
  {
  }
}
