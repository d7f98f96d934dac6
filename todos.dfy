/** The todo record and the todo store (`todoAtom.ts`): an id-keyed list
    that is appended to, filtered by id and mapped over. */
module Todos {
  import opened Seqs
  import opened DateJudge

  /** One todo. An absent `note` or `url` is the empty string, which is
      how the application tests them (`todo.note ? … : …`). */
  datatype Todo = Todo(
    id: string,
    title: string,
    note: string,
    url: string,
    endAt: Option<int>,
    completed: bool)

  /** JavaScript's `!todo.endAt` is false: a due date is present and is not 0. */
  predicate HasDate(t: Todo) {
    !Falsy(t.endAt)
  }

  predicate IsCompleted(t: Todo) {
    t.completed
  }

  predicate IsActive(t: Todo) {
    !t.completed
  }

  /** The `filter` predicate of `removeTodo`. */
  function IdIsNot(id: string): Todo -> bool {
    (t: Todo) => t.id != id
  }

  predicate IdAbsent(todos: seq<Todo>, id: string) {
    forall t :: t in todos ==> t.id != id
  }

  /** The store invariant the application relies on: ids are unique. */
  predicate UniqueIds(todos: seq<Todo>) {
    forall i, j :: 0 <= i < j < |todos| ==> todos[i].id != todos[j].id
  }

  /** `addTodo`: the new todo, not completed, goes at the end. */
  function Appended(todos: seq<Todo>, id: string, title: string, note: string, url: string, endAt: Option<int>): (r: seq<Todo>)
    ensures |r| == |todos| + 1 && r[..|todos|] == todos
    ensures r[|todos|].id == id && r[|todos|].title == title && r[|todos|].note == note
    ensures r[|todos|].url == url && r[|todos|].endAt == endAt && !r[|todos|].completed
  {
    todos + [Todo(id, title, note, url, endAt, false)]
  }

  /** `removeTodo`: every todo with that id goes, the rest keep their order. */
  function Removed(todos: seq<Todo>, id: string): (r: seq<Todo>)
    ensures forall t :: t in r <==> t in todos && t.id != id
    ensures forall t :: multiset(r)[t] == if t.id != id then multiset(todos)[t] else 0
    ensures IsSubsequence(r, todos)
    ensures IdAbsent(todos, id) ==> r == todos
  {
    FilterIsSubsequence(todos, IdIsNot(id));
    FilterCounts(todos, IdIsNot(id));
    assert IdAbsent(todos, id) ==> Filter(todos, IdIsNot(id)) == todos by {
      if IdAbsent(todos, id) {
        FilterAll(todos, IdIsNot(id));
      }
    }
    Filter(todos, IdIsNot(id))
  }

  /** `setCompleted`: only `completed` of the todos with that id changes. */
  function WithCompleted(todos: seq<Todo>, id: string, value: bool): (r: seq<Todo>)
    ensures |r| == |todos|
    ensures forall i :: 0 <= i < |r| ==> r[i].(completed := todos[i].completed) == todos[i]
    ensures forall i :: 0 <= i < |r| ==> r[i].completed == (if todos[i].id == id then value else todos[i].completed)
  {
    seq(|todos|, i requires 0 <= i < |todos| => if todos[i].id == id then todos[i].(completed := value) else todos[i])
  }

  /** Merges an edit into the todos with that id; `id` and `completed` stay. */
  function Updated(todos: seq<Todo>, id: string, title: string, endAt: Option<int>): (r: seq<Todo>)
    ensures |r| == |todos|
    ensures forall i :: 0 <= i < |r| ==> r[i].id == todos[i].id && r[i].completed == todos[i].completed
    ensures forall i :: 0 <= i < |r| ==> r[i].note == todos[i].note && r[i].url == todos[i].url
    ensures forall i :: 0 <= i < |r| && todos[i].id == id ==> r[i].title == title && r[i].endAt == endAt
    ensures forall i :: 0 <= i < |r| && todos[i].id != id ==> r[i] == todos[i]
  {
    seq(|todos|, i requires 0 <= i < |todos| => if todos[i].id == id then todos[i].(title := title, endAt := endAt) else todos[i])
  }

  lemma WithCompletedIdempotent(todos: seq<Todo>, id: string, value: bool)
    ensures WithCompleted(WithCompleted(todos, id, value), id, value) == WithCompleted(todos, id, value)
  {
  }

  /** Adding a todo under a fresh id and removing that id gives back the list. */
  lemma AddThenRemove(todos: seq<Todo>, id: string, title: string, note: string, url: string, endAt: Option<int>)
    requires IdAbsent(todos, id)
    ensures Removed(Appended(todos, id, title, note, url, endAt), id) == todos
  {
    var t := Todo(id, title, note, url, endAt, false);
    FilterAppend(todos, t, IdIsNot(id));
    FilterAll(todos, IdIsNot(id));
  }

  lemma AppendedKeepsUniqueIds(todos: seq<Todo>, id: string, title: string, note: string, url: string, endAt: Option<int>)
    requires UniqueIds(todos) && IdAbsent(todos, id)
    ensures UniqueIds(Appended(todos, id, title, note, url, endAt))
  {
    var r := Appended(todos, id, title, note, url, endAt);
    forall i, j | 0 <= i < j < |r| ensures r[i].id != r[j].id {
      if j == |todos| {
        assert r[i] == todos[i];
        assert todos[i] in todos;
      } else {
        assert r[i] == todos[i] && r[j] == todos[j];
      }
    }
  }

  lemma {:induction false} RemovedKeepsUniqueIds(todos: seq<Todo>, id: string)
    requires UniqueIds(todos)
    ensures UniqueIds(Removed(todos, id))
  {
    if todos != [] {
      var rest := todos[1..];
      assert UniqueIds(rest) by {
        forall i, j | 0 <= i < j < |rest| ensures rest[i].id != rest[j].id {
          assert rest[i] == todos[i + 1] && rest[j] == todos[j + 1];
        }
      }
      RemovedKeepsUniqueIds(rest, id);
      var r := Removed(todos, id);
      if todos[0].id != id {
        assert r == [todos[0]] + Removed(rest, id);
        forall i, j | 0 <= i < j < |r| ensures r[i].id != r[j].id {
          if i == 0 {
            assert r[j] in Removed(rest, id) by {
              assert r[j] == Removed(rest, id)[j - 1];
            }
            var k :| 0 <= k < |rest| && rest[k] == r[j];
            assert todos[k + 1] == r[j];
          } else {
            assert r[i] == Removed(rest, id)[i - 1] && r[j] == Removed(rest, id)[j - 1];
          }
        }
      } else {
        assert r == Removed(rest, id);
      }
    }
  }

  lemma WithCompletedKeepsUniqueIds(todos: seq<Todo>, id: string, value: bool)
    requires UniqueIds(todos)
    ensures UniqueIds(WithCompleted(todos, id, value))
  {
  }

  /** The todo store: one list of todos, replaced by each update. */
  class TodoStore {
    var todos: seq<Todo>

    constructor ()
      ensures todos == []
    {
      todos := [];
    }

    /** `addTodo`; `newId` stands for the `crypto.randomUUID()` the source draws. */
    method AddTodo(newId: string, title: string, note: string, url: string, endAt: Option<int>)
      modifies this
      ensures todos == Appended(old(todos), newId, title, note, url, endAt)
      ensures UniqueIds(old(todos)) && IdAbsent(old(todos), newId) ==> UniqueIds(todos)
    {
      if UniqueIds(todos) && IdAbsent(todos, newId) {
        AppendedKeepsUniqueIds(todos, newId, title, note, url, endAt);
      }
      todos := todos + [Todo(newId, title, note, url, endAt, false)];
    }

    method RemoveTodo(id: string)
      modifies this
      ensures todos == Removed(old(todos), id)
      ensures UniqueIds(old(todos)) ==> UniqueIds(todos)
    {
      if UniqueIds(todos) {
        RemovedKeepsUniqueIds(todos, id);
      }
      todos := Filter(todos, IdIsNot(id));
    }

    method SetCompleted(id: string, value: bool)
      modifies this
      ensures todos == WithCompleted(old(todos), id, value)
      ensures UniqueIds(old(todos)) ==> UniqueIds(todos)
    {
      if UniqueIds(todos) {
        WithCompletedKeepsUniqueIds(todos, id, value);
      }
      todos := WithCompleted(todos, id, value);
    }

    /** `updateTodo(id, { title, endAt })` as the todo list calls it. */
    method UpdateTodo(id: string, title: string, endAt: Option<int>)
      modifies this
      ensures todos == Updated(old(todos), id, title, endAt)
    {
      todos := Updated(todos, id, title, endAt);
    }
  }
}
