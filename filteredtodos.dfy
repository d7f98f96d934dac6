/** The flat filter-and-sort view (`filter/useFilteredTodos.ts`): table
    lookups of a filter predicate and a comparator, each with a fallback,
    then `todos.filter(f).sort(c)`. Sorting acts on the fresh array that
    `filter` returns, so the store's list is never reordered; as values
    here, the input sequence is unchanged by construction. */
module FilteredTodos {
  import opened Seqs
  import opened Todos
  import opened TodoOrder

  function KeepAll(): Todo -> bool {
    (t: Todo) => true
  }

  /** `filterFunctions[filter] ?? filterFunctions.all`. */
  function FilterFunction(filter: string): Todo -> bool {
    if filter == "active" then IsActive
    else if filter == "completed" then IsCompleted
    else KeepAll()
  }

  /** `sortCompareFunctions[sort] ?? sortCompareFunctions.none`. */
  function SortFunction(sort: string): (Todo, Todo) -> int {
    if sort == "date-asc" then DatedAscUndatedLast
    else if sort == "date-desc" then DatedDescUndatedFirst
    else KeepOrder
  }

  /** The filtered list before sorting. */
  function Filtered(todos: seq<Todo>, filter: string): (r: seq<Todo>)
    ensures IsSubsequence(r, todos)
    ensures filter == "active" ==> forall t :: t in r <==> t in todos && !t.completed
    ensures filter == "completed" ==> forall t :: t in r <==> t in todos && t.completed
    ensures filter == "active" ==> forall t :: multiset(r)[t] == if t.completed then 0 else multiset(todos)[t]
    ensures filter == "completed" ==> forall t :: multiset(r)[t] == if t.completed then multiset(todos)[t] else 0
    ensures filter != "active" && filter != "completed" ==> r == todos
  {
    FilterIsSubsequence(todos, FilterFunction(filter));
    FilterCounts(todos, FilterFunction(filter));
    assert filter != "active" && filter != "completed" ==> Filter(todos, FilterFunction(filter)) == todos by {
      if filter != "active" && filter != "completed" {
        FilterAll(todos, KeepAll());
      }
    }
    Filter(todos, FilterFunction(filter))
  }

  /** The hook's result. */
  function FilteredAndSortedTodos(todos: seq<Todo>, filter: string, sort: string): (r: seq<Todo>)
    ensures multiset(r) == multiset(Filtered(todos, filter))
  {
    Sort(Filtered(todos, filter), SortFunction(sort))
  }

  /** "none", and every sort value without a comparator, keeps the filter order. */
  lemma UnsortedKeepsFilterOrder(todos: seq<Todo>, filter: string, sort: string)
    requires sort != "date-asc" && sort != "date-desc"
    ensures FilteredAndSortedTodos(todos, filter, sort) == Filtered(todos, filter)
  {
    SortKeepOrder(Filtered(todos, filter));
  }

  /** `date-asc`: dated todos first, by ascending due date, undated after them. */
  lemma DateAscOrder(todos: seq<Todo>, filter: string)
    ensures UndatedLast(FilteredAndSortedTodos(todos, filter, "date-asc"))
    ensures DatedAscending(FilteredAndSortedTodos(todos, filter, "date-asc"))
  {
    SortDatedAscUndatedLast(Filtered(todos, filter));
  }

  /** `date-desc`: undated todos first, then dated ones by descending due date. */
  lemma DateDescOrder(todos: seq<Todo>, filter: string)
    ensures UndatedFirst(FilteredAndSortedTodos(todos, filter, "date-desc"))
    ensures DatedDescending(FilteredAndSortedTodos(todos, filter, "date-desc"))
  {
    SortDatedDescUndatedFirst(Filtered(todos, filter));
  }
}
