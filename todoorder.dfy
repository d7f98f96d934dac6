/** The due-date comparators the list views hand to `Array.prototype.sort`,
    written exactly as the source writes them, and what sorting with each
    of them guarantees. Two undated todos compare inconsistently under all
    three date comparators (each says the first is greater, or each says it
    is smaller), so nothing is claimed about the order among undated todos. */
module TodoOrder {
  import opened Seqs
  import opened Todos

  /** `() => 0`, the comparator of "none". */
  function KeepOrder(a: Todo, b: Todo): (r: int)
    ensures r <= 0 && r >= 0
  {
    0
  }

  /** Earliest due date first, undated todos last (`date-asc`; the active
      groups of the grouped view). */
  function DatedAscUndatedLast(a: Todo, b: Todo): (r: int)
    ensures r < 0 <==> AscLastLe(a, b) && !AscLastLe(b, a)
    ensures r > 0 <==> !AscLastLe(a, b) || (!HasDate(a) && !HasDate(b))
  {
    if !HasDate(a) then 1
    else if !HasDate(b) then -1
    else a.endAt.value - b.endAt.value
  }

  /** Latest due date first, undated todos first (`date-desc` of the
      filtered view; the completed groups of the grouped view). */
  function DatedDescUndatedFirst(a: Todo, b: Todo): (r: int)
    ensures r < 0 <==> (DescFirstLe(a, b) && !DescFirstLe(b, a)) || (!HasDate(a) && !HasDate(b))
    ensures r > 0 <==> !DescFirstLe(a, b)
  {
    if !HasDate(a) then -1
    else if !HasDate(b) then 1
    else b.endAt.value - a.endAt.value
  }

  /** Latest due date first, undated todos last (`date-desc` of the todo list). */
  function DatedDescUndatedLast(a: Todo, b: Todo): (r: int)
    ensures r < 0 <==> DescLastLe(a, b) && !DescLastLe(b, a)
    ensures r > 0 <==> !DescLastLe(a, b) || (!HasDate(a) && !HasDate(b))
  {
    if !HasDate(a) then 1
    else if !HasDate(b) then -1
    else b.endAt.value - a.endAt.value
  }

  /** No dated todo follows an undated one. */
  predicate UndatedLast(s: seq<Todo>) {
    forall i, j :: 0 <= i < j < |s| && HasDate(s[j]) ==> HasDate(s[i])
  }

  /** No undated todo follows a dated one. */
  predicate UndatedFirst(s: seq<Todo>) {
    forall i, j :: 0 <= i < j < |s| && HasDate(s[i]) ==> HasDate(s[j])
  }

  predicate DatedAscending(s: seq<Todo>) {
    forall i, j :: 0 <= i < j < |s| && HasDate(s[i]) && HasDate(s[j]) ==> s[i].endAt.value <= s[j].endAt.value
  }

  predicate DatedDescending(s: seq<Todo>) {
    forall i, j :: 0 <= i < j < |s| && HasDate(s[i]) && HasDate(s[j]) ==> s[i].endAt.value >= s[j].endAt.value
  }

  /** The orders the three comparators sort into. */
  predicate AscLastLe(a: Todo, b: Todo) {
    !HasDate(b) || (HasDate(a) && a.endAt.value <= b.endAt.value)
  }

  predicate DescFirstLe(a: Todo, b: Todo) {
    !HasDate(a) || (HasDate(b) && b.endAt.value <= a.endAt.value)
  }

  predicate DescLastLe(a: Todo, b: Todo) {
    !HasDate(b) || (HasDate(a) && b.endAt.value <= a.endAt.value)
  }

  /** Under the "none" comparator the sort keeps the order. */
  lemma SortKeepOrder(s: seq<Todo>)
    ensures Sort(s, KeepOrder) == s
  {
    SortNeverGreater(s, KeepOrder);
  }

  /** Ascending sort: a permutation, dated todos ascending, undated last. */
  lemma SortDatedAscUndatedLast(s: seq<Todo>)
    ensures multiset(Sort(s, DatedAscUndatedLast)) == multiset(s)
    ensures UndatedLast(Sort(s, DatedAscUndatedLast))
    ensures DatedAscending(Sort(s, DatedAscUndatedLast))
  {
    assert TotalPreorderOn(AscLastLe, Anything());
    assert RespectsOn(DatedAscUndatedLast, AscLastLe, Anything());
    SortSorted(s, DatedAscUndatedLast, AscLastLe, Anything());
  }

  /** Descending sort with undated first: a permutation, undated todos
      first, dated todos descending. */
  lemma SortDatedDescUndatedFirst(s: seq<Todo>)
    ensures multiset(Sort(s, DatedDescUndatedFirst)) == multiset(s)
    ensures UndatedFirst(Sort(s, DatedDescUndatedFirst))
    ensures DatedDescending(Sort(s, DatedDescUndatedFirst))
  {
    assert TotalPreorderOn(DescFirstLe, Anything());
    assert RespectsOn(DatedDescUndatedFirst, DescFirstLe, Anything());
    SortSorted(s, DatedDescUndatedFirst, DescFirstLe, Anything());
  }

  /** Descending sort with undated last: a permutation, dated todos
      descending, undated last. */
  lemma SortDatedDescUndatedLast(s: seq<Todo>)
    ensures multiset(Sort(s, DatedDescUndatedLast)) == multiset(s)
    ensures UndatedLast(Sort(s, DatedDescUndatedLast))
    ensures DatedDescending(Sort(s, DatedDescUndatedLast))
  {
    assert TotalPreorderOn(DescLastLe, Anything());
    assert RespectsOn(DatedDescUndatedLast, DescLastLe, Anything());
    SortSorted(s, DatedDescUndatedLast, DescLastLe, Anything());
  }
}
