/** The due-date classifier (`utils/dateJudge.ts`). The clock is passed in:
    `startOfToday` is today at 00:00:00.000 local time and `startOfTomorrow`
    the start of the next calendar day, both in epoch milliseconds. */
module DateJudge {
  import opened Seqs

  /** JavaScript's `!endAt`: absent, or the falsy timestamp 0. */
  predicate Falsy(endAt: Option<int>) {
    endAt.None? || endAt.value == 0
  }

  /** `isOverdue(endAt, completed)`. */
  predicate IsOverdue(endAt: Option<int>, completed: bool, startOfToday: int)
    ensures completed ==> !IsOverdue(endAt, completed, startOfToday)
    ensures Falsy(endAt) ==> !IsOverdue(endAt, completed, startOfToday)
    ensures !completed && !Falsy(endAt) ==>
      (IsOverdue(endAt, completed, startOfToday) <==> endAt.value < startOfToday)
  {
    if Falsy(endAt) || completed then false
    else endAt.value < startOfToday
  }

  /** `isDueToday(endAt, completed)`. */
  predicate IsDueToday(endAt: Option<int>, completed: bool, startOfToday: int, startOfTomorrow: int)
    ensures completed ==> !IsDueToday(endAt, completed, startOfToday, startOfTomorrow)
    ensures Falsy(endAt) ==> !IsDueToday(endAt, completed, startOfToday, startOfTomorrow)
    ensures !completed && !Falsy(endAt) ==>
      (IsDueToday(endAt, completed, startOfToday, startOfTomorrow) <==> startOfToday <= endAt.value < startOfTomorrow)
  {
    if Falsy(endAt) || completed then false
    else endAt.value >= startOfToday && endAt.value < startOfTomorrow
  }

  /** A todo is never both overdue and due today. */
  lemma OverdueExcludesDueToday(endAt: Option<int>, completed: bool, startOfToday: int, startOfTomorrow: int)
    ensures !(IsOverdue(endAt, completed, startOfToday) && IsDueToday(endAt, completed, startOfToday, startOfTomorrow))
  {
  }

  /** A todo due tomorrow or later is neither overdue nor due today. */
  lemma LaterIsNeither(endAt: Option<int>, completed: bool, startOfToday: int, startOfTomorrow: int)
    requires startOfToday <= startOfTomorrow
    requires endAt.Some? && endAt.value >= startOfTomorrow
    ensures !IsOverdue(endAt, completed, startOfToday)
    ensures !IsDueToday(endAt, completed, startOfToday, startOfTomorrow)
  {
  }
}
