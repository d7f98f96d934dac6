/** The add form's submit handler (`todoForm.tsx`): three checks in order,
    the first failing one setting the error message, and on success one
    `addTodo`. `parsedEndAt` is `new Date(endAtStr)` as a timestamp,
    `startOfToday` is today at local midnight, and `newId` is the id
    `addTodo` draws. */
module TodoForm {
  import opened Seqs
  import opened Todos

  const EmptyTitleError := "タイトルを入力してください"
  const LongTitleError := "タイトルは100文字以内で入力してください"
  const PastDateError := "過去の日付は設定できません"
  const MaxTitleLength := 100

  /** The error the checks leave, "" when all pass: the title must not be
      empty, must not be longer than 100, and a given date must not lie
      before today. */
  function Validate(title: string, endAtStr: string, parsedEndAt: int, startOfToday: int): (error: string)
    ensures error == EmptyTitleError <==> |title| == 0
    ensures error == LongTitleError <==> |title| > MaxTitleLength
    ensures error == PastDateError <==> 0 < |title| <= MaxTitleLength && endAtStr != "" && parsedEndAt < startOfToday
    ensures error == "" <==> 0 < |title| <= MaxTitleLength && (endAtStr == "" || parsedEndAt >= startOfToday)
  {
    assert EmptyTitleError[4] != LongTitleError[4] && EmptyTitleError[0] != PastDateError[0];
    assert LongTitleError[0] != PastDateError[0];
    if |title| == 0 then EmptyTitleError
    else if |title| > MaxTitleLength then LongTitleError
    else if endAtStr != "" && parsedEndAt < startOfToday then PastDateError
    else ""
  }

  /** The due date handed to `addTodo`: none for an empty date field. */
  function SubmittedEndAt(endAtStr: string, parsedEndAt: int): (r: Option<int>)
    ensures r.None? <==> endAtStr == ""
  {
    if endAtStr != "" then Some(parsedEndAt) else None
  }

  /** A due date on today itself is accepted. */
  lemma TodayIsAccepted(title: string, endAtStr: string, startOfToday: int)
    requires 0 < |title| <= MaxTitleLength
    ensures Validate(title, endAtStr, startOfToday, startOfToday) == ""
  {
  }

  class TodoFormState {
    const store: TodoStore
    var error: string

    constructor (store: TodoStore)
      ensures this.store == store && error == ""
    {
      this.store := store;
      error := "";
    }

    /** `onSubmit`: clear the error, run the checks with early returns, then
        add the todo. */
    method OnSubmit(title: string, endAtStr: string, parsedEndAt: int, startOfToday: int, newId: string)
      modifies this, store
      ensures error == Validate(title, endAtStr, parsedEndAt, startOfToday)
      ensures error == "" ==>
        store.todos == Appended(old(store.todos), newId, title, "", "", SubmittedEndAt(endAtStr, parsedEndAt))
      ensures error != "" ==> store.todos == old(store.todos)
    {
      error := "";
      if |title| == 0 {
        error := EmptyTitleError;
        return;
      }
      if |title| > MaxTitleLength {
        error := LongTitleError;
        return;
      }
      if endAtStr != "" {
        if parsedEndAt < startOfToday {
          error := PastDateError;
          return;
        }
      }
      store.AddTodo(newId, title, "", "", SubmittedEndAt(endAtStr, parsedEndAt));
    }
  }
}
