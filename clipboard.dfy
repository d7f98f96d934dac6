/** Selecting the urgent todos and rendering them as plain text for the
    clipboard (`utils/clipboardUtils.ts`; the clipboard write itself is not
    modelled). `dateString` stands for `toLocaleDateString("ja-JP")`. */
module Clipboard {
  import opened Seqs
  import opened Todos
  import opened DateJudge

  const OverdueLabel := "【期限切れ】"
  const DueTodayLabel := "【本日期限】"
  const NoTodosMessage := "該当するタスクはありません"
  const NoDateText := "期限なし"

  /** The predicate of `filterUrgentTodos`. */
  predicate IsUrgent(t: Todo, startOfToday: int, startOfTomorrow: int) {
    if t.completed then false
    else IsOverdue(t.endAt, t.completed, startOfToday) || IsDueToday(t.endAt, t.completed, startOfToday, startOfTomorrow)
  }

  function Urgent(startOfToday: int, startOfTomorrow: int): Todo -> bool {
    (t: Todo) => IsUrgent(t, startOfToday, startOfTomorrow)
  }

  /** `filterUrgentTodos`: the incomplete todos that are overdue or due
      today, in the order of the input. */
  function FilterUrgentTodos(todos: seq<Todo>, startOfToday: int, startOfTomorrow: int): (r: seq<Todo>)
    ensures forall t :: t in r <==>
      t in todos && !t.completed &&
      (IsOverdue(t.endAt, t.completed, startOfToday) || IsDueToday(t.endAt, t.completed, startOfToday, startOfTomorrow))
    ensures forall t :: multiset(r)[t] == if IsUrgent(t, startOfToday, startOfTomorrow) then multiset(todos)[t] else 0
    ensures IsSubsequence(r, todos)
  {
    FilterIsSubsequence(todos, Urgent(startOfToday, startOfTomorrow));
    FilterCounts(todos, Urgent(startOfToday, startOfTomorrow));
    Filter(todos, Urgent(startOfToday, startOfTomorrow))
  }

  /** Urgent todos are incomplete, dated, and due before tomorrow starts. */
  lemma UrgentAreDueBeforeTomorrow(todos: seq<Todo>, startOfToday: int, startOfTomorrow: int)
    requires startOfToday <= startOfTomorrow
    ensures forall t :: t in FilterUrgentTodos(todos, startOfToday, startOfTomorrow) ==>
      !t.completed && HasDate(t) && t.endAt.value < startOfTomorrow
  {
  }

  /** Of an incomplete todo due yesterday, another due today and a
      completed one due yesterday, the first two are urgent. */
  lemma UrgentExample(startOfToday: int, startOfTomorrow: int)
    requires 1 < startOfToday < startOfTomorrow
    ensures var a := Todo("1", "A", "", "", Some(startOfToday - 1), false);
      var b := Todo("2", "B", "", "", Some(startOfToday), false);
      var c := Todo("3", "C", "", "", Some(startOfToday - 1), true);
      FilterUrgentTodos([a, b, c], startOfToday, startOfTomorrow) == [a, b]
  {
    var a := Todo("1", "A", "", "", Some(startOfToday - 1), false);
    var b := Todo("2", "B", "", "", Some(startOfToday), false);
    var c := Todo("3", "C", "", "", Some(startOfToday - 1), true);
    var p := Urgent(startOfToday, startOfTomorrow);
    assert [a, b, c][1..] == [b, c] && [b, c][1..] == [c] && [c][1..] == [];
    assert p(a) && p(b) && !p(c);
    assert Filter([c], p) == [];
    assert Filter([b, c], p) == [b];
  }

  /** The labels in front of a title; `isOverdue` and `isDueToday` never
      both hold, so at most one label is shown. */
  function Label(t: Todo, startOfToday: int, startOfTomorrow: int): (r: string)
    ensures r == OverdueLabel <==> IsOverdue(t.endAt, t.completed, startOfToday)
    ensures r == DueTodayLabel <==> IsDueToday(t.endAt, t.completed, startOfToday, startOfTomorrow)
    ensures r == "" <==>
      !IsOverdue(t.endAt, t.completed, startOfToday) && !IsDueToday(t.endAt, t.completed, startOfToday, startOfTomorrow)
  {
    OverdueExcludesDueToday(t.endAt, t.completed, startOfToday, startOfTomorrow);
    assert OverdueLabel != DueTodayLabel by {
      assert OverdueLabel[1] != DueTodayLabel[1];
    }
    (if IsOverdue(t.endAt, t.completed, startOfToday) then OverdueLabel else "") +
    (if IsDueToday(t.endAt, t.completed, startOfToday, startOfTomorrow) then DueTodayLabel else "")
  }

  function DateText(t: Todo, dateString: int -> string): string {
    if HasDate(t) then dateString(t.endAt.value) else NoDateText
  }

  /** The note line; empty exactly when there is no note. */
  function NoteLine(t: Todo): (r: string)
    ensures r == "" <==> t.note == ""
  {
    if t.note != "" then "\n  メモ: " + t.note else ""
  }

  /** The URL line; empty exactly when there is no URL. */
  function UrlLine(t: Todo): (r: string)
    ensures r == "" <==> t.url == ""
  {
    if t.url != "" then "\n  URL: " + t.url else ""
  }

  /** The text block of one todo: label, title, due date, then the note
      line before the URL line. */
  function Block(t: Todo, startOfToday: int, startOfTomorrow: int, dateString: int -> string): string {
    Label(t, startOfToday, startOfTomorrow) + t.title + " (期限: " + DateText(t, dateString) + ")" +
    NoteLine(t) + UrlLine(t)
  }

  function Blocks(todos: seq<Todo>, startOfToday: int, startOfTomorrow: int, dateString: int -> string): (r: seq<string>)
    ensures |r| == |todos|
    ensures forall i :: 0 <= i < |todos| ==> r[i] == Block(todos[i], startOfToday, startOfTomorrow, dateString)
  {
    seq(|todos|, i requires 0 <= i < |todos| => Block(todos[i], startOfToday, startOfTomorrow, dateString))
  }

  /** `formatTodosAsText`. */
  function FormatTodosAsText(todos: seq<Todo>, startOfToday: int, startOfTomorrow: int, dateString: int -> string): (r: string)
    ensures todos == [] ==> r == NoTodosMessage
  {
    if |todos| == 0 then NoTodosMessage
    else Join(Blocks(todos, startOfToday, startOfTomorrow, dateString), "\n\n")
  }

  /** One todo formats to its own block. */
  lemma FormatSingle(t: Todo, startOfToday: int, startOfTomorrow: int, dateString: int -> string)
    ensures FormatTodosAsText([t], startOfToday, startOfTomorrow, dateString) == Block(t, startOfToday, startOfTomorrow, dateString)
  {
  }

  /** Each further todo adds a blank line and its block at the end. */
  lemma FormatSnoc(todos: seq<Todo>, t: Todo, startOfToday: int, startOfTomorrow: int, dateString: int -> string)
    requires todos != []
    ensures FormatTodosAsText(todos + [t], startOfToday, startOfTomorrow, dateString) ==
      FormatTodosAsText(todos, startOfToday, startOfTomorrow, dateString) + "\n\n" + Block(t, startOfToday, startOfTomorrow, dateString)
  {
    var bs := Blocks(todos, startOfToday, startOfTomorrow, dateString);
    assert Blocks(todos + [t], startOfToday, startOfTomorrow, dateString) == bs + [Block(t, startOfToday, startOfTomorrow, dateString)];
    JoinSnoc(bs, Block(t, startOfToday, startOfTomorrow, dateString), "\n\n");
  }
}
