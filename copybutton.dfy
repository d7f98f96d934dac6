/** The copy button (`copyButton/todoCopyButton.tsx`): a three-state copy
    status driven by the copy result and a timer, and the label, style and
    enabledness it shows. The clipboard write's outcome is the parameter
    `written`, and the two-second timer is the explicit event `Timeout`. */
module CopyButton {
  import opened Seqs
  import opened Todos
  import opened Clipboard

  datatype CopyStatus = Idle | Success | Error

  const SuccessStyle := "bg-green-500 hover:bg-green-600 text-white"
  const ErrorStyle := "bg-red-500 hover:bg-red-600 text-white"
  const IdleStyle := "bg-cyan-600 hover:bg-cyan-700 text-white"

  const SuccessText := "コピーしました！"
  const ErrorText := "コピー失敗"
  const IdleText := "期限切れ・本日期限のタスクをコピー"

  /** `getButtonStyle`: "idle" takes the default branch. */
  function ButtonStyle(status: CopyStatus): (r: string)
    ensures r == SuccessStyle <==> status == Success
    ensures r == ErrorStyle <==> status == Error
    ensures r == IdleStyle <==> status == Idle
  {
    assert SuccessStyle[3] != ErrorStyle[3] && SuccessStyle[3] != IdleStyle[3] && ErrorStyle[3] != IdleStyle[3];
    match status
    case Success => SuccessStyle
    case Error => ErrorStyle
    case Idle => IdleStyle
  }

  /** `getButtonText`: "idle" takes the default branch. */
  function ButtonText(status: CopyStatus): (r: string)
    ensures r == SuccessText <==> status == Success
    ensures r == ErrorText <==> status == Error
    ensures r == IdleText <==> status == Idle
  {
    assert SuccessText[0] == ErrorText[0] && SuccessText[3] != ErrorText[3];
    assert SuccessText[0] != IdleText[0] && ErrorText[0] != IdleText[0];
    match status
    case Success => SuccessText
    case Error => ErrorText
    case Idle => IdleText
  }

  /** `disabled`: while a result is shown, or when nothing is urgent. */
  predicate Disabled(status: CopyStatus, todos: seq<Todo>, startOfToday: int, startOfTomorrow: int)
    ensures Disabled(status, todos, startOfToday, startOfTomorrow) <==>
      status != Idle || forall t :: t in todos ==> !IsUrgent(t, startOfToday, startOfTomorrow)
  {
    var u := FilterUrgentTodos(todos, startOfToday, startOfTomorrow);
    assert |u| > 0 ==> u[0] in u;
    status != Idle || |u| == 0
  }

  /** The count message under the button. */
  predicate ShowsCount(status: CopyStatus, todos: seq<Todo>, startOfToday: int, startOfTomorrow: int)
    ensures ShowsCount(status, todos, startOfToday, startOfTomorrow) <==>
      status == Idle && exists t :: t in todos && IsUrgent(t, startOfToday, startOfTomorrow)
  {
    var u := FilterUrgentTodos(todos, startOfToday, startOfTomorrow);
    assert |u| > 0 ==> u[0] in u;
    |u| > 0 && status == Idle
  }

  /** The count message shows exactly while the button is enabled, that is
      while the status is idle and some incomplete todo is overdue or due
      today. */
  lemma ShowsCountIffEnabled(status: CopyStatus, todos: seq<Todo>, startOfToday: int, startOfTomorrow: int)
    ensures ShowsCount(status, todos, startOfToday, startOfTomorrow) <==> !Disabled(status, todos, startOfToday, startOfTomorrow)
    ensures !Disabled(status, todos, startOfToday, startOfTomorrow) <==>
      status == Idle && exists t :: t in todos && IsUrgent(t, startOfToday, startOfTomorrow)
  {
  }

  class CopyButtonState {
    var status: CopyStatus

    constructor ()
      ensures status == Idle
    {
      status := Idle;
    }

    /** `handleCopy`: the text handed to the clipboard, and the status the
        write's outcome selects. */
    method HandleCopy(todos: seq<Todo>, startOfToday: int, startOfTomorrow: int, dateString: int -> string, written: bool)
      returns (text: string)
      modifies this
      ensures text == FormatTodosAsText(FilterUrgentTodos(todos, startOfToday, startOfTomorrow), startOfToday, startOfTomorrow, dateString)
      ensures status == if written then Success else Error
    {
      text := FormatTodosAsText(FilterUrgentTodos(todos, startOfToday, startOfTomorrow), startOfToday, startOfTomorrow, dateString);
      if written {
        status := Success;
      } else {
        status := Error;
      }
    }

    /** The timer set by `handleCopy` fires. */
    method Timeout()
      modifies this
      ensures status == Idle
    {
      status := Idle;
    }
  }
}
