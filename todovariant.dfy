/** Display variants of a todo and their Tailwind class strings
    (`utils/todoVariant.ts`). */
module TodoVariant {

  datatype Variant = Default | Completed | Overdue | DueToday

  /** `getTodoVariant`: completed beats overdue, overdue beats due today. */
  function GetTodoVariant(completed: bool, overdue: bool, dueToday: bool): (v: Variant)
    ensures completed <==> v == Completed
    ensures v == Overdue <==> !completed && overdue
    ensures v == DueToday <==> !completed && !overdue && dueToday
    ensures v == Default <==> !completed && !overdue && !dueToday
  {
    if completed then Completed
    else if overdue then Overdue
    else if dueToday then DueToday
    else Default
  }

  /** JavaScript's white space as far as these strings can hold it. */
  predicate IsSpace(c: char) {
    c == ' ' || c == '\t' || c == '\n' || c == '\r'
  }

  function TrimStart(s: string): (r: string)
    ensures r == [] || !IsSpace(r[0])
    ensures |r| <= |s| && r == s[|s| - |r|..]
    ensures forall i :: 0 <= i < |s| - |r| ==> IsSpace(s[i])
  {
    if s != [] && IsSpace(s[0]) then TrimStart(s[1..]) else s
  }

  function TrimEnd(s: string): (r: string)
    ensures r == [] || !IsSpace(r[|r| - 1])
    ensures |r| <= |s| && r == s[..|r|]
    ensures forall i :: |r| <= i < |s| ==> IsSpace(s[i])
  {
    if s != [] && IsSpace(s[|s| - 1]) then TrimEnd(s[..|s| - 1]) else s
  }

  /** `String.prototype.trim`. */
  function Trim(s: string): string {
    TrimEnd(TrimStart(s))
  }

  /** `getTodoContainerStyle`: the overdue and due-today containers, and
      only they, get the thick border. */
  function ContainerStyle(v: Variant): (r: string)
    ensures (v == Overdue || v == DueToday) <==> |r| >= 9 && r[..9] == "border-2 "
  {
    match v
    case Completed =>
      var r := "bg-slate-50/80";
      assert r[1] != 'o';
      r
    case Overdue => "border-2 border-red-300 bg-red-50"
    case DueToday => "border-2 border-blue-300 bg-blue-50"
    case Default =>
      var r := "border border-cyan-100/50 bg-white/90";
      assert r[6] != '-';
      r
  }

  /** The four container styles are four different strings. */
  lemma ContainerStylesDistinct(v: Variant, w: Variant)
    requires v != w
    ensures ContainerStyle(v) != ContainerStyle(w)
  {
    match v
    case Completed => assert ContainerStyle(v)[0] == 'b' && ContainerStyle(v)[1] == 'g';
    case Overdue => assert ContainerStyle(v)[16] == 'r' && ContainerStyle(DueToday)[16] == 'b';
    case DueToday => assert ContainerStyle(v)[16] == 'b' && ContainerStyle(Overdue)[16] == 'r';
    case Default => assert ContainerStyle(v)[6] == ' ';
  }

  const TitleBase := "font-semibold text-lg"
  const UnderlineOnHover := "hover:underline"

  /** The variant part of the title style. */
  function TitleColour(v: Variant, hasUrl: bool): string {
    match v
    case Completed => "text-slate-400 line-through"
    case Overdue => "font-bold text-red-600"
    case DueToday => if hasUrl then "font-bold text-sky-500" else "font-bold text-blue-600"
    case Default => if hasUrl then "text-sky-500" else "text-slate-700"
  }

  /** `getTodoTitleStyle`: the base, one space, the colour, and the hover
      underline exactly when there is a URL; trimming removes only the
      space an absent underline leaves behind. */
  function TitleStyle(v: Variant, hasUrl: bool): (r: string)
    ensures r == TitleBase + " " + TitleColour(v, hasUrl) + (if hasUrl then " " + UnderlineOnHover else "")
  {
    var a, c := TitleBase, TitleColour(v, hasUrl);
    var u := if hasUrl then UnderlineOnHover else "";
    assert a != [] && !IsSpace(a[0]);
    assert u == [] <==> !hasUrl;
    assert u == [] || !IsSpace(u[|u| - 1]);
    TitleColourEnds(v, hasUrl);
    TrimJoin(a, c, u);
    Trim(a + " " + c + " " + u)
  }

  /** Only the due-today and default colours depend on the URL. */
  lemma TitleColourUrlDependence(v: Variant)
    ensures TitleColour(v, true) != TitleColour(v, false) <==> v == DueToday || v == Default
  {
    match v
    case Completed =>
    case Overdue =>
    case DueToday => assert TitleColour(v, true)[15] == 's' && TitleColour(v, false)[15] == 'b';
    case Default => assert TitleColour(v, true)[6] == 'k' && TitleColour(v, false)[6] == 'l';
  }

  /** Every colour is non-empty and ends in a non-space. */
  lemma TitleColourEnds(v: Variant, hasUrl: bool)
    ensures TitleColour(v, hasUrl) != [] && !IsSpace(TitleColour(v, hasUrl)[|TitleColour(v, hasUrl)| - 1])
  {
  }

  /** Trimming `a + " " + c + " " + u` drops only the trailing space left by an empty `u`. */
  lemma TrimJoin(a: string, c: string, u: string)
    requires a != [] && !IsSpace(a[0])
    requires c != [] && !IsSpace(c[|c| - 1])
    requires u == [] || !IsSpace(u[|u| - 1])
    ensures Trim(a + " " + c + " " + u) == a + " " + c + (if u == [] then "" else " " + u)
  {
    var s := a + " " + c + " " + u;
    assert s[0] == a[0];
    assert TrimStart(s) == s;
    var t := a + " " + c;
    assert t[|t| - 1] == c[|c| - 1];
    if u == [] {
      assert s == t + " ";
      assert s[..|s| - 1] == t;
      assert TrimEnd(t) == t;
    } else {
      assert s[|s| - 1] == u[|u| - 1];
      assert s == t + (" " + u);
    }
  }

  /** The joined style begins with `a` and does not end in white space. */
  lemma JoinedEnds(a: string, c: string, u: string)
    requires c != [] && !IsSpace(c[|c| - 1])
    requires u == [] || !IsSpace(u[|u| - 1])
    ensures (a + " " + c + (if u == [] then "" else " " + u))[..|a|] == a
    ensures !IsSpace((a + " " + c + (if u == [] then "" else " " + u))[|a + " " + c + (if u == [] then "" else " " + u)| - 1])
  {
    var r := a + " " + c + (if u == [] then "" else " " + u);
    assert r == a + (" " + c + (if u == [] then "" else " " + u));
    if u == [] {
      assert r[|r| - 1] == c[|c| - 1];
    } else {
      assert r[|r| - 1] == u[|u| - 1];
    }
  }

  /** The title style starts with the base and has no trailing space. */
  lemma TitleStyleShape(v: Variant, hasUrl: bool)
    ensures TitleStyle(v, hasUrl)[..|TitleBase|] == TitleBase
    ensures TitleStyle(v, hasUrl)[|TitleStyle(v, hasUrl)| - 1] != ' '
  {
    var u := if hasUrl then UnderlineOnHover else "";
    assert u == [] || !IsSpace(u[|u| - 1]);
    TitleColourEnds(v, hasUrl);
    JoinedEnds(TitleBase, TitleColour(v, hasUrl), u);
  }

  /** `p` occurs in `s` as a contiguous piece. */
  predicate Contains(s: string, p: string)
    decreases |s|
  {
    |p| <= |s| && (s[..|p|] == p || Contains(s[1..], p))
  }

  lemma {:induction false} ContainsSuffix(a: string, p: string)
    ensures Contains(a + p, p)
  {
    if a != [] {
      assert (a + p)[1..] == a[1..] + p;
      ContainsSuffix(a[1..], p);
    } else {
      assert (a + p)[..|p|] == p;
    }
  }

  lemma {:induction false} NotContainsWithoutChar(s: string, p: string, k: nat)
    requires k < |p| && p[k] !in s
    ensures !Contains(s, p)
  {
    if |p| <= |s| {
      assert s[..|p|][k] == s[k];
      NotContainsWithoutChar(s[1..], p, k);
    }
  }

  /** The title style before the hover part holds no colon. */
  lemma NoColonInTitle(v: Variant, hasUrl: bool)
    ensures ':' !in TitleBase + " " + TitleColour(v, hasUrl)
  {
    match v
    case Completed => assert ':' !in "font-semibold text-lg" + " " + "text-slate-400 line-through";
    case Overdue => assert ':' !in "font-semibold text-lg" + " " + "font-bold text-red-600";
    case DueToday =>
      assert ':' !in "font-semibold text-lg" + " " + "font-bold text-sky-500";
      assert ':' !in "font-semibold text-lg" + " " + "font-bold text-blue-600";
    case Default =>
      assert ':' !in "font-semibold text-lg" + " " + "text-sky-500";
      assert ':' !in "font-semibold text-lg" + " " + "text-slate-700";
  }

  /** A style that is `s`, or `s` followed by a space and `u`, contains `u`
      exactly in the second case when `s` lacks one of `u`'s characters. */
  lemma ContainsExactlyWhenAppended(style: string, s: string, u: string, k: nat, appended: bool)
    requires k < |u| && u[k] !in s
    requires style == s + (if appended then " " + u else "")
    ensures Contains(style, u) <==> appended
  {
    if appended {
      assert style == (s + " ") + u;
      ContainsSuffix(s + " ", u);
    } else {
      assert style == s;
      NotContainsWithoutChar(s, u, k);
    }
  }

  /** The title style carries the hover underline exactly when there is a URL. */
  lemma TitleStyleUnderline(v: Variant, hasUrl: bool)
    ensures Contains(TitleStyle(v, hasUrl), UnderlineOnHover) <==> hasUrl
  {
    NoColonInTitle(v, hasUrl);
    UnderlineExactlyWhenAppended(TitleBase + " " + TitleColour(v, hasUrl), hasUrl);
  }

  /** Any colon-free prefix carries the hover underline exactly when it is appended. */
  lemma UnderlineExactlyWhenAppended(s: string, hasUrl: bool)
    requires ':' !in s
    ensures Contains(s + (if hasUrl then " " + UnderlineOnHover else ""), UnderlineOnHover) <==> hasUrl
  {
    var u := UnderlineOnHover;
    assert u[5] == ':';
    ContainsExactlyWhenAppended(s + (if hasUrl then " " + u else ""), s, u, 5, hasUrl);
  }

  /** `getTodoDateStyle`'s table; completed and default share an entry. */
  function DateColour(v: Variant): string {
    match v
    case Completed => "text-slate-500"
    case Overdue => "font-semibold text-red-500"
    case DueToday => "font-semibold text-blue-500"
    case Default => "text-slate-500"
  }

  /** `getTodoDateStyle`. */
  function DateStyle(v: Variant): (r: string)
    ensures r == "text-sm " + DateColour(v)
  {
    var s := "text-sm" + " " + DateColour(v);
    assert !IsSpace(s[0]) && !IsSpace(s[|s| - 1]);
    assert TrimStart(s) == s && TrimEnd(s) == s;
    Trim(s)
  }

  /** Completed and default todos show their due dates alike. */
  lemma DateStyleCompletedIsDefault()
    ensures DateStyle(Completed) == DateStyle(Default)
  {
  }
}
