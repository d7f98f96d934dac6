/** The two-level grouped view (`filter/useGroupedTodos.ts`): the todos that
    match the filter are put into year and month buckets (one "no-date"
    bucket for undated todos), every bucket is sorted by due date, and years
    and months are ordered; the direction of every order depends on the
    filter. The calendar (`new Date(endAt).getFullYear()` and
    `getMonth() + 1`) is the parameter `yearMonthOf`. */
module GroupedTodos {
  import opened Seqs
  import opened Todos
  import opened TodoOrder

  /** The local calendar year and 1-based month of a timestamp. */
  datatype YearMonth = YearMonth(year: int, month: int)

  /** The keys of the `grouped` dictionary: `"no-date"` or a year, and
      `"no-date"` or a month. */
  datatype YearKey = NoDateYear | Year(year: int)
  datatype MonthKey = NoDateMonth | Month(month: int)

  /** The hook's output elements. */
  datatype MonthGroup = MonthGroup(month: MonthKey, todos: seq<Todo>)
  datatype YearGroup = YearGroup(year: YearKey, months: seq<MonthGroup>)

  /** `{ [year]: { [month]: Todo[] } }`. */
  type Grouped = map<YearKey, map<MonthKey, seq<Todo>>>

  /** `filterFunctions[filter]`; the table has no fallback, so any other
      filter value would pass `undefined` to `filter`. */
  function FilterFunction(filter: string): Todo -> bool
    requires filter == "active" || filter == "completed"
  {
    if filter == "active" then IsActive else IsCompleted
  }

  /** The filtered todos, in their original order. */
  function Filtered(todos: seq<Todo>, filter: string): (r: seq<Todo>)
    requires filter == "active" || filter == "completed"
    ensures IsSubsequence(r, todos)
    ensures filter == "active" ==> forall t :: t in r <==> t in todos && !t.completed
    ensures filter == "completed" ==> forall t :: t in r <==> t in todos && t.completed
    ensures filter == "active" ==> forall t :: multiset(r)[t] == if t.completed then 0 else multiset(todos)[t]
    ensures filter == "completed" ==> forall t :: multiset(r)[t] == if t.completed then multiset(todos)[t] else 0
  {
    FilterIsSubsequence(todos, FilterFunction(filter));
    FilterCounts(todos, FilterFunction(filter));
    Filter(todos, FilterFunction(filter))
  }

  function YearKeyOf(t: Todo, yearMonthOf: int -> YearMonth): YearKey {
    if !HasDate(t) then NoDateYear else Year(yearMonthOf(t.endAt.value).year)
  }

  function MonthKeyOf(t: Todo, yearMonthOf: int -> YearMonth): MonthKey {
    if !HasDate(t) then NoDateMonth else Month(yearMonthOf(t.endAt.value).month)
  }

  function InBucket(y: YearKey, m: MonthKey, yearMonthOf: int -> YearMonth): Todo -> bool {
    (t: Todo) => YearKeyOf(t, yearMonthOf) == y && MonthKeyOf(t, yearMonthOf) == m
  }

  /** The todos of `s` that belong under year `y` and month `m`, in order. */
  function Bucket(s: seq<Todo>, y: YearKey, m: MonthKey, yearMonthOf: int -> YearMonth): seq<Todo> {
    Filter(s, InBucket(y, m, yearMonthOf))
  }

  /** `years` lists the keys of `grouped` once each (`Object.keys(grouped)`),
      and `months[y]` the keys of `grouped[y]`; no year is without months. */
  ghost predicate Keyed(grouped: Grouped, years: seq<YearKey>, months: map<YearKey, seq<MonthKey>>) {
    && NoDup(years)
    && (forall y :: y in grouped <==> y in years)
    && (forall y :: y in grouped ==>
          y in months && NoDup(months[y]) && months[y] != [] &&
          forall m :: m in grouped[y] <==> m in months[y])
  }

  /** `grouped` holds exactly the non-empty buckets of `s`. */
  ghost predicate GroupsOf(s: seq<Todo>, yearMonthOf: int -> YearMonth, grouped: Grouped,
                           years: seq<YearKey>, months: map<YearKey, seq<MonthKey>>) {
    && Keyed(grouped, years, months)
    && (forall t :: t in s ==>
          YearKeyOf(t, yearMonthOf) in grouped && MonthKeyOf(t, yearMonthOf) in grouped[YearKeyOf(t, yearMonthOf)])
    && (forall y, m :: y in grouped && m in grouped[y] ==>
          grouped[y][m] == Bucket(s, y, m, yearMonthOf) && grouped[y][m] != [])
  }

  /** One `push` of the grouping loop, creating the year and month entries
      when they are missing. */
  function Put(grouped: Grouped, y: YearKey, m: MonthKey, t: Todo): Grouped {
    var inner := if y in grouped then grouped[y] else map[];
    var bucket := if m in inner then inner[m] else [];
    grouped[y := inner[m := bucket + [t]]]
  }

  function PutYear(years: seq<YearKey>, grouped: Grouped, y: YearKey): seq<YearKey> {
    if y in grouped then years else years + [y]
  }

  function PutMonth(months: map<YearKey, seq<MonthKey>>, grouped: Grouped, y: YearKey, m: MonthKey): map<YearKey, seq<MonthKey>>
    requires y in grouped ==> y in months
  {
    if y !in grouped then months[y := [m]]
    else if m in grouped[y] then months
    else months[y := months[y] + [m]]
  }

  /** Each `push` keeps every key listed once, and every year with its months. */
  lemma KeyedPut(grouped: Grouped, years: seq<YearKey>, months: map<YearKey, seq<MonthKey>>,
                 y: YearKey, m: MonthKey, t: Todo)
    requires Keyed(grouped, years, months)
    ensures Keyed(Put(grouped, y, m, t), PutYear(years, grouped, y), PutMonth(months, grouped, y, m))
  {
    var g' := Put(grouped, y, m, t);
    var ys' := PutYear(years, grouped, y);
    var ms' := PutMonth(months, grouped, y, m);
    if y !in grouped {
      NoDupConcat(years, [y]);
      assert ms'[y] == [m];
    } else if m !in grouped[y] {
      NoDupConcat(months[y], [m]);
    }
    assert forall y' :: y' in g' <==> y' in ys';
    forall y' | y' in g'
      ensures y' in ms' && NoDup(ms'[y']) && ms'[y'] != [] && forall m' :: m' in g'[y'] <==> m' in ms'[y']
    {
      if y' != y {
        assert g'[y'] == grouped[y'] && ms'[y'] == months[y'];
      }
    }
  }

  /** Each `push` keeps `grouped` equal to the buckets of the todos seen so far. */
  lemma GroupsOfPut(s: seq<Todo>, t: Todo, yearMonthOf: int -> YearMonth, grouped: Grouped,
                    years: seq<YearKey>, months: map<YearKey, seq<MonthKey>>)
    requires GroupsOf(s, yearMonthOf, grouped, years, months)
    ensures GroupsOf(s + [t], yearMonthOf,
                     Put(grouped, YearKeyOf(t, yearMonthOf), MonthKeyOf(t, yearMonthOf), t),
                     PutYear(years, grouped, YearKeyOf(t, yearMonthOf)),
                     PutMonth(months, grouped, YearKeyOf(t, yearMonthOf), MonthKeyOf(t, yearMonthOf)))
  {
    var y, m := YearKeyOf(t, yearMonthOf), MonthKeyOf(t, yearMonthOf);
    var g' := Put(grouped, y, m, t);
    KeyedPut(grouped, years, months, y, m, t);
    forall u | u in s + [t]
      ensures YearKeyOf(u, yearMonthOf) in g' && MonthKeyOf(u, yearMonthOf) in g'[YearKeyOf(u, yearMonthOf)]
    {
      if u != t {
        assert u in s;
      }
    }
    forall y', m' | y' in g' && m' in g'[y']
      ensures g'[y'][m'] == Bucket(s + [t], y', m', yearMonthOf) && g'[y'][m'] != []
    {
      FilterAppend(s, t, InBucket(y', m', yearMonthOf));
      if y' == y && m' == m {
        if !(y in grouped && m in grouped[y]) {
          FilterNone(s, InBucket(y, m, yearMonthOf));
        }
      } else {
        assert y' in grouped && m' in grouped[y'] && g'[y'][m'] == grouped[y'][m'];
      }
    }
  }

  /** The undated branch of the loop body: `grouped["no-date"]` starts as
      `{ "no-date": [] }`. */
  method PushUndated(grouped: Grouped, years: seq<YearKey>, months: map<YearKey, seq<MonthKey>>, todo: Todo)
    returns (grouped': Grouped, years': seq<YearKey>, months': map<YearKey, seq<MonthKey>>)
    requires NoDateYear in grouped ==> NoDateYear in months && NoDateMonth in grouped[NoDateYear]
    ensures grouped' == Put(grouped, NoDateYear, NoDateMonth, todo)
    ensures years' == PutYear(years, grouped, NoDateYear)
    ensures months' == PutMonth(months, grouped, NoDateYear, NoDateMonth)
  {
    grouped', years', months' := grouped, years, months;
    if NoDateYear !in grouped' {
      grouped' := grouped'[NoDateYear := map[NoDateMonth := []]];
      years' := years' + [NoDateYear];
      months' := months'[NoDateYear := [NoDateMonth]];
    }
    var inner := grouped'[NoDateYear];
    grouped' := grouped'[NoDateYear := inner[NoDateMonth := inner[NoDateMonth] + [todo]]];
    if NoDateYear !in grouped {
      assert inner[NoDateMonth] + [todo] == [todo];
      assert inner[NoDateMonth := [todo]] == map[NoDateMonth := [todo]];
    }
  }

  /** The dated branch of the loop body: the year entry, then the month
      entry, are created when missing. */
  method PushDated(grouped: Grouped, years: seq<YearKey>, months: map<YearKey, seq<MonthKey>>, todo: Todo,
                   date: YearMonth)
    returns (grouped': Grouped, years': seq<YearKey>, months': map<YearKey, seq<MonthKey>>)
    requires Year(date.year) in grouped ==> Year(date.year) in months
    ensures grouped' == Put(grouped, Year(date.year), Month(date.month), todo)
    ensures years' == PutYear(years, grouped, Year(date.year))
    ensures months' == PutMonth(months, grouped, Year(date.year), Month(date.month))
  {
    grouped', years', months' := grouped, years, months;
    var year, month := Year(date.year), Month(date.month);
    if year !in grouped' {
      grouped' := grouped'[year := map[]];
      years' := years' + [year];
      months' := months'[year := []];
    }
    if month !in grouped'[year] {
      grouped' := grouped'[year := grouped'[year][month := []]];
      months' := months'[year := months'[year] + [month]];
    }
    var inner := grouped'[year];
    grouped' := grouped'[year := inner[month := inner[month] + [todo]]];
    if year !in grouped {
      assert months'[year] == [] + [month] == [month];
      assert inner[month] + [todo] == [todo];
      assert inner[month := [todo]] == map[][month := [todo]];
    } else if month !in grouped[year] {
      assert inner[month] + [todo] == [todo];
      assert inner[month := [todo]] == grouped[year][month := [todo]];
    }
  }

  /** The loop body: an undated todo goes to the "no-date" bucket, a dated
      one to the bucket of its year and month. */
  method Push(grouped: Grouped, years: seq<YearKey>, months: map<YearKey, seq<MonthKey>>, todo: Todo,
              yearMonthOf: int -> YearMonth)
    returns (grouped': Grouped, years': seq<YearKey>, months': map<YearKey, seq<MonthKey>>)
    requires forall y :: y in grouped ==> y in months
    requires NoDateYear in grouped ==> NoDateMonth in grouped[NoDateYear]
    ensures grouped' == Put(grouped, YearKeyOf(todo, yearMonthOf), MonthKeyOf(todo, yearMonthOf), todo)
    ensures years' == PutYear(years, grouped, YearKeyOf(todo, yearMonthOf))
    ensures months' == PutMonth(months, grouped, YearKeyOf(todo, yearMonthOf), MonthKeyOf(todo, yearMonthOf))
  {
    if !HasDate(todo) {
      grouped', years', months' := PushUndated(grouped, years, months, todo);
    } else {
      grouped', years', months' := PushDated(grouped, years, months, todo, yearMonthOf(todo.endAt.value));
    }
  }

  /** One iteration of the grouping loop keeps `grouped` equal to the
      buckets of the todos seen so far. */
  method PushStep(s: seq<Todo>, todo: Todo, yearMonthOf: int -> YearMonth, grouped: Grouped,
                  years: seq<YearKey>, months: map<YearKey, seq<MonthKey>>)
    returns (grouped': Grouped, years': seq<YearKey>, months': map<YearKey, seq<MonthKey>>)
    requires GroupsOf(s, yearMonthOf, grouped, years, months)
    ensures GroupsOf(s + [todo], yearMonthOf, grouped', years', months')
  {
    GroupsOfPut(s, todo, yearMonthOf, grouped, years, months);
    if NoDateYear in grouped {
      NoDateYearShape(s, yearMonthOf, grouped, years, months);
    }
    grouped', years', months' := Push(grouped, years, months, todo, yearMonthOf);
  }

  /** The grouping loop: every filtered todo is pushed onto its bucket. */
  method GroupByYearMonth(filtered: seq<Todo>, yearMonthOf: int -> YearMonth)
    returns (grouped: Grouped, years: seq<YearKey>, months: map<YearKey, seq<MonthKey>>)
    ensures GroupsOf(filtered, yearMonthOf, grouped, years, months)
  {
    grouped, years, months := map[], [], map[];
    for i := 0 to |filtered|
      invariant GroupsOf(filtered[..i], yearMonthOf, grouped, years, months)
    {
      assert filtered[..i + 1] == filtered[..i] + [filtered[i]];
      grouped, years, months := PushStep(filtered[..i], filtered[i], yearMonthOf, grouped, years, months);
    }
    assert filtered[..|filtered|] == filtered;
  }

  /** The "no-date" year has the single month "no-date". */
  lemma NoDateYearShape(s: seq<Todo>, yearMonthOf: int -> YearMonth, grouped: Grouped,
                        years: seq<YearKey>, months: map<YearKey, seq<MonthKey>>)
    requires GroupsOf(s, yearMonthOf, grouped, years, months)
    requires NoDateYear in grouped
    ensures NoDateMonth in grouped[NoDateYear]
    ensures forall m :: m in grouped[NoDateYear] ==> m == NoDateMonth
  {
    forall m | m in grouped[NoDateYear] ensures m == NoDateMonth {
      var b := grouped[NoDateYear][m];
      assert b[0] in Bucket(s, NoDateYear, m, yearMonthOf);
    }
    var m0 := months[NoDateYear][0];
    assert m0 in grouped[NoDateYear];
  }

  /** Dated years have only numbered months. */
  lemma DatedYearShape(s: seq<Todo>, yearMonthOf: int -> YearMonth, grouped: Grouped,
                       years: seq<YearKey>, months: map<YearKey, seq<MonthKey>>, y: YearKey)
    requires GroupsOf(s, yearMonthOf, grouped, years, months)
    requires y in grouped && y.Year?
    ensures forall m :: m in grouped[y] ==> m.Month?
  {
    forall m | m in grouped[y] ensures m.Month? {
      var b := grouped[y][m];
      assert b[0] in Bucket(s, y, m, yearMonthOf);
    }
  }

  /** `getSortCompareFunction(filter)`: earliest first with undated last,
      or for "completed" latest first with undated first. */
  function BucketCompare(filter: string): (Todo, Todo) -> int {
    if filter == "completed" then DatedDescUndatedFirst else DatedAscUndatedLast
  }

  /** Used on its own, the comparator for "completed" sorts undated todos
      first and dated ones latest first; the one for "active" sorts dated
      todos earliest first and undated ones last. */
  lemma BucketCompareOrder(filter: string, s: seq<Todo>)
    ensures multiset(Sort(s, BucketCompare(filter))) == multiset(s)
    ensures filter == "completed" ==>
      UndatedFirst(Sort(s, BucketCompare(filter))) && DatedDescending(Sort(s, BucketCompare(filter)))
    ensures filter != "completed" ==>
      UndatedLast(Sort(s, BucketCompare(filter))) && DatedAscending(Sort(s, BucketCompare(filter)))
  {
    if filter == "completed" {
      SortDatedDescUndatedFirst(s);
    } else {
      SortDatedAscUndatedLast(s);
    }
  }

  /** The inner loop of the bucket sort: each month of one year, in key
      order, has its bucket sorted. */
  method SortMonths(inner: map<MonthKey, seq<Todo>>, keys: seq<MonthKey>, cmp: (Todo, Todo) -> int)
    returns (inner': map<MonthKey, seq<Todo>>)
    requires NoDup(keys) && forall m :: m in keys ==> m in inner
    ensures inner'.Keys == inner.Keys
    ensures forall m :: m in inner ==> inner'[m] == if m in keys then Sort(inner[m], cmp) else inner[m]
  {
    inner' := inner;
    for j := 0 to |keys|
      invariant inner'.Keys == inner.Keys
      invariant forall m :: m in inner ==> inner'[m] == if m in keys[..j] then Sort(inner[m], cmp) else inner[m]
    {
      var month := keys[j];
      assert month !in keys[..j];
      inner' := inner'[month := Sort(inner'[month], cmp)];
      assert keys[..j + 1] == keys[..j] + [month];
    }
    assert keys[..|keys|] == keys;
  }

  /** The in-place sort of every bucket, year by year in key order; the
      keys stay as they are. */
  method SortBuckets(grouped: Grouped, years: seq<YearKey>, months: map<YearKey, seq<MonthKey>>,
                     cmp: (Todo, Todo) -> int)
    returns (sorted: Grouped)
    requires Keyed(grouped, years, months)
    ensures sorted.Keys == grouped.Keys
    ensures forall y :: y in grouped ==> sorted[y].Keys == grouped[y].Keys
    ensures forall y, m :: y in grouped && m in grouped[y] ==> sorted[y][m] == Sort(grouped[y][m], cmp)
  {
    sorted := grouped;
    for i := 0 to |years|
      invariant sorted.Keys == grouped.Keys
      invariant forall y :: y in grouped ==> sorted[y].Keys == grouped[y].Keys
      invariant forall y :: y in grouped ==> forall m :: m in grouped[y] ==>
        sorted[y][m] == if y in years[..i] then Sort(grouped[y][m], cmp) else grouped[y][m]
    {
      var year := years[i];
      assert year !in years[..i];
      var inner := SortMonths(sorted[year], months[year], cmp);
      sorted := sorted[year := inner];
      assert years[..i + 1] == years[..i] + [year];
    }
    assert years[..|years|] == years;
  }

  /** The year comparator: for "completed" "no-date" first, then newer
      years first; otherwise older years first and "no-date" last. */
  function CompareYears(filter: string, a: YearKey, b: YearKey): (r: int)
    ensures YearBefore(filter, a, b) ==> r < 0
    ensures YearBefore(filter, b, a) ==> r > 0
    ensures a.Year? && b.Year? && a.year == b.year ==> r == 0
  {
    if filter == "completed" then
      (if a == NoDateYear then -1 else if b == NoDateYear then 1 else b.year - a.year)
    else
      (if a == NoDateYear then 1 else if b == NoDateYear then -1 else a.year - b.year)
  }

  /** The month comparator, `Number(a) - Number(b)` or its reverse; the
      "no-date" key converts to NaN, which `sort` reads as 0. */
  function CompareMonths(filter: string, a: MonthKey, b: MonthKey): (r: int)
    ensures MonthBefore(filter, a, b) ==> r < 0
    ensures MonthBefore(filter, b, a) ==> r > 0
    ensures a == NoDateMonth || b == NoDateMonth || a == b ==> r == 0
  {
    if a == NoDateMonth || b == NoDateMonth then 0
    else if filter == "completed" then b.month - a.month
    else a.month - b.month
  }

  function YearOrder(filter: string): (YearKey, YearKey) -> int {
    (a: YearKey, b: YearKey) => CompareYears(filter, a, b)
  }

  function MonthOrder(filter: string): (MonthKey, MonthKey) -> int {
    (a: MonthKey, b: MonthKey) => CompareMonths(filter, a, b)
  }

  /** `months.map(month => ({ month, todos: grouped[year][month] }))`. */
  function MonthGroupsOf(sorted: Grouped, y: YearKey, ms: seq<MonthKey>): (r: seq<MonthGroup>)
    requires y in sorted && forall m :: m in ms ==> m in sorted[y]
    ensures |r| == |ms|
    ensures forall k :: 0 <= k < |ms| ==> r[k] == MonthGroup(ms[k], sorted[y][ms[k]])
  {
    seq(|ms|, k requires 0 <= k < |ms| => MonthGroup(ms[k], sorted[y][ms[k]]))
  }

  /** One element of the result: the "no-date" year with its one month, or
      a dated year with its months in order. */
  function YearGroupOf(filter: string, sorted: Grouped, months: map<YearKey, seq<MonthKey>>, y: YearKey): YearGroup
    requires y in sorted && y in months && forall m :: m in months[y] ==> m in sorted[y]
    requires y == NoDateYear ==> NoDateMonth in sorted[y]
  {
    if y == NoDateYear then
      YearGroup(y, [MonthGroup(NoDateMonth, sorted[y][NoDateMonth])])
    else
      YearGroup(y, MonthGroupsOf(sorted, y, Sort(months[y], MonthOrder(filter))))
  }

  /** `sortedYears.map(...)`. */
  function Assemble(filter: string, sorted: Grouped, years: seq<YearKey>, months: map<YearKey, seq<MonthKey>>)
    : (r: seq<YearGroup>)
    requires Keyed(sorted, years, months)
    requires NoDateYear in sorted ==> NoDateMonth in sorted[NoDateYear]
    ensures |r| == |years|
    ensures forall i :: 0 <= i < |r| ==> r[i] == YearGroupOf(filter, sorted, months, Sort(years, YearOrder(filter))[i])
  {
    var ys := Sort(years, YearOrder(filter));
    seq(|ys|, i requires 0 <= i < |ys| => YearGroupOf(filter, sorted, months, ys[i]))
  }

  /** All todos of the result, group after group. */
  function FlattenMonths(ms: seq<MonthGroup>): seq<Todo> {
    if ms == [] then [] else ms[0].todos + FlattenMonths(ms[1..])
  }

  function Flatten(groups: seq<YearGroup>): seq<Todo> {
    if groups == [] then [] else FlattenMonths(groups[0].months) + Flatten(groups[1..])
  }

  function MonthKeys(ms: seq<MonthGroup>): (r: seq<MonthKey>)
    ensures |r| == |ms| && forall k :: 0 <= k < |ms| ==> r[k] == ms[k].month
  {
    seq(|ms|, k requires 0 <= k < |ms| => ms[k].month)
  }

  function YearKeys(groups: seq<YearGroup>): (r: seq<YearKey>)
    ensures |r| == |groups| && forall i :: 0 <= i < |groups| ==> r[i] == groups[i].year
  {
    seq(|groups|, i requires 0 <= i < |groups| => groups[i].year)
  }

  // The order properties of the result.

  /** `a` strictly before `b` in the year order of `filter`. */
  predicate YearBefore(filter: string, a: YearKey, b: YearKey) {
    if filter == "completed" then
      (a == NoDateYear && b != NoDateYear) || (a.Year? && b.Year? && a.year > b.year)
    else
      (a != NoDateYear && b == NoDateYear) || (a.Year? && b.Year? && a.year < b.year)
  }

  predicate MonthBefore(filter: string, a: MonthKey, b: MonthKey) {
    a.Month? && b.Month? && if filter == "completed" then a.month > b.month else a.month < b.month
  }

  predicate YearsOrdered(filter: string, groups: seq<YearGroup>) {
    forall i, j :: 0 <= i < j < |groups| ==> YearBefore(filter, groups[i].year, groups[j].year)
  }

  /** Inside every dated year the months are strictly ordered. */
  predicate MonthsOrdered(filter: string, groups: seq<YearGroup>) {
    forall i, k, l :: 0 <= i < |groups| && groups[i].year.Year? && 0 <= k < l < |groups[i].months| ==>
      MonthBefore(filter, groups[i].months[k].month, groups[i].months[l].month)
  }

  /** Every month group holds the sorted bucket of its year and month, and
      no year and no month group is empty. For the "no-date" bucket the
      comparator is inconsistent, so its order is this model's sort. */
  predicate BucketsOf(s: seq<Todo>, filter: string, yearMonthOf: int -> YearMonth, groups: seq<YearGroup>) {
    forall i :: 0 <= i < |groups| ==>
      groups[i].months != [] &&
      forall k :: 0 <= k < |groups[i].months| ==>
        groups[i].months[k].todos != [] &&
        groups[i].months[k].todos ==
          Sort(Bucket(s, groups[i].year, groups[i].months[k].month, yearMonthOf), BucketCompare(filter))
  }

  /** The "no-date" year has exactly the month "no-date". */
  predicate NoDateShape(groups: seq<YearGroup>) {
    forall i :: 0 <= i < |groups| && groups[i].year == NoDateYear ==>
      |groups[i].months| == 1 && groups[i].months[0].month == NoDateMonth
  }

  // The total preorders behind the comparators.

  ghost predicate YearLe(filter: string, a: YearKey, b: YearKey) {
    if filter == "completed" then a == NoDateYear || (b.Year? && b.year <= a.year)
    else b == NoDateYear || (a.Year? && a.year <= b.year)
  }

  ghost predicate MonthLe(filter: string, a: MonthKey, b: MonthKey) {
    a.Month? && b.Month? && if filter == "completed" then b.month <= a.month else a.month <= b.month
  }

  function Numbered(): MonthKey -> bool {
    (m: MonthKey) => m.Month?
  }

  ghost function YearLeOf(filter: string): (YearKey, YearKey) -> bool {
    (a: YearKey, b: YearKey) => YearLe(filter, a, b)
  }

  /** The year comparator sorts into the total preorder `YearLe`. */
  lemma YearOrderSorts(filter: string)
    ensures TotalPreorderOn(YearLeOf(filter), Anything())
    ensures RespectsOn(YearOrder(filter), YearLeOf(filter), Anything())
  {
    var le := YearLeOf(filter);
    forall a, b, c | le(a, b) && le(b, c) ensures le(a, c) {
      assert YearLe(filter, a, b) && YearLe(filter, b, c);
    }
  }

  /** The sorted years are strictly ordered. */
  lemma SortedYearsOrdered(filter: string, years: seq<YearKey>)
    requires NoDup(years)
    ensures forall i, j :: 0 <= i < j < |Sort(years, YearOrder(filter))| ==>
      YearBefore(filter, Sort(years, YearOrder(filter))[i], Sort(years, YearOrder(filter))[j])
    ensures NoDup(Sort(years, YearOrder(filter)))
  {
    var ys := Sort(years, YearOrder(filter));
    YearOrderSorts(filter);
    SortSorted(years, YearOrder(filter), YearLeOf(filter), Anything());
    NoDupPermutation(years, ys);
    forall i, j | 0 <= i < j < |ys| ensures YearBefore(filter, ys[i], ys[j]) {
      assert YearLeOf(filter)(ys[i], ys[j]);
      assert ys[i] != ys[j];
    }
  }

  /** Sorted numbered months are strictly ordered. */
  lemma SortedMonthsOrdered(filter: string, ms: seq<MonthKey>)
    requires NoDup(ms) && forall m :: m in ms ==> m.Month?
    ensures forall k, l :: 0 <= k < l < |Sort(ms, MonthOrder(filter))| ==>
      MonthBefore(filter, Sort(ms, MonthOrder(filter))[k], Sort(ms, MonthOrder(filter))[l])
    ensures NoDup(Sort(ms, MonthOrder(filter)))
  {
    var le := (a: MonthKey, b: MonthKey) => MonthLe(filter, a, b);
    assert TotalPreorderOn(le, Numbered());
    assert RespectsOn(MonthOrder(filter), le, Numbered());
    SortSorted(ms, MonthOrder(filter), le, Numbered());
    NoDupPermutation(ms, Sort(ms, MonthOrder(filter)));
  }

  /** The state the ordering stage starts from: every entry of `sorted` is
      the sorted, non-empty bucket of `s` under its keys; the "no-date"
      year has only the "no-date" month and dated years only numbered ones. */
  ghost predicate SortedGroups(s: seq<Todo>, filter: string, yearMonthOf: int -> YearMonth, sorted: Grouped,
                               years: seq<YearKey>, months: map<YearKey, seq<MonthKey>>) {
    && Keyed(sorted, years, months)
    && (forall t :: t in s ==>
          YearKeyOf(t, yearMonthOf) in sorted && MonthKeyOf(t, yearMonthOf) in sorted[YearKeyOf(t, yearMonthOf)])
    && (forall y, m :: y in sorted && m in sorted[y] ==>
          Bucket(s, y, m, yearMonthOf) != [] &&
          sorted[y][m] == Sort(Bucket(s, y, m, yearMonthOf), BucketCompare(filter)))
    && (NoDateYear in sorted ==> NoDateMonth in sorted[NoDateYear])
    && (forall y, m :: y in sorted && m in sorted[y] ==> (y == NoDateYear <==> m == NoDateMonth))
  }

  /** The sorted, non-empty buckets of one year `y`. */
  ghost predicate YearBuckets(s: seq<Todo>, filter: string, yearMonthOf: int -> YearMonth, sorted: Grouped,
                              months: map<YearKey, seq<MonthKey>>, y: YearKey) {
    && y in sorted && y in months && months[y] != [] && NoDup(months[y])
    && (forall m :: m in months[y] <==> m in sorted[y])
    && (forall m :: m in sorted[y] ==>
          Bucket(s, y, m, yearMonthOf) != [] &&
          sorted[y][m] == Sort(Bucket(s, y, m, yearMonthOf), BucketCompare(filter)))
  }

  /** A dated year group lists its months in comparator order, each with
      its sorted bucket. */
  lemma DatedGroupBuckets(s: seq<Todo>, filter: string, yearMonthOf: int -> YearMonth, sorted: Grouped,
                          months: map<YearKey, seq<MonthKey>>, y: YearKey)
    requires YearBuckets(s, filter, yearMonthOf, sorted, months, y) && y != NoDateYear
    ensures YearGroupOf(filter, sorted, months, y).months != []
    ensures forall k :: 0 <= k < |YearGroupOf(filter, sorted, months, y).months| ==>
      YearGroupOf(filter, sorted, months, y).months[k].todos != [] &&
      YearGroupOf(filter, sorted, months, y).months[k].todos ==
        Sort(Bucket(s, y, YearGroupOf(filter, sorted, months, y).months[k].month, yearMonthOf), BucketCompare(filter))
    ensures MonthKeys(YearGroupOf(filter, sorted, months, y).months) == Sort(months[y], MonthOrder(filter))
    ensures NoDup(MonthKeys(YearGroupOf(filter, sorted, months, y).months))
  {
    var ms := Sort(months[y], MonthOrder(filter));
    var gm := MonthGroupsOf(sorted, y, ms);
    assert YearGroupOf(filter, sorted, months, y).months == gm;
    assert months[y][0] in ms;
    forall k | 0 <= k < |gm|
      ensures gm[k].todos != [] && gm[k].todos == Sort(Bucket(s, y, gm[k].month, yearMonthOf), BucketCompare(filter))
    {
      var m := ms[k];
      assert m in ms;
      assert gm[k] == MonthGroup(m, sorted[y][m]);
      var b := Bucket(s, y, m, yearMonthOf);
      assert |Sort(b, BucketCompare(filter))| == |b| > 0;
    }
    assert MonthKeys(gm) == ms;
    NoDupPermutation(months[y], ms);
  }

  /** One year group holds the sorted buckets of its months, none empty,
      with distinct month keys; the "no-date" group is the single "no-date"
      month, a dated group has the months of its year in comparator order. */
  lemma YearGroupBuckets(s: seq<Todo>, filter: string, yearMonthOf: int -> YearMonth, sorted: Grouped,
                         years: seq<YearKey>, months: map<YearKey, seq<MonthKey>>, y: YearKey)
    requires SortedGroups(s, filter, yearMonthOf, sorted, years, months)
    requires y in sorted
    ensures YearGroupOf(filter, sorted, months, y).year == y
    ensures YearGroupOf(filter, sorted, months, y).months != []
    ensures forall k :: 0 <= k < |YearGroupOf(filter, sorted, months, y).months| ==>
      YearGroupOf(filter, sorted, months, y).months[k].todos != [] &&
      YearGroupOf(filter, sorted, months, y).months[k].todos ==
        Sort(Bucket(s, y, YearGroupOf(filter, sorted, months, y).months[k].month, yearMonthOf), BucketCompare(filter))
    ensures NoDup(MonthKeys(YearGroupOf(filter, sorted, months, y).months))
    ensures y == NoDateYear ==> MonthKeys(YearGroupOf(filter, sorted, months, y).months) == [NoDateMonth]
    ensures y != NoDateYear ==> MonthKeys(YearGroupOf(filter, sorted, months, y).months) == Sort(months[y], MonthOrder(filter))
  {
    assert YearBuckets(s, filter, yearMonthOf, sorted, months, y);
    if y != NoDateYear {
      DatedGroupBuckets(s, filter, yearMonthOf, sorted, months, y);
    } else {
      assert MonthKeys(YearGroupOf(filter, sorted, months, y).months) == [NoDateMonth];
    }
  }

  /** Every group of the result holds the sorted bucket of its keys, and
      the "no-date" year has exactly one month. */
  lemma AssembleBuckets(s: seq<Todo>, filter: string, yearMonthOf: int -> YearMonth, sorted: Grouped,
                        years: seq<YearKey>, months: map<YearKey, seq<MonthKey>>)
    requires SortedGroups(s, filter, yearMonthOf, sorted, years, months)
    ensures BucketsOf(s, filter, yearMonthOf, Assemble(filter, sorted, years, months))
    ensures NoDateShape(Assemble(filter, sorted, years, months))
  {
    var groups := Assemble(filter, sorted, years, months);
    var ys := Sort(years, YearOrder(filter));
    forall i | 0 <= i < |groups|
      ensures groups[i].months != []
      ensures forall k :: 0 <= k < |groups[i].months| ==>
        groups[i].months[k].todos != [] &&
        groups[i].months[k].todos ==
          Sort(Bucket(s, groups[i].year, groups[i].months[k].month, yearMonthOf), BucketCompare(filter))
      ensures groups[i].year == NoDateYear ==> |groups[i].months| == 1 && groups[i].months[0].month == NoDateMonth
    {
      assert ys[i] in years;
      YearGroupBuckets(s, filter, yearMonthOf, sorted, years, months, ys[i]);
      if ys[i] == NoDateYear {
        assert MonthKeys(groups[i].months)[0] == groups[i].months[0].month;
      }
    }
  }

  /** Years, and the months of every dated year, are strictly ordered. */
  lemma AssembleOrdered(s: seq<Todo>, filter: string, yearMonthOf: int -> YearMonth, sorted: Grouped,
                        years: seq<YearKey>, months: map<YearKey, seq<MonthKey>>)
    requires SortedGroups(s, filter, yearMonthOf, sorted, years, months)
    ensures YearsOrdered(filter, Assemble(filter, sorted, years, months))
    ensures MonthsOrdered(filter, Assemble(filter, sorted, years, months))
  {
    var groups := Assemble(filter, sorted, years, months);
    var ys := Sort(years, YearOrder(filter));
    SortedYearsOrdered(filter, years);
    forall i | 0 <= i < |groups| && groups[i].year.Year?
      ensures forall k, l :: 0 <= k < l < |groups[i].months| ==>
        MonthBefore(filter, groups[i].months[k].month, groups[i].months[l].month)
    {
      assert ys[i] in years;
      SortedMonthsOrdered(filter, months[ys[i]]);
    }
  }

  /** The count of `t` over one year's months: the count of its own month
      when that month is present. */
  lemma {:induction false} CountMonths(ms: seq<MonthGroup>, t: Todo, m0: MonthKey, c: nat)
    requires NoDup(MonthKeys(ms))
    requires forall k :: 0 <= k < |ms| ==> multiset(ms[k].todos)[t] == if ms[k].month == m0 then c else 0
    ensures multiset(FlattenMonths(ms))[t] == if m0 in MonthKeys(ms) then c else 0
  {
    if ms != [] {
      var keys := MonthKeys(ms);
      assert MonthKeys(ms[1..]) == keys[1..];
      NoDupCons(keys);
      CountMonths(ms[1..], t, m0, c);
      assert keys == [keys[0]] + keys[1..];
    }
  }

  /** The count of `t` over all groups: the count of its own bucket when
      its year and month are present. */
  lemma {:induction false} CountYears(groups: seq<YearGroup>, t: Todo, y0: YearKey, m0: MonthKey, c: nat)
    requires NoDup(YearKeys(groups))
    requires forall i :: 0 <= i < |groups| ==> NoDup(MonthKeys(groups[i].months))
    requires forall i, k :: 0 <= i < |groups| && 0 <= k < |groups[i].months| ==>
      multiset(groups[i].months[k].todos)[t] ==
        if groups[i].year == y0 && groups[i].months[k].month == m0 then c else 0
    ensures multiset(Flatten(groups))[t] ==
      if exists i :: 0 <= i < |groups| && groups[i].year == y0 && m0 in MonthKeys(groups[i].months) then c else 0
  {
    if groups != [] {
      var keys := YearKeys(groups);
      var tail := groups[1..];
      assert YearKeys(tail) == keys[1..];
      NoDupCons(keys);
      CountMonths(groups[0].months, t, m0, if groups[0].year == y0 then c else 0);
      CountYears(tail, t, y0, m0, c);
      if exists i :: 0 <= i < |groups| && groups[i].year == y0 && m0 in MonthKeys(groups[i].months) {
        var i :| 0 <= i < |groups| && groups[i].year == y0 && m0 in MonthKeys(groups[i].months);
        if i > 0 {
          assert tail[i - 1] == groups[i];
          assert keys[1..][i - 1] == y0;
        }
      } else {
        forall i | 0 <= i < |tail| ensures !(tail[i].year == y0 && m0 in MonthKeys(tail[i].months)) {
          assert tail[i] == groups[i + 1];
        }
      }
    }
  }

  /** No year appears twice in the result, and no month twice in a year. */
  lemma AssembleKeysDistinct(s: seq<Todo>, filter: string, yearMonthOf: int -> YearMonth, sorted: Grouped,
                             years: seq<YearKey>, months: map<YearKey, seq<MonthKey>>)
    requires SortedGroups(s, filter, yearMonthOf, sorted, years, months)
    ensures NoDup(YearKeys(Assemble(filter, sorted, years, months)))
    ensures forall i :: 0 <= i < |Assemble(filter, sorted, years, months)| ==>
      NoDup(MonthKeys(Assemble(filter, sorted, years, months)[i].months))
  {
    var groups := Assemble(filter, sorted, years, months);
    var ys := Sort(years, YearOrder(filter));
    SortedYearsOrdered(filter, years);
    assert YearKeys(groups) == ys;
    forall i | 0 <= i < |groups| ensures NoDup(MonthKeys(groups[i].months)) {
      assert ys[i] in years;
      YearGroupBuckets(s, filter, yearMonthOf, sorted, years, months, ys[i]);
    }
  }

  /** Concatenating the groups gives back the todos of `s`, each as often. */
  lemma AssemblePermutation(s: seq<Todo>, filter: string, yearMonthOf: int -> YearMonth, sorted: Grouped,
                            years: seq<YearKey>, months: map<YearKey, seq<MonthKey>>)
    requires SortedGroups(s, filter, yearMonthOf, sorted, years, months)
    ensures multiset(Flatten(Assemble(filter, sorted, years, months))) == multiset(s)
  {
    AssembleBuckets(s, filter, yearMonthOf, sorted, years, months);
    AssembleKeysDistinct(s, filter, yearMonthOf, sorted, years, months);
    forall t ensures multiset(Flatten(Assemble(filter, sorted, years, months)))[t] == multiset(s)[t] {
      CountBucket(s, filter, yearMonthOf, sorted, years, months, t);
    }
  }

  /** In groups that hold the buckets of `s`, a todo occurs only in the
      month group of its own keys, as often as in `s`. */
  lemma BucketCounts(s: seq<Todo>, filter: string, yearMonthOf: int -> YearMonth, groups: seq<YearGroup>, t: Todo)
    requires BucketsOf(s, filter, yearMonthOf, groups)
    ensures forall i, k :: 0 <= i < |groups| && 0 <= k < |groups[i].months| ==>
      multiset(groups[i].months[k].todos)[t] ==
        if groups[i].year == YearKeyOf(t, yearMonthOf) && groups[i].months[k].month == MonthKeyOf(t, yearMonthOf)
        then multiset(s)[t] else 0
  {
    forall i, k | 0 <= i < |groups| && 0 <= k < |groups[i].months|
      ensures multiset(groups[i].months[k].todos)[t] ==
        if groups[i].year == YearKeyOf(t, yearMonthOf) && groups[i].months[k].month == MonthKeyOf(t, yearMonthOf)
        then multiset(s)[t] else 0
    {
      FilterMultiset(s, InBucket(groups[i].year, groups[i].months[k].month, yearMonthOf), t);
    }
  }

  /** Every todo of `s` finds its own year and month in the result. */
  lemma OwnBucketPresent(s: seq<Todo>, filter: string, yearMonthOf: int -> YearMonth, sorted: Grouped,
                         years: seq<YearKey>, months: map<YearKey, seq<MonthKey>>, t: Todo)
    requires SortedGroups(s, filter, yearMonthOf, sorted, years, months)
    requires t in s
    ensures exists i ::
      && 0 <= i < |Assemble(filter, sorted, years, months)|
      && Assemble(filter, sorted, years, months)[i].year == YearKeyOf(t, yearMonthOf)
      && MonthKeyOf(t, yearMonthOf) in MonthKeys(Assemble(filter, sorted, years, months)[i].months)
  {
    var groups := Assemble(filter, sorted, years, months);
    var ys := Sort(years, YearOrder(filter));
    var y0, m0 := YearKeyOf(t, yearMonthOf), MonthKeyOf(t, yearMonthOf);
    assert y0 in sorted && m0 in sorted[y0];
    assert y0 in ys;
    var i :| 0 <= i < |ys| && ys[i] == y0;
    assert groups[i] == YearGroupOf(filter, sorted, months, y0);
    YearGroupBuckets(s, filter, yearMonthOf, sorted, years, months, y0);
    if y0 == NoDateYear {
      assert m0 == NoDateMonth;
    } else {
      assert m0 in months[y0];
    }
  }

  /** The count of one todo in the result is its count in `s`. */
  lemma CountBucket(s: seq<Todo>, filter: string, yearMonthOf: int -> YearMonth, sorted: Grouped,
                    years: seq<YearKey>, months: map<YearKey, seq<MonthKey>>, t: Todo)
    requires SortedGroups(s, filter, yearMonthOf, sorted, years, months)
    requires BucketsOf(s, filter, yearMonthOf, Assemble(filter, sorted, years, months))
    requires NoDup(YearKeys(Assemble(filter, sorted, years, months)))
    requires forall i :: 0 <= i < |Assemble(filter, sorted, years, months)| ==>
      NoDup(MonthKeys(Assemble(filter, sorted, years, months)[i].months))
    ensures multiset(Flatten(Assemble(filter, sorted, years, months)))[t] == multiset(s)[t]
  {
    var groups := Assemble(filter, sorted, years, months);
    BucketCounts(s, filter, yearMonthOf, groups, t);
    CountYears(groups, t, YearKeyOf(t, yearMonthOf), MonthKeyOf(t, yearMonthOf), multiset(s)[t]);
    if t in s {
      OwnBucketPresent(s, filter, yearMonthOf, sorted, years, months, t);
    }
  }

  /** Every todo sits under its own year and month. */
  predicate InOwnBuckets(yearMonthOf: int -> YearMonth, groups: seq<YearGroup>) {
    forall i, k :: 0 <= i < |groups| && 0 <= k < |groups[i].months| ==>
      forall t :: t in groups[i].months[k].todos ==>
        YearKeyOf(t, yearMonthOf) == groups[i].year && MonthKeyOf(t, yearMonthOf) == groups[i].months[k].month
  }

  /** Every bucket is ordered by due date: ascending for "active",
      descending for "completed". */
  predicate BucketsSorted(filter: string, groups: seq<YearGroup>) {
    forall i, k :: 0 <= i < |groups| && 0 <= k < |groups[i].months| ==>
      if filter == "completed" then DatedDescending(groups[i].months[k].todos)
      else DatedAscending(groups[i].months[k].todos)
  }

  lemma BucketsInOwnBuckets(s: seq<Todo>, filter: string, yearMonthOf: int -> YearMonth, groups: seq<YearGroup>)
    requires BucketsOf(s, filter, yearMonthOf, groups)
    ensures InOwnBuckets(yearMonthOf, groups)
    ensures BucketsSorted(filter, groups)
  {
    forall i, k | 0 <= i < |groups| && 0 <= k < |groups[i].months|
      ensures forall t :: t in groups[i].months[k].todos ==>
        YearKeyOf(t, yearMonthOf) == groups[i].year && MonthKeyOf(t, yearMonthOf) == groups[i].months[k].month
      ensures if filter == "completed" then DatedDescending(groups[i].months[k].todos)
        else DatedAscending(groups[i].months[k].todos)
    {
      var b := Bucket(s, groups[i].year, groups[i].months[k].month, yearMonthOf);
      SortDatedAscUndatedLast(b);
      SortDatedDescUndatedFirst(b);
    }
  }

  /** With non-empty buckets, the result is empty exactly when there is
      nothing to group. */
  lemma {:induction false} EmptyExactly(s: seq<Todo>, filter: string, yearMonthOf: int -> YearMonth, groups: seq<YearGroup>)
    requires BucketsOf(s, filter, yearMonthOf, groups)
    requires multiset(Flatten(groups)) == multiset(s)
    ensures groups == [] <==> s == []
  {
    if groups != [] {
      var ms := groups[0].months;
      assert FlattenMonths(ms) == ms[0].todos + FlattenMonths(ms[1..]);
      assert |Flatten(groups)| > 0;
      assert |multiset(s)| > 0;
    } else {
      assert |multiset(s)| == 0;
    }
  }

  /** The hook: filter, group, sort every bucket, then order the years and
      months of the result. */
  method GroupTodos(todos: seq<Todo>, filter: string, yearMonthOf: int -> YearMonth) returns (groups: seq<YearGroup>)
    requires filter == "active" || filter == "completed"
    ensures BucketsOf(Filtered(todos, filter), filter, yearMonthOf, groups)
    ensures InOwnBuckets(yearMonthOf, groups)
    ensures BucketsSorted(filter, groups)
    ensures multiset(Flatten(groups)) == multiset(Filtered(todos, filter))
    ensures YearsOrdered(filter, groups)
    ensures MonthsOrdered(filter, groups)
    ensures NoDateShape(groups)
    ensures groups == [] <==> Filtered(todos, filter) == []
  {
    var filtered := Filtered(todos, filter);
    var grouped, years, months := GroupByYearMonth(filtered, yearMonthOf);
    var sorted := SortBuckets(grouped, years, months, BucketCompare(filter));
    if NoDateYear in grouped {
      NoDateYearShape(filtered, yearMonthOf, grouped, years, months);
    }
    forall y: YearKey | y in grouped && y.Year? ensures forall m: MonthKey :: m in grouped[y] ==> m.Month? {
      DatedYearShape(filtered, yearMonthOf, grouped, years, months, y);
    }
    assert SortedGroups(filtered, filter, yearMonthOf, sorted, years, months);
    groups := Assemble(filter, sorted, years, months);
    AssembleBuckets(filtered, filter, yearMonthOf, sorted, years, months);
    AssembleOrdered(filtered, filter, yearMonthOf, sorted, years, months);
    AssemblePermutation(filtered, filter, yearMonthOf, sorted, years, months);
    BucketsInOwnBuckets(filtered, filter, yearMonthOf, groups);
    EmptyExactly(filtered, filter, yearMonthOf, groups);
  }

  /** Every undated todo, and nothing else, lands in the "no-date" bucket. */
  lemma NoDateBucketIsUndated(s: seq<Todo>, yearMonthOf: int -> YearMonth)
    ensures forall t :: t in Bucket(s, NoDateYear, NoDateMonth, yearMonthOf) <==> t in s && !HasDate(t)
    ensures forall t ::
      multiset(Bucket(s, NoDateYear, NoDateMonth, yearMonthOf))[t] == if HasDate(t) then 0 else multiset(s)[t]
  {
    forall t ensures multiset(Bucket(s, NoDateYear, NoDateMonth, yearMonthOf))[t] ==
      if HasDate(t) then 0 else multiset(s)[t]
    {
      FilterMultiset(s, InBucket(NoDateYear, NoDateMonth, yearMonthOf), t);
    }
  }
}
