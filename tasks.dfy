/**
 * The task record and the day-offset classification every view is built on
 * (`daysDiff`, `relativeDateLabel`, `isOverdue`, `isToday`, `isThisWeek`).
 * "Today" is a parameter: the day number of the current local date.
 */
module Tasks {
  import opened Text

  datatype Priority = Critical | High | Medium | Low

  datatype Status = Todo | InProgress | Done

  /**
   * One task. Calendar dates are day numbers, timestamps are milliseconds;
   * a missing date or timestamp (absent, `null` or empty) is `None`.
   * `recurringFreq` keeps the raw frequency string the form stored.
   */
  datatype Task = Task(
    id: string,
    title: string,
    description: string,
    priority: Priority,
    status: Status,
    targetDate: Option<int>,
    category: string,
    isRecurring: bool,
    recurringFreq: Option<string>,
    createdAt: Option<int>,
    completedAt: Option<int>)

  function PriorityName(p: Priority): string
  {
    match p
    case Critical => "critical"
    case High => "high"
    case Medium => "medium"
    case Low => "low"
  }

  function StatusName(s: Status): string
  {
    match s
    case Todo => "todo"
    case InProgress => "in-progress"
    case Done => "done"
  }

  /** The inverse of `PriorityName`: `validPriorities.includes(s)`. */
  function ParsePriority(s: string): (r: Option<Priority>)
    ensures r.Some? ==> PriorityName(r.value) == s
    ensures forall p :: PriorityName(p) == s ==> r == Some(p)
  {
    if s == "critical" then Some(Critical)
    else if s == "high" then Some(High)
    else if s == "medium" then Some(Medium)
    else if s == "low" then Some(Low)
    else None
  }

  /** The inverse of `StatusName`: `validStatuses.includes(s)`. */
  function ParseStatus(s: string): (r: Option<Status>)
    ensures r.Some? ==> StatusName(r.value) == s
    ensures forall st :: StatusName(st) == s ==> r == Some(st)
  {
    if s == "todo" then Some(Todo)
    else if s == "in-progress" then Some(InProgress)
    else if s == "done" then Some(Done)
    else None
  }

  /** `PRIORITY_ORDER`: critical 0, high 1, medium 2, low 3. */
  function PriorityRank(p: Priority): (r: int)
    ensures 0 <= r <= 3
  {
    match p
    case Critical => 0
    case High => 1
    case Medium => 2
    case Low => 3
  }

  /** Critical tasks rank first and low ones last, each priority strictly before the next. */
  lemma PriorityRankOrder()
    ensures PriorityRank(Critical) == 0 && PriorityRank(Low) == 3
    ensures PriorityRank(Critical) < PriorityRank(High) < PriorityRank(Medium) < PriorityRank(Low)
    ensures forall p, q :: PriorityRank(p) == PriorityRank(q) ==> p == q
  {
  }

  /** The value of `daysDiff`: a whole number of days, or `Infinity` for a missing date. */
  datatype Offset = Days(n: int) | Infinity

  /** `daysDiff(date)`: signed days from today to `date`; a missing date is infinitely far. */
  function DaysDiff(date: Option<int>, today: int): (o: Offset)
    ensures o.Infinity? <==> date.None?
    ensures o.Days? ==> date == Some(today + o.n)
  {
    match date
    case None => Infinity
    case Some(d) => Days(d - today)
  }

  /** `isOverdue(task)`. */
  predicate IsOverdue(t: Task, today: int)
  {
    t.status != Done && DaysDiff(t.targetDate, today).Days? && DaysDiff(t.targetDate, today).n < 0
  }

  /** `isToday(date)`. */
  predicate IsToday(date: Option<int>, today: int)
  {
    DaysDiff(date, today) == Days(0)
  }

  /** `isThisWeek(date)`: one to seven days ahead. */
  predicate IsThisWeek(date: Option<int>, today: int)
  {
    DaysDiff(date, today).Days? && 1 <= DaysDiff(date, today).n <= 7
  }

  /** A completed task is never overdue, and an open one is overdue exactly when its date has passed. */
  lemma OverdueMeansOpenAndPast(t: Task, today: int)
    ensures IsOverdue(t, today) ==> t.status != Done
    ensures IsOverdue(t, today) <==> t.status != Done && t.targetDate.Some? && t.targetDate.value < today
  {
  }

  /** The label `relativeDateLabel` shows; `OnDate` is the formatted date, empty for a missing date. */
  datatype Label =
    | DaysOverdue(days: int)
    | OneDayOverdue
    | DueToday
    | DueTomorrow
    | DaysLeft(days: int)
    | OnDate(date: Option<int>)

  /** `relativeDateLabel(date)`. */
  function RelativeDateLabel(date: Option<int>, today: int): (l: Label)
    ensures l.DaysOverdue? || l.OneDayOverdue? <==> date.Some? && date.value < today
    ensures l.DaysOverdue? ==> l.days >= 2 && date == Some(today - l.days)
    ensures l.DueToday? <==> IsToday(date, today)
    ensures l.DueTomorrow? <==> date == Some(today + 1)
    ensures l.DaysLeft? ==> 2 <= l.days <= 7 && date == Some(today + l.days)
    ensures l.DueTomorrow? || l.DaysLeft? <==> IsThisWeek(date, today)
    ensures l.OnDate? <==> date.None? || date.value > today + 7
    ensures l.OnDate? ==> l.date == date
  {
    match DaysDiff(date, today)
    case Infinity => OnDate(date)
    case Days(diff) =>
      if diff < -1 then DaysOverdue(-diff)
      else if diff == -1 then OneDayOverdue
      else if diff == 0 then DueToday
      else if diff == 1 then DueTomorrow
      else if diff <= 7 then DaysLeft(diff)
      else OnDate(date)
  }

  /** The label determines the date: two dates with the same relative label are the same date. */
  lemma {:induction false} LabelDeterminesDate(a: Option<int>, b: Option<int>, today: int)
    requires RelativeDateLabel(a, today) == RelativeDateLabel(b, today)
    ensures a == b
  {
    var l := RelativeDateLabel(a, today);
    if l.OneDayOverdue? {
      assert a == Some(today - 1) && b == Some(today - 1);
    } else if l.DueToday? {
      assert DaysDiff(a, today) == Days(0) && DaysDiff(b, today) == Days(0);
    }
  }
}
