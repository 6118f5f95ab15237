/**
 * The numbers on the dashboard (`updateStats`) and in the weekly review
 * (`getWeekStart`, `renderReview`). Times are milliseconds since the epoch,
 * days are day numbers; the review week starts at midnight on Monday.
 */
module Stats {
  import opened Calendar
  import opened Tasks
  import opened Sequences
  import opened Views

  function DoneTest(): Task -> bool
  {
    (t: Task) => t.status == Done
  }

  function ActiveTest(): Task -> bool
  {
    (t: Task) => t.status != Done
  }

  function InProgressTest(): Task -> bool
  {
    (t: Task) => t.status == InProgress
  }

  function OverdueTest(today: int): Task -> bool
  {
    (t: Task) => IsOverdue(t, today)
  }

  /**
   * `t.status !== 'done' && daysDiff(t.targetDate) >= 0`: an open task due
   * today or later; a task without a date counts, its offset being infinite.
   */
  predicate Upcoming(t: Task, today: int)
  {
    t.status != Done && (DaysDiff(t.targetDate, today).Infinity? || DaysDiff(t.targetDate, today).n >= 0)
  }

  function UpcomingTest(today: int): Task -> bool
  {
    (t: Task) => Upcoming(t, today)
  }

  /** The five counters `updateStats` shows. */
  datatype Counts = Counts(total: nat, done: nat, inProgress: nat, overdue: nat, upcoming: nat)

  /** Overdue, upcoming and done tasks split the list: every task is exactly one of them. */
  lemma {:induction false} CountsPartition(ts: seq<Task>, today: int)
    ensures Count(ts, OverdueTest(today)) + Count(ts, UpcomingTest(today)) + Count(ts, DoneTest()) == |ts|
  {
    if ts != [] {
      CountsPartition(ts[1..], today);
    }
  }

  /** Done and open tasks split the list. */
  lemma {:induction false} ActivePartition(ts: seq<Task>)
    ensures Count(ts, ActiveTest()) + Count(ts, DoneTest()) == |ts|
  {
    if ts != [] {
      ActivePartition(ts[1..]);
    }
  }

  /** `updateStats`'s counters. */
  function StatsOf(ts: seq<Task>, today: int): (c: Counts)
    ensures c.total == |ts|
    ensures c.done == |set i: nat | i < |ts| && ts[i].status == Done|
    ensures c.inProgress == |set i: nat | i < |ts| && ts[i].status == InProgress|
    ensures c.overdue == |set i: nat | i < |ts| && IsOverdue(ts[i], today)|
    ensures c.upcoming == |set i: nat | i < |ts| && Upcoming(ts[i], today)|
    ensures c.overdue + c.upcoming + c.done == c.total
    ensures c.done + c.inProgress <= c.total
  {
    CountsPartition(ts, today);
    InProgressBound(ts);
    CountPositions(ts, DoneTest());
    CountPositions(ts, InProgressTest());
    CountPositions(ts, OverdueTest(today));
    CountPositions(ts, UpcomingTest(today));
    assert Positions(ts, DoneTest()) == set i: nat | i < |ts| && ts[i].status == Done;
    assert Positions(ts, InProgressTest()) == set i: nat | i < |ts| && ts[i].status == InProgress;
    assert Positions(ts, OverdueTest(today)) == set i: nat | i < |ts| && IsOverdue(ts[i], today);
    assert Positions(ts, UpcomingTest(today)) == set i: nat | i < |ts| && Upcoming(ts[i], today);
    Counts(|ts|, Count(ts, DoneTest()), Count(ts, InProgressTest()), Count(ts, OverdueTest(today)),
           Count(ts, UpcomingTest(today)))
  }

  /** No task is both done and in progress. */
  lemma {:induction false} InProgressBound(ts: seq<Task>)
    ensures Count(ts, DoneTest()) + Count(ts, InProgressTest()) <= |ts|
  {
    if ts != [] {
      InProgressBound(ts[1..]);
    }
  }

  /**
   * `Math.round(done / total * 100)`, or 0 with no tasks: the percentage
   * rounded to the nearest integer, halves rounded up.
   */
  function CompletionRate(done: nat, total: nat): (r: nat)
    ensures total == 0 ==> r == 0
    ensures total > 0 ==> (2 * r - 1) * total <= 200 * done < (2 * r + 1) * total
    ensures done <= total ==> r <= 100
  {
    if total == 0 then 0
    else
      RoundBounds(done, total);
      (200 * done + total) / (2 * total)
  }

  /** Integer division by `2 * total` rounds `100 * done / total` half up. */
  lemma RoundBounds(done: nat, total: nat)
    requires total > 0
    ensures var r := (200 * done + total) / (2 * total);
            (2 * r - 1) * total <= 200 * done < (2 * r + 1) * total && (done <= total ==> r <= 100)
  {
    var a, m := 200 * done + total, 2 * total;
    var r := a / m;
    Scale(r, total);
    assert r * m <= a < r * m + m;
    if done <= total && r > 100 {
      Monotone(101, r, total);
    }
  }

  /** The products the rounding bounds are made of, in terms of `r * total`. */
  lemma Scale(r: int, total: int)
    ensures r * (2 * total) == 2 * (r * total)
    ensures (2 * r - 1) * total == 2 * (r * total) - total
    ensures (2 * r + 1) * total == 2 * (r * total) + total
  {
  }

  lemma Monotone(a: int, b: int, c: nat)
    requires a <= b
    ensures a * c <= b * c
  {
  }

  /** Three done of four is 75%; one of eight, 12.5%, rounds up to 13%; one of three is 33%, two 67%. */
  lemma CompletionRateExamples()
    ensures CompletionRate(3, 4) == 75 && CompletionRate(1, 8) == 13
    ensures CompletionRate(1, 3) == 33 && CompletionRate(2, 3) == 67
  {
  }

  /** `getWeekStart`: the Monday on or before `today`. */
  function WeekStart(today: int): (r: int)
    ensures Weekday(r) == 1 && today - 6 <= r <= today
    ensures forall d :: r < d <= today ==> Weekday(d) != 1
  {
    var day := Weekday(today);
    today - (if day == 0 then 6 else day - 1)
  }

  /** Done, with a completion time between the start of the week and now. */
  function CompletedIn(weekStart: int, now: int): Task -> bool
  {
    (t: Task) => t.status == Done && t.completedAt.Some? && weekStart <= t.completedAt.value <= now
  }

  /** Created between the start of the week and now. */
  function CreatedIn(weekStart: int, now: int): Task -> bool
  {
    (t: Task) => t.createdAt.Some? && weekStart <= t.createdAt.value <= now
  }

  /** Due between today and a week from today. */
  function SoonTest(today: int): Task -> bool
  {
    (t: Task) => t.targetDate.Some? && 0 <= t.targetDate.value - today <= 7
  }

  /** `(a, b) => daysDiff(a.targetDate) - daysDiff(b.targetDate)`, as a sort key. */
  function DueKey(today: int): Task -> seq<int>
  {
    (t: Task) => OffsetKey(DaysDiff(t.targetDate, today))
  }

  /** What `renderReview` shows. */
  datatype Review = Review(
    completed: seq<Task>,
    added: seq<Task>,
    overdue: seq<Task>,
    active: seq<Task>,
    totalDone: nat,
    totalAll: nat,
    rate: nat,
    comingUp: seq<Task>)

  /**
   * `renderReview` at time `now` on day `today`: this week's completed and
   * added tasks, the overdue tasks by date, the open ones, overall
   * completion, and the open tasks due within seven days, by date.
   */
  function ReviewOf(ts: seq<Task>, today: int, now: int): (r: Review)
    ensures r.totalAll == |ts| && r.totalDone + |r.active| == r.totalAll
    ensures r.rate == CompletionRate(r.totalDone, r.totalAll) && r.rate <= 100
    ensures r.totalDone == |set i: nat | i < |ts| && ts[i].status == Done|
    ensures forall t :: t in r.active <==> t in ts && t.status != Done
  {
    var weekStart := WeekStart(today) * MsPerDay;
    var active := Filter(ts, ActiveTest());
    ActivePartition(ts);
    FilterMembers(ts, ActiveTest());
    CountPositions(ts, DoneTest());
    assert Positions(ts, DoneTest()) == set i: nat | i < |ts| && ts[i].status == Done;
    Review(
      Filter(ts, CompletedIn(weekStart, now)),
      Filter(ts, CreatedIn(weekStart, now)),
      SortBy(Filter(ts, OverdueTest(today)), DueKey(today)),
      active,
      Count(ts, DoneTest()),
      |ts|,
      CompletionRate(Count(ts, DoneTest()), |ts|),
      SortBy(Filter(active, SoonTest(today)), DueKey(today)))
  }

  /** The review's completed list holds exactly the tasks done between Monday's midnight and now. */
  lemma ReviewCompleted(ts: seq<Task>, today: int, now: int)
    ensures forall t :: t in ReviewOf(ts, today, now).completed <==>
              t in ts && t.status == Done && t.completedAt.Some?
              && WeekStart(today) * MsPerDay <= t.completedAt.value <= now
  {
    FilterMembers(ts, CompletedIn(WeekStart(today) * MsPerDay, now));
  }

  /** The review's added list holds exactly the tasks created between Monday's midnight and now. */
  lemma ReviewAdded(ts: seq<Task>, today: int, now: int)
    ensures forall t :: t in ReviewOf(ts, today, now).added <==>
              t in ts && t.createdAt.Some? && WeekStart(today) * MsPerDay <= t.createdAt.value <= now
  {
    FilterMembers(ts, CreatedIn(WeekStart(today) * MsPerDay, now));
  }

  /** The review's overdue list holds the overdue tasks, each as often as in the list, sorted by date. */
  lemma ReviewOverdue(ts: seq<Task>, today: int, now: int)
    ensures multiset(ReviewOf(ts, today, now).overdue) == multiset(Filter(ts, OverdueTest(today)))
    ensures SortedBy(ReviewOf(ts, today, now).overdue, DueKey(today))
    ensures forall t :: t in ReviewOf(ts, today, now).overdue <==> t in ts && IsOverdue(t, today)
  {
    var overdue := Filter(ts, OverdueTest(today));
    SortByCorrect(overdue, DueKey(today));
    FilterMembers(ts, OverdueTest(today));
    forall t
      ensures t in SortBy(overdue, DueKey(today)) <==> t in overdue
    {
      assert t in SortBy(overdue, DueKey(today)) <==> t in multiset(SortBy(overdue, DueKey(today)));
    }
  }

  /** The tasks "Coming up" is sorted from: the open tasks due within seven days. */
  lemma SoonMembers(ts: seq<Task>, today: int)
    ensures forall t :: t in Filter(Filter(ts, ActiveTest()), SoonTest(today)) <==>
              t in ts && t.status != Done && t.targetDate.Some? && 0 <= t.targetDate.value - today <= 7
  {
    FilterMembers(ts, ActiveTest());
    FilterMembers(Filter(ts, ActiveTest()), SoonTest(today));
  }

  /** "Coming up" lists exactly the open tasks due within seven days. */
  lemma ReviewComingUp(ts: seq<Task>, today: int, now: int)
    ensures forall t :: t in ReviewOf(ts, today, now).comingUp <==>
              t in ts && t.status != Done && t.targetDate.Some? && 0 <= t.targetDate.value - today <= 7
  {
    var soon := Filter(Filter(ts, ActiveTest()), SoonTest(today));
    SortByCorrect(soon, DueKey(today));
    SoonMembers(ts, today);
    forall t
      ensures t in SortBy(soon, DueKey(today)) <==> t in soon
    {
      assert t in SortBy(soon, DueKey(today)) <==> t in multiset(SortBy(soon, DueKey(today)));
    }
  }

  /** "Coming up" is sorted by date, and tasks due the same day keep their list order. */
  lemma ReviewComingUpOrder(ts: seq<Task>, today: int, now: int)
    ensures SortedBy(ReviewOf(ts, today, now).comingUp, DueKey(today))
    ensures forall k :: WithKey(ReviewOf(ts, today, now).comingUp, DueKey(today), k)
                     == WithKey(Filter(Filter(ts, ActiveTest()), SoonTest(today)), DueKey(today), k)
  {
    SortByCorrect(Filter(Filter(ts, ActiveTest()), SoonTest(today)), DueKey(today));
  }

  /** Every overdue task is open, so the review never shows more overdue than active tasks. */
  lemma {:induction false} OverdueAreActive(ts: seq<Task>, today: int)
    ensures Count(ts, OverdueTest(today)) <= Count(ts, ActiveTest())
  {
    if ts != [] {
      OverdueAreActive(ts[1..], today);
    }
  }
}
