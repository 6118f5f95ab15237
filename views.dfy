/**
 * The derived views the task list is shown through: the filter bar
 * (`getFilteredTasks`), the ordering (`sortTasks`) and the five date buckets
 * (`groupTasks`).
 */
module Views {
  import opened Text
  import opened Tasks
  import opened Sequences

  /** Sign of `daysDiff(a) - daysDiff(b)`; `Infinity - Infinity` is NaN, which `Array.prototype.sort` reads as 0. */
  function OffsetDiff(a: Offset, b: Offset): int
  {
    match (a, b)
    case (Days(x), Days(y)) => x - y
    case (Days(_), Infinity) => -1
    case (Infinity, Days(_)) => 1
    case (Infinity, Infinity) => 0
  }

  /** The comparator `sortTasks` hands to `Array.prototype.sort`. */
  function Compare(a: Task, b: Task, today: int): int
  {
    if a.status == Done && b.status != Done then 1
    else if a.status != Done && b.status == Done then -1
    else
      var aOv := if IsOverdue(a, today) then 0 else 1;
      var bOv := if IsOverdue(b, today) then 0 else 1;
      if aOv != bOv then aOv - bOv
      else
        var pDiff := PriorityRank(a.priority) - PriorityRank(b.priority);
        if pDiff != 0 then pDiff
        else OffsetDiff(DaysDiff(a.targetDate, today), DaysDiff(b.targetDate, today))
  }

  function OffsetKey(o: Offset): seq<int>
  {
    match o
    case Days(n) => [0, n]
    case Infinity => [1, 0]
  }

  /** What `Compare` compares: done last, then overdue first, then priority rank, then day offset. */
  function SortKey(t: Task, today: int): seq<int>
  {
    [if t.status == Done then 1 else 0]
      + ([if IsOverdue(t, today) then 0 else 1]
      + ([PriorityRank(t.priority)]
      + OffsetKey(DaysDiff(t.targetDate, today))))
  }

  /** The sort key of every task, for a given today. */
  function KeyFor(today: int): Task -> seq<int>
  {
    t => SortKey(t, today)
  }

  lemma LexCons(a: int, x: seq<int>, b: int, y: seq<int>)
    ensures LexLess([a] + x, [b] + y) <==> a < b || (a == b && LexLess(x, y))
    ensures [a] + x == [b] + y <==> a == b && x == y
  {
    assert ([a] + x)[1..] == x && ([b] + y)[1..] == y;
    assert ([a] + x)[0] == a && ([b] + y)[0] == b;
  }

  lemma OffsetKeyOrder(p: Offset, q: Offset)
    ensures LexLess(OffsetKey(p), OffsetKey(q)) <==> OffsetDiff(p, q) < 0
    ensures OffsetKey(p) == OffsetKey(q) <==> OffsetDiff(p, q) == 0
  {
    var kp, kq := OffsetKey(p), OffsetKey(q);
    LexCons(kp[0], kp[1..], kq[0], kq[1..]);
    LexCons(kp[1], [], kq[1], []);
    assert kp == [kp[0]] + ([kp[1]] + []) && kq == [kq[0]] + ([kq[1]] + []);
    assert kp[1..] == [kp[1]] + [] && kq[1..] == [kq[1]] + [];
  }

  /** The comparator orders two tasks exactly as their sort keys are ordered. */
  lemma CompareIsKeyOrder(a: Task, b: Task, today: int)
    ensures Compare(a, b, today) < 0 <==> LexLess(SortKey(a, today), SortKey(b, today))
    ensures Compare(a, b, today) == 0 <==> SortKey(a, today) == SortKey(b, today)
    ensures Compare(a, b, today) > 0 <==> LexLess(SortKey(b, today), SortKey(a, today))
  {
    var oa, ob := DaysDiff(a.targetDate, today), DaysDiff(b.targetDate, today);
    var da, db := if a.status == Done then 1 else 0, if b.status == Done then 1 else 0;
    var va, vb := if IsOverdue(a, today) then 0 else 1, if IsOverdue(b, today) then 0 else 1;
    var ra, rb := PriorityRank(a.priority), PriorityRank(b.priority);
    OffsetKeyOrder(oa, ob);
    OffsetKeyOrder(ob, oa);
    LexCons(ra, OffsetKey(oa), rb, OffsetKey(ob));
    LexCons(rb, OffsetKey(ob), ra, OffsetKey(oa));
    LexCons(va, [ra] + OffsetKey(oa), vb, [rb] + OffsetKey(ob));
    LexCons(vb, [rb] + OffsetKey(ob), va, [ra] + OffsetKey(oa));
    LexCons(da, [va] + ([ra] + OffsetKey(oa)), db, [vb] + ([rb] + OffsetKey(ob)));
    LexCons(db, [vb] + ([rb] + OffsetKey(ob)), da, [va] + ([ra] + OffsetKey(oa)));
  }

  /** `sortTasks(list)`: a sorted copy; the input sequence is a value and stays as it was. */
  function SortTasks(list: seq<Task>, today: int): seq<Task>
  {
    SortBy(list, KeyFor(today))
  }

  /**
   * `sortTasks` returns a permutation of its input in which the comparator
   * never puts a later task before an earlier one, and tasks the comparator
   * ties keep their input order.
   */
  lemma SortTasksSpec(list: seq<Task>, today: int)
    ensures multiset(SortTasks(list, today)) == multiset(list)
    ensures forall i, j :: 0 <= i < j < |list| ==> Compare(SortTasks(list, today)[i], SortTasks(list, today)[j], today) <= 0
    ensures forall k :: WithKey(SortTasks(list, today), KeyFor(today), k) == WithKey(list, KeyFor(today), k)
  {
    var key := KeyFor(today);
    var r := SortTasks(list, today);
    SortByCorrect(list, key);
    forall i, j | 0 <= i < j < |list| ensures Compare(r[i], r[j], today) <= 0 {
      CompareIsKeyOrder(r[i], r[j], today);
    }
  }

  /** In the sorted list every open task precedes every done task, and among open tasks the overdue ones come first. */
  lemma SortTasksOrder(list: seq<Task>, today: int, i: int, j: int)
    requires 0 <= i < j < |list|
    ensures SortTasks(list, today)[j].status != Done ==> SortTasks(list, today)[i].status != Done
    ensures (SortTasks(list, today)[j].status != Done && IsOverdue(SortTasks(list, today)[j], today))
              ==> IsOverdue(SortTasks(list, today)[i], today)
  {
    SortTasksSpec(list, today);
  }

  /** Between two tasks with the same done and overdue standing, the lower priority rank comes first, and at equal rank the earlier date. */
  lemma SortTasksTieBreak(list: seq<Task>, today: int, i: int, j: int)
    requires 0 <= i < j < |list|
    requires SortTasks(list, today)[i].status == SortTasks(list, today)[j].status
    requires IsOverdue(SortTasks(list, today)[i], today) == IsOverdue(SortTasks(list, today)[j], today)
    ensures PriorityRank(SortTasks(list, today)[i].priority) <= PriorityRank(SortTasks(list, today)[j].priority)
    ensures SortTasks(list, today)[i].priority == SortTasks(list, today)[j].priority ==>
              OffsetDiff(DaysDiff(SortTasks(list, today)[i].targetDate, today), DaysDiff(SortTasks(list, today)[j].targetDate, today)) <= 0
  {
    SortTasksSpec(list, today);
  }

  /** The five groups `groupTasks` fills, in display order. */
  datatype Bucket = Overdue | Today | ThisWeek | Upcoming | Completed

  /** The test chain of `groupTasks`: done, then overdue, then due today, then within seven days, else upcoming. */
  function BucketOf(t: Task, today: int): Bucket
  {
    if t.status == Done then Completed
    else if IsOverdue(t, today) then Overdue
    else if IsToday(t.targetDate, today) then Today
    else if IsThisWeek(t.targetDate, today) then ThisWeek
    else Upcoming
  }

  /** What lands in each bucket, stated on the task's status and date alone. */
  lemma BucketOfSpec(t: Task, today: int)
    ensures BucketOf(t, today) == Completed <==> t.status == Done
    ensures BucketOf(t, today) == Overdue <==> t.status != Done && t.targetDate.Some? && t.targetDate.value < today
    ensures BucketOf(t, today) == Today <==> t.status != Done && t.targetDate == Some(today)
    ensures BucketOf(t, today) == ThisWeek <==>
              t.status != Done && t.targetDate.Some? && today + 1 <= t.targetDate.value <= today + 7
    ensures BucketOf(t, today) == Upcoming <==>
              t.status != Done && (t.targetDate.None? || t.targetDate.value > today + 7)
  {
  }

  datatype Groups = Groups(overdue: seq<Task>, today: seq<Task>, thisWeek: seq<Task>, upcoming: seq<Task>, completed: seq<Task>)

  function IsIn(b: Bucket, today: int): Task -> bool
  {
    t => BucketOf(t, today) == b
  }

  /** The tasks of `list` that fall in bucket `b`, in list order. */
  function InBucket(list: seq<Task>, b: Bucket, today: int): seq<Task>
  {
    Filter(list, IsIn(b, today))
  }

  lemma InBucketAppend(s: seq<Task>, t: Task, b: Bucket, today: int)
    ensures InBucket(s + [t], b, today) == InBucket(s, b, today) + (if BucketOf(t, today) == b then [t] else [])
  {
    FilterAppend(s, t, IsIn(b, today));
  }

  lemma InBucketCons(list: seq<Task>, b: Bucket, today: int)
    requires list != []
    ensures InBucket(list, b, today) == (if BucketOf(list[0], today) == b then [list[0]] else []) + InBucket(list[1..], b, today)
  {
  }

  /** `groupTasks(list)`: one pass pushing each task onto the array of its bucket. */
  method GroupTasks(list: seq<Task>, today: int) returns (g: Groups)
    ensures g.overdue == InBucket(list, Overdue, today)
    ensures g.today == InBucket(list, Today, today)
    ensures g.thisWeek == InBucket(list, ThisWeek, today)
    ensures g.upcoming == InBucket(list, Upcoming, today)
    ensures g.completed == InBucket(list, Completed, today)
  {
    g := Groups([], [], [], [], []);
    var i := 0;
    while i < |list|
      invariant 0 <= i <= |list|
      invariant g.overdue == InBucket(list[..i], Overdue, today)
      invariant g.today == InBucket(list[..i], Today, today)
      invariant g.thisWeek == InBucket(list[..i], ThisWeek, today)
      invariant g.upcoming == InBucket(list[..i], Upcoming, today)
      invariant g.completed == InBucket(list[..i], Completed, today)
    {
      var t := list[i];
      assert list[..i + 1] == list[..i] + [t];
      InBucketAppend(list[..i], t, Overdue, today);
      InBucketAppend(list[..i], t, Today, today);
      InBucketAppend(list[..i], t, ThisWeek, today);
      InBucketAppend(list[..i], t, Upcoming, today);
      InBucketAppend(list[..i], t, Completed, today);
      if t.status == Done {
        g := g.(completed := g.completed + [t]);
      } else if IsOverdue(t, today) {
        g := g.(overdue := g.overdue + [t]);
      } else if IsToday(t.targetDate, today) {
        g := g.(today := g.today + [t]);
      } else if IsThisWeek(t.targetDate, today) {
        g := g.(thisWeek := g.thisWeek + [t]);
      } else {
        g := g.(upcoming := g.upcoming + [t]);
      }
      i := i + 1;
    }
    assert list[..i] == list;
  }

  /** The five buckets of `list`, put together. */
  function AllBuckets(list: seq<Task>, today: int): multiset<Task>
  {
    multiset(InBucket(list, Overdue, today)) + multiset(InBucket(list, Today, today))
      + multiset(InBucket(list, ThisWeek, today)) + multiset(InBucket(list, Upcoming, today))
      + multiset(InBucket(list, Completed, today))
  }

  /** The first task of a list adds itself to exactly one bucket. */
  lemma AllBucketsCons(list: seq<Task>, today: int)
    requires list != []
    ensures AllBuckets(list, today) == multiset{list[0]} + AllBuckets(list[1..], today)
  {
    var t, rest := list[0], list[1..];
    InBucketCons(list, Overdue, today);
    InBucketCons(list, Today, today);
    InBucketCons(list, ThisWeek, today);
    InBucketCons(list, Upcoming, today);
    InBucketCons(list, Completed, today);
    OneBucketGrows(t, BucketOf(t, today),
      InBucket(list, Overdue, today), InBucket(list, Today, today), InBucket(list, ThisWeek, today),
      InBucket(list, Upcoming, today), InBucket(list, Completed, today),
      InBucket(rest, Overdue, today), InBucket(rest, Today, today), InBucket(rest, ThisWeek, today),
      InBucket(rest, Upcoming, today), InBucket(rest, Completed, today));
  }

  /** Five buckets, of which only bucket `b` gains `t`, gain `t` once between them. */
  lemma OneBucketGrows(t: Task, b: Bucket, ov: seq<Task>, td: seq<Task>, wk: seq<Task>, up: seq<Task>, dn: seq<Task>,
                       ov': seq<Task>, td': seq<Task>, wk': seq<Task>, up': seq<Task>, dn': seq<Task>)
    requires ov == (if b == Overdue then [t] else []) + ov'
    requires td == (if b == Today then [t] else []) + td'
    requires wk == (if b == ThisWeek then [t] else []) + wk'
    requires up == (if b == Upcoming then [t] else []) + up'
    requires dn == (if b == Completed then [t] else []) + dn'
    ensures multiset(ov) + multiset(td) + multiset(wk) + multiset(up) + multiset(dn)
         == multiset{t} + (multiset(ov') + multiset(td') + multiset(wk') + multiset(up') + multiset(dn'))
  {
  }

  /** Each task of the list lands in exactly one bucket. */
  lemma {:induction false} BucketsPartition(list: seq<Task>, today: int)
    ensures AllBuckets(list, today) == multiset(list)
  {
    if list != [] {
      var t, rest := list[0], list[1..];
      BucketsPartition(rest, today);
      AllBucketsCons(list, today);
      MultisetCons(list);
    }
  }

  /** Counting the buckets: their sizes add up to the length of the list. */
  lemma BucketSizes(list: seq<Task>, today: int)
    ensures |InBucket(list, Overdue, today)| + |InBucket(list, Today, today)| + |InBucket(list, ThisWeek, today)|
            + |InBucket(list, Upcoming, today)| + |InBucket(list, Completed, today)| == |list|
  {
    BucketsPartition(list, today);
    assert |multiset(list)| == |list|;
  }

  /**
   * The filter bar: a status filter and a priority filter (`"all"` or one
   * value), and the raw search box text, which is lower-cased and trimmed.
   */
  predicate MatchesFilters(t: Task, statusFilter: string, priorityFilter: string, searchInput: string)
  {
    var term := Trim(ToLower(searchInput));
    (statusFilter == "all" || StatusName(t.status) == statusFilter)
    && (priorityFilter == "all" || PriorityName(t.priority) == priorityFilter)
    && (term == [] || Contains(ToLower(t.title + " " + t.description + " " + t.category), term))
  }

  /** The filter bar as the test `getFilteredTasks` passes to `filter`. */
  function FilterTest(statusFilter: string, priorityFilter: string, searchInput: string): Task -> bool
  {
    t => MatchesFilters(t, statusFilter, priorityFilter, searchInput)
  }

  /** `getFilteredTasks()`. */
  function FilterTasks(tasks: seq<Task>, statusFilter: string, priorityFilter: string, searchInput: string): (r: seq<Task>)
    ensures |r| <= |tasks|
    ensures forall t :: t in r <==> t in tasks && MatchesFilters(t, statusFilter, priorityFilter, searchInput)
  {
    FilterMembers(tasks, FilterTest(statusFilter, priorityFilter, searchInput));
    Filter(tasks, FilterTest(statusFilter, priorityFilter, searchInput))
  }

  /**
   * The filtered list keeps the list's order: it is the list read at the
   * positions of the matching tasks, in increasing order, which is the order
   * the stable sort then breaks its ties by.
   */
  lemma FilterTasksInOrder(tasks: seq<Task>, statusFilter: string, priorityFilter: string, searchInput: string)
    returns (idx: seq<nat>)
    ensures ReadsAt(FilterTasks(tasks, statusFilter, priorityFilter, searchInput), tasks, idx)
    ensures forall i: nat :: i in idx <==> i < |tasks| && MatchesFilters(tasks[i], statusFilter, priorityFilter, searchInput)
  {
    idx := FilterInOrder(tasks, FilterTest(statusFilter, priorityFilter, searchInput));
  }

  /** Lower-casing twice is lower-casing once. */
  lemma LowerTwice(s: string)
    ensures ToLower(ToLower(s)) == ToLower(s)
  {
    assert forall i :: 0 <= i < |s| ==> LowerChar(LowerChar(s[i])) == LowerChar(s[i]);
  }

  /** The search ignores case: typing the term in any case selects the same tasks. */
  lemma SearchIgnoresCase(t: Task, statusFilter: string, priorityFilter: string, searchInput: string)
    ensures MatchesFilters(t, statusFilter, priorityFilter, searchInput)
        <==> MatchesFilters(t, statusFilter, priorityFilter, ToLower(searchInput))
  {
    LowerTwice(searchInput);
  }
}
