/**
 * The import normaliser (`normalizeTask`, `parseJSON`): a loosely keyed
 * record becomes a task, or is rejected. A record maps keys to text; a key
 * is "truthy" when it is present with a non-empty value, as JavaScript's `||`
 * reads a string. `Date.parse` followed by `toISOString().slice(0, 10)` is the
 * parameter `parseDate`; `today` is a day number and `now` a timestamp.
 */
module Normalize {
  import opened Text
  import opened Calendar
  import opened Tasks
  import opened Sequences

  type Record = map<string, string>

  predicate Truthy(rec: Record, k: string)
  {
    k in rec && rec[k] != ""
  }

  /** `rec[k1] || rec[k2] || ...`: the value of the first truthy key, if any. */
  function FirstTruthy(rec: Record, keys: seq<string>): (r: Option<string>)
    ensures r.Some? ==> r.value != ""
  {
    if keys == [] then None
    else if Truthy(rec, keys[0]) then Some(rec[keys[0]])
    else FirstTruthy(rec, keys[1..])
  }

  /** `FirstTruthy` finds the value of the first truthy key, and nothing when no key is truthy. */
  lemma {:induction false} FirstTruthyIsFirst(rec: Record, keys: seq<string>)
    ensures FirstTruthy(rec, keys).None? <==> forall i :: 0 <= i < |keys| ==> !Truthy(rec, keys[i])
    ensures forall i :: 0 <= i < |keys| && Truthy(rec, keys[i]) && (forall j :: 0 <= j < i ==> !Truthy(rec, keys[j])) ==>
              FirstTruthy(rec, keys) == Some(rec[keys[i]])
  {
    if keys != [] {
      FirstTruthyIsFirst(rec, keys[1..]);
      forall i | 0 <= i < |keys| && Truthy(rec, keys[i]) && (forall j :: 0 <= j < i ==> !Truthy(rec, keys[j]))
        ensures FirstTruthy(rec, keys) == Some(rec[keys[i]])
      {
        if i > 0 {
          assert !Truthy(rec, keys[0]);
          assert keys[i] == keys[1..][i - 1];
          forall j | 0 <= j < i - 1 ensures !Truthy(rec, keys[1..][j]) {
            assert keys[1..][j] == keys[j + 1];
          }
        }
      }
      if FirstTruthy(rec, keys).None? {
        forall i | 0 <= i < |keys| ensures !Truthy(rec, keys[i]) {
          if i > 0 { assert keys[i] == keys[1..][i - 1]; }
        }
      }
    }
  }

  /** `rec[k1] || rec[k2] || ... || fallback`. */
  function FirstTruthyOr(rec: Record, keys: seq<string>, fallback: string): string
  {
    match FirstTruthy(rec, keys)
    case Some(v) => v
    case None => fallback
  }

  const TitleKeys: seq<string> := ["title", "Title", "name", "Name"]
  const PriorityKeys: seq<string> := ["priority", "Priority"]
  const StatusKeys: seq<string> := ["status", "Status"]
  const DateKeys: seq<string> := ["targetDate", "targetdate", "target date", "date", "Date", "due", "Due"]
  const DescriptionKeys: seq<string> := ["description", "Description"]
  const CategoryKeys: seq<string> := ["category", "Category"]

  /** Index of the first `c` in `s`. */
  function IndexOf(s: string, c: char): (r: Option<nat>)
    ensures r.None? <==> c !in s
    ensures r.Some? ==> r.value < |s| && s[r.value] == c && c !in s[..r.value]
  {
    if s == [] then None
    else if s[0] == c then Some(0)
    else
      var r := IndexOf(s[1..], c);
      if r.Some? then
        assert s[..r.value + 1] == [s[0]] + s[1..][..r.value];
        Some(r.value + 1)
      else r
  }

  /** `s.replace(from, to)` for a one-character pattern: only the first occurrence is replaced. */
  function ReplaceFirst(s: string, from: char, to: char): (r: string)
    ensures |r| == |s|
    ensures from !in s ==> r == s
    ensures from in s ==> exists i :: 0 <= i < |s| && s[i] == from && from !in s[..i] && r == s[i := to]
  {
    match IndexOf(s, from)
    case None => s
    case Some(i) => s[i := to]
  }

  /** The priority a record asks for: lower-cased, `medium` when absent or not one of the four. */
  function PriorityOf(rec: Record): (p: Priority)
    ensures ParsePriority(ToLower(FirstTruthyOr(rec, PriorityKeys, "medium"))).Some? ==>
              PriorityName(p) == ToLower(FirstTruthyOr(rec, PriorityKeys, "medium"))
    ensures ParsePriority(ToLower(FirstTruthyOr(rec, PriorityKeys, "medium"))).None? ==> p == Medium
  {
    match ParsePriority(ToLower(FirstTruthyOr(rec, PriorityKeys, "medium")))
    case Some(p) => p
    case None => Medium
  }

  /** The status a record asks for: lower-cased, its first space made a hyphen, `todo` when absent or invalid. */
  function StatusOf(rec: Record): (s: Status)
    ensures ParseStatus(ReplaceFirst(ToLower(FirstTruthyOr(rec, StatusKeys, "todo")), ' ', '-')).Some? ==>
              StatusName(s) == ReplaceFirst(ToLower(FirstTruthyOr(rec, StatusKeys, "todo")), ' ', '-')
    ensures ParseStatus(ReplaceFirst(ToLower(FirstTruthyOr(rec, StatusKeys, "todo")), ' ', '-')).None? ==> s == Todo
  {
    match ParseStatus(ReplaceFirst(ToLower(FirstTruthyOr(rec, StatusKeys, "todo")), ' ', '-'))
    case Some(s) => s
    case None => Todo
  }

  /**
   * The target date: the first truthy date key, when `Date.parse` accepts it,
   * and today otherwise (`today()` always parses, to today).
   */
  function TargetDateOf(rec: Record, today: int, parseDate: string -> Option<int>): (d: int)
    ensures FirstTruthy(rec, DateKeys).None? ==> d == today
    ensures FirstTruthy(rec, DateKeys).Some? && parseDate(FirstTruthy(rec, DateKeys).value).Some? ==>
              d == parseDate(FirstTruthy(rec, DateKeys).value).value
    ensures FirstTruthy(rec, DateKeys).Some? && parseDate(FirstTruthy(rec, DateKeys).value).None? ==> d == today
  {
    match FirstTruthy(rec, DateKeys)
    case None => today
    case Some(raw) =>
      match parseDate(raw)
      case Some(day) => day
      case None => today
  }

  /**
   * `normalizeTask(obj)`: `None` stands for `null`. The result has no id yet
   * and is not recurring; `createdAt` is now, and `completedAt` is now exactly
   * for a done task.
   */
  function NormalizeTask(rec: Record, today: int, now: int, parseDate: string -> Option<int>): (r: Option<Task>)
    ensures r.None? <==> Trim(FirstTruthyOr(rec, TitleKeys, "")) == ""
    ensures r.Some? ==> r.value.title == Trim(FirstTruthyOr(rec, TitleKeys, "")) && r.value.title != ""
    ensures r.Some? ==> r.value.description == Trim(FirstTruthyOr(rec, DescriptionKeys, ""))
    ensures r.Some? ==> r.value.category == Trim(FirstTruthyOr(rec, CategoryKeys, ""))
    ensures r.Some? ==> r.value.priority == PriorityOf(rec) && r.value.status == StatusOf(rec)
    ensures r.Some? ==> r.value.targetDate == Some(TargetDateOf(rec, today, parseDate))
    ensures r.Some? ==> r.value.createdAt == Some(now)
    ensures r.Some? ==> (r.value.completedAt.Some? <==> r.value.status == Done)
    ensures r.Some? ==> r.value.completedAt.Some? ==> r.value.completedAt == Some(now)
    ensures r.Some? ==> r.value.id == "" && !r.value.isRecurring && r.value.recurringFreq.None?
  {
    var title := FirstTruthyOr(rec, TitleKeys, "");
    if Trim(title) == "" then None
    else
      var status := StatusOf(rec);
      Some(Task(
        id := "",
        title := Trim(title),
        description := Trim(FirstTruthyOr(rec, DescriptionKeys, "")),
        priority := PriorityOf(rec),
        status := status,
        targetDate := Some(TargetDateOf(rec, today, parseDate)),
        category := Trim(FirstTruthyOr(rec, CategoryKeys, "")),
        isRecurring := false,
        recurringFreq := None,
        createdAt := Some(now),
        completedAt := if status == Done then Some(now) else None))
  }

  /** What `JSON.parse` gave: an array of records, or one record on its own. */
  datatype JsonInput = Many(items: seq<Record>) | One(item: Record)

  /** `normalizeTask` for a fixed today, now and date parser. */
  function Normalizer(today: int, now: int, parseDate: string -> Option<int>): Record -> Option<Task>
  {
    rec => NormalizeTask(rec, today, now, parseDate)
  }

  /** `if (!Array.isArray(data)) data = [data]`. */
  function Items(input: JsonInput): (items: seq<Record>)
    ensures input.One? ==> items == [input.item]
  {
    match input
    case Many(items) => items
    case One(item) => [item]
  }

  /** `parseJSON(content)` after `JSON.parse`: a lone record is read as a one-element array. */
  function ParseJson(input: JsonInput, today: int, now: int, parseDate: string -> Option<int>): (r: seq<Task>)
    ensures |r| <= |Items(input)|
  {
    FilterMap(Items(input), Normalizer(today, now, parseDate))
  }

  /** Every imported task is the normalised form of one of the records. */
  lemma ParseJsonSource(input: JsonInput, today: int, now: int, parseDate: string -> Option<int>, t: Task)
    returns (k: nat)
    requires t in ParseJson(input, today, now, parseDate)
    ensures k < |Items(input)| && NormalizeTask(Items(input)[k], today, now, parseDate) == Some(t)
  {
    k := FilterMapSource(Items(input), Normalizer(today, now, parseDate), t);
  }

  /** Every record the normaliser accepts gives an imported task; the rejected ones are dropped. */
  lemma ParseJsonKeeps(input: JsonInput, today: int, now: int, parseDate: string -> Option<int>, k: nat)
    requires k < |Items(input)| && NormalizeTask(Items(input)[k], today, now, parseDate).Some?
    ensures NormalizeTask(Items(input)[k], today, now, parseDate).value in ParseJson(input, today, now, parseDate)
  {
    FilterMapKeeps(Items(input), Normalizer(today, now, parseDate), k);
  }

  /** A lone record imports as at most one task: its normalised form, or nothing when it has no title. */
  lemma ParseJsonOne(item: Record, today: int, now: int, parseDate: string -> Option<int>)
    ensures ParseJson(One(item), today, now, parseDate)
         == (match NormalizeTask(item, today, now, parseDate) case Some(t) => [t] case None => [])
  {
    assert Items(One(item))[1..] == [];
  }

  /** `rec` with `key` set to `text` when there is a text, and unchanged otherwise (`null` is not text). */
  function WithEntry(rec: Record, key: string, text: Option<string>): Record
  {
    match text
    case Some(v) => rec[key := v]
    case None => rec
  }

  /** A calendar date as the export writes it: `YYYY-MM-DD`. */
  function DateText(d: Option<int>): Option<string>
  {
    match d
    case Some(day) => Some(IsoDate(day))
    case None => None
  }

  /** A timestamp as the export writes it: the full `toISOString`. */
  function StampText(ms: Option<int>): Option<string>
  {
    match ms
    case Some(t) => Some(IsoTimestamp(t))
    case None => None
  }

  /** The keys `exportAsJSON` writes for text fields: everything but the id and the recurrence settings. */
  const ExportKeys: set<string> :=
    {"title", "description", "priority", "status", "targetDate", "category", "createdAt", "completedAt"}

  /** The five text fields of an exported task. */
  function TextFields(title: string, description: string, priority: string, status: string, category: string): (rec: Record)
    ensures "title" in rec && rec["title"] == title
    ensures "description" in rec && rec["description"] == description
    ensures "category" in rec && rec["category"] == category
    ensures "priority" in rec && rec["priority"] == priority
    ensures "status" in rec && rec["status"] == status
    ensures rec.Keys == {"title", "description", "priority", "status", "category"}
  {
    map["title" := title, "description" := description, "priority" := priority, "status" := status,
        "category" := category]
  }

  /** What an exported record holds: the five text fields, the target date when there is one, and no other keys but the export's. */
  predicate Exported(rec: Record, t: Task, target: Option<string>)
  {
    && "title" in rec && rec["title"] == t.title
    && "description" in rec && rec["description"] == t.description
    && "category" in rec && rec["category"] == t.category
    && "priority" in rec && rec["priority"] == PriorityName(t.priority)
    && "status" in rec && rec["status"] == StatusName(t.status)
    && (target.Some? ==> "targetDate" in rec && rec["targetDate"] == target.value)
    && (target.None? ==> "targetDate" !in rec)
    && rec.Keys <= ExportKeys
  }

  /**
   * A task's record with its dates already written out: the five text fields,
   * then each date that is present.
   */
  function ExportWith(t: Task, target: Option<string>, created: Option<string>, completed: Option<string>): (rec: Record)
    ensures Exported(rec, t, target)
    ensures created.Some? ==> "createdAt" in rec && rec["createdAt"] == created.value
    ensures created.None? ==> "createdAt" !in rec
    ensures completed.Some? ==> "completedAt" in rec && rec["completedAt"] == completed.value
    ensures completed.None? ==> "completedAt" !in rec
  {
    var text := TextFields(t.title, t.description, PriorityName(t.priority), StatusName(t.status), t.category);
    var stamped := WithEntry(WithEntry(text, "createdAt", created), "completedAt", completed);
    WithEntry(stamped, "targetDate", target)
  }

  /**
   * The text fields of one element of `exportAsJSON`: the task without its
   * id. Booleans and nulls are not text and are not part of a record.
   */
  function ExportRecord(t: Task): (rec: Record)
    ensures Exported(rec, t, DateText(t.targetDate))
    ensures t.targetDate.Some? ==> "targetDate" in rec && rec["targetDate"] == IsoDate(t.targetDate.value)
    ensures t.createdAt.Some? ==> "createdAt" in rec && rec["createdAt"] == IsoTimestamp(t.createdAt.value)
    ensures t.createdAt.None? ==> "createdAt" !in rec
    ensures t.completedAt.Some? ==> "completedAt" in rec && rec["completedAt"] == IsoTimestamp(t.completedAt.value)
    ensures t.completedAt.None? ==> "completedAt" !in rec
  {
    var rec := ExportWith(t, DateText(t.targetDate), StampText(t.createdAt), StampText(t.completedAt));
    assert Exported(rec, t, DateText(t.targetDate));
    rec
  }

  /** What the normaliser keeps of a task: the fields the export carries, with a fresh creation time. */
  function Reimported(t: Task, today: int, now: int): Task
  {
    Task(
      id := "",
      title := t.title,
      description := t.description,
      priority := t.priority,
      status := t.status,
      targetDate := Some(if t.targetDate.Some? then t.targetDate.value else today),
      category := t.category,
      isRecurring := false,
      recurringFreq := None,
      createdAt := Some(now),
      completedAt := if t.status == Done then Some(now) else None)
  }

  /** Lower-casing text without capital letters changes nothing. */
  lemma {:induction false} LowerOfLower(s: string)
    requires forall i :: 0 <= i < |s| ==> !('A' <= s[i] <= 'Z')
    ensures ToLower(s) == s
  {
    if s != [] {
      LowerOfLower(s[1..]);
    }
  }

  /** The export spells every priority in lower case already. */
  lemma PriorityNameIsLower(p: Priority)
    ensures ToLower(PriorityName(p)) == PriorityName(p)
  {
    LowerOfLower(PriorityName(p));
  }

  /** The export spells every status in lower case already. */
  lemma StatusNameIsLower(s: Status)
    ensures ToLower(StatusName(s)) == StatusName(s)
  {
    LowerOfLower(StatusName(s));
  }

  /** No status is spelt with a space. */
  lemma StatusNameHasNoSpace(s: Status)
    ensures ' ' !in StatusName(s)
  {
    match s {
      case Todo =>
      case InProgress => assert forall i :: 0 <= i < |"in-progress"| ==> "in-progress"[i] != ' ';
      case Done =>
    }
  }

  /** A non-blank title under `title` is the title the normaliser reads. */
  lemma TitleRead(rec: Record, title: string)
    requires "title" in rec && rec["title"] == title && title != ""
    ensures FirstTruthyOr(rec, TitleKeys, "") == title
  {
    assert TitleKeys[0] == "title";
  }

  /** A text field under the first of two keys, the second absent, reads back as itself, even when empty. */
  lemma TextRead(rec: Record, keys: seq<string>, value: string)
    requires |keys| == 2 && keys[0] in rec && rec[keys[0]] == value && keys[1] !in rec
    ensures FirstTruthyOr(rec, keys, "") == value
  {
    if value == "" {
      assert FirstTruthy(rec, keys) == FirstTruthy(rec, keys[1..]);
      assert FirstTruthy(rec, keys[1..]) == FirstTruthy(rec, keys[1..][1..]);
    }
  }

  /** A description under `description`, with no `Description`, reads back as itself. */
  lemma DescriptionRead(rec: Record, description: string)
    requires "description" in rec && rec["description"] == description && "Description" !in rec
    ensures FirstTruthyOr(rec, DescriptionKeys, "") == description
  {
    assert DescriptionKeys == ["description", "Description"];
    TextRead(rec, DescriptionKeys, description);
  }

  /** A category under `category`, with no `Category`, reads back as itself. */
  lemma CategoryRead(rec: Record, category: string)
    requires "category" in rec && rec["category"] == category && "Category" !in rec
    ensures FirstTruthyOr(rec, CategoryKeys, "") == category
  {
    assert CategoryKeys == ["category", "Category"];
    TextRead(rec, CategoryKeys, category);
  }

  /** A priority spelt as the export spells it reads back as itself. */
  lemma PriorityRead(rec: Record, p: Priority)
    requires "priority" in rec && rec["priority"] == PriorityName(p)
    ensures PriorityOf(rec) == p
  {
    PriorityNameIsLower(p);
    assert PriorityKeys[0] == "priority";
    assert FirstTruthyOr(rec, PriorityKeys, "medium") == PriorityName(p);
  }

  /** A status spelt as the export spells it reads back as itself. */
  lemma StatusRead(rec: Record, s: Status)
    requires "status" in rec && rec["status"] == StatusName(s)
    ensures StatusOf(rec) == s
  {
    StatusNameIsLower(s);
    StatusNameHasNoSpace(s);
    assert StatusKeys[0] == "status";
    assert FirstTruthyOr(rec, StatusKeys, "todo") == StatusName(s);
  }

  /**
   * A date under the `i`-th date key, with none of the earlier date keys
   * present, is the date the normaliser reads, when `Date.parse` reads it back.
   */
  lemma DateRead(rec: Record, i: nat, text: string, d: int, today: int, parseDate: string -> Option<int>)
    requires i < |DateKeys| && DateKeys[i] in rec && rec[DateKeys[i]] == text && text != ""
    requires forall j :: 0 <= j < i ==> DateKeys[j] !in rec
    requires parseDate(text) == Some(d)
    ensures TargetDateOf(rec, today, parseDate) == d
  {
    FirstTruthyIsFirst(rec, DateKeys);
  }

  /** With no date key truthy, the target date is today. */
  lemma NoDateRead(rec: Record, today: int, parseDate: string -> Option<int>)
    requires forall j :: 0 <= j < |DateKeys| ==> !Truthy(rec, DateKeys[j])
    ensures TargetDateOf(rec, today, parseDate) == today
  {
    FirstTruthyIsFirst(rec, DateKeys);
  }

  /** The date keys the JSON export never writes. */
  lemma DateKeysBeyondExport()
    ensures forall j :: 1 <= j < |DateKeys| ==> DateKeys[j] !in ExportKeys
  {
    assert DateKeys == ["targetDate", "targetdate", "target date", "date", "Date", "due", "Due"];
  }

  /** The tasks as an import rebuilds them. */
  function Reimport(tasks: seq<Task>, today: int, now: int): (r: seq<Task>)
    ensures |r| == |tasks| && forall k :: 0 <= k < |tasks| ==> r[k] == Reimported(tasks[k], today, now)
  {
    seq(|tasks|, k requires 0 <= k < |tasks| => Reimported(tasks[k], today, now))
  }

  /** A record whose fields read as the given values normalises to the task made of them. */
  lemma NormalizeReads(rec: Record, today: int, now: int, parseDate: string -> Option<int>,
                       title: string, description: string, category: string, p: Priority, s: Status, d: int)
    requires FirstTruthyOr(rec, TitleKeys, "") == title && title != "" && IsTrimmed(title)
    requires FirstTruthyOr(rec, DescriptionKeys, "") == description && IsTrimmed(description)
    requires FirstTruthyOr(rec, CategoryKeys, "") == category && IsTrimmed(category)
    requires PriorityOf(rec) == p && StatusOf(rec) == s && TargetDateOf(rec, today, parseDate) == d
    ensures NormalizeTask(rec, today, now, parseDate)
         == Some(Task("", title, description, p, s, Some(d), category, false, None, Some(now),
                      if s == Done then Some(now) else None))
  {
    TrimOfTrimmed(title);
    TrimOfTrimmed(description);
    TrimOfTrimmed(category);
  }

  /**
   * The JSON round trip for any exported record: the target date comes back
   * when `Date.parse` reads its text back as the same day.
   */
  lemma ExportedRoundTrip(rec: Record, t: Task, target: Option<string>, today: int, now: int, parseDate: string -> Option<int>)
    requires Exported(rec, t, target)
    requires t.title != "" && IsTrimmed(t.title) && IsTrimmed(t.description) && IsTrimmed(t.category)
    requires t.targetDate.None? <==> target.None?
    requires t.targetDate.Some? ==> target.value != "" && parseDate(target.value) == Some(t.targetDate.value)
    ensures NormalizeTask(rec, today, now, parseDate) == Some(Reimported(t, today, now))
  {
    ExportedTexts(rec, t, target);
    PriorityRead(rec, t.priority);
    StatusRead(rec, t.status);
    var d := ExportedDate(rec, t, target, today, parseDate);
    NormalizeReads(rec, today, now, parseDate, t.title, t.description, t.category, t.priority, t.status, d);
    assert Reimported(t, today, now) == Task("", t.title, t.description, t.priority, t.status, Some(d), t.category,
                                             false, None, Some(now), if t.status == Done then Some(now) else None);
  }

  /** The title, description and category of an exported record read back as the task's own. */
  lemma ExportedTexts(rec: Record, t: Task, target: Option<string>)
    requires Exported(rec, t, target) && t.title != ""
    ensures FirstTruthyOr(rec, TitleKeys, "") == t.title
    ensures FirstTruthyOr(rec, DescriptionKeys, "") == t.description
    ensures FirstTruthyOr(rec, CategoryKeys, "") == t.category
  {
    assert "Description" !in ExportKeys && "Category" !in ExportKeys;
    TitleRead(rec, t.title);
    DescriptionRead(rec, t.description);
    CategoryRead(rec, t.category);
  }

  /** The target date an exported record reads back as: the task's own, or today when it had none. */
  lemma ExportedDate(rec: Record, t: Task, target: Option<string>, today: int, parseDate: string -> Option<int>)
    returns (d: int)
    requires Exported(rec, t, target)
    requires t.targetDate.None? <==> target.None?
    requires t.targetDate.Some? ==> target.value != "" && parseDate(target.value) == Some(t.targetDate.value)
    ensures d == (if t.targetDate.Some? then t.targetDate.value else today)
    ensures TargetDateOf(rec, today, parseDate) == d
  {
    DateKeysBeyondExport();
    assert DateKeys[0] == "targetDate";
    if t.targetDate.Some? {
      d := t.targetDate.value;
      DateRead(rec, 0, target.value, d, today, parseDate);
    } else {
      d := today;
      NoDateRead(rec, today, parseDate);
    }
  }

  /**
   * Exporting a task as JSON and importing it again gives back its title,
   * description, priority, status, category and target date, provided the
   * text fields are trimmed (the normaliser trims), the title is not blank,
   * and `Date.parse` reads the exported date back as the same day.
   */
  lemma JsonRoundTrip(t: Task, today: int, now: int, parseDate: string -> Option<int>)
    requires t.title != "" && IsTrimmed(t.title) && IsTrimmed(t.description) && IsTrimmed(t.category)
    requires t.targetDate.Some? ==> parseDate(IsoDate(t.targetDate.value)) == Some(t.targetDate.value)
    ensures NormalizeTask(ExportRecord(t), today, now, parseDate) == Some(Reimported(t, today, now))
  {
    ExportedRoundTrip(ExportRecord(t), t, DateText(t.targetDate), today, now, parseDate);
  }

  /** Exporting tasks as JSON and importing the array gives every task back, in order, as the normaliser rebuilds it. */
  lemma JsonListRoundTrip(tasks: seq<Task>, today: int, now: int, parseDate: string -> Option<int>)
    requires forall k :: 0 <= k < |tasks| ==>
               tasks[k].title != "" && IsTrimmed(tasks[k].title) && IsTrimmed(tasks[k].description)
               && IsTrimmed(tasks[k].category)
    requires forall k :: 0 <= k < |tasks| && tasks[k].targetDate.Some? ==>
               parseDate(IsoDate(tasks[k].targetDate.value)) == Some(tasks[k].targetDate.value)
    ensures ParseJson(Many(seq(|tasks|, k requires 0 <= k < |tasks| => ExportRecord(tasks[k]))), today, now, parseDate)
         == Reimport(tasks, today, now)
  {
    var records := seq(|tasks|, k requires 0 <= k < |tasks| => ExportRecord(tasks[k]));
    forall k | 0 <= k < |tasks|
      ensures Normalizer(today, now, parseDate)(records[k]) == Some(Reimport(tasks, today, now)[k])
    {
      JsonRoundTrip(tasks[k], today, now, parseDate);
    }
    FilterMapTotal(records, Normalizer(today, now, parseDate), Reimport(tasks, today, now));
  }
}
