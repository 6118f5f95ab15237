/**
 * `exportAsCSV`, and what an import makes of its output: every cell is
 * quoted, quotes inside a value are doubled, rows are joined with line
 * feeds. Read back by `parseCSV`, the file gives the tasks back (as the
 * normaliser rebuilds them) when no text field holds a quote or a line
 * break and none has surrounding whitespace.
 */
module CsvExport {
  import opened Text
  import opened Calendar
  import opened Tasks
  import opened Sequences
  import opened Normalize
  import opened Csv

  /** The columns `exportAsCSV` writes, in order. */
  const ExportHeaders: seq<string> :=
    ["title", "description", "priority", "status", "targetDate", "category", "createdAt", "completedAt"]

  /** The same columns as `parseCSV` names them: lower-cased. */
  const ImportHeaders: seq<string> :=
    ["title", "description", "priority", "status", "targetdate", "category", "createdat", "completedat"]

  /** `t[h] || ''`: a missing value is an empty cell. */
  function OrEmpty(v: Option<string>): string
  {
    match v
    case Some(s) => s
    case None => ""
  }

  /** The eight cells of a row, with the three date columns already written out. */
  function Cells(t: Task, target: string, created: string, completed: string): (cells: seq<string>)
    ensures |cells| == |ExportHeaders|
  {
    [t.title, t.description, PriorityName(t.priority), StatusName(t.status), target, t.category, created, completed]
  }

  /** The value under each column for one task, before quoting: dates as ISO text, a missing one empty. */
  function ExportCells(t: Task): (cells: seq<string>)
    ensures |cells| == |ExportHeaders|
  {
    Cells(t, OrEmpty(DateText(t.targetDate)), OrEmpty(StampText(t.createdAt)), OrEmpty(StampText(t.completedAt)))
  }

  /** A row: every cell quoted, the cells joined with commas. */
  function RowOf(cells: seq<string>): string
  {
    Join(QuoteAll(cells), ",")
  }

  /** One task's data row. */
  function CsvRow(t: Task): string
  {
    RowOf(ExportCells(t))
  }

  /** The header row. */
  function HeaderLine(): string
  {
    Join(ExportHeaders, ",")
  }

  function Rows(tasks: seq<Task>): seq<string>
  {
    Map(tasks, CsvRow)
  }

  /** A file: the header row, then the given rows, joined with line feeds. */
  function FileOf(rows: seq<string>): string
  {
    Join([HeaderLine()] + rows, "\n")
  }

  /** The exported file. */
  function CsvText(tasks: seq<Task>): string
  {
    FileOf(Rows(tasks))
  }

  /**
   * `exportAsCSV`: the header row, then one row per task, pushed in order,
   * joined with line feeds; the download is left out.
   */
  method ExportCsv(tasks: seq<Task>) returns (content: string)
    ensures content == CsvText(tasks)
  {
    content := WriteLines(HeaderLine(), tasks, CsvRow);
  }

  /** The loop of `exportAsCSV`, for any row format: push one row per item after the header, then join. */
  method WriteLines<T>(header: string, items: seq<T>, row: T -> string) returns (content: string)
    ensures content == Join([header] + Map(items, row), "\n")
  {
    var lines := [header];
    var i := 0;
    while i < |items|
      invariant 0 <= i <= |items|
      invariant lines == [header] + Map(items[..i], row)
    {
      lines := lines + [row(items[i])];
      MapSnoc(items, row, i);
      i := i + 1;
    }
    assert items[..i] == items;
    content := Join(lines, "\n");
  }

  /**
   * Every exported row scans back to exactly eight fields, the task's cells
   * with their quotes dropped: commas inside a value do not split it.
   */
  lemma RowScansBack(t: Task)
    ensures Scan(CsvRow(t), false) == Unquoted(ExportCells(t))
    ensures |Scan(CsvRow(t), false)| == |ImportHeaders|
  {
    QuotedLine(ExportCells(t));
  }

  /** Text that survives a CSV export and import unchanged. */
  predicate CsvSafeText(s: string)
  {
    IsTrimmed(s) && '"' !in s && '\n' !in s
  }

  /** A task whose text fields survive the CSV round trip. */
  predicate CsvSafe(t: Task)
  {
    t.title != "" && CsvSafeText(t.title) && CsvSafeText(t.description) && CsvSafeText(t.category)
  }

  lemma IsoTextSafe(s: string)
    requires IsoText(s)
    ensures CsvSafeText(s)
  {
    if s != [] {
      assert IsoChar(s[0]) && IsoChar(s[|s| - 1]);
    }
  }

  lemma OptionalTextSafe(v: Option<string>)
    requires v.Some? ==> IsoText(v.value)
    ensures CsvSafeText(OrEmpty(v))
  {
    if v.Some? {
      IsoTextSafe(v.value);
    }
  }

  /** Priority names hold no quote, line break or space. */
  lemma PriorityNameSafe(p: Priority)
    ensures CsvSafeText(PriorityName(p))
  {
  }

  /** Status names hold no quote, line break or space. */
  lemma StatusNameSafe(s: Status)
    ensures CsvSafeText(StatusName(s))
  {
  }

  lemma CellsSafeWith(t: Task, target: string, created: string, completed: string)
    requires CsvSafe(t) && CsvSafeText(target) && CsvSafeText(created) && CsvSafeText(completed)
    ensures forall k :: 0 <= k < |ExportHeaders| ==> CsvSafeText(Cells(t, target, created, completed)[k])
  {
    PriorityNameSafe(t.priority);
    StatusNameSafe(t.status);
  }

  /** A written date, or an empty cell, is safe. */
  lemma DateTextSafe(d: Option<int>)
    ensures CsvSafeText(OrEmpty(DateText(d)))
  {
    if d.Some? {
      IsoDateChars(d.value);
    }
    OptionalTextSafe(DateText(d));
  }

  /** A written timestamp, or an empty cell, is safe. */
  lemma StampTextSafe(ms: Option<int>)
    ensures CsvSafeText(OrEmpty(StampText(ms)))
  {
    if ms.Some? {
      IsoTimestampChars(ms.value);
    }
    OptionalTextSafe(StampText(ms));
  }

  /** Every cell of a safe task is safe: names, ISO dates and timestamps hold no quote, line break or space. */
  lemma CellsSafe(t: Task)
    requires CsvSafe(t)
    ensures forall k :: 0 <= k < |ExportHeaders| ==> CsvSafeText(ExportCells(t)[k])
  {
    DateTextSafe(t.targetDate);
    StampTextSafe(t.createdAt);
    StampTextSafe(t.completedAt);
    CellsSafeWith(t, OrEmpty(DateText(t.targetDate)), OrEmpty(StampText(t.createdAt)), OrEmpty(StampText(t.completedAt)));
  }

  /** Safe cells come back from `parseCSVLine` exactly. */
  lemma SafeCellsReadBack(cells: seq<string>)
    requires cells != [] && forall k :: 0 <= k < |cells| ==> CsvSafeText(cells[k])
    ensures TrimAll(Scan(RowOf(cells), false)) == cells
  {
    QuotedLine(cells);
    forall k | 0 <= k < |cells|
      ensures Trim(Unquoted(cells)[k]) == cells[k]
    {
      RemoveCharAbsent(cells[k], '"');
      TrimOfTrimmed(cells[k]);
    }
  }

  /** Doubling quotes adds no other character. */
  lemma {:induction false} DoubleFree(v: string, c: char)
    requires c != '"' && c !in v
    ensures c !in Double(v)
  {
    if v != [] {
      DoubleFree(v[1..], c);
    }
  }

  /** A row of cells without line feeds holds none. */
  lemma RowSingle(cells: seq<string>)
    requires forall k :: 0 <= k < |cells| ==> '\n' !in cells[k]
    ensures '\n' !in RowOf(cells)
  {
    forall k | 0 <= k < |cells|
      ensures '\n' !in QuoteAll(cells)[k]
    {
      DoubleFree(cells[k], '\n');
    }
    JoinFree(QuoteAll(cells), ",", '\n');
  }

  /** A row ends with the closing quote of its last cell. */
  lemma RowEnds(cells: seq<string>)
    requires cells != []
    ensures RowOf(cells) != [] && RowOf(cells)[|RowOf(cells)| - 1] == '"'
  {
    JoinLastChar(QuoteAll(cells), ",");
  }

  /** A row of safe cells is one line, ending in a quote. */
  lemma SafeCellsRow(cells: seq<string>)
    requires cells != [] && forall k :: 0 <= k < |cells| ==> CsvSafeText(cells[k])
    ensures '\n' !in RowOf(cells) && RowOf(cells) != [] && RowOf(cells)[|RowOf(cells)| - 1] == '"'
  {
    RowSingle(cells);
    RowEnds(cells);
  }

  /** The row of a safe task is one line, ending in a quote. */
  lemma SafeRow(t: Task)
    requires CsvSafe(t)
    ensures '\n' !in CsvRow(t) && CsvRow(t) != [] && CsvRow(t)[|CsvRow(t)| - 1] == '"'
  {
    CellsSafe(t);
    SafeCellsRow(ExportCells(t));
  }

  /** The header row starts with a `t`. */
  lemma HeaderLineStart()
    ensures HeaderLine() != [] && HeaderLine()[0] == 't'
  {
    JoinFirstChar(ExportHeaders, ",");
  }

  /** The header row ends with a `t`. */
  lemma HeaderLineEnd()
    ensures HeaderLine() != [] && HeaderLine()[|HeaderLine()| - 1] == 't'
  {
    JoinLastChar(ExportHeaders, ",");
  }

  /** The header row holds no line feed. */
  lemma HeaderLineSingle()
    ensures '\n' !in HeaderLine()
  {
    assert forall k :: 0 <= k < |ExportHeaders| ==> '\n' !in ExportHeaders[k];
    JoinFree(ExportHeaders, ",", '\n');
  }

  /** Rows that are single lines ending in a quote. */
  predicate QuotedLines(rows: seq<string>)
  {
    forall k :: 0 <= k < |rows| ==> '\n' !in rows[k] && rows[k] != [] && rows[k][|rows[k]| - 1] == '"'
  }

  /** Lines without line feeds, the first starting and the last ending with a non-space, split back apart. */
  lemma JoinedLines(parts: seq<string>)
    requires parts != [] && parts[0] != [] && !IsSpace(parts[0][0])
    requires parts[|parts| - 1] != [] && !IsSpace(parts[|parts| - 1][|parts[|parts| - 1]| - 1])
    requires forall k :: 0 <= k < |parts| ==> '\n' !in parts[k]
    ensures Lines(Join(parts, "\n")) == parts
  {
    JoinFirstChar(parts, "\n");
    JoinLastChar(parts, "\n");
    TrimOfTrimmed(Join(parts, "\n"));
    SplitJoin(parts, '\n');
  }

  /** A header line followed by rows that are single lines ending in a quote splits back apart. */
  lemma HeaderAndRows(header: string, rows: seq<string>)
    requires header != [] && !IsSpace(header[0]) && !IsSpace(header[|header| - 1]) && '\n' !in header
    requires QuotedLines(rows)
    ensures Lines(Join([header] + rows, "\n")) == [header] + rows
  {
    var parts := [header] + rows;
    if rows != [] {
      assert parts[|parts| - 1] == rows[|rows| - 1];
    }
    assert forall k :: 0 <= k < |parts| ==> '\n' !in parts[k];
    JoinedLines(parts);
  }

  /** `parseCSV` splits a file into the header row and the rows. */
  lemma FileLines(rows: seq<string>)
    requires QuotedLines(rows)
    ensures Lines(FileOf(rows)) == [HeaderLine()] + rows
  {
    HeaderLineStart();
    HeaderLineEnd();
    HeaderLineSingle();
    HeaderAndRows(HeaderLine(), rows);
  }

  /** Lower-casing, character by character. */
  lemma ToLowerIs(h: string, l: string)
    requires |h| == |l| && forall i :: 0 <= i < |h| ==> LowerChar(h[i]) == l[i]
    ensures ToLower(h) == l
  {
  }

  /** `l` holds `h`'s lower-cased letter: a lower-case letter as is, or an upper-case one the column names use. */
  predicate LowerPair(c: char, d: char)
  {
    ('a' <= c <= 'z' && d == c) || (c == 'A' && d == 'a') || (c == 'D' && d == 'd')
  }

  /** A column name of letters, cleaned as a header cell, is its lower-cased form. */
  lemma HeaderWord(h: string, l: string)
    requires h != [] && |h| == |l| && forall i :: 0 <= i < |h| ==> LowerPair(h[i], l[i])
    ensures HeaderCell(h) == l
  {
    ToLowerIs(h, l);
    TrimOfTrimmed(h);
    RemoveCharAbsent(l, '\'');
    RemoveCharAbsent(l, '"');
  }

  /** The cleaning applied to each of the given column names gives the other names. */
  lemma HeaderWordsOf(hs: seq<string>, ls: seq<string>)
    requires hs == ExportHeaders && ls == ImportHeaders
    ensures forall k :: 0 <= k < |hs| ==> HeaderCell(hs[k]) == ls[k]
  {
    forall k | 0 <= k < |hs|
      ensures HeaderCell(hs[k]) == ls[k]
    {
      HeaderWord(hs[k], ls[k]);
    }
  }

  /** Each exported column name, cleaned as a header cell, is the lower-cased name. */
  lemma HeaderWords()
    ensures forall k :: 0 <= k < |ExportHeaders| ==> HeaderCell(ExportHeaders[k]) == ImportHeaders[k]
  {
    HeaderWordsOf(ExportHeaders, ImportHeaders);
  }

  /** The header row splits at its commas into the column names. */
  lemma HeaderSplit()
    ensures Split(HeaderLine(), ',') == ExportHeaders
  {
    assert forall k :: 0 <= k < |ExportHeaders| ==> ',' !in ExportHeaders[k];
    SplitJoin(ExportHeaders, ',');
  }

  /** `parseCSV` reads the exported header row as the lower-cased column names. */
  lemma HeaderRowRead()
    ensures HeaderCells(HeaderLine()) == ImportHeaders
  {
    HeaderSplit();
    HeaderWords();
  }

  /** The record a row gives: its cells under the import column names, the target date cell as given. */
  predicate CsvRecord(rec: Record, t: Task, target: string)
  {
    && "title" in rec && rec["title"] == t.title
    && "description" in rec && rec["description"] == t.description
    && "priority" in rec && rec["priority"] == PriorityName(t.priority)
    && "status" in rec && rec["status"] == StatusName(t.status)
    && "targetdate" in rec && rec["targetdate"] == target
    && "category" in rec && rec["category"] == t.category
    && rec.Keys == set h | h in ImportHeaders
  }

  lemma ImportHeadersDistinct()
    ensures forall i, j :: 0 <= i < j < |ImportHeaders| ==> ImportHeaders[i] != ImportHeaders[j]
  {
  }

  /** The keys the normaliser looks at that a CSV export never produces. */
  lemma ImportHeadersMiss()
    ensures "Description" !in ImportHeaders && "Category" !in ImportHeaders
    ensures forall j :: j == 0 || 2 <= j < |DateKeys| ==> DateKeys[j] !in ImportHeaders
  {
  }

  /** Building the record from eight cells puts each cell under its column. */
  lemma CellsRecord(cells: seq<string>)
    requires |cells| == |ImportHeaders|
    ensures forall i :: 0 <= i < |ImportHeaders| ==> RecordOf(ImportHeaders, cells)[ImportHeaders[i]] == cells[i]
  {
    ImportHeadersDistinct();
    forall i | 0 <= i < |ImportHeaders|
      ensures RecordOf(ImportHeaders, cells)[ImportHeaders[i]] == cells[i]
    {
      RecordOfLastWins(ImportHeaders, cells, i);
    }
  }

  /** The record of a task's cells. */
  lemma TaskRecord(t: Task, target: string, created: string, completed: string)
    ensures CsvRecord(RecordOf(ImportHeaders, Cells(t, target, created, completed)), t, target)
  {
    var cells := Cells(t, target, created, completed);
    var rec := RecordOf(ImportHeaders, cells);
    CellsRecord(cells);
    assert rec[ImportHeaders[0]] == t.title;
    assert rec[ImportHeaders[1]] == t.description;
    assert rec[ImportHeaders[2]] == PriorityName(t.priority);
    assert rec[ImportHeaders[3]] == StatusName(t.status);
    assert rec[ImportHeaders[4]] == target;
    assert rec[ImportHeaders[5]] == t.category;
  }

  /** The target date a CSV record reads back as: the task's own, or today when the cell is empty. */
  lemma CsvRecordDate(rec: Record, t: Task, target: string, today: int, parseDate: string -> Option<int>) returns (d: int)
    requires CsvRecord(rec, t, target)
    requires t.targetDate.None? ==> target == ""
    requires t.targetDate.Some? ==> target != "" && parseDate(target) == Some(t.targetDate.value)
    ensures d == (if t.targetDate.Some? then t.targetDate.value else today)
    ensures TargetDateOf(rec, today, parseDate) == d
  {
    ImportHeadersMiss();
    assert DateKeys[1] == "targetdate";
    if t.targetDate.Some? {
      d := t.targetDate.value;
      DateRead(rec, 1, target, d, today, parseDate);
    } else {
      d := today;
      NoDateRead(rec, today, parseDate);
    }
  }

  /** The title, description and category of a CSV record read back as the task's own. */
  lemma CsvRecordTexts(rec: Record, t: Task, target: string)
    requires CsvRecord(rec, t, target) && t.title != ""
    ensures FirstTruthyOr(rec, TitleKeys, "") == t.title
    ensures FirstTruthyOr(rec, DescriptionKeys, "") == t.description
    ensures FirstTruthyOr(rec, CategoryKeys, "") == t.category
  {
    ImportHeadersMiss();
    TitleRead(rec, t.title);
    DescriptionRead(rec, t.description);
    CategoryRead(rec, t.category);
  }

  /** The normaliser rebuilds a safe task from its CSV record. */
  lemma CsvRecordRoundTrip(rec: Record, t: Task, target: string, today: int, now: int, parseDate: string -> Option<int>)
    requires CsvRecord(rec, t, target) && CsvSafe(t)
    requires t.targetDate.None? ==> target == ""
    requires t.targetDate.Some? ==> target != "" && parseDate(target) == Some(t.targetDate.value)
    ensures NormalizeTask(rec, today, now, parseDate) == Some(Reimported(t, today, now))
  {
    CsvRecordTexts(rec, t, target);
    PriorityRead(rec, t.priority);
    StatusRead(rec, t.status);
    var d := CsvRecordDate(rec, t, target, today, parseDate);
    NormalizeReads(rec, today, now, parseDate, t.title, t.description, t.category, t.priority, t.status, d);
    assert Reimported(t, today, now) == Task("", t.title, t.description, t.priority, t.status, Some(d), t.category,
                                             false, None, Some(now), if t.status == Done then Some(now) else None);
  }

  /** One exported row of a safe task, read under the exported header row, gives the task back. */
  lemma RowRoundTrip(t: Task, today: int, now: int, parseDate: string -> Option<int>)
    requires CsvSafe(t)
    requires t.targetDate.Some? ==> parseDate(IsoDate(t.targetDate.value)) == Some(t.targetDate.value)
    ensures RowTask(ImportHeaders, CsvRow(t), Normalizer(today, now, parseDate)) == Some(Reimported(t, today, now))
  {
    var target := OrEmpty(DateText(t.targetDate));
    var cells := ExportCells(t);
    CellsSafe(t);
    SafeCellsReadBack(cells);
    TaskRecord(t, target, OrEmpty(StampText(t.createdAt)), OrEmpty(StampText(t.completedAt)));
    CsvRecordRoundTrip(RecordOf(ImportHeaders, cells), t, target, today, now, parseDate);
  }

  /**
   * Exporting tasks as CSV and importing the file gives every task back, in
   * order, as the normaliser rebuilds it: same title, description, priority,
   * status, category and target date, provided no text field holds a quote
   * or a line break or surrounding whitespace, and `Date.parse` reads the
   * exported dates back as the same days.
   */
  lemma CsvRoundTrip(tasks: seq<Task>, today: int, now: int, parseDate: string -> Option<int>)
    requires forall k :: 0 <= k < |tasks| ==> CsvSafe(tasks[k])
    requires forall k :: 0 <= k < |tasks| && tasks[k].targetDate.Some? ==>
               parseDate(IsoDate(tasks[k].targetDate.value)) == Some(tasks[k].targetDate.value)
    ensures CsvTasks(CsvText(tasks), Normalizer(today, now, parseDate)) == Reimport(tasks, today, now)
  {
    var rows := Rows(tasks);
    forall k | 0 <= k < |rows|
      ensures '\n' !in rows[k] && rows[k] != [] && rows[k][|rows[k]| - 1] == '"'
    {
      SafeRow(tasks[k]);
    }
    FileLines(rows);
    HeaderRowRead();
    var reader := RowReader(ImportHeaders, Normalizer(today, now, parseDate));
    forall k | 0 <= k < |tasks|
      ensures reader(rows[k]) == Some(Reimport(tasks, today, now)[k])
    {
      RowRoundTrip(tasks[k], today, now, parseDate);
    }
    FilterMapTotal(rows, reader, Reimport(tasks, today, now));
    assert ([HeaderLine()] + rows)[1..] == rows;
  }
}
