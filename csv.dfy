/**
 * The CSV side of import and export (`parseCSVLine`, `parseCSV`,
 * `exportAsCSV`). A line is split at commas outside double quotes; every
 * double quote only toggles the quoted state and is itself dropped.
 */
module Csv {
  import opened Text
  import opened Calendar
  import opened Tasks
  import opened Sequences
  import opened Normalize

  /**
   * The untrimmed fields `parseCSVLine` collects from `s` when it starts in
   * the given quoted state.
   */
  function Scan(s: string, inQuote: bool): (r: seq<string>)
    ensures r != []
  {
    if s == [] then [[]]
    else if s[0] == '"' then Scan(s[1..], !inQuote)
    else if s[0] == ',' && !inQuote then [[]] + Scan(s[1..], inQuote)
    else ConsFirst(s[0], Scan(s[1..], inQuote))
  }

  /** `fields.map(f => f.trim())`. */
  function TrimAll(fields: seq<string>): (r: seq<string>)
    ensures |r| == |fields|
    ensures forall k :: 0 <= k < |r| ==> r[k] == Trim(fields[k])
  {
    seq(|fields|, k requires 0 <= k < |fields| => Trim(fields[k]))
  }

  /** Glues `p` onto the front of the first piece. */
  function PrependFirst(p: string, pieces: seq<string>): (r: seq<string>)
    requires pieces != []
    ensures |r| == |pieces| && r[0] == p + pieces[0] && r[1..] == pieces[1..]
  {
    [p + pieces[0]] + pieces[1..]
  }

  /** `Scan(line[i..], inQuote)`, stepping through `line` by index as `parseCSVLine` does. */
  function ScanFrom(line: string, i: nat, inQuote: bool): (r: seq<string>)
    requires i <= |line|
    ensures r != []
    decreases |line| - i
  {
    if i == |line| then [[]]
    else if line[i] == '"' then ScanFrom(line, i + 1, !inQuote)
    else if line[i] == ',' && !inQuote then [[]] + ScanFrom(line, i + 1, inQuote)
    else ConsFirst(line[i], ScanFrom(line, i + 1, inQuote))
  }

  lemma {:induction false} ScanFromIsScan(line: string, i: nat, inQuote: bool)
    requires i <= |line|
    ensures ScanFrom(line, i, inQuote) == Scan(line[i..], inQuote)
    decreases |line| - i
  {
    if i < |line| {
      ScanFromIsScan(line, i + 1, if line[i] == '"' then !inQuote else inQuote);
      assert line[i..][1..] == line[i + 1..];
    }
  }

  /**
   * The fields of a line part-way through the scan: those already closed,
   * then the open field glued onto what the rest of the line gives.
   */
  function Pending(closed: seq<string>, current: string, line: string, i: nat, inQuote: bool): seq<string>
    requires i <= |line|
  {
    closed + PrependFirst(current, ScanFrom(line, i, inQuote))
  }

  /** `parseCSVLine(line)`: the trimmed fields of the line. */
  method ParseCsvLine(line: string) returns (fields: seq<string>)
    ensures fields == TrimAll(Scan(line, false))
  {
    fields := [];
    var current := "";
    var inQuote := false;
    ghost var closed: seq<string> := [];
    var i := 0;
    PendingStart(line);
    while i < |line|
      invariant 0 <= i <= |line|
      invariant fields == TrimAll(closed)
      invariant Pending(closed, current, line, i, inQuote) == Scan(line, false)
    {
      var c := line[i];
      if c == '"' {
        inQuote := !inQuote;
      } else if c == ',' && !inQuote {
        CommaStep(closed, current, line, i, inQuote);
        TrimAllAppend(closed, current);
        fields := fields + [Trim(current)];
        closed := closed + [current];
        current := "";
      } else {
        CharStep(closed, current, line, i, inQuote);
        current := current + [c];
      }
      i := i + 1;
    }
    PendingEnd(closed, current, line, inQuote);
    TrimAllAppend(closed, current);
    fields := fields + [Trim(current)];
  }

  lemma PendingStart(line: string)
    ensures Pending([], "", line, 0, false) == Scan(line, false)
  {
    ScanFromIsScan(line, 0, false);
    assert line[0..] == line;
    assert "" + Scan(line, false)[0] == Scan(line, false)[0];
  }

  lemma PendingEnd(closed: seq<string>, current: string, line: string, inQuote: bool)
    ensures Pending(closed, current, line, |line|, inQuote) == closed + [current]
  {
    assert current + [] == current;
  }

  /** An unquoted comma closes the current field. */
  lemma CommaStep(closed: seq<string>, current: string, line: string, i: nat, inQuote: bool)
    requires i < |line| && line[i] == ',' && !inQuote
    ensures Pending(closed, current, line, i, inQuote) == Pending(closed + [current], "", line, i + 1, inQuote)
  {
    var rest := ScanFrom(line, i + 1, inQuote);
    assert current + [] == current;
    assert "" + rest[0] == rest[0];
    assert PrependFirst("", rest) == rest;
  }

  /** Any other character but a quote joins the current field. */
  lemma CharStep(closed: seq<string>, current: string, line: string, i: nat, inQuote: bool)
    requires i < |line| && line[i] != '"' && !(line[i] == ',' && !inQuote)
    ensures Pending(closed, current, line, i, inQuote) == Pending(closed, current + [line[i]], line, i + 1, inQuote)
  {
    var rest := ScanFrom(line, i + 1, inQuote);
    assert current + ([line[i]] + rest[0]) == (current + [line[i]]) + rest[0];
  }

  lemma TrimAllAppend(fields: seq<string>, last: string)
    ensures TrimAll(fields + [last]) == TrimAll(fields) + [Trim(last)]
  {
    var a := TrimAll(fields + [last]);
    var b := TrimAll(fields) + [Trim(last)];
    forall k | 0 <= k < |a| ensures a[k] == b[k] {
      if k < |fields| {
        assert (fields + [last])[k] == fields[k];
      } else {
        assert (fields + [last])[k] == last;
      }
    }
  }

  /** Only the quotes are lost: joining the fields with commas gives the line without its quotes. */
  lemma {:induction false} ScanKeepsAllButQuotes(s: string, inQuote: bool)
    ensures Join(Scan(s, inQuote), ",") == RemoveChar(s, '"')
  {
    if s != [] {
      ScanKeepsAllButQuotes(s[1..], if s[0] == '"' then !inQuote else inQuote);
      assert s == [s[0]] + s[1..];
      RemoveCharAppend([s[0]], s[1..], '"');
      var rest := Scan(s[1..], inQuote);
      if s[0] == '"' {
      } else if s[0] == ',' && !inQuote {
        assert [[]] + rest != [] && ([[]] + rest)[1..] == rest;
      } else {
        JoinConsFirst(s[0], rest, ",");
      }
    }
  }

  lemma {:induction false} JoinConsFirst(c: char, pieces: seq<string>, sep: string)
    requires pieces != []
    ensures Join(ConsFirst(c, pieces), sep) == [c] + Join(pieces, sep)
  {
    if |pieces| > 1 {
      assert ConsFirst(c, pieces)[1..] == pieces[1..];
    }
  }

  /** No field holds a double quote. */
  lemma {:induction false} ScanDropsQuotes(s: string, inQuote: bool)
    ensures forall k :: 0 <= k < |Scan(s, inQuote)| ==> '"' !in Scan(s, inQuote)[k]
  {
    if s != [] {
      ScanDropsQuotes(s[1..], if s[0] == '"' then !inQuote else inQuote);
    }
  }

  /** An odd number of quotes precede position `i`: `parseCSVLine` is inside a quoted value there. */
  predicate QuotedBefore(s: string, i: nat)
    requires i <= |s|
  {
    CountChar(s[..i], '"') % 2 == 1
  }

  /** The comma at position `i` separates two fields: an even number of quotes precede it. */
  predicate SeparatorAt(s: string, i: nat)
    requires i < |s|
  {
    s[i] == ',' && !QuotedBefore(s, i)
  }

  /** How many of the first `n` characters of `s` separate fields. */
  function Separators(s: string, n: nat): (k: nat)
    requires n <= |s|
    ensures k <= n
  {
    if n == 0 then 0 else Separators(s, n - 1) + (if SeparatorAt(s, n - 1) then 1 else 0)
  }

  /** A line gives one field more than it has commas outside quotes. */
  lemma FieldCount(line: string)
    ensures |Scan(line, false)| == 1 + Separators(line, |line|)
  {
    FieldCountFrom(line, 0);
    assert line[0..] == line && line[..0] == [];
  }

  /** Each quote flips the quoted state; other characters keep it. */
  lemma QuoteParityStep(s: string, i: nat)
    requires i < |s|
    ensures QuotedBefore(s, i + 1) == if s[i] == '"' then !QuotedBefore(s, i) else QuotedBefore(s, i)
  {
    assert s[..i + 1] == s[..i] + [s[i]];
    CountCharAppend(s[..i], [s[i]], '"');
  }

  /** From position `i` on, in the quoted state the quotes before `i` leave, the scan adds the separators still to come. */
  lemma {:induction false} FieldCountFrom(s: string, i: nat)
    requires i <= |s|
    ensures |Scan(s[i..], QuotedBefore(s, i))| + Separators(s, i) == 1 + Separators(s, |s|)
    decreases |s| - i
  {
    if i == |s| {
      assert s[i..] == [];
    } else {
      FieldCountFrom(s, i + 1);
      QuoteParityStep(s, i);
      var t := s[i..];
      assert t[0] == s[i] && t[1..] == s[i + 1..];
      ScanLength(t, QuotedBefore(s, i));
    }
  }

  /** How one character changes the number of fields. */
  lemma ScanLength(t: string, inQuote: bool)
    requires t != []
    ensures |Scan(t, inQuote)| ==
              if t[0] == '"' then |Scan(t[1..], !inQuote)|
              else if t[0] == ',' && !inQuote then 1 + |Scan(t[1..], inQuote)|
              else |Scan(t[1..], inQuote)|
  {
  }

  /** `String(v).replace(/"/g, '""')`: every double quote doubled. */
  function Double(v: string): (r: string)
    ensures |r| == |v| + CountChar(v, '"')
  {
    if v == [] then [] else (if v[0] == '"' then "\"\"" else [v[0]]) + Double(v[1..])
  }

  /** One exported cell: the value with its quotes doubled, between quotes. */
  function QuoteField(v: string): string
  {
    "\"" + Double(v) + "\""
  }

  function QuoteAll(vs: seq<string>): (r: seq<string>)
    ensures |r| == |vs| && forall k :: 0 <= k < |vs| ==> r[k] == QuoteField(vs[k])
  {
    seq(|vs|, k requires 0 <= k < |vs| => QuoteField(vs[k]))
  }

  /** Inside quotes, a doubled quote closes and reopens the quoted part, and leaves nothing behind. */
  lemma QuotePair(tail: string)
    ensures Scan("\"\"" + tail, true) == Scan(tail, true)
  {
    assert ("\"\"" + tail)[1..] == "\"" + tail;
    assert ("\"" + tail)[1..] == tail;
  }

  /** Inside quotes, every character but a quote, a comma included, joins the field. */
  lemma QuotedChar(c: char, tail: string)
    requires c != '"'
    ensures Scan([c] + tail, true) == ConsFirst(c, Scan(tail, true))
  {
    assert ([c] + tail)[1..] == tail;
  }

  /** Inside quotes, a doubled value reads back as the value with its quotes dropped. */
  lemma {:induction false} ScanDoubled(v: string, rest: string)
    ensures Scan(Double(v) + rest, true) == PrependFirst(RemoveChar(v, '"'), Scan(rest, true))
  {
    if v == [] {
      assert Double(v) + rest == rest;
      assert "" + Scan(rest, true)[0] == Scan(rest, true)[0];
    } else {
      ScanDoubled(v[1..], rest);
      ScanDoubledStep(v, rest);
    }
  }

  lemma ScanDoubledStep(v: string, rest: string)
    requires v != []
    requires Scan(Double(v[1..]) + rest, true) == PrependFirst(RemoveChar(v[1..], '"'), Scan(rest, true))
    ensures Scan(Double(v) + rest, true) == PrependFirst(RemoveChar(v, '"'), Scan(rest, true))
  {
    if v[0] == '"' {
      DoubledQuote(v, rest);
    } else {
      DoubledChar(v, rest);
      ConsPrepend(v[0], RemoveChar(v[1..], '"'), Scan(rest, true));
    }
  }

  /** A quote of the value, doubled, is read inside quotes as nothing at all. */
  lemma DoubledQuote(v: string, rest: string)
    requires v != [] && v[0] == '"'
    ensures Scan(Double(v) + rest, true) == Scan(Double(v[1..]) + rest, true)
    ensures RemoveChar(v, '"') == RemoveChar(v[1..], '"')
  {
    var tail := Double(v[1..]) + rest;
    assert Double(v) + rest == "\"\"" + tail;
    QuotePair(tail);
  }

  /** Any other character of the value is read inside quotes as itself. */
  lemma DoubledChar(v: string, rest: string)
    requires v != [] && v[0] != '"'
    ensures Scan(Double(v) + rest, true) == ConsFirst(v[0], Scan(Double(v[1..]) + rest, true))
    ensures RemoveChar(v, '"') == [v[0]] + RemoveChar(v[1..], '"')
  {
    var tail := Double(v[1..]) + rest;
    assert Double(v) + rest == [v[0]] + tail;
    QuotedChar(v[0], tail);
  }

  /** An exported cell followed by `rest` reads as the value without quotes, glued onto what `rest` gives. */
  lemma QuotedCell(v: string, rest: string)
    ensures Scan(QuoteField(v) + rest, false) == PrependFirst(RemoveChar(v, '"'), Scan(rest, false))
  {
    var s := QuoteField(v) + rest;
    assert s == "\"" + (Double(v) + ("\"" + rest));
    assert s[1..] == Double(v) + ("\"" + rest);
    ScanDoubled(v, "\"" + rest);
    assert ("\"" + rest)[1..] == rest;
  }

  /** The values with their quotes dropped. */
  function Unquoted(vs: seq<string>): (r: seq<string>)
    ensures |r| == |vs| && forall k :: 0 <= k < |vs| ==> r[k] == RemoveChar(vs[k], '"')
  {
    seq(|vs|, k requires 0 <= k < |vs| => RemoveChar(vs[k], '"'))
  }

  /**
   * A line of exported cells scans back to the values, minus their quotes:
   * commas inside a value stay in it, and a doubled quote vanishes.
   */
  lemma {:induction false} QuotedLine(vs: seq<string>)
    requires vs != []
    ensures Scan(Join(QuoteAll(vs), ","), false) == Unquoted(vs)
  {
    var v := vs[0];
    if |vs| == 1 {
      assert Join(QuoteAll(vs), ",") == QuoteField(v) + [];
      QuotedCell(v, []);
      assert RemoveChar(v, '"') + [] == RemoveChar(v, '"');
      assert Unquoted(vs) == [RemoveChar(v, '"')];
    } else {
      var tail := Join(QuoteAll(vs[1..]), ",");
      QuotedLine(vs[1..]);
      assert QuoteAll(vs)[1..] == QuoteAll(vs[1..]);
      assert Join(QuoteAll(vs), ",") == QuoteField(v) + ("," + tail);
      QuotedCell(v, "," + tail);
      assert ("," + tail)[1..] == tail;
      assert Scan("," + tail, false) == [[]] + Unquoted(vs[1..]);
      assert RemoveChar(v, '"') + [] == RemoveChar(v, '"');
    }
  }

  /** A value with a quote in it comes back from an export and an import without its quotes. */
  lemma QuoteLostOnImport(v: string)
    requires '"' in v
    ensures Scan(QuoteField(v), false) == [RemoveChar(v, '"')] && RemoveChar(v, '"') != v
  {
    QuotedLine([v]);
    assert Join(QuoteAll([v]), ",") == QuoteField(v);
  }

  /**
   * The scan a CSV reader following RFC 4180 performs: inside quotes, a
   * doubled quote stands for one quote character.
   */
  function ScanUnescaped(s: string, inQuote: bool): (r: seq<string>)
    ensures r != []
  {
    if s == [] then [[]]
    else if s[0] == '"' && inQuote && |s| >= 2 && s[1] == '"' then ConsFirst('"', ScanUnescaped(s[2..], true))
    else if s[0] == '"' then ScanUnescaped(s[1..], !inQuote)
    else if s[0] == ',' && !inQuote then [[]] + ScanUnescaped(s[1..], inQuote)
    else ConsFirst(s[0], ScanUnescaped(s[1..], inQuote))
  }

  /** Inside quotes, a doubled quote is one quote character of the field. */
  lemma EscapedQuote(tail: string)
    ensures ScanUnescaped("\"\"" + tail, true) == ConsFirst('"', ScanUnescaped(tail, true))
  {
    assert ("\"\"" + tail)[2..] == tail;
  }

  lemma UnescapedChar(c: char, tail: string)
    requires c != '"'
    ensures ScanUnescaped([c] + tail, true) == ConsFirst(c, ScanUnescaped(tail, true))
  {
    assert ([c] + tail)[1..] == tail;
  }

  /** A quote not followed by another closes the quoted part. */
  lemma ClosingQuote(rest: string)
    requires rest == [] || rest[0] != '"'
    ensures ScanUnescaped("\"" + rest, true) == ScanUnescaped(rest, false)
  {
    assert ("\"" + rest)[1..] == rest;
  }

  /** Inside quotes, a doubled value and its closing quote read back as exactly the value. */
  lemma {:induction false} UnescapedDoubled(v: string, rest: string)
    requires rest == [] || rest[0] != '"'
    ensures ScanUnescaped(Double(v) + "\"" + rest, true) == PrependFirst(v, ScanUnescaped(rest, false))
  {
    var q := ScanUnescaped(rest, false);
    if v == [] {
      assert Double(v) + "\"" + rest == "\"" + rest;
      ClosingQuote(rest);
      assert v + q[0] == q[0];
    } else {
      UnescapedDoubled(v[1..], rest);
      UnescapedStep(v, rest);
    }
  }

  /** One character of the value: what the doubled rest of the value reads as, with that character in front. */
  lemma UnescapedStep(v: string, rest: string)
    requires v != []
    requires ScanUnescaped(Double(v[1..]) + "\"" + rest, true)
          == PrependFirst(v[1..], ScanUnescaped(rest, false))
    ensures ScanUnescaped(Double(v) + "\"" + rest, true) == PrependFirst(v, ScanUnescaped(rest, false))
  {
    var tail := Double(v[1..]) + "\"" + rest;
    assert ScanUnescaped(Double(v) + "\"" + rest, true) == ConsFirst(v[0], ScanUnescaped(tail, true)) by {
      DoubledHead(v, rest);
    }
    ConsPrepend(v[0], v[1..], ScanUnescaped(rest, false));
    assert v == [v[0]] + v[1..];
  }

  lemma DoubledHead(v: string, rest: string)
    requires v != []
    ensures ScanUnescaped(Double(v) + "\"" + rest, true)
         == ConsFirst(v[0], ScanUnescaped(Double(v[1..]) + "\"" + rest, true))
  {
    var tail := Double(v[1..]) + "\"" + rest;
    if v[0] == '"' {
      assert Double(v) + "\"" + rest == "\"\"" + tail;
      EscapedQuote(tail);
    } else {
      assert Double(v) + "\"" + rest == [v[0]] + tail;
      UnescapedChar(v[0], tail);
    }
  }

  lemma ConsPrepend(c: char, p: string, pieces: seq<string>)
    requires pieces != []
    ensures ConsFirst(c, PrependFirst(p, pieces)) == PrependFirst([c] + p, pieces)
  {
    assert [c] + (p + pieces[0]) == ([c] + p) + pieces[0];
  }

  /** With quotes read as RFC 4180 reads them, an exported line gives back exactly its values. */
  lemma {:induction false} UnescapedLine(vs: seq<string>)
    requires vs != []
    ensures ScanUnescaped(Join(QuoteAll(vs), ","), false) == vs
  {
    var v := vs[0];
    if |vs| == 1 {
      assert Join(QuoteAll(vs), ",") == "\"" + (Double(v) + "\"" + []);
      UnescapedDoubled(v, []);
      assert v + [] == v;
    } else {
      UnescapedLine(vs[1..]);
      assert QuoteAll(vs)[1..] == QuoteAll(vs[1..]);
      UnescapedCons(v, vs[1..], Join(QuoteAll(vs[1..]), ","));
      assert [v] + vs[1..] == vs;
    }
  }

  /** A cell, a comma and a line that reads back as `vs`: the cell's value in front of `vs`. */
  lemma UnescapedCons(v: string, vs: seq<string>, tail: string)
    requires ScanUnescaped(tail, false) == vs
    ensures ScanUnescaped(QuoteField(v) + "," + tail, false) == [v] + vs
  {
    assert QuoteField(v) + "," + tail == "\"" + (Double(v) + "\"" + ("," + tail));
    UnescapedDoubled(v, "," + tail);
    assert ("," + tail)[1..] == tail;
    assert ScanUnescaped("," + tail, false) == [[]] + vs;
    assert v + [] == v;
  }

  /** A header cell as `parseCSV` reads it: trimmed, lower-cased, apostrophes and quotes removed. */
  function HeaderCell(h: string): (r: string)
    ensures '"' !in r && '\'' !in r
    ensures forall c :: c in r ==> !('A' <= c <= 'Z')
  {
    var lower := ToLower(Trim(h));
    LowerHasNoCapitals(Trim(h));
    RemoveCharKeeps(lower, '\'');
    RemoveCharKeeps(RemoveChar(lower, '\''), '"');
    RemoveChar(RemoveChar(lower, '\''), '"')
  }

  /** A header without surrounding space, capitals, apostrophes or quotes is read as itself. */
  lemma HeaderCellOfClean(h: string)
    requires IsTrimmed(h) && '"' !in h && '\'' !in h
    requires forall i :: 0 <= i < |h| ==> !('A' <= h[i] <= 'Z')
    ensures HeaderCell(h) == h
  {
    TrimOfTrimmed(h);
    LowerOfLower(h);
    RemoveCharAbsent(h, '\'');
    RemoveCharAbsent(h, '"');
  }

  /** The header line split at every comma (quotes are not honoured here), each cell cleaned. */
  function HeaderCells(line: string): (r: seq<string>)
    ensures |r| == 1 + CountChar(line, ',')
  {
    var cells := Split(line, ',');
    seq(|cells|, k requires 0 <= k < |cells| => HeaderCell(cells[k]))
  }

  /** `headers.forEach((h, idx) => obj[h] = values[idx])` on an empty object. */
  function RecordOf(headers: seq<string>, values: seq<string>): (rec: Record)
    requires |headers| <= |values|
    ensures rec.Keys == set h | h in headers
  {
    if headers == [] then map[]
    else RecordOf(headers[..|headers| - 1], values)[headers[|headers| - 1] := values[|headers| - 1]]
  }

  /** Of several columns with the same header, the last one gives the value. */
  lemma {:induction false} RecordOfLastWins(headers: seq<string>, values: seq<string>, i: nat)
    requires |headers| <= |values| && i < |headers|
    requires forall j :: i < j < |headers| ==> headers[j] != headers[i]
    ensures RecordOf(headers, values)[headers[i]] == values[i]
  {
    var n := |headers| - 1;
    if i < n {
      RecordOfLastWins(headers[..n], values, i);
    }
  }

  /**
   * The task one data line gives under the given headers: nothing when the
   * line has fewer fields than there are headers, or when `normalize`
   * (`normalizeTask`, see `Normalizer`) rejects the record.
   */
  function RowTask(headers: seq<string>, line: string, normalize: Record -> Option<Task>): Option<Task>
  {
    var values := TrimAll(Scan(line, false));
    if |values| < |headers| then None else normalize(RecordOf(headers, values))
  }

  function RowReader(headers: seq<string>, normalize: Record -> Option<Task>): string -> Option<Task>
  {
    line => RowTask(headers, line, normalize)
  }

  /** The lines `parseCSV` works on: the trimmed content split at every line feed. */
  function Lines(content: string): (r: seq<string>)
    ensures r != []
  {
    Split(Trim(content), '\n')
  }

  /**
   * `parseCSV(content)`: no tasks unless there is a header line and at least
   * one more line; otherwise each data line gives at most one task, in order.
   */
  function CsvTasks(content: string, normalize: Record -> Option<Task>): (r: seq<Task>)
    ensures |Lines(content)| < 2 ==> r == []
    ensures |r| <= |Lines(content)| - 1
  {
    var lines := Lines(content);
    if |lines| < 2 then [] else FilterMap(lines[1..], RowReader(HeaderCells(lines[0]), normalize))
  }

  /** Every imported task comes from one data line, read under the header line. */
  lemma CsvTasksSource(content: string, normalize: Record -> Option<Task>, t: Task) returns (k: nat)
    requires t in CsvTasks(content, normalize)
    ensures 1 <= k < |Lines(content)|
    ensures RowTask(HeaderCells(Lines(content)[0]), Lines(content)[k], normalize) == Some(t)
  {
    var lines := Lines(content);
    var reader := RowReader(HeaderCells(lines[0]), normalize);
    k := RowSource(lines, reader, t);
  }

  /** What a line reader keeps from the lines after the first comes from one of them. */
  lemma RowSource<B>(lines: seq<string>, reader: string -> Option<B>, t: B) returns (k: nat)
    requires lines != [] && t in FilterMap(lines[1..], reader)
    ensures 1 <= k < |lines| && reader(lines[k]) == Some(t)
  {
    var j := FilterMapSource(lines[1..], reader, t);
    k := j + 1;
    assert lines[1..][j] == lines[k];
  }

  /** The loop over the headers: each header gets the value in its column, a later duplicate overwriting. */
  method BuildRecord(headers: seq<string>, values: seq<string>) returns (obj: Record)
    requires |headers| <= |values|
    ensures obj == RecordOf(headers, values)
  {
    obj := map[];
    var j := 0;
    while j < |headers|
      invariant 0 <= j <= |headers|
      invariant obj == RecordOf(headers[..j], values)
    {
      assert headers[..j + 1][..j] == headers[..j];
      obj := obj[headers[j] := values[j]];
      j := j + 1;
    }
    assert headers[..j] == headers;
  }

  /** One pass of `parseCSV`'s loop: the task of one data line, if any. */
  method ReadRow(headers: seq<string>, line: string, normalize: Record -> Option<Task>) returns (t: Option<Task>)
    ensures t == RowTask(headers, line, normalize)
  {
    var values := ParseCsvLine(line);
    if |values| < |headers| {
      return None;
    }
    var obj := BuildRecord(headers, values);
    t := normalize(obj);
  }

  /** `parseCSV`: the header line, then the loop over the data lines. */
  method ParseCsv(content: string, normalize: Record -> Option<Task>) returns (result: seq<Task>)
    ensures result == CsvTasks(content, normalize)
  {
    var lines := Lines(content);
    if |lines| < 2 {
      return [];
    }
    result := ReadRows(lines, HeaderCells(lines[0]), normalize);
  }

  /** `parseCSV`'s loop: every line after the first, read under `headers`, in order. */
  method ReadRows(lines: seq<string>, headers: seq<string>, normalize: Record -> Option<Task>)
      returns (result: seq<Task>)
    requires lines != []
    ensures result == FilterMap(lines[1..], RowReader(headers, normalize))
  {
    result := [];
    var i := 1;
    while i < |lines|
      invariant 1 <= i <= |lines|
      invariant result == FilterMap(lines[1..i], RowReader(headers, normalize))
    {
      var t := ReadRow(headers, lines[i], normalize);
      NextLine(lines, i, RowReader(headers, normalize));
      if t.Some? {
        result := result + [t.value];
      }
      i := i + 1;
    }
    assert lines[1..i] == lines[1..];
  }

  lemma NextLine<B>(lines: seq<string>, i: nat, reader: string -> Option<B>)
    requires 1 <= i < |lines|
    ensures FilterMap(lines[1..i + 1], reader)
         == FilterMap(lines[1..i], reader) + (match reader(lines[i]) case Some(x) => [x] case None => [])
  {
    assert lines[1..i + 1] == lines[1..i] + [lines[i]];
    FilterMapAppend(lines[1..i], lines[i], reader);
  }
}
