/** The inventory export (`exportCsv` in inventory.js) and a reader for it: the grammar of
    section 2 of RFC 4180 as a machine that takes one character at a time. The reader lets
    an unquoted field hold anything but quote, comma, CR and LF, and skips a byte-order mark. */
module Csv {
  import opened Wrappers

  // ----- writing -----

  predicate Special(c: char) { c == '"' || c == ',' || c == '\n' || c == '\r' }

  predicate NeedsQuotes(s: string) { exists k :: 0 <= k < |s| && Special(s[k]) }

  function Escaped(c: char): string { if c == '"' then ['"', '"'] else [c] }

  /** Every quote doubled. */
  function Doubled(s: string): string {
    if s == "" then "" else Doubled(s[..|s| - 1]) + Escaped(s[|s| - 1])
  }

  function Cell(s: string): string {
    if NeedsQuotes(s) then ['"'] + Doubled(s) + ['"'] else s
  }

  function Joined(parts: seq<string>, separator: string): string {
    if parts == [] then ""
    else if |parts| == 1 then parts[0]
    else Joined(parts[..|parts| - 1], separator) + separator + parts[|parts| - 1]
  }

  function Cells(row: seq<string>): (out: seq<string>)
    ensures |out| == |row|
  {
    seq(|row|, k requires 0 <= k < |row| => Cell(row[k]))
  }

  function Line(row: seq<string>): string { Joined(Cells(row), ",") }

  function Lines(rows: seq<seq<string>>): (out: seq<string>)
    ensures |out| == |rows|
  {
    seq(|rows|, k requires 0 <= k < |rows| => Line(rows[k]))
  }

  const CRLF := "\r\n"
  const BOM := "\U{FEFF}"

  function Text(rows: seq<seq<string>>): string { BOM + Joined(Lines(rows), CRLF) }

  // ----- reading -----

  datatype Mode = Start | Plain | Quoted | QuoteSeen | Return | Broken

  /** Finished records, the fields of the current one, and the current field so far. */
  datatype Reader = Reader(mode: Mode, rows: seq<seq<string>>, row: seq<string>, field: string)

  function Feed(r: Reader, c: char): Reader {
    match r.mode
    case Start =>
      if c == '"' then r.(mode := Quoted)
      else if c == ',' then EndField(r)
      else if c == '\r' then r.(mode := Return)
      else if c == '\n' then r.(mode := Broken)
      else r.(mode := Plain, field := r.field + [c])
    case Plain =>
      if c == ',' then EndField(r)
      else if c == '\r' then r.(mode := Return)
      else if c == '"' || c == '\n' then r.(mode := Broken)
      else r.(field := r.field + [c])
    case Quoted =>
      if c == '"' then r.(mode := QuoteSeen) else r.(field := r.field + [c])
    case QuoteSeen =>
      if c == '"' then r.(mode := Quoted, field := r.field + [c])
      else if c == ',' then EndField(r)
      else if c == '\r' then r.(mode := Return)
      else r.(mode := Broken)
    case Return =>
      if c == '\n' then Reader(Start, r.rows + [r.row + [r.field]], [], "") else r.(mode := Broken)
    case Broken => r
  }

  function EndField(r: Reader): Reader { Reader(Start, r.rows, r.row + [r.field], "") }

  /** The reader after the first `n` characters. */
  function FeedTo(r: Reader, text: string, n: nat): Reader
    requires n <= |text|
  {
    if n == 0 then r else Feed(FeedTo(r, text, n - 1), text[n - 1])
  }

  function FeedAll(r: Reader, text: string): Reader { FeedTo(r, text, |text|) }

  const AT_START := Reader(Start, [], [], "")

  /** At the end the last record may or may not have had a line break after it. */
  function Finish(r: Reader): Option<seq<seq<string>>> {
    if r.mode == Quoted || r.mode == Return || r.mode == Broken then None
    else if r.mode == Start && r.row == [] && r.rows != [] then Some(r.rows)
    else Some(r.rows + [r.row + [r.field]])
  }

  function Read(text: string): Option<seq<seq<string>>> {
    Finish(FeedAll(AT_START, if BOM <= text then text[1..] else text))
  }

  // ----- round trip -----

  lemma {:induction false} FeedPrefix(r: Reader, a: string, b: string, n: nat)
    requires n <= |a|
    ensures FeedTo(r, a + b, n) == FeedTo(r, a, n)
  {
    if n == 0 {
    } else {
      FeedPrefix(r, a, b, n - 1);
    }
  }

  lemma {:induction false} FeedSuffix(r: Reader, a: string, b: string, n: nat)
    requires n <= |b|
    ensures FeedTo(r, a + b, |a| + n) == FeedTo(FeedAll(r, a), b, n)
  {
    if n == 0 { FeedPrefix(r, a, b, |a|); } else { FeedSuffix(r, a, b, n - 1); }
  }

  lemma {:induction false} FeedInTurn(r: Reader, a: string, b: string)
    ensures FeedAll(r, a + b) == FeedAll(FeedAll(r, a), b)
  {
    FeedSuffix(r, a, b, |b|);
  }

  lemma {:induction false} FeedOne(r: Reader, c: char)
    ensures FeedAll(r, [c]) == Feed(r, c)
  {
    assert FeedTo(r, [c], 0) == r;
  }

  /** The mode in which a cell leaves the reader. */
  function After(s: string): Mode { if NeedsQuotes(s) then QuoteSeen else if s == "" then Start else Plain }

  /** Inside quotes a doubled quote adds one quote, and any other character itself. */
  lemma {:induction false} FeedEscaped(r: Reader, c: char)
    requires r.mode == Quoted
    ensures FeedAll(r, Escaped(c)) == r.(field := r.field + [c])
  {
    if c == '"' {
      FeedInTurn(r, ['"'], ['"']);
      FeedOne(r, '"');
      FeedOne(Feed(r, '"'), '"');
      assert ['"'] + ['"'] == Escaped(c);
    } else {
      FeedOne(r, c);
    }
  }

  lemma {:induction false} DoubledSnoc(front: string, c: char)
    ensures Doubled(front + [c]) == Doubled(front) + Escaped(c)
  {
    assert (front + [c])[..|front|] == front;
  }

  lemma {:induction false} FeedDoubledNext(r: Reader, front: string, c: char, doubled: string)
    requires r.mode == Quoted && FeedAll(r, doubled) == r.(field := r.field + front)
    ensures FeedAll(r, doubled + Escaped(c)) == r.(field := r.field + (front + [c]))
  {
    FeedInTurn(r, doubled, Escaped(c));
    FeedEscaped(r.(field := r.field + front), c);
    assert r.field + (front + [c]) == (r.field + front) + [c];
  }

  lemma {:induction false} FeedDoubled(r: Reader, s: string)
    requires r.mode == Quoted
    ensures FeedAll(r, Doubled(s)) == r.(field := r.field + s)
  {
    if s == "" {
      assert r.field + s == r.field;
    } else {
      var front, c := s[..|s| - 1], s[|s| - 1];
      FeedDoubled(r, front);
      FeedDoubledNext(r, front, c, Doubled(front));
      DoubledSnoc(front, c);
      assert s == front + [c];
    }
  }

  lemma {:induction false} FeedPlain(r: Reader, s: string, n: nat)
    requires r.mode == Start && r.field == "" && !NeedsQuotes(s) && n <= |s|
    ensures FeedTo(r, s, n) == r.(mode := if n == 0 then Start else Plain, field := s[..n])
  {
    if n == 0 {
    } else {
      FeedPlain(r, s, n - 1);
      assert !Special(s[n - 1]);
      assert s[..n] == s[..n - 1] + [s[n - 1]];
    }
  }

  /** One cell, quoted or not, is read back as the very string it was made from. */
  lemma {:induction false} FeedCell(r: Reader, s: string)
    requires r.mode == Start && r.field == ""
    ensures FeedAll(r, Cell(s)) == r.(mode := After(s), field := s)
  {
    if NeedsQuotes(s) {
      var open := r.(mode := Quoted);
      FeedInTurn(r, ['"'] + Doubled(s), ['"']);
      FeedInTurn(r, ['"'], Doubled(s));
      FeedOne(r, '"');
      FeedDoubled(open, s);
      FeedOne(FeedAll(open, Doubled(s)), '"');
      assert "" + s == s;
    } else {
      FeedPlain(r, s, |s|);
      assert s[..|s|] == s;
    }
  }

  lemma {:induction false} LineJoins(row: seq<string>)
    requires |row| > 1
    ensures Line(row) == Line(row[..|row| - 1]) + "," + Cell(row[|row| - 1])
  {
    assert Cells(row)[..|row| - 1] == Cells(row[..|row| - 1]);
  }

  lemma {:induction false} FeedNextCell(r: Reader, before: string, open: Reader, cell: string)
    requires FeedAll(r, before) == open && open.mode in {Start, Plain, QuoteSeen}
    ensures FeedAll(r, before + "," + Cell(cell)) == Reader(After(cell), open.rows, open.row + [open.field], cell)
  {
    FeedInTurn(r, before + ",", Cell(cell));
    FeedInTurn(r, before, ",");
    FeedOne(open, ',');
    FeedCell(EndField(open), cell);
  }

  /** A line leaves all fields but the last in the record, and the last still open. */
  lemma {:induction false} FeedLine(r: Reader, row: seq<string>)
    requires r.mode == Start && r.row == [] && r.field == "" && row != []
    ensures FeedAll(r, Line(row)) == Reader(After(row[|row| - 1]), r.rows, row[..|row| - 1], row[|row| - 1])
  {
    var n := |row| - 1;
    if n == 0 {
      assert Cells(row)[0] == Cell(row[0]);
      FeedCell(r, row[0]);
    } else {
      var front, last := row[..n], row[n];
      FeedLine(r, front);
      LineJoins(row);
      FeedNextCell(r, Line(front), Reader(After(front[n - 1]), r.rows, front[..n - 1], front[n - 1]), last);
      assert front[..n - 1] + [front[n - 1]] == front;
    }
  }

  /** A line break closes the open field and the record. */
  lemma {:induction false} FeedBreak(r: Reader)
    requires r.mode == Start || r.mode == Plain || r.mode == QuoteSeen
    ensures FeedAll(r, CRLF) == Reader(Start, r.rows + [r.row + [r.field]], [], "")
  {
    FeedInTurn(r, "\r", "\n");
    FeedOne(r, '\r');
    FeedOne(Feed(r, '\r'), '\n');
    assert "\r" + "\n" == CRLF;
  }

  /** Where the reader stands after the lines of some records, the last one still open. */
  function OpenAt(rows: seq<seq<string>>): Reader
    requires Writable(rows)
  {
    var last := rows[|rows| - 1];
    Reader(After(last[|last| - 1]), rows[..|rows| - 1], last[..|last| - 1], last[|last| - 1])
  }

  lemma {:induction false} OpenThenBreak(rows: seq<seq<string>>)
    requires Writable(rows)
    ensures FeedAll(OpenAt(rows), CRLF) == Reader(Start, rows, [], "")
  {
    var last := rows[|rows| - 1];
    FeedBreak(OpenAt(rows));
    assert last[..|last| - 1] + [last[|last| - 1]] == last;
    assert rows[..|rows| - 1] + [last] == rows;
  }

  predicate Writable(rows: seq<seq<string>>) { rows != [] && forall k :: 0 <= k < |rows| ==> rows[k] != [] }

  lemma {:induction false} LinesJoin(rows: seq<seq<string>>)
    requires |rows| > 1
    ensures Joined(Lines(rows), CRLF) == Joined(Lines(rows[..|rows| - 1]), CRLF) + CRLF + Line(rows[|rows| - 1])
  {
    assert Lines(rows)[..|rows| - 1] == Lines(rows[..|rows| - 1]);
  }

  lemma {:induction false} FeedNextLine(before: string, rows: seq<seq<string>>, row: seq<string>)
    requires Writable(rows) && row != [] && FeedAll(AT_START, before) == OpenAt(rows)
    ensures Writable(rows + [row]) && FeedAll(AT_START, before + CRLF + Line(row)) == OpenAt(rows + [row])
  {
    FeedInTurn(AT_START, before + CRLF, Line(row));
    FeedInTurn(AT_START, before, CRLF);
    OpenThenBreak(rows);
    FeedLine(Reader(Start, rows, [], ""), row);
    assert (rows + [row])[..|rows|] == rows;
  }

  lemma {:induction false} FeedLines(rows: seq<seq<string>>)
    requires Writable(rows)
    ensures FeedAll(AT_START, Joined(Lines(rows), CRLF)) == OpenAt(rows)
  {
    var n := |rows| - 1;
    if n == 0 {
      assert Lines(rows)[0] == Line(rows[0]);
      FeedLine(AT_START, rows[0]);
    } else {
      var front, last := rows[..n], rows[n];
      FeedLines(front);
      LinesJoin(rows);
      FeedNextLine(Joined(Lines(front), CRLF), front, last);
      assert front + [last] == rows;
    }
  }

  lemma {:induction false} LoneBlank(row: seq<string>, cell: string)
    ensures row + [cell] == [""] <==> row == [] && cell == ""
  {
    assert row + [cell] == [""] ==> |row + [cell]| == 1 && (row + [cell])[|row|] == cell;
  }

  lemma {:induction false} FinishOpen(rows: seq<seq<string>>)
    requires Writable(rows)
    ensures Finish(OpenAt(rows)) == Some(if |rows| > 1 && rows[|rows| - 1] == [""] then rows[..|rows| - 1] else rows)
  {
    var before, last := rows[..|rows| - 1], rows[|rows| - 1];
    var row, cell := last[..|last| - 1], last[|last| - 1];
    FinishAt(before, row, cell);
    LoneBlank(row, cell);
    assert last == row + [cell] && rows == before + [last];
  }

  lemma {:induction false} FinishAt(before: seq<seq<string>>, row: seq<string>, cell: string)
    ensures Finish(Reader(After(cell), before, row, cell)) ==
            Some(if before != [] && row == [] && cell == "" then before else before + [row + [cell]])
  {
  }

  /** Whatever the text, a record the reader has closed has at least one field. */
  lemma {:induction false} RecordsAreFull(text: string, n: nat)
    requires n <= |text|
    ensures forall row :: row in FeedTo(AT_START, text, n).rows ==> row != []
  {
    if n == 0 {
    } else {
      RecordsAreFull(text, n - 1);
    }
  }

  lemma {:induction false} ReadIsWritable(text: string)
    ensures Read(text).Some? ==> Writable(Read(text).value)
  {
    var body := if BOM <= text then text[1..] else text;
    var rows := FeedAll(AT_START, body).rows;
    RecordsAreFull(body, |body|);
    forall k | Read(text).Some? && 0 <= k < |Read(text).value| ensures Read(text).value[k] != [] {
      assert k < |rows| ==> rows[k] in rows;
    }
  }

  /** The reader undoes the writer for every matrix of strings that has a record and no
      record without cells, with one exception the format itself forces: a last record that
      is a single empty cell is written as nothing after a line break, and that line break
      is then the file's closing one. Such a file reads back as the records before it. */
  lemma {:induction false} RoundTrip(rows: seq<seq<string>>)
    ensures Read(Text(rows)) == Some(rows) <==> Writable(rows) && !(|rows| > 1 && rows[|rows| - 1] == [""])
    ensures Writable(rows) ==> Read(Text(rows)) == Some(rows) || Read(Text(rows)) == Some(rows[..|rows| - 1])
  {
    if Writable(rows) {
      FeedLines(rows);
      FinishOpen(rows);
      assert Text(rows)[1..] == Joined(Lines(rows), CRLF);
    } else {
      ReadIsWritable(Text(rows));
    }
  }

  // ----- the export -----

  const HEAD := ["name", "type", "source", "target", "issuer", "expires_at", "days_remaining",
                 "state", "last_scanned_at", "last_error", "covered_names"]

  /** The visible items, each already turned into its eleven columns; nothing is exported
      when there are none. What comes out reads back as the header and the items. */
  method ExportCsv(items: seq<seq<string>>) returns (text: Option<string>)
    requires forall k :: 0 <= k < |items| ==> |items[k]| == |HEAD|
    ensures items == [] ==> text == None
    ensures items != [] ==> text == Some(Text([HEAD] + items)) && Read(text.value) == Some([HEAD] + items)
    ensures text.Some? ==> "\U{FEFF}" <= text.value
  {
    if items == [] { return None; }
    HeadIsPlain();
    var lines := [Joined(HEAD, ",")];
    ghost var rows := [HEAD] + items;
    for k := 0 to |items|
      invariant lines == Lines(rows)[..k + 1]
    {
      assert rows[k + 1] == items[k];
      lines := lines + [Joined(Cells(items[k]), ",")];
    }
    assert lines == Lines(rows);
    text := Some(BOM + Joined(lines, CRLF));
    assert rows[|rows| - 1] == items[|items| - 1];
    assert Writable(rows) by {
      forall k | 0 <= k < |rows| ensures rows[k] != [] {
        if k > 0 { assert rows[k] == items[k - 1]; }
      }
    }
    RoundTrip(rows);
  }

  predicate Lettered(s: string) { forall k :: 0 <= k < |s| ==> 'a' <= s[k] <= 'z' || s[k] == '_' }

  lemma {:induction false} LetteredIsPlain(s: string)
    requires Lettered(s)
    ensures Cell(s) == s
  {
  }

  /** No column title needs quoting. */
  lemma {:induction false} HeadIsPlain()
    ensures Cells(HEAD) == HEAD
  {
    LetteredIsPlain("name");
    LetteredIsPlain("type");
    LetteredIsPlain("source");
    LetteredIsPlain("target");
    LetteredIsPlain("issuer");
    LetteredIsPlain("expires_at");
    LetteredIsPlain("days_remaining");
    LetteredIsPlain("state");
    LetteredIsPlain("last_scanned_at");
    LetteredIsPlain("last_error");
    LetteredIsPlain("covered_names");
  }
}
