/** The RFC 4180 reader of the CSV watchlist, and the printer it inverts.

    `ParseCsv` is the index loop with one character of look-ahead; `Parse` is the value it
    computes. The results about `Parse` are that it inverts every admissible way of printing a
    table (`RoundTripExact`), when it does not, and that it distributes over texts cut at a row
    boundary (`ParseConcat`). */
module Csv {
  type Row = seq<string>

  const BOM: char := '\U{FEFF}'

  /** What the reader carries from one character to the next. */
  datatype Scan = Scan(rows: seq<Row>, row: Row, field: string, inQuotes: bool)

  const START := Scan([], [], "", false)

  function StripBom(content: string): string {
    if content != "" && content[0] == BOM then content[1..] else content
  }

  /** Reads `text` to its end from the state `st`. */
  function Consume(text: string, st: Scan): Scan
    decreases |text|
  {
    if text == "" then st
    else if st.inQuotes then
      if text[0] != '"' then Consume(text[1..], st.(field := st.field + [text[0]]))
      else if |text| > 1 && text[1] == '"' then Consume(text[2..], st.(field := st.field + "\""))
      else Consume(text[1..], st.(inQuotes := false))
    else if text[0] == '"' then Consume(text[1..], st.(inQuotes := true))
    else if text[0] == ',' then Consume(text[1..], st.(row := st.row + [st.field], field := ""))
    else if text[0] == '\r' && |text| > 1 && text[1] == '\n' then Consume(text[2..], EndRow(st))
    else if text[0] == '\n' || text[0] == '\r' then Consume(text[1..], EndRow(st))
    else Consume(text[1..], st.(field := st.field + [text[0]]))
  }

  function EndRow(st: Scan): Scan {
    Scan(st.rows + [st.row + [st.field]], [], "", st.inQuotes)
  }

  function Finish(st: Scan): seq<Row> {
    if st.field != "" || st.row != [] then EndRow(st).rows else st.rows
  }

  function Parse(content: string): seq<Row> {
    Finish(Consume(StripBom(content), START))
  }

  method ParseCsv(content: string) returns (rows: seq<Row>)
    ensures rows == Parse(content)
  {
    var text := if content != "" && content[0] == BOM then content[1..] else content;
    rows := [];
    var row: Row := [];
    var field := "";
    var inQuotes := false;
    var i := 0;
    assert text[0..] == text;
    while i < |text|
      invariant 0 <= i <= |text|
      invariant Consume(text, START) == Consume(text[i..], Scan(rows, row, field, inQuotes))
    {
      ghost var rest := text[i..];
      assert rest[1..] == text[i + 1..] && (|rest| > 1 ==> rest[2..] == text[i + 2..]);
      var ch := text[i];
      if inQuotes {
        if ch == '"' {
          if i + 1 < |text| && text[i + 1] == '"' {
            field := field + "\"";
            i := i + 1;
          } else {
            inQuotes := false;
          }
        } else {
          field := field + [ch];
        }
      } else if ch == '"' {
        inQuotes := true;
      } else if ch == ',' {
        row := row + [field];
        field := "";
      } else if ch == '\n' || ch == '\r' {
        if ch == '\r' && i + 1 < |text| && text[i + 1] == '\n' {
          i := i + 1;
        }
        row := row + [field];
        rows := rows + [row];
        row := [];
        field := "";
      } else {
        field := field + [ch];
      }
      i := i + 1;
    }
    if field != "" || row != [] {
      row := row + [field];
      rows := rows + [row];
    }
  }

  // ---- Cutting a text at a row boundary ----

  /** Reading `b` straight after `a` looks across the cut only at a doubled quote or a CRLF. */
  predicate CleanCut(a: string, b: string) {
    a == "" || b == "" ||
    !((a[|a| - 1] == '"' && b[0] == '"') || (a[|a| - 1] == '\r' && b[0] == '\n'))
  }

  lemma {:induction false} ConsumeConcat(a: string, b: string, st: Scan)
    requires CleanCut(a, b)
    ensures Consume(a + b, st) == Consume(b, Consume(a, st))
    decreases |a|
  {
    if a == "" {
      assert a + b == b;
    } else {
      assert (a + b)[1..] == a[1..] + b;
      if |a| > 1 {
        assert (a + b)[2..] == a[2..] + b;
        ConsumeStep(a, b, st, 2);
      }
      ConsumeStep(a, b, st, 1);
    }
  }

  /** The induction hypothesis of `ConsumeConcat` at every state the first step can lead to. */
  lemma {:induction false} ConsumeStep(a: string, b: string, st: Scan, n: nat)
    requires 1 <= n <= |a| && CleanCut(a, b)
    ensures forall next :: Consume(a[n..] + b, next) == Consume(b, Consume(a[n..], next))
    decreases |a|, 0
  {
    forall next ensures Consume(a[n..] + b, next) == Consume(b, Consume(a[n..], next)) {
      ConsumeConcat(a[n..], b, next);
    }
  }

  function Shift(before: seq<Row>, st: Scan): Scan {
    st.(rows := before + st.rows)
  }

  /** Rows already finished are only ever appended to. */
  lemma {:induction false} ConsumeShift(text: string, before: seq<Row>, st: Scan)
    ensures Consume(text, Shift(before, st)) == Shift(before, Consume(text, st))
    decreases |text|
  {
    if text != "" {
      assert EndRow(Shift(before, st)) == Shift(before, EndRow(st));
      forall n, next | 1 <= n <= 2 && n <= |text|
        ensures Consume(text[n..], Shift(before, next)) == Shift(before, Consume(text[n..], next))
      {
        ConsumeShift(text[n..], before, next);
      }
    }
  }

  predicate Newline(c: char) { c == '\n' || c == '\r' }

  /** `a` stops at the end of a row: nothing is left of it but a mark, or it ends with a line end
      that is not inside quotes. */
  predicate AtRowBoundary(a: string) {
    var text := StripBom(a);
    text == "" || (Newline(text[|text| - 1]) && !Consume(text, START).inQuotes)
  }

  lemma {:induction false} LineEndClearsRow(text: string, st: Scan)
    requires text != "" && Newline(text[|text| - 1])
    requires !Consume(text, st).inQuotes
    ensures Consume(text, st).row == [] && Consume(text, st).field == ""
    decreases |text|
  {
    var last := text[|text| - 1];
    if |text| > 1 {
      assert text[1..][|text[1..]| - 1] == last;
      if |text| > 2 {
        assert text[2..][|text[2..]| - 1] == last;
      }
      forall next | !Consume(text[1..], next).inQuotes
        ensures Consume(text[1..], next).row == [] && Consume(text[1..], next).field == ""
      {
        LineEndClearsRow(text[1..], next);
      }
      forall next | |text| > 2 && !Consume(text[2..], next).inQuotes
        ensures Consume(text[2..], next).row == [] && Consume(text[2..], next).field == ""
      {
        LineEndClearsRow(text[2..], next);
      }
    }
  }

  /** Two files joined at a row boundary hold the rows of the one and then of the other. */
  lemma {:induction false} ParseConcat(a: string, b: string)
    requires AtRowBoundary(a)
    requires b == "" || b[0] != BOM
    requires a == "" || b == "" || !(a[|a| - 1] == '\r' && b[0] == '\n')
    ensures Parse(a + b) == Parse(a) + Parse(b)
  {
    var text := StripBom(a);
    assert StripBom(a + b) == text + b by {
      if a == "" { assert a + b == b; } else { assert (a + b)[1..] == a[1..] + b; }
    }
    ConsumeConcat(text, b, START);
    var mid := Consume(text, START);
    if text != "" {
      LineEndClearsRow(text, START);
    }
    assert mid == Shift(mid.rows, START);
    ConsumeShift(b, mid.rows, START);
  }

  // ---- Printing ----

  datatype Cell = Cell(value: string, quoted: bool)
  datatype LineEnd = LF | CRLF | CR
  datatype Line = Line(cells: seq<Cell>, end: LineEnd)

  function Double(value: string): string {
    if value == "" then ""
    else (if value[0] == '"' then "\"\"" else [value[0]]) + Double(value[1..])
  }

  function PrintCell(c: Cell): string {
    if c.quoted then "\"" + Double(c.value) + "\"" else c.value
  }

  function PrintCells(cells: seq<Cell>): string
    requires cells != []
  {
    if |cells| == 1 then PrintCell(cells[0]) else PrintCell(cells[0]) + "," + PrintCells(cells[1..])
  }

  function PrintEnd(end: LineEnd): string {
    match end
    case LF => "\n"
    case CRLF => "\r\n"
    case CR => "\r"
  }

  predicate Plain(value: string) {
    forall c :: c in value ==> c != '"' && c != ',' && !Newline(c)
  }

  predicate AllQuotedOrPlain(cells: seq<Cell>) {
    forall i :: 0 <= i < |cells| ==> cells[i].quoted || Plain(cells[i].value)
  }

  /** A printable line has at least one field, and quotes those that need it. */
  predicate Printable(line: Line) {
    line.cells != [] && AllQuotedOrPlain(line.cells)
  }

  predicate AllPrintable(lines: seq<Line>) {
    forall i :: 0 <= i < |lines| ==> Printable(lines[i])
  }

  function Print(lines: seq<Line>): string
    requires AllPrintable(lines)
  {
    if lines == [] then "" else PrintCells(lines[0].cells) + PrintEnd(lines[0].end) + Print(lines[1..])
  }

  function Values(cells: seq<Cell>): Row {
    seq(|cells|, i requires 0 <= i < |cells| => cells[i].value)
  }

  function Table(lines: seq<Line>): seq<Row> {
    seq(|lines|, i requires 0 <= i < |lines| => Values(lines[i].cells))
  }

  lemma {:induction false} ConsumePlain(value: string, rest: string, st: Scan)
    requires Plain(value) && !st.inQuotes
    ensures Consume(value + rest, st) == Consume(rest, st.(field := st.field + value))
    decreases |value|
  {
    if value == "" {
      assert value + rest == rest && st.field + value == st.field;
    } else {
      assert (value + rest)[1..] == value[1..] + rest;
      assert value[0] in value;
      var next := st.(field := st.field + [value[0]]);
      ConsumePlain(value[1..], rest, next);
      assert next.field + value[1..] == st.field + value;
    }
  }

  lemma {:induction false} ConsumeDoubled(value: string, rest: string, st: Scan)
    requires st.inQuotes && (rest == "" || rest[0] != '"')
    ensures Consume(Double(value) + "\"" + rest, st)
         == Consume(rest, st.(field := st.field + value, inQuotes := false))
    decreases |value|
  {
    var text := Double(value) + "\"" + rest;
    if value == "" {
      assert text[1..] == rest && st.field + value == st.field;
    } else {
      var tail := Double(value[1..]) + "\"" + rest;
      var next := st.(field := st.field + [value[0]]);
      if value[0] == '"' {
        assert text == "\"\"" + tail;
        assert text[2..] == tail;
      } else {
        assert text == [value[0]] + tail;
        assert text[1..] == tail;
      }
      ConsumeDoubled(value[1..], rest, next);
      assert next.field + value[1..] == st.field + value;
    }
  }

  lemma {:induction false} ConsumeCell(c: Cell, rest: string, st: Scan)
    requires c.quoted || Plain(c.value)
    requires rest == "" || rest[0] != '"'
    requires !st.inQuotes && st.field == ""
    ensures Consume(PrintCell(c) + rest, st) == Consume(rest, st.(field := c.value))
  {
    if c.quoted {
      var text := PrintCell(c) + rest;
      assert text[1..] == Double(c.value) + "\"" + rest;
      ConsumeDoubled(c.value, rest, st.(inQuotes := true));
      assert st.field + c.value == c.value;
    } else {
      ConsumePlain(c.value, rest, st);
      assert st.field + c.value == c.value;
    }
  }

  lemma {:induction false} ConsumeComma(rest: string, st: Scan)
    requires !st.inQuotes
    ensures Consume("," + rest, st) == Consume(rest, st.(row := st.row + [st.field], field := ""))
  {
    assert ("," + rest)[1..] == rest;
  }

  lemma {:induction false} ConsumeEnd(end: LineEnd, rest: string, st: Scan)
    requires !st.inQuotes
    requires end == CR ==> rest == "" || rest[0] != '\n'
    ensures Consume(PrintEnd(end) + rest, st) == Consume(rest, EndRow(st))
  {
    var text := PrintEnd(end) + rest;
    if end == CRLF {
      assert text[2..] == rest;
    } else {
      assert text[1..] == rest;
    }
  }

  lemma {:induction false} FirstCellText(cells: seq<Cell>, rest: string)
    requires |cells| > 1
    ensures PrintCells(cells) + rest == PrintCell(cells[0]) + ("," + (PrintCells(cells[1..]) + rest))
  {
    hide PrintCell;
    var first, more := PrintCell(cells[0]), PrintCells(cells[1..]);
    assert first + "," + more + rest == first + ("," + (more + rest));
  }

  lemma {:induction false} FirstCellRead(cells: seq<Cell>, rest: string, st: Scan)
    requires |cells| > 1 && AllQuotedOrPlain(cells) && !st.inQuotes && st.field == ""
    ensures Consume(PrintCells(cells) + rest, st)
         == Consume(PrintCells(cells[1..]) + rest, st.(row := st.row + [cells[0].value]))
  {
    hide Consume, PrintCells, PrintCell, Plain;
    var c, text := cells[0], PrintCells(cells[1..]) + rest;
    FirstCellText(cells, rest);
    ConsumeCell(c, "," + text, st);
    ConsumeComma(text, st.(field := c.value));
  }

  /** The last field of a row stays pending until its line end is seen. */
  lemma {:induction false} ConsumeCells(cells: seq<Cell>, rest: string, st: Scan)
    requires cells != [] && AllQuotedOrPlain(cells)
    requires rest == "" || rest[0] != '"'
    requires !st.inQuotes && st.field == ""
    ensures Consume(PrintCells(cells) + rest, st)
         == Consume(rest, st.(row := st.row + Values(cells[..|cells| - 1]), field := cells[|cells| - 1].value))
    decreases |cells|
  {
    hide Consume, Plain, PrintCell;
    if |cells| == 1 {
      ConsumeCell(cells[0], rest, st);
      assert st.row + Values(cells[..0]) == st.row;
    } else {
      hide PrintCells;
      FirstCellRead(cells, rest, st);
      ConsumeCells(cells[1..], rest, st.(row := st.row + [cells[0].value]));
      ValuesShift(cells, st.row);
    }
  }

  lemma {:induction false} ValuesShift(cells: seq<Cell>, row: Row)
    requires |cells| > 1
    ensures row + [cells[0].value] + Values(cells[1..][..|cells| - 2]) == row + Values(cells[..|cells| - 1])
  {
  }

  lemma {:induction false} ConsumeLine(line: Line, rest: string, rows: seq<Row>)
    requires Printable(line)
    requires line.end == CR ==> rest == "" || rest[0] != '\n'
    ensures Consume(PrintCells(line.cells) + PrintEnd(line.end) + rest, START.(rows := rows))
         == Consume(rest, START.(rows := rows + [Values(line.cells)]))
  {
    var end := PrintEnd(line.end) + rest;
    assert PrintCells(line.cells) + PrintEnd(line.end) + rest == PrintCells(line.cells) + end;
    ConsumeCells(line.cells, end, START.(rows := rows));
    var n := |line.cells|;
    var last := START.(rows := rows, row := [] + Values(line.cells[..n - 1]), field := line.cells[n - 1].value);
    ConsumeEnd(line.end, rest, last);
    assert last.row + [last.field] == Values(line.cells);
  }

  // ---- The round trip ----

  /** A blank line printed as a bare LF. */
  predicate BareLF(line: Line) {
    line.cells == [Cell("", false)] && line.end == LF
  }

  /** No line ending in CR is followed by a bare LF, which would read as one CRLF. */
  predicate NoSplitCrlf(lines: seq<Line>)
    decreases |lines|
  {
    |lines| < 2 || (!Splits(lines[0], lines[1]) && NoSplitCrlf(lines[1..]))
  }

  predicate Splits(line: Line, next: Line) {
    line.end == CR && BareLF(next)
  }

  lemma {:induction false} NoSplitAnywhere(lines: seq<Line>)
    requires || (forall i :: 0 <= i < |lines| ==> lines[i].end != CR)
             || (forall i :: 0 <= i < |lines| ==> !BareLF(lines[i]))
    ensures NoSplitCrlf(lines)
    decreases |lines|
  {
    if |lines| > 1 {
      NoSplitAnywhere(lines[1..]);
    }
  }

  lemma {:induction false} PrintStartsWithLF(lines: seq<Line>)
    requires AllPrintable(lines)
    ensures Print(lines) != "" && Print(lines)[0] == '\n' <==> lines != [] && BareLF(lines[0])
    ensures Print(lines) == "" <==> lines == []
  {
    if lines != [] {
      var cells := lines[0].cells;
      if !cells[0].quoted && cells[0].value != "" {
        assert cells[0].value[0] in cells[0].value;
        assert PrintCells(cells)[0] == cells[0].value[0];
      }
    }
  }

  lemma {:induction false} TailNotLF(lines: seq<Line>, rest: string)
    requires lines != [] && AllPrintable(lines) && NoSplitCrlf(lines) && lines[0].end == CR
    requires |lines| == 1 ==> rest == "" || rest[0] != '\n'
    ensures var tail := Print(lines[1..]) + rest; tail == "" || tail[0] != '\n'
  {
    PrintStartsWithLF(lines[1..]);
  }

  lemma {:induction false} ConsumePrint(lines: seq<Line>, rest: string, rows: seq<Row>)
    requires AllPrintable(lines) && NoSplitCrlf(lines)
    requires lines != [] && lines[|lines| - 1].end == CR ==> rest == "" || rest[0] != '\n'
    ensures Consume(Print(lines) + rest, START.(rows := rows)) == Consume(rest, START.(rows := rows + Table(lines)))
    decreases |lines|
  {
    if lines == [] {
      assert Print(lines) + rest == rest && rows + Table(lines) == rows;
    } else {
      var more := lines[1..];
      var body := PrintCells(lines[0].cells) + PrintEnd(lines[0].end);
      if lines[0].end == CR { TailNotLF(lines, rest); }
      ConsumeLine(lines[0], Print(more) + rest, rows);
      assert Print(lines) + rest == body + (Print(more) + rest) by {
        Reassociate(body, Print(more), rest);
      }
      ConsumePrint(more, rest, rows + [Values(lines[0].cells)]);
      TableStep(lines, rows);
    }
  }

  lemma {:induction false} Reassociate(a: string, b: string, c: string)
    ensures a + b + c == a + (b + c)
  {
  }

  lemma {:induction false} TableStep(lines: seq<Line>, rows: seq<Row>)
    requires lines != []
    ensures rows + [Values(lines[0].cells)] + Table(lines[1..]) == rows + Table(lines)
  {
  }

  /** The lines as the reader tells them apart: a CR and a bare LF behind it are one CRLF. */
  function Merged(lines: seq<Line>): seq<Line>
    decreases |lines|
  {
    if lines == [] then []
    else if |lines| > 1 && Splits(lines[0], lines[1]) then
      [lines[0].(end := CRLF)] + Merged(lines[2..])
    else [lines[0]] + Merged(lines[1..])
  }

  lemma {:induction false} MergedShape(lines: seq<Line>)
    requires AllPrintable(lines)
    ensures AllPrintable(Merged(lines)) && NoSplitCrlf(Merged(lines))
    ensures if NoSplitCrlf(lines) then Merged(lines) == lines else |Merged(lines)| < |lines|
    ensures Merged(lines) != [] ==> lines != [] && (BareLF(Merged(lines)[0]) ==> BareLF(lines[0]))
    decreases |lines|
  {
    if lines == [] {
    } else if |lines| > 1 && Splits(lines[0], lines[1]) {
      MergedShape(lines[2..]);
      assert Merged(lines)[1..] == Merged(lines[2..]);
    } else {
      MergedShape(lines[1..]);
      assert Merged(lines)[1..] == Merged(lines[1..]);
      assert [lines[0]] + lines[1..] == lines;
    }
  }

  lemma {:induction false} PrintStep(line: Line, rest: seq<Line>)
    requires Printable(line) && AllPrintable(rest)
    ensures AllPrintable([line] + rest)
    ensures Print([line] + rest) == PrintCells(line.cells) + PrintEnd(line.end) + Print(rest)
  {
    assert ([line] + rest)[1..] == rest;
  }

  lemma {:induction false} CrlfJoins(a: string, b: string)
    ensures a + "\r" + ("\n" + b) == a + "\r\n" + b
  {
  }

  lemma {:induction false} MergedPrints(lines: seq<Line>)
    requires AllPrintable(lines)
    ensures AllPrintable(Merged(lines)) && Print(Merged(lines)) == Print(lines)
    decreases |lines|
  {
    MergedShape(lines);
    if lines == [] {
    } else if |lines| > 1 && Splits(lines[0], lines[1]) {
      var rest := lines[2..];
      MergedPrints(rest);
      PrintStep(lines[0].(end := CRLF), Merged(rest));
      PrintStep(lines[1], rest);
      assert [lines[1]] + rest == lines[1..];
      assert PrintCells(lines[1].cells) == "" && "" + "\n" == "\n";
      CrlfJoins(PrintCells(lines[0].cells), Print(rest));
    } else {
      MergedPrints(lines[1..]);
      PrintStep(lines[0], Merged(lines[1..]));
    }
  }

  /** What the reader makes of a printed text that has lost its byte order mark, if it had one. */
  lemma {:induction false} BodyReadsMerged(lines: seq<Line>)
    requires AllPrintable(lines)
    ensures Finish(Consume(Print(lines), START)) == Table(Merged(lines))
  {
    MergedPrints(lines);
    MergedShape(lines);
    var merged := Merged(lines);
    assert Print(merged) + "" == Print(merged);
    ConsumePrint(merged, "", []);
    assert [] + Table(merged) == Table(merged);
  }

  /** The first field is printed bare and begins with the character a file may be marked with. */
  predicate LooksMarked(lines: seq<Line>)
    requires AllPrintable(lines)
  {
    lines != [] && var c := lines[0].cells[0]; !c.quoted && c.value != "" && c.value[0] == BOM
  }

  function Unmarked(lines: seq<Line>): (r: seq<Line>)
    requires AllPrintable(lines) && LooksMarked(lines)
    ensures AllPrintable(r)
  {
    var cells := lines[0].cells;
    var c := cells[0].(value := cells[0].value[1..]);
    assert forall x :: x in c.value ==> x in cells[0].value;
    lines[0 := lines[0].(cells := cells[0 := c])]
  }

  lemma {:induction false} UnmarkedPrints(lines: seq<Line>)
    requires AllPrintable(lines)
    ensures StripBom(Print(lines)) == Print(if LooksMarked(lines) then Unmarked(lines) else lines)
  {
    if LooksMarked(lines) {
      var head := Unmarked(lines)[0];
      assert Unmarked(lines)[1..] == lines[1..];
      UnmarkedCells(lines[0].cells, head.cells);
      DropFirst(PrintCells(head.cells), PrintEnd(head.end), Print(lines[1..]));
    } else if lines != [] {
      PrintedMark(lines[0].cells);
    }
  }

  lemma {:induction false} DropFirst(a: string, b: string, c: string)
    ensures StripBom([BOM] + a + b + c) == a + b + c
  {
    assert ([BOM] + a + b + c)[1..] == a + b + c;
  }

  lemma {:induction false} PrintedMark(cells: seq<Cell>)
    requires cells != [] && (cells[0].quoted || cells[0].value == "" || cells[0].value[0] != BOM)
    ensures PrintCells(cells) == "" || PrintCells(cells)[0] != BOM
  {
  }

  lemma {:induction false} UnmarkedCells(cells: seq<Cell>, stripped: seq<Cell>)
    requires cells != [] && |stripped| == |cells| && stripped[1..] == cells[1..]
    requires !cells[0].quoted && !stripped[0].quoted && cells[0].value == [BOM] + stripped[0].value
    ensures PrintCells(cells) == [BOM] + PrintCells(stripped)
  {
  }

  lemma {:induction false} UnmarkedShape(lines: seq<Line>)
    requires AllPrintable(lines) && LooksMarked(lines)
    ensures |Unmarked(lines)| == |lines| && Table(Unmarked(lines)) != Table(lines)
    ensures NoSplitCrlf(Unmarked(lines)) <==> NoSplitCrlf(lines)
  {
    var body := Unmarked(lines);
    assert body[1..] == lines[1..];
    assert |Table(body)[0][0]| < |Table(lines)[0][0]|;
  }

  /** The reader inverts a printed table exactly when no CR runs into a bare LF and the text does
      not begin with a bare byte order mark. */
  lemma {:induction false} RoundTripExact(lines: seq<Line>)
    requires AllPrintable(lines)
    ensures Parse(Print(lines)) == Table(lines) <==> NoSplitCrlf(lines) && !LooksMarked(lines)
  {
    var body := if LooksMarked(lines) then Unmarked(lines) else lines;
    assert Parse(Print(lines)) == Table(Merged(body)) by {
      UnmarkedPrints(lines);
      BodyReadsMerged(body);
    }
    MergedShape(body);
    assert |body| == |lines| && (NoSplitCrlf(body) <==> NoSplitCrlf(lines)) by {
      if LooksMarked(lines) { UnmarkedShape(lines); }
    }
    if NoSplitCrlf(lines) {
      if LooksMarked(lines) { UnmarkedShape(lines); }
    } else {
      assert |Table(Merged(body))| < |Table(lines)|;
    }
  }

  lemma {:induction false} OneFieldRow(field: string)
    ensures EndRow(START.(field := field)) == Scan([[field]], [], "", false)
  {
    var row: Row, rows: seq<Row> := [], [];
    assert row + [field] == [field] && rows + [[field]] == [[field]];
  }

  /** A row ended by a CR, and a blank line ended by a LF behind it: one row is read. */
  lemma {:induction false} JoinedLineEndsExample()
    ensures var lines := [Line([Cell("a", false)], CR), Line([Cell("", false)], LF)];
            && AllPrintable(lines) && Table(lines) == [["a"], [""]]
            && Print(lines) == "a\r\n" && Parse(Print(lines)) == [["a"]]
  {
    var lines := [Line([Cell("a", false)], CR), Line([Cell("", false)], LF)];
    assert Plain("a") && Plain("");
    assert lines[1..] == [lines[1]] && lines[1..][1..] == [];
    assert "a\r\n"[1..] == "\r\n" && "\r\n"[2..] == "";
    OneFieldRow("a");
    assert Consume("\r\n", START.(field := "a")) == Consume("", EndRow(START.(field := "a")));
    assert START.field + ['a'] == "a";
    assert Values(lines[0].cells) == ["a"] && Values(lines[1].cells) == [""];
  }

  /** A first field that is the byte order mark, not quoted: it is dropped as the file's own. */
  lemma {:induction false} LostMarkExample()
    ensures var lines := [Line([Cell([BOM], false)], LF)];
            AllPrintable(lines) && Table(lines) == [[[BOM]]] && Parse(Print(lines)) == [[""]]
  {
    var lines := [Line([Cell([BOM], false)], LF)];
    assert Plain([BOM]);
    assert lines[1..] == [];
    assert Print(lines) == [BOM, '\n'] && [BOM, '\n'][1..] == "\n" && "\n"[1..] == "";
    OneFieldRow("");
    assert Values(lines[0].cells) == [[BOM]];
  }

  /** A row as it stands in a file: a bare field, a comma in quotes, and a quote, doubled, in quotes. */
  lemma {:induction false} FormatExample()
    ensures Parse("a" + "," + "\",\"" + "," + "\"\"\"\"" + "\n") == [["a", ",", "\""]]
  {
    var cells := [Cell("a", false), Cell(",", true), Cell("\"", true)];
    var lines := [Line(cells, LF)];
    ExamplePrints(cells);
    ExampleReads(lines);
    hide Parse, Print, PrintCells, AllPrintable, Table;
    RoundTripExact(lines);
  }

  lemma {:induction false} ExampleReads(lines: seq<Line>)
    requires lines == [Line([Cell("a", false), Cell(",", true), Cell("\"", true)], LF)]
    ensures AllPrintable(lines) && Table(lines) == [["a", ",", "\""]]
    ensures Print(lines) == PrintCells(lines[0].cells) + "\n"
    ensures NoSplitCrlf(lines) && !LooksMarked(lines)
  {
    hide PrintCells;
    assert Plain("a");
    assert lines[1..] == [];
    assert Values(lines[0].cells) == ["a", ",", "\""];
  }

  lemma {:induction false} ExamplePrints(cells: seq<Cell>)
    requires cells == [Cell("a", false), Cell(",", true), Cell("\"", true)]
    ensures PrintCells(cells) == "a" + "," + "\",\"" + "," + "\"\"\"\""
  {
    PrintsQuoted(',');
    PrintsQuoted('"');
    hide Double, PrintCell;
    var two := cells[1..];
    assert two == [Cell(",", true), Cell("\"", true)] && two[1..] == [Cell("\"", true)];
    BareCell("a");
    assert "," == [','] && "\"" == ['"'] && "\"" + [','] + "\"" == "\",\"";
    assert PrintCells(two) == "\",\"" + "," + "\"\"\"\"";
    assert "a" + "," + ("\",\"" + "," + "\"\"\"\"") == "a" + "," + "\",\"" + "," + "\"\"\"\"";
  }

  lemma {:induction false} BareCell(value: string)
    ensures PrintCell(Cell(value, false)) == value
  {
  }

  lemma {:induction false} PrintsQuoted(c: char)
    ensures PrintCell(Cell([c], true)) == if c == '"' then "\"\"\"\"" else "\"" + [c] + "\""
  {
    assert [c][1..] == "";
    assert Double([c]) == (if c == '"' then "\"\"" else [c]) + "";
  }

  // ---- Two ways of quoting ----

  function Quoted(row: Row): (cells: seq<Cell>)
    ensures AllQuotedOrPlain(cells) && Values(cells) == row
  {
    seq(|row|, i requires 0 <= i < |row| => Cell(row[i], true))
  }

  predicate NonEmptyRows(table: seq<Row>) {
    forall i :: 0 <= i < |table| ==> table[i] != []
  }

  function QuotedLines(table: seq<Row>, ends: seq<LineEnd>): (lines: seq<Line>)
    requires NonEmptyRows(table) && |ends| == |table|
    ensures AllPrintable(lines) && |lines| == |table|
  {
    seq(|table|, i requires 0 <= i < |table| => Line(Quoted(table[i]), ends[i]))
  }

  /** With every field quoted any table survives, whatever mix of line ends is used. */
  lemma {:induction false} QuotedRoundTrip(table: seq<Row>, ends: seq<LineEnd>)
    requires NonEmptyRows(table) && |ends| == |table|
    ensures Parse(Print(QuotedLines(table, ends))) == table
  {
    var lines := QuotedLines(table, ends);
    forall i | 0 <= i < |lines| ensures !BareLF(lines[i]) {
      assert lines[i].cells[0].quoted;
    }
    NoSplitAnywhere(lines);
    RoundTripExact(lines);
    assert Table(lines) == table;
  }

  /** Quotes the fields that contain a quote, a comma or a line end, and a leading mark. */
  function Bare(row: Row, first: bool): (cells: seq<Cell>)
    ensures AllQuotedOrPlain(cells) && Values(cells) == row
  {
    seq(|row|, i requires 0 <= i < |row| =>
      Cell(row[i], !Plain(row[i]) || (first && i == 0 && row[i] != "" && row[i][0] == BOM)))
  }

  function BareLines(table: seq<Row>, ends: seq<LineEnd>): (lines: seq<Line>)
    requires NonEmptyRows(table) && |ends| == |table|
    ensures AllPrintable(lines) && |lines| == |table|
  {
    seq(|table|, i requires 0 <= i < |table| => Line(Bare(table[i], i == 0), ends[i]))
  }

  /** With only the necessary quotes any table survives under LF and CRLF line ends. */
  lemma {:induction false} BareRoundTrip(table: seq<Row>, ends: seq<LineEnd>)
    requires NonEmptyRows(table) && |ends| == |table|
    requires forall i :: 0 <= i < |ends| ==> ends[i] != CR
    ensures Parse(Print(BareLines(table, ends))) == table
  {
    var lines := BareLines(table, ends);
    NoSplitAnywhere(lines);
    assert !LooksMarked(lines) by {
      if lines != [] {
        assert lines[0].cells[0] == Bare(table[0], true)[0];
      }
    }
    RoundTripExact(lines);
    assert Table(lines) == table;
  }

  lemma {:induction false} ConsumeMakesNonEmptyRows(text: string, st: Scan)
    requires NonEmptyRows(st.rows)
    ensures NonEmptyRows(Consume(text, st).rows)
    decreases |text|
  {
    if text != "" {
      forall n, next: Scan | 1 <= n <= 2 && n <= |text| && NonEmptyRows(next.rows)
        ensures NonEmptyRows(Consume(text[n..], next).rows)
      {
        ConsumeMakesNonEmptyRows(text[n..], next);
      }
    }
  }

  /** Whatever was read, well-formed or not, can be printed canonically and read back unchanged. */
  lemma {:induction false} CanonicalForm(content: string, ends: seq<LineEnd>)
    requires |ends| == |Parse(content)|
    ensures NonEmptyRows(Parse(content))
    ensures Parse(Print(QuotedLines(Parse(content), ends))) == Parse(content)
  {
    ConsumeMakesNonEmptyRows(StripBom(content), START);
    QuotedRoundTrip(Parse(content), ends);
  }

  lemma {:induction false} ValuesSplit(cells: seq<Cell>)
    requires cells != []
    ensures var n := |cells|; Values(cells) == Values(cells[..n - 1]) + [cells[n - 1].value]
  {
  }

  lemma {:induction false} PrintedHead(cells: seq<Cell>)
    requires cells != [] && AllQuotedOrPlain(cells)
    ensures PrintCells(cells) == "" || PrintCells(cells)[0] != '\n'
  {
    if !cells[0].quoted && cells[0].value != "" {
      assert cells[0].value[0] in cells[0].value && PrintCells(cells)[0] == cells[0].value[0];
    }
  }

  lemma {:induction false} ConsumeCellsToEnd(cells: seq<Cell>, rows: seq<Row>)
    requires cells != [] && AllQuotedOrPlain(cells)
    ensures Finish(Consume(PrintCells(cells), START.(rows := rows)))
         == if Values(cells) == [""] then rows else rows + [Values(cells)]
  {
    var n := |cells|;
    var st := START.(rows := rows);
    ConsumeCells(cells, "", st);
    assert PrintCells(cells) + "" == PrintCells(cells) && st.row + Values(cells[..n - 1]) == Values(cells[..n - 1]);
    ValuesSplit(cells);
    assert |Values(cells)| == n && |Values(cells[..n - 1])| == n - 1;
    var end := Scan(rows, Values(cells[..n - 1]), cells[n - 1].value, false);
    assert Consume(PrintCells(cells), st) == end;
    if n == 1 {
      assert Values(cells) == [cells[0].value];
    }
  }

  /** A text that ends inside its last row. */
  lemma {:induction false} OpenEndReads(lines: seq<Line>, last: seq<Cell>)
    requires AllPrintable(lines) && NoSplitCrlf(lines)
    requires last != [] && AllQuotedOrPlain(last)
    ensures Finish(Consume(Print(lines) + PrintCells(last), START))
         == if Values(last) == [""] then Table(lines) else Table(lines) + [Values(last)]
  {
    PrintedHead(last);
    ConsumePrint(lines, PrintCells(last), []);
    assert [] + Table(lines) == Table(lines);
    ConsumeCellsToEnd(last, Table(lines));
  }

  /** A last row without a line end is kept, unless it is a single empty field. */
  lemma {:induction false} OpenEndedRoundTrip(lines: seq<Line>, last: seq<Cell>)
    requires AllPrintable(lines) && NoSplitCrlf(lines)
    requires last != [] && AllQuotedOrPlain(last)
    requires StripBom(Print(lines) + PrintCells(last)) == Print(lines) + PrintCells(last)
    ensures Parse(Print(lines) + PrintCells(last)) == Table(lines) + [Values(last)] <==> Values(last) != [""]
  {
    OpenEndReads(lines, last);
  }
}
