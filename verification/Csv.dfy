/** The chat backup's CSV printer, and a reader of section 2 of RFC 4180 that recovers every table. */
module Csv {
  import opened Sequences

  /** A cell: null or undefined, or the text it prints as. */
  datatype Value = Null | Text(text: string)

  // ----- printing -----

  /** `s.replace(/"/g, '""')`. */
  function Doubled(s: string): string {
    if s == "" then "" else (if s[0] == '"' then "\"\"" else [s[0]]) + Doubled(s[1..])
  }

  function CsvEsc(v: Value): string {
    match v
    case Null => ""
    case Text(s) => if ',' in s || '"' in s || '\n' in s then "\"" + Doubled(s) + "\"" else s
  }

  function Joined(parts: seq<string>, separator: string): string {
    if parts == [] then "" else if |parts| == 1 then parts[0]
    else parts[0] + separator + Joined(parts[1..], separator)
  }

  function Escaped(row: seq<Value>): seq<string> {
    if row == [] then [] else [CsvEsc(row[0])] + Escaped(row[1..])
  }

  function ToRow(row: seq<Value>): string {
    Joined(Escaped(row), ",")
  }

  function Lines(table: seq<seq<Value>>): seq<string> {
    if table == [] then [] else [ToRow(table[0])] + Lines(table[1..])
  }

  function Printed(table: seq<seq<Value>>): string {
    Joined(Lines(table), "\n")
  }

  // ----- reading -----

  /** Before a field, inside a bare one, inside a quoted one, or after a quote that may close it. */
  datatype Mode = Start | Bare | Quoted | Closing

  /** Records end at LF; CR is data; text after a closing quote or a quote in a bare field is an error. */
  datatype Table = Malformed | Table(rows: seq<seq<string>>)

  function Read(s: string, mode: Mode, field: string, row: seq<string>, rows: seq<seq<string>>): Table
    decreases s
  {
    if mode == Quoted then
      if s == "" then Malformed
      else if s[0] == '"' then Read(s[1..], Closing, field, row, rows)
      else Read(s[1..], Quoted, field + [s[0]], row, rows)
    else if s == "" then Table(rows + [row + [field]])
    else if s[0] == ',' then Read(s[1..], Start, "", row + [field], rows)
    else if s[0] == '\n' then Read(s[1..], Start, "", [], rows + [row + [field]])
    else if s[0] == '"' then
      if mode == Start then Read(s[1..], Quoted, field, row, rows)
      else if mode == Closing then Read(s[1..], Quoted, field + ['"'], row, rows)
      else Malformed
    else if mode == Closing then Malformed
    else Read(s[1..], Bare, field + [s[0]], row, rows)
  }

  function ReadTable(s: string): Table {
    Read(s, Start, "", [], [])
  }

  // ----- the round trip -----

  function Cell(v: Value): string {
    if v.Null? then "" else v.text
  }

  function Cells(row: seq<Value>): seq<string> {
    if row == [] then [] else [Cell(row[0])] + Cells(row[1..])
  }

  function AllCells(table: seq<seq<Value>>): seq<seq<string>> {
    if table == [] then [] else [Cells(table[0])] + AllCells(table[1..])
  }

  /** Where a field may end. */
  predicate AtSeparator(rest: string) {
    rest == "" || rest[0] == ',' || rest[0] == '\n'
  }

  /** Outside quotes every mode ends a field alike. */
  lemma EndsAlike(rest: string, mode: Mode, field: string, row: seq<string>, rows: seq<seq<string>>)
    requires AtSeparator(rest) && mode != Quoted
    ensures Read(rest, mode, field, row, rows) == Read(rest, Start, field, row, rows)
  {
  }

  lemma {:induction false} ReadBare(s: string, rest: string, field: string, mode: Mode, row: seq<string>,
      rows: seq<seq<string>>)
    requires ',' !in s && '"' !in s && '\n' !in s && AtSeparator(rest) && (mode == Start || mode == Bare)
    ensures Read(s + rest, mode, field, row, rows) == Read(rest, Start, field + s, row, rows)
    decreases s
  {
    if s == "" {
      assert s + rest == rest && field + s == field;
      EndsAlike(rest, mode, field, row, rows);
    } else {
      HeadOf(s, rest);
      assert (s + rest)[0] == s[0] && s[0] in s;
      assert field + s == field + [s[0]] + s[1..];
      ReadBare(s[1..], rest, field + [s[0]], Bare, row, rows);
    }
  }

  lemma DoubledStarts(s: string, end: string)
    requires s != ""
    ensures s[0] == '"' ==> Doubled(s) + end == ['"'] + (['"'] + (Doubled(s[1..]) + end))
    ensures s[0] != '"' ==> Doubled(s) + end == [s[0]] + (Doubled(s[1..]) + end)
  {
    var rest := Doubled(s[1..]);
    if s[0] == '"' {
      assert Doubled(s) == ['"'] + (['"'] + rest);
      Associative(['"'], ['"'] + rest, end);
      Associative(['"'], rest, end);
    } else {
      Associative([s[0]], rest, end);
    }
  }

  lemma ReadQuote(tail: string, mode: Mode, field: string, row: seq<string>, rows: seq<seq<string>>)
    requires mode == Quoted
    ensures Read(['"'] + tail, mode, field, row, rows) == Read(tail, Closing, field, row, rows)
    ensures Read(['"'] + (['"'] + tail), mode, field, row, rows) == Read(tail, Quoted, field + ['"'], row, rows)
  {
    Cons('"', tail);
    Cons('"', ['"'] + tail);
  }

  lemma {:induction false} ReadQuoted(s: string, rest: string, field: string, row: seq<string>, rows: seq<seq<string>>)
    requires AtSeparator(rest)
    ensures Read(Doubled(s) + (['"'] + rest), Quoted, field, row, rows) == Read(rest, Start, field + s, row, rows)
    decreases s
  {
    var end := ['"'] + rest;
    if s == "" {
      Unit(end);
      Unit(field);
      ReadQuote(rest, Quoted, field, row, rows);
      EndsAlike(rest, Closing, field, row, rows);
    } else {
      var tail := Doubled(s[1..]) + end;
      DoubledStarts(s, end);
      FirstRest(s);
      Associative(field, [s[0]], s[1..]);
      ReadQuoted(s[1..], rest, field + [s[0]], row, rows);
      if s[0] == '"' {
        ReadQuote(tail, Quoted, field, row, rows);
      } else {
        Cons(s[0], tail);
      }
    }
  }

  lemma ReadField(v: Value, rest: string, row: seq<string>, rows: seq<seq<string>>)
    requires AtSeparator(rest)
    ensures Read(CsvEsc(v) + rest, Start, "", row, rows) == Read(rest, Start, Cell(v), row, rows)
  {
    Unit(Cell(v));
    if v.Text? && (',' in v.text || '"' in v.text || '\n' in v.text) {
      var body := Doubled(v.text) + (['"'] + rest);
      assert CsvEsc(v) + rest == ['"'] + body;
      Cons('"', body);
      ReadQuoted(v.text, rest, "", row, rows);
    } else {
      ReadBare(CsvEsc(v), rest, "", Start, row, rows);
    }
  }

  lemma RowStarts(row: seq<Value>)
    requires row != []
    ensures |row| == 1 ==> ToRow(row) == CsvEsc(row[0]) && Cells(row) == [Cell(row[0])]
    ensures |row| > 1 ==> ToRow(row) == CsvEsc(row[0]) + ("," + ToRow(row[1..]))
  {
    if |row| == 1 {
      assert row[1..] == [];
    } else {
      Cons(CsvEsc(row[0]), Escaped(row[1..]));
      Associative(CsvEsc(row[0]), ",", ToRow(row[1..]));
    }
  }

  /** What the reader makes of a finished row. */
  function RowRead(rest: string, cells: seq<string>, rows: seq<seq<string>>): Table {
    if rest == "" then Table(rows + [cells]) else Read(rest[1..], Start, "", [], rows + [cells])
  }

  /** All fields but the last are followed by a comma. */
  lemma ReadComma(v: Value, others: string, sofar: seq<string>, rows: seq<seq<string>>)
    ensures Read((CsvEsc(v) + ",") + others, Start, "", sofar, rows) == Read(others, Start, "", sofar + [Cell(v)], rows)
  {
    Associative(CsvEsc(v), ",", others);
    Cons(',', others);
    ReadField(v, "," + others, sofar, rows);
  }

  lemma {:induction false} ReadRow(row: seq<Value>, rest: string, sofar: seq<string>, rows: seq<seq<string>>)
    requires row != [] && (rest == "" || rest[0] == '\n')
    ensures Read(ToRow(row) + rest, Start, "", sofar, rows) == RowRead(rest, sofar + Cells(row), rows)
    decreases row
  {
    RowStarts(row);
    if |row| == 1 {
      ReadField(row[0], rest, sofar, rows);
    } else {
      var v, others := row[0], ToRow(row[1..]);
      ReadComma(v, others + rest, sofar, rows);
      Associative(CsvEsc(v), ",", others);
      Associative(CsvEsc(v) + ",", others, rest);
      ReadRow(row[1..], rest, sofar + [Cell(v)], rows);
      Associative(sofar, [Cell(v)], Cells(row[1..]));
    }
  }

  predicate NoEmptyRow(table: seq<seq<Value>>) {
    forall i :: 0 <= i < |table| ==> table[i] != []
  }

  lemma PrintedStarts(table: seq<seq<Value>>)
    requires table != []
    ensures |table| == 1 ==> Printed(table) == ToRow(table[0]) && AllCells(table) == [Cells(table[0])]
    ensures |table| > 1 ==> Printed(table) == ToRow(table[0]) + ("\n" + Printed(table[1..]))
  {
    if |table| == 1 {
      assert table[1..] == [];
    } else {
      Cons(ToRow(table[0]), Lines(table[1..]));
      Associative(ToRow(table[0]), "\n", Printed(table[1..]));
    }
  }

  /** The last row ends with the text, every other row with a line feed. */
  lemma ReadLastRow(row: seq<Value>, rows: seq<seq<string>>)
    requires row != []
    ensures Read(ToRow(row), Start, "", [], rows) == Table(rows + [Cells(row)])
  {
    ReadRow(row, "", [], rows);
    Unit(ToRow(row));
    Unit(Cells(row));
  }

  lemma ReadLine(row: seq<Value>, others: string, rows: seq<seq<string>>)
    requires row != []
    ensures Read(ToRow(row) + ("\n" + others), Start, "", [], rows) == Read(others, Start, "", [], rows + [Cells(row)])
  {
    ReadRow(row, "\n" + others, [], rows);
    Cons('\n', others);
    Unit(Cells(row));
  }

  lemma {:induction false} ReadRows(table: seq<seq<Value>>, rows: seq<seq<string>>)
    requires table != [] && NoEmptyRow(table)
    ensures Read(Printed(table), Start, "", [], rows) == Table(rows + AllCells(table))
    decreases table
  {
    PrintedStarts(table);
    if |table| == 1 {
      ReadLastRow(table[0], rows);
    } else {
      var row, others := table[0], table[1..];
      ReadLine(row, Printed(others), rows);
      ReadRows(others, rows + [Cells(row)]);
      Associative(rows, [Cells(row)], AllCells(others));
    }
  }

  /** Every printed table reads back cell by cell; null reads as the empty field. */
  lemma PrintedReadsBack(table: seq<seq<Value>>)
    requires table != [] && NoEmptyRow(table)
    ensures ReadTable(Printed(table)) == Table(AllCells(table))
  {
    ReadRows(table, []);
    Unit(AllCells(table));
  }

  /** A cell is quoted exactly when it holds a comma, a quote or a line end; any other prints as it is. */
  lemma QuotedExactly(s: string)
    ensures (',' !in s && '"' !in s && '\n' !in s) ==> CsvEsc(Text(s)) == s
    ensures (',' in s || '"' in s || '\n' in s) ==>
              |CsvEsc(Text(s))| >= 2 && CsvEsc(Text(s))[0] == '"' && CsvEsc(Text(s))[|CsvEsc(Text(s))| - 1] == '"'
  {
  }
}
