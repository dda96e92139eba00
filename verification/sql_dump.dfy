/** The plain-SQL dump written and read by the JDBC backup service. The
    writer renders each table as a `CREATE TABLE IF NOT EXISTS` statement and
    one single-line `INSERT` per row, adds the foreign keys, and wraps
    everything in `BEGIN;` ... `COMMIT;`. The reader cuts the text back into
    statements line by line. Database metadata and row contents are inputs;
    executing the statements is left to the database. */
module SqlDump {
  import opened Outcomes
  import opened Text

  // ---------------------------------------------------------------------
  // Values
  // ---------------------------------------------------------------------

  /** A non-null value as the result set reports it: `getString`,
      `getBoolean` and `toString` of `getObject`. */
  datatype Datum = Datum(asString: string, asBoolean: bool, asObject: string)

  /** One value of a row together with its column's type name. */
  datatype Cell = Cell(typeName: string, value: Option<Datum>)

  /** Column types whose values are written as quoted string literals. */
  predicate QuotedType(t: string)
  {
    t == "varchar" || t == "text" || t == "date" || t == "timestamp" || Contains(t, "char")
  }

  predicate BooleanType(t: string)
  {
    t == "bool" || t == "boolean"
  }

  /** `s.replace("'", "''")`. */
  function Escape(s: string): (r: string)
    ensures |r| >= |s|
  {
    if |s| == 0 then []
    else (if s[0] == '\'' then "''" else [s[0]]) + Escape(s[1..])
  }

  /** Reads the body of a string literal whose opening quote has been
      consumed: `''` stands for one quote, a single quote closes the literal.
      The result is the value and the text after the closing quote, or `None`
      for a literal that is never closed. */
  function ReadLiteral(t: string): (r: Option<(string, string)>)
    ensures r.Some? ==> |r.value.1| < |t|
    decreases |t|
  {
    if |t| == 0 then None
    else if t[0] == '\'' then
      if |t| >= 2 && t[1] == '\'' then
        match ReadLiteral(t[2..])
        case None => None
        case Some((v, rest)) => Some(("'" + v, rest))
      else Some(([], t[1..]))
    else
      match ReadLiteral(t[1..])
      case None => None
      case Some((v, rest)) => Some(([t[0]] + v, rest))
  }

  /** Reading an escaped value back gives the value and stops right after
      the closing quote, whatever follows it (unless that is another quote). */
  lemma {:induction false} ReadEscaped(s: string, rest: string)
    requires |rest| == 0 || rest[0] != '\''
    ensures ReadLiteral(Escape(s) + "'" + rest) == Some((s, rest))
    decreases |s|
  {
    if |s| == 0 {
      assert Escape(s) + "'" + rest == "'" + rest;
    } else {
      ReadEscaped(s[1..], rest);
      ReadEscapedStep(s, rest);
    }
  }

  /** One character further: an escaped quote is read as two, any other
      character as itself. */
  lemma ReadEscapedStep(s: string, rest: string)
    requires |s| > 0
    requires ReadLiteral(Escape(s[1..]) + "'" + rest) == Some((s[1..], rest))
    ensures ReadLiteral(Escape(s) + "'" + rest) == Some((s, rest))
  {
    var tail := Escape(s[1..]) + "'" + rest;
    var head := if s[0] == '\'' then "''" else [s[0]];
    assert Escape(s) + "'" + rest == head + tail;
    ReadAfter(head, tail, s[1..], rest);
    assert s == [s[0]] + s[1..];
  }

  /** The literal read after one escaped character. */
  lemma ReadAfter(head: string, tail: string, v: string, rest: string)
    requires head == "''" || (|head| == 1 && head[0] != '\'')
    requires ReadLiteral(tail) == Some((v, rest))
    ensures ReadLiteral(head + tail) == Some(([head[0]] + v, rest))
  {
    var t := head + tail;
    assert t[|head|..] == tail;
  }

  /** How the dump writes one value. */
  function RenderValue(c: Cell): (r: string)
    ensures c.value.None? ==> r == "NULL"
    ensures c.value.Some? && QuotedType(c.typeName)
            ==> |r| >= 2 && r[0] == '\'' && ReadLiteral(r[1..]) == Some((c.value.value.asString, []))
    ensures c.value.Some? && !QuotedType(c.typeName) && BooleanType(c.typeName)
            ==> r == (if c.value.value.asBoolean then "true" else "false")
  {
    match c.value
    case None => "NULL"
    case Some(d) =>
      if QuotedType(c.typeName) then
        ReadEscaped(d.asString, []);
        assert ("'" + Escape(d.asString) + "'")[1..] == Escape(d.asString) + "'" + [];
        "'" + Escape(d.asString) + "'"
      else if BooleanType(c.typeName) then (if d.asBoolean then "true" else "false")
      else d.asObject
  }

  function RenderValues(cells: seq<Cell>): (r: seq<string>)
    ensures |r| == |cells|
    ensures forall k :: 0 <= k < |cells| ==> r[k] == RenderValue(cells[k])
  {
    if |cells| == 0 then [] else [RenderValue(cells[0])] + RenderValues(cells[1..])
  }

  /** The `INSERT` statement of one row, without its line break. */
  function InsertStatement(table: string, columns: seq<string>, cells: seq<Cell>): string
  {
    "INSERT INTO " + table + " (" + Join(columns, ", ") + ") VALUES (" + Join(RenderValues(cells), ", ") + ");"
  }

  // ---------------------------------------------------------------------
  // Column definitions
  // ---------------------------------------------------------------------

  /** One column as the metadata describes it; absent entries are `None`. */
  datatype ColumnMeta = ColumnMeta(name: string, dataType: string, size: Option<string>,
                                   decimalDigits: Option<string>, isNullable: string,
                                   defaultValue: Option<string>)

  /** Java string concatenation of a possibly-null string. */
  function JavaText(s: Option<string>): string
  {
    match s
    case None => "null"
    case Some(v) => v
  }

  /** The size suffix: `(size)` for character types, `(size,digits)` for
      numeric types with known digits, nothing otherwise. */
  function TypeSuffix(c: ColumnMeta): (r: string)
    ensures EqualsIgnoreCase(c.dataType, "varchar") || Contains(c.dataType, "char")
            ==> r == "(" + JavaText(c.size) + ")"
    ensures !(EqualsIgnoreCase(c.dataType, "varchar") || Contains(c.dataType, "char"))
            && EqualsIgnoreCase(c.dataType, "numeric") && c.decimalDigits.Some?
            ==> r == "(" + JavaText(c.size) + "," + c.decimalDigits.value + ")"
    ensures r == [] || r[0] == '('
  {
    if EqualsIgnoreCase(c.dataType, "varchar") || Contains(c.dataType, "char") then
      "(" + JavaText(c.size) + ")"
    else if EqualsIgnoreCase(c.dataType, "numeric") && c.decimalDigits.Some? then
      "(" + JavaText(c.size) + "," + c.decimalDigits.value + ")"
    else []
  }

  /** The definition of one column: name, type, size suffix, `NOT NULL`
      when the column is not nullable, `DEFAULT` when it has a default. */
  function ColumnCore(c: ColumnMeta): string
  {
    c.name + " " + c.dataType + TypeSuffix(c)
    + (if c.isNullable == "NO" then " NOT NULL" else "")
    + (match c.defaultValue case None => "" case Some(d) => " DEFAULT " + d)
  }

  /** The definitions of the columns, in metadata order. */
  function ColumnCores(columns: seq<ColumnMeta>): (r: seq<string>)
    ensures |r| == |columns|
  {
    if |columns| == 0 then [] else [ColumnCore(columns[0])] + ColumnCores(columns[1..])
  }

  /** The definitions as written, each after a two-space indent. */
  function Definitions(cores: seq<string>): (r: seq<string>)
    ensures |r| == |cores|
    ensures forall k :: 0 <= k < |cores| ==> r[k] == "  " + cores[k]
  {
    if |cores| == 0 then [] else ["  " + cores[0]] + Definitions(cores[1..])
  }

  /** The primary-key clause, without its indent. */
  function KeyText(pk: seq<string>): string
  {
    "PRIMARY KEY (" + Join(pk, ", ") + ")"
  }

  /** What follows the last column definition when there is a primary key. */
  function PrimaryKeyText(pk: seq<string>): string
  {
    if |pk| == 0 then "" else ",\n  " + KeyText(pk)
  }

  /** The comment line before a table's structure. */
  function StructureComment(name: string): string
  {
    "-- Структура таблицы " + name
  }

  /** The line opening a `CREATE TABLE` statement. */
  function OpenLine(name: string): string
  {
    "CREATE TABLE IF NOT EXISTS " + name + " ("
  }

  /** The comment line before a table's rows. */
  function DataComment(name: string): string
  {
    "-- Данные таблицы " + name
  }

  /** Both comment lines start with `--`. */
  lemma CommentsDashed(name: string)
    ensures |StructureComment(name)| >= 2 && StructureComment(name)[0] == '-' && StructureComment(name)[1] == '-'
    ensures |DataComment(name)| >= 2 && DataComment(name)[0] == '-' && DataComment(name)[1] == '-'
  {
  }

  // ---------------------------------------------------------------------
  // The dump
  // ---------------------------------------------------------------------

  /** One table: its name, column metadata, primary-key columns, the column
      names of `SELECT *` and the rows. */
  datatype Table = Table(name: string, columns: seq<ColumnMeta>, primaryKey: seq<string>,
                         resultColumns: seq<string>, rows: seq<seq<Cell>>)

  datatype ForeignKey = ForeignKey(table: string, name: string, column: string,
                                   refTable: string, refColumn: string)

  function CreateText(t: Table): string
  {
    StructureComment(t.name) + "\n" + OpenLine(t.name) + "\n"
    + Join(Definitions(ColumnCores(t.columns)), ",\n") + PrimaryKeyText(t.primaryKey) + "\n);\n\n"
  }

  function RowsText(table: string, columns: seq<string>, rows: seq<seq<Cell>>): string
  {
    if |rows| == 0 then "" else InsertStatement(table, columns, rows[0]) + "\n" + RowsText(table, columns, rows[1..])
  }

  function DataText(t: Table): string
  {
    DataComment(t.name) + "\n" + RowsText(t.name, t.resultColumns, t.rows) + "\n"
  }

  function TablesText(tables: seq<Table>): string
  {
    if |tables| == 0 then "" else CreateText(tables[0]) + DataText(tables[0]) + TablesText(tables[1..])
  }

  function ForeignKeyStatement(fk: ForeignKey): string
  {
    "ALTER TABLE " + fk.table + " ADD CONSTRAINT " + fk.name + " FOREIGN KEY (" + fk.column
    + ") REFERENCES " + fk.refTable + "(" + fk.refColumn + ");"
  }

  function ForeignKeysText(fks: seq<ForeignKey>): string
  {
    if |fks| == 0 then "" else ForeignKeyStatement(fks[0]) + "\n" + ForeignKeysText(fks[1..])
  }

  /** The statements that open and close the dump's transaction. */
  const Begin: string := "BEGIN;"
  const Commit: string := "COMMIT;"

  /** `createDataBackup`: the whole file. */
  function Dump(tables: seq<Table>, fks: seq<ForeignKey>): string
  {
    Begin + "\n\n" + TablesText(tables) + ForeignKeysText(fks) + "\n" + Commit + "\n"
  }

  // ---------------------------------------------------------------------
  // Reading lines
  // ---------------------------------------------------------------------

  predicate IsBreak(c: char)
  {
    c == '\n' || c == '\r'
  }

  predicate NoBreak(s: string)
  {
    '\n' !in s && '\r' !in s
  }

  /** The index of the first line break, or -1. */
  function FirstBreak(s: string): (r: int)
    ensures r == -1 <==> NoBreak(s)
    ensures r != -1 ==> 0 <= r < |s| && IsBreak(s[r]) && NoBreak(s[..r])
    decreases |s|
  {
    if |s| == 0 then -1
    else if IsBreak(s[0]) then 0
    else
      var i := FirstBreak(s[1..]);
      assert forall k :: 1 <= k < |s| ==> s[1..][k - 1] == s[k];
      if i == -1 then -1
      else
        assert forall k :: 0 <= k < i + 1 ==> s[..i + 1][k] == s[k];
        i + 1
  }

  /** `BufferedReader.readLine` until the end: lines end at "\n", "\r" or
      "\r\n"; a last line without a break counts, an empty tail does not. */
  function ReadLines(s: string): (r: seq<string>)
    ensures forall k :: 0 <= k < |r| ==> NoBreak(r[k])
    decreases |s|
  {
    if |s| == 0 then []
    else
      var i := FirstBreak(s);
      if i == -1 then [s]
      else if s[i] == '\r' && i + 1 < |s| && s[i + 1] == '\n' then [s[..i]] + ReadLines(s[i + 2..])
      else [s[..i]] + ReadLines(s[i + 1..])
  }

  /** Each line followed by "\n". */
  function Unlines(lines: seq<string>): string
  {
    if |lines| == 0 then "" else lines[0] + "\n" + Unlines(lines[1..])
  }

  lemma {:induction false} UnlinesAppend(a: seq<string>, b: seq<string>)
    ensures Unlines(a + b) == Unlines(a) + Unlines(b)
    decreases |a|
  {
    if |a| > 0 {
      assert (a + b)[1..] == a[1..] + b;
      UnlinesAppend(a[1..], b);
    } else {
      assert a + b == b;
    }
  }

  lemma ReadLine(line: string, rest: string)
    requires NoBreak(line)
    ensures ReadLines(line + "\n" + rest) == [line] + ReadLines(rest)
  {
    var s := line + "\n" + rest;
    assert s[..|line|] == line;
    FirstBreakAt(s, |line|);
    assert s[|line| + 1..] == rest;
  }

  lemma {:induction false} FirstBreakAt(s: string, i: nat)
    requires i < |s| && IsBreak(s[i]) && NoBreak(s[..i])
    ensures FirstBreak(s) == i
    decreases i
  {
    if i > 0 {
      assert s[..i][0] == s[0];
      var front := s[1..][..i - 1];
      assert NoBreak(front) by {
        forall k | 0 <= k < i - 1
          ensures !IsBreak(front[k])
        {
          assert front[k] == s[..i][k + 1];
        }
      }
      FirstBreakAt(s[1..], i - 1);
    }
  }

  /** Reading lines back from lines without breaks gives them unchanged. */
  lemma {:induction false} ReadUnlines(lines: seq<string>)
    requires forall k :: 0 <= k < |lines| ==> NoBreak(lines[k])
    ensures ReadLines(Unlines(lines)) == lines
    decreases |lines|
  {
    if |lines| > 0 {
      ReadLine(lines[0], Unlines(lines[1..]));
      ReadUnlines(lines[1..]);
      assert lines == [lines[0]] + lines[1..];
    }
  }

  // ---------------------------------------------------------------------
  // Splitting into statements
  // ---------------------------------------------------------------------

  /** A trimmed line the splitter skips: empty or a `--` comment. */
  predicate Ignored(line: string)
  {
    |line| == 0 || StartsWith(line, "--")
  }

  /** The loop of `restoreDatabase` from a given buffer: every line is
      trimmed; ignored lines are skipped; other lines are appended to the
      buffer with "\n"; a line ending in ';' emits the trimmed buffer and
      empties it. The result is the emitted statements and the buffer left
      at the end, which is never executed. */
  function Split(lines: seq<string>, buffer: string): (r: (seq<string>, string))
    decreases |lines|
  {
    if |lines| == 0 then ([], buffer)
    else
      var line := JavaTrim(lines[0]);
      if Ignored(line) then Split(lines[1..], buffer)
      else if EndsWith(line, ";") then
        var rest := Split(lines[1..], "");
        ([JavaTrim(buffer + line + "\n")] + rest.0, rest.1)
      else Split(lines[1..], buffer + line + "\n")
  }

  /** Splitting a concatenation is splitting the parts one after the other. */
  lemma {:induction false} SplitAppend(a: seq<string>, b: seq<string>, buffer: string)
    ensures Split(a + b, buffer).0 == Split(a, buffer).0 + Split(b, Split(a, buffer).1).0
    ensures Split(a + b, buffer).1 == Split(b, Split(a, buffer).1).1
    decreases |a|
  {
    if |a| == 0 {
      assert a + b == b;
    } else {
      assert (a + b)[1..] == a[1..] + b;
      var line := JavaTrim(a[0]);
      if Ignored(line) {
        SplitAppend(a[1..], b, buffer);
      } else if EndsWith(line, ";") {
        SplitAppend(a[1..], b, "");
      } else {
        SplitAppend(a[1..], b, buffer + line + "\n");
      }
    }
  }

  /** Statements the restore does not execute. */
  predicate Skipped(statement: string)
  {
    EqualsIgnoreCase(statement, Begin) || EqualsIgnoreCase(statement, Commit)
  }

  function Executed(statements: seq<string>): (r: seq<string>)
    ensures forall s :: s in r <==> s in statements && !Skipped(s)
  {
    if |statements| == 0 then []
    else
      var rest := Executed(statements[1..]);
      assert statements == [statements[0]] + statements[1..];
      if Skipped(statements[0]) then rest else [statements[0]] + rest
  }

  lemma {:induction false} ExecutedAppend(a: seq<string>, b: seq<string>)
    ensures Executed(a + b) == Executed(a) + Executed(b)
    decreases |a|
  {
    if |a| == 0 {
      assert a + b == b;
    } else {
      assert (a + b)[1..] == a[1..] + b;
      ExecutedAppend(a[1..], b);
    }
  }

  /** `restoreDatabase`: the statements of a file, in order, that are sent
      to the database. */
  function RestoredStatements(sql: string): seq<string>
  {
    Executed(Split(ReadLines(sql), "").0)
  }

  // ---------------------------------------------------------------------
  // Reading a dump back
  // ---------------------------------------------------------------------

  /** A line that is a whole statement by itself: kept by the splitter,
      unchanged by trimming, ending in ';'. */
  predicate StatementLine(x: string)
  {
    |x| > 0 && !IsJavaTrimmed(x[0]) && x[|x| - 1] == ';' && !StartsWith(x, "--") && NoBreak(x)
  }

  /** A line the splitter keeps and appends without emitting. */
  predicate Carried(x: string)
  {
    !Ignored(x) && !EndsWith(x, ";")
  }

  function TrimAll(lines: seq<string>): (r: seq<string>)
    ensures |r| == |lines|
    ensures forall k :: 0 <= k < |lines| ==> r[k] == JavaTrim(lines[k])
  {
    if |lines| == 0 then [] else [JavaTrim(lines[0])] + TrimAll(lines[1..])
  }

  lemma TrimNewline(x: string)
    requires |x| > 0 && !IsJavaTrimmed(x[0]) && !IsJavaTrimmed(x[|x| - 1])
    ensures JavaTrim(x + "\n") == x
  {
    var s := x + "\n";
    assert JavaTrimStart(s) == s;
    assert s[..|s| - 1] == x;
    JavaTrimIdentity(x);
  }

  lemma TrimIndent(x: string)
    requires |x| > 0 && !IsJavaTrimmed(x[0]) && !IsJavaTrimmed(x[|x| - 1])
    ensures JavaTrim("  " + x) == x
  {
    assert ("  " + x)[1..] == " " + x;
    assert (" " + x)[1..] == x;
    assert JavaTrimStart(x) == x;
    assert JavaTrimStart(" " + x) == x;
    assert JavaTrimStart("  " + x) == x;
    JavaTrimIdentity(x);
  }

  /** A line starting with "--" is a comment, whatever follows. */
  lemma TrimComment(x: string)
    requires |x| >= 2 && x[0] == '-' && x[1] == '-'
    ensures Ignored(JavaTrim(x))
  {
    assert JavaTrimStart(x) == x;
    var e := JavaTrimEnd(x);
    JavaTrimEndShape(x);
    assert |e| >= 2 by {
      assert !IsJavaTrimmed(x[1]);
    }
    assert e[0] == '-' && e[1] == '-';
  }

  /** Lines that are statements by themselves come back one by one. */
  lemma {:induction false} SplitStatementLines(lines: seq<string>)
    requires forall k :: 0 <= k < |lines| ==> StatementLine(lines[k])
    ensures Split(lines, "") == (lines, "")
    decreases |lines|
  {
    if |lines| > 0 {
      var x := lines[0];
      var rest := lines[1..];
      SplitStatementLines(rest);
      SplitOneStatement(x, rest);
      assert lines == [x] + rest;
    }
  }

  /** A statement line is emitted by itself, with an empty buffer after it. */
  lemma SplitOneStatement(x: string, rest: seq<string>)
    requires StatementLine(x)
    ensures Split([x] + rest, "") == ([x] + Split(rest, "").0, Split(rest, "").1)
  {
    StatementLineFacts(x);
    assert ([x] + rest)[0] == x && ([x] + rest)[1..] == rest;
  }

  /** What the splitter needs to know about a statement line. */
  lemma StatementLineFacts(x: string)
    requires StatementLine(x)
    ensures JavaTrim(x) == x && !Ignored(x) && EndsWith(x, ";")
    ensures JavaTrim("" + x + "\n") == x
  {
    JavaTrimIdentity(x);
    TrimNewline(x);
    assert "" + x + "\n" == x + "\n";
    assert x[|x| - 1..] == [x[|x| - 1]];
  }

  /** Lines that are carried along are trimmed and collected in the buffer. */
  lemma {:induction false} SplitCarries(lines: seq<string>, buffer: string)
    requires forall k :: 0 <= k < |lines| ==> Carried(JavaTrim(lines[k]))
    ensures Split(lines, buffer) == ([], buffer + Unlines(TrimAll(lines)))
    decreases |lines|
  {
    if |lines| > 0 {
      var line := JavaTrim(lines[0]);
      assert Carried(line);
      var next := buffer + line + "\n";
      assert Split(lines, buffer) == Split(lines[1..], next);
      SplitCarries(lines[1..], next);
      var rest := TrimAll(lines[1..]);
      assert TrimAll(lines) == [line] + rest;
      assert Unlines(TrimAll(lines)) == line + "\n" + Unlines(rest);
      AppendAssoc3(buffer, line + "\n", Unlines(rest));
      AppendAssoc3(buffer, line, "\n");
      assert next == buffer + (line + "\n");
    } else {
      assert buffer + Unlines(TrimAll(lines)) == buffer;
    }
  }

  lemma AppendAssoc3(a: string, b: string, c: string)
    ensures a + b + c == a + (b + c)
  {
  }

  lemma {:induction false} JoinNoBreak(parts: seq<string>, sep: string)
    requires NoBreak(sep) && forall k :: 0 <= k < |parts| ==> NoBreak(parts[k])
    ensures NoBreak(Join(parts, sep))
    decreases |parts|
  {
    if |parts| > 1 {
      JoinNoBreak(parts[1..], sep);
    }
  }

  // Rows

  /** Every value of a row is free of line breaks. */
  predicate CleanCell(c: Cell)
  {
    c.value.Some? ==> NoBreak(c.value.value.asString) && NoBreak(c.value.value.asObject)
  }

  lemma {:induction false} EscapeNoBreak(s: string)
    requires NoBreak(s)
    ensures NoBreak(Escape(s))
    decreases |s|
  {
    if |s| > 0 {
      assert s[0] in s;
      assert forall c :: c in s[1..] ==> c in s;
      EscapeNoBreak(s[1..]);
    }
  }

  lemma CellNoBreak(c: Cell)
    requires CleanCell(c)
    ensures NoBreak(RenderValue(c))
  {
    if c.value.Some? && QuotedType(c.typeName) {
      var e := Escape(c.value.value.asString);
      EscapeNoBreak(c.value.value.asString);
      ConcatNoBreak("'", e);
      ConcatNoBreak("'" + e, "'");
    }
  }

  lemma RenderedNoBreak(cells: seq<Cell>)
    requires forall k :: 0 <= k < |cells| ==> CleanCell(cells[k])
    ensures forall k :: 0 <= k < |cells| ==> NoBreak(RenderValues(cells)[k])
  {
    forall k | 0 <= k < |cells|
      ensures NoBreak(RenderValues(cells)[k])
    {
      CellNoBreak(cells[k]);
    }
  }

  lemma ConcatNoBreak(a: string, b: string)
    requires NoBreak(a) && NoBreak(b)
    ensures NoBreak(a + b)
  {
    assert forall c :: c in a + b ==> c in a || c in b;
  }

  lemma InsertIsStatementLine(table: string, columns: seq<string>, cells: seq<Cell>)
    requires NoBreak(table) && forall k :: 0 <= k < |columns| ==> NoBreak(columns[k])
    requires forall k :: 0 <= k < |cells| ==> CleanCell(cells[k])
    ensures StatementLine(InsertStatement(table, columns, cells))
  {
    var values := RenderValues(cells);
    RenderedNoBreak(cells);
    var names := Join(columns, ", ");
    var listed := Join(values, ", ");
    JoinNoBreak(columns, ", ");
    JoinNoBreak(values, ", ");
    ConcatNoBreak("INSERT INTO ", table);
    ConcatNoBreak("INSERT INTO " + table, " (");
    ConcatNoBreak("INSERT INTO " + table + " (", names);
    ConcatNoBreak("INSERT INTO " + table + " (" + names, ") VALUES (");
    ConcatNoBreak("INSERT INTO " + table + " (" + names + ") VALUES (", listed);
    ConcatNoBreak("INSERT INTO " + table + " (" + names + ") VALUES (" + listed, ");");
    var x := InsertStatement(table, columns, cells);
    assert x[0] == 'I';
    assert x[..2] == "IN";
  }

  function Inserts(table: string, columns: seq<string>, rows: seq<seq<Cell>>): (r: seq<string>)
    ensures |r| == |rows|
    ensures forall k :: 0 <= k < |rows| ==> r[k] == InsertStatement(table, columns, rows[k])
  {
    if |rows| == 0 then [] else [InsertStatement(table, columns, rows[0])] + Inserts(table, columns, rows[1..])
  }

  lemma {:induction false} RowsTextIsLines(table: string, columns: seq<string>, rows: seq<seq<Cell>>)
    ensures RowsText(table, columns, rows) == Unlines(Inserts(table, columns, rows))
    decreases |rows|
  {
    if |rows| > 0 {
      RowsTextIsLines(table, columns, rows[1..]);
    }
  }

  // Column definitions

  /** A column definition the splitter reads back as one line of the
      `CREATE TABLE` statement: non-empty, without breaks, not starting or
      ending with a trimmed character, not a comment, not ending in ';'. */
  predicate CleanCore(core: string)
  {
    |core| > 0 && NoBreak(core) && !IsJavaTrimmed(core[0]) && !IsJavaTrimmed(core[|core| - 1])
    && core[|core| - 1] != ';' && !StartsWith(core, "--")
  }

  /** What follows a column definition: ',' before the next definition or
      before the primary key. */
  function Separator(last: bool, comma: bool): string
  {
    if !last || comma then "," else ""
  }

  /** The column lines of the `CREATE TABLE` text, each definition after
      `indent` and followed by its separator. */
  function ColumnLines(cores: seq<string>, comma: bool, indent: string): (r: seq<string>)
    requires |cores| > 0
    ensures |r| == |cores|
    ensures forall k :: 0 <= k < |cores| ==>
              r[k] == indent + cores[k] + Separator(k == |cores| - 1, comma)
    decreases |cores|
  {
    if |cores| == 1 then [indent + cores[0] + Separator(true, comma)]
    else [indent + cores[0] + Separator(false, comma)] + ColumnLines(cores[1..], comma, indent)
  }

  lemma {:induction false} JoinColumnLines(cores: seq<string>, comma: bool)
    requires |cores| > 0
    ensures Join(Definitions(cores), ",\n") + Separator(true, comma) + "\n"
            == Unlines(ColumnLines(cores, comma, "  "))
    decreases |cores|
  {
    var defs := Definitions(cores);
    var lines := ColumnLines(cores, comma, "  ");
    var sep := Separator(true, comma);
    if |cores| > 1 {
      JoinColumnLines(cores[1..], comma);
      assert defs[1..] == Definitions(cores[1..]);
      assert lines[1..] == ColumnLines(cores[1..], comma, "  ");
      var tail := Join(defs[1..], ",\n");
      var u := Unlines(lines[1..]);
      assert tail + sep + "\n" == u;
      assert Join(defs, ",\n") == defs[0] + ",\n" + tail;
      assert lines[0] == defs[0] + ",";
      assert Unlines(lines) == lines[0] + "\n" + u;
      JoinLineStep(defs[0], tail, sep, u);
    } else {
      assert Join(defs, ",\n") == defs[0];
      assert lines[0] == defs[0] + sep;
      assert Unlines(lines) == lines[0] + "\n" + Unlines([]);
    }
  }

  /** One step of `JoinColumnLines`: the separator ",\n" after a definition
      is the ',' ending its line and the line break. */
  lemma JoinLineStep(d: string, tail: string, sep: string, u: string)
    requires tail + sep + "\n" == u
    ensures d + ",\n" + tail + sep + "\n" == (d + ",") + "\n" + u
  {
    calc {
      d + ",\n" + tail + sep + "\n";
      { AppendAssoc3(d + ",\n", tail, sep); }
      d + ",\n" + (tail + sep) + "\n";
      { AppendAssoc3(d + ",\n", tail + sep, "\n"); }
      d + ",\n" + u;
      { AppendAssoc3(d, ",", "\n"); }
      (d + ",") + "\n" + u;
    }
  }

  /** A clean definition followed by its separator is still clean, except
      that it may end in ','. */
  lemma SeparatedCore(core: string, sep: string)
    requires CleanCore(core) && (sep == "," || sep == "")
    ensures var x := core + sep;
      |x| > 0 && NoBreak(x) && !IsJavaTrimmed(x[0]) && !IsJavaTrimmed(x[|x| - 1])
      && x[|x| - 1] != ';' && !StartsWith(x, "--")
  {
    var x := core + sep;
    assert x[0] == core[0];
    if |core| >= 2 {
      assert x[..2] == core[..2];
    } else if sep == "," {
      assert x[1] == ',';
    }
    assert forall c :: c in x ==> c in core || c in sep;
  }

  /** A line that is not a comment and does not end in ';' is carried. */
  lemma CarriedLine(x: string)
    requires |x| > 0 && x[|x| - 1] != ';' && !StartsWith(x, "--")
    ensures Carried(x)
  {
    assert x[|x| - 1..] != ";" by {
      assert x[|x| - 1..][0] == x[|x| - 1];
    }
  }

  lemma IndentNoBreak(x: string)
    requires NoBreak(x)
    ensures NoBreak("  " + x)
  {
    assert forall c :: c in "  " + x ==> c == ' ' || c in x;
  }

  /** One column line: trimming removes exactly the indent, the trimmed line
      is carried, and it holds no break. */
  lemma ColumnLine(core: string, sep: string)
    requires CleanCore(core) && (sep == "," || sep == "")
    ensures JavaTrim("  " + core + sep) == "" + core + sep
    ensures Carried(core + sep)
    ensures NoBreak("  " + core + sep)
  {
    var x := core + sep;
    SeparatedCore(core, sep);
    CarriedLine(x);
    IndentNoBreak(x);
    TrimIndent(x);
    AppendAssoc3("  ", core, sep);
    assert "" + core + sep == x;
  }

  lemma ColumnLinesCarried(cores: seq<string>, comma: bool)
    requires |cores| > 0 && forall k :: 0 <= k < |cores| ==> CleanCore(cores[k])
    ensures TrimAll(ColumnLines(cores, comma, "  ")) == ColumnLines(cores, comma, "")
    ensures AllCarried(ColumnLines(cores, comma, ""))
    ensures LinesNoBreak(ColumnLines(cores, comma, "  "))
  {
    forall k | 0 <= k < |cores|
      ensures JavaTrim(ColumnLines(cores, comma, "  ")[k]) == ColumnLines(cores, comma, "")[k]
      ensures Carried(ColumnLines(cores, comma, "")[k])
      ensures NoBreak(ColumnLines(cores, comma, "  ")[k])
    {
      ColumnLineTrim(cores, comma, k);
      ColumnLineCarried(cores, comma, k);
      ColumnLineNoBreak(cores, comma, k);
    }
  }

  lemma ColumnLineTrim(cores: seq<string>, comma: bool, k: nat)
    requires k < |cores| && CleanCore(cores[k])
    ensures JavaTrim(ColumnLines(cores, comma, "  ")[k]) == ColumnLines(cores, comma, "")[k]
  {
    ColumnLine(cores[k], Separator(k == |cores| - 1, comma));
  }

  lemma ColumnLineCarried(cores: seq<string>, comma: bool, k: nat)
    requires k < |cores| && CleanCore(cores[k])
    ensures Carried(ColumnLines(cores, comma, "")[k])
  {
    var sep := Separator(k == |cores| - 1, comma);
    ColumnLine(cores[k], sep);
    AppendAssoc3("", cores[k], sep);
    assert "" + (cores[k] + sep) == cores[k] + sep;
    assert ColumnLines(cores, comma, "")[k] == cores[k] + sep;
  }

  lemma ColumnLineNoBreak(cores: seq<string>, comma: bool, k: nat)
    requires k < |cores| && CleanCore(cores[k])
    ensures NoBreak(ColumnLines(cores, comma, "  ")[k])
  {
    ColumnLine(cores[k], Separator(k == |cores| - 1, comma));
  }

  predicate LinesNoBreak(lines: seq<string>)
  {
    forall k :: 0 <= k < |lines| ==> NoBreak(lines[k])
  }

  predicate AllCarried(lines: seq<string>)
  {
    forall k :: 0 <= k < |lines| ==> Carried(lines[k])
  }

  lemma {:induction false} TrimAllAppend(a: seq<string>, b: seq<string>)
    ensures TrimAll(a + b) == TrimAll(a) + TrimAll(b)
  {
    var r := TrimAll(a + b);
    assert forall k :: 0 <= k < |a| + |b| ==> r[k] == JavaTrim((a + b)[k]);
  }

  function PrimaryKeyLine(pk: seq<string>, indent: string): seq<string>
  {
    if |pk| == 0 then [] else [indent + KeyText(pk)]
  }

  /** An indented line whose text is clean loses exactly its indent to
      trimming, and the splitter carries it. */
  lemma IndentedLineTrim(x: string)
    requires |x| > 0 && !IsJavaTrimmed(x[0]) && !IsJavaTrimmed(x[|x| - 1])
    requires NoBreak(x) && x[|x| - 1] != ';' && !StartsWith(x, "--")
    ensures TrimAll(["  " + x]) == [x]
    ensures AllCarried([x]) && LinesNoBreak(["  " + x])
  {
    TrimIndent(x);
    CarriedLine(x);
    IndentNoBreak(x);
  }

  lemma KeyTextClean(pk: seq<string>)
    requires LinesNoBreak(pk)
    ensures var x := KeyText(pk);
      |x| > 0 && !IsJavaTrimmed(x[0]) && !IsJavaTrimmed(x[|x| - 1])
      && NoBreak(x) && x[|x| - 1] != ';' && !StartsWith(x, "--")
  {
    var x := KeyText(pk);
    JoinNoBreak(pk, ", ");
    ConcatNoBreak("PRIMARY KEY (", Join(pk, ", "));
    ConcatNoBreak("PRIMARY KEY (" + Join(pk, ", "), ")");
    assert x[0] == 'P' && x[|x| - 1] == ')';
  }

  /** The primary-key line loses its indent to trimming and is carried. */
  lemma PrimaryKeyLineTrim(pk: seq<string>)
    requires LinesNoBreak(pk)
    ensures TrimAll(PrimaryKeyLine(pk, "  ")) == PrimaryKeyLine(pk, "")
    ensures AllCarried(PrimaryKeyLine(pk, "")) && LinesNoBreak(PrimaryKeyLine(pk, "  "))
  {
    if |pk| > 0 {
      KeyTextClean(pk);
      IndentedLineTrim(KeyText(pk));
      assert PrimaryKeyLine(pk, "  ") == ["  " + KeyText(pk)];
      assert "" + KeyText(pk) == KeyText(pk);
      assert PrimaryKeyLine(pk, "") == [KeyText(pk)];
    }
  }

  lemma OpenLineTrim(name: string)
    requires NoBreak(name)
    ensures TrimAll([OpenLine(name)]) == [OpenLine(name)]
    ensures Carried(OpenLine(name)) && NoBreak(OpenLine(name))
  {
    var p, q := "CREATE TABLE IF NOT EXISTS ", " (";
    assert p[0] == 'C' && q[1] == '(';
    assert NoBreak(p) && NoBreak(q);
    FramedLine(p, name, q);
  }

  /** A line that starts with a visible letter and ends with a visible
      character other than `;` is kept whole and carried. */
  lemma FramedLine(p: string, name: string, q: string)
    requires |p| > 0 && |q| > 0 && NoBreak(p) && NoBreak(name) && NoBreak(q)
    requires !IsJavaTrimmed(p[0]) && p[0] != '-' && !IsJavaTrimmed(q[|q| - 1]) && q[|q| - 1] != ';'
    ensures var x := p + name + q;
            TrimAll([x]) == [x] && Carried(x) && NoBreak(x)
  {
    var x := p + name + q;
    assert x[0] == p[0] && x[|x| - 1] == q[|q| - 1];
    JavaTrimIdentity(x);
    CarriedLine(x);
    ConcatNoBreak(p, name);
    ConcatNoBreak(p + name, q);
  }

  /** The lines of the structure part from `CREATE` to the primary key,
      each after `indent` except the first. */
  function CarriedLines(t: Table, indent: string): (r: seq<string>)
    requires |t.columns| > 0
  {
    [OpenLine(t.name)] + ColumnLines(ColumnCores(t.columns), |t.primaryKey| > 0, indent)
    + PrimaryKeyLine(t.primaryKey, indent)
  }

  /** The lines of the structure part of a table. */
  function CreateLines(t: Table): seq<string>
    requires |t.columns| > 0
  {
    [StructureComment(t.name)] + CarriedLines(t, "  ") + [");", ""]
  }

  /** The `CREATE TABLE` statement the splitter reads: the text of the
      structure part with every line's indent removed, from `CREATE` to
      the closing `);`. */
  function CreateStatement(t: Table): string
    requires |t.columns| > 0
  {
    Unlines(CarriedLines(t, "")) + ");"
  }

  predicate CleanTable(t: Table)
  {
    NoBreak(t.name) && |t.columns| > 0
    && (forall k :: 0 <= k < |t.columns| ==> CleanCore(ColumnCores(t.columns)[k]))
    && LinesNoBreak(t.primaryKey)
    && LinesNoBreak(t.resultColumns)
    && (forall i, k :: 0 <= i < |t.rows| && 0 <= k < |t.rows[i]| ==> CleanCell(t.rows[i][k]))
  }

  /** `s + "\n" + rest`, regrouped. */
  lemma LineThen(s: string, rest: string)
    ensures s + "\n" + rest == s + ("\n" + rest)
  {
  }

  /** The text after the column definitions is the separator of the last
      definition, its line break, and the remaining lines. */
  lemma UnlinesCons(x: string, rest: seq<string>)
    ensures Unlines([x] + rest) == x + "\n" + Unlines(rest)
  {
    assert ([x] + rest)[1..] == rest;
  }

  /** The closing lines of a `CREATE TABLE` statement. */
  lemma ClosingLines()
    ensures Unlines([");", ""]) == ");\n\n"
  {
    UnlinesCons("", []);
    UnlinesCons(");", [""]);
  }

  lemma ClosingText(pk: seq<string>)
    ensures PrimaryKeyText(pk) + "\n);\n\n"
         == Separator(true, |pk| > 0) + "\n" + Unlines(PrimaryKeyLine(pk, "  ") + [");", ""])
  {
    ClosingLines();
    if |pk| > 0 {
      var key := "  " + KeyText(pk);
      UnlinesCons(key, [");", ""]);
      assert PrimaryKeyLine(pk, "  ") + [");", ""] == [key] + [");", ""];
      ClosingKey(KeyText(pk));
    } else {
      assert PrimaryKeyLine(pk, "  ") + [");", ""] == [");", ""];
    }
  }

  /** The closing of a statement with a primary key, regrouped as lines. */
  lemma ClosingKey(k: string)
    ensures ",\n  " + k + "\n);\n\n" == "," + "\n" + ("  " + k + "\n" + ");\n\n")
  {
    assert ",\n  " == "," + "\n" + "  ";
    assert "\n);\n\n" == "\n" + ");\n\n";
    Regroup6(",", "\n", "  ", k, "\n", ");\n\n");
  }

  lemma Regroup6(a: string, b: string, c: string, d: string, e: string, f: string)
    ensures (a + b + c) + d + (e + f) == a + b + (c + d + e + f)
  {
  }

  lemma Regroup(o: string, j: string, p: string, c: string, sep: string, u: string)
    requires p + c == sep + "\n" + u
    ensures o + "\n" + j + p + c == (o + "\n") + (j + sep + "\n") + u
  {
    calc {
      o + "\n" + j + p + c;
      { AppendAssoc3(o + "\n" + j, p, c); }
      (o + "\n" + j) + (p + c);
      (o + "\n" + j) + (sep + "\n" + u);
      { AppendAssoc3(o + "\n", j, sep + "\n" + u); }
      (o + "\n") + (j + (sep + "\n" + u));
      { assert j + (sep + "\n" + u) == (j + sep + "\n") + u; }
      (o + "\n") + ((j + sep + "\n") + u);
    }
  }

  /** The text written for the structure of a table, from the opening line
      on, is the lines of `CarriedLines` followed by ");" and an empty line. */
  lemma CarriedTextIsLines(t: Table)
    requires |t.columns| > 0
    ensures OpenLine(t.name) + "\n" + Join(Definitions(ColumnCores(t.columns)), ",\n")
            + PrimaryKeyText(t.primaryKey) + "\n);\n\n"
         == Unlines(CarriedLines(t, "  ") + [");", ""])
  {
    var pk := t.primaryKey;
    var hasPk := |pk| > 0;
    var cores := ColumnCores(t.columns);
    var cols := ColumnLines(cores, hasPk, "  ");
    var open := OpenLine(t.name);
    var j := Join(Definitions(cores), ",\n");
    var tail := PrimaryKeyLine(pk, "  ") + [");", ""];
    var sep := Separator(true, hasPk);
    JoinColumnLines(cores, hasPk);
    assert CarriedLines(t, "  ") + [");", ""] == [open] + cols + tail;
    UnlinesAppend([open] + cols, tail);
    UnlinesAppend([open], cols);
    assert Unlines([open]) == open + "\n";
    ClosingText(pk);
    Regroup(open, j, PrimaryKeyText(pk), "\n);\n\n", sep, Unlines(tail));
  }

  lemma CreateTextIsLines(t: Table)
    requires |t.columns| > 0
    ensures CreateText(t) == Unlines(CreateLines(t))
  {
    var comment := StructureComment(t.name);
    var rest := CarriedLines(t, "  ") + [");", ""];
    var carried := OpenLine(t.name) + "\n" + Join(Definitions(ColumnCores(t.columns)), ",\n")
      + PrimaryKeyText(t.primaryKey) + "\n);\n\n";
    CarriedTextIsLines(t);
    assert CreateLines(t) == [comment] + rest;
    UnlinesCons(comment, rest);
    CreateTextRegroup(t);
  }

  lemma CreateTextRegroup(t: Table)
    ensures CreateText(t) == StructureComment(t.name) + "\n" + (OpenLine(t.name) + "\n"
      + Join(Definitions(ColumnCores(t.columns)), ",\n") + PrimaryKeyText(t.primaryKey) + "\n);\n\n")
  {
    Regroup7(StructureComment(t.name), "\n", OpenLine(t.name), Join(Definitions(ColumnCores(t.columns)), ",\n"),
             PrimaryKeyText(t.primaryKey), "\n);\n\n");
  }

  lemma Regroup7(c: string, n: string, o: string, j: string, p: string, e: string)
    ensures c + n + o + n + j + p + e == c + n + (o + n + j + p + e)
  {
  }

  /** Trimming the indented lines of the structure part gives the lines of
      its statement, each of which the splitter carries. */
  lemma CarriedLinesTrim(t: Table)
    requires CleanTable(t)
    ensures TrimAll(CarriedLines(t, "  ")) == CarriedLines(t, "")
    ensures AllCarried(CarriedLines(t, "")) && LinesNoBreak(CarriedLines(t, "  "))
  {
    var hasPk := |t.primaryKey| > 0;
    var cores := ColumnCores(t.columns);
    ColumnLinesCarried(cores, hasPk);
    OpenLineTrim(t.name);
    PrimaryKeyLineTrim(t.primaryKey);
    CarriedTrimmed(t);
    CarriedCarried(t);
    CarriedNoBreak(t);
  }

  lemma CarriedTrimmed(t: Table)
    requires |t.columns| > 0
    requires TrimAll([OpenLine(t.name)]) == [OpenLine(t.name)]
    requires TrimAll(ColumnLines(ColumnCores(t.columns), |t.primaryKey| > 0, "  "))
             == ColumnLines(ColumnCores(t.columns), |t.primaryKey| > 0, "")
    requires TrimAll(PrimaryKeyLine(t.primaryKey, "  ")) == PrimaryKeyLine(t.primaryKey, "")
    ensures TrimAll(CarriedLines(t, "  ")) == CarriedLines(t, "")
  {
    var open := [OpenLine(t.name)];
    var cols := ColumnLines(ColumnCores(t.columns), |t.primaryKey| > 0, "  ");
    TrimAllAppend(open + cols, PrimaryKeyLine(t.primaryKey, "  "));
    TrimAllAppend(open, cols);
  }

  lemma CarriedCarried(t: Table)
    requires |t.columns| > 0
    requires Carried(OpenLine(t.name))
    requires AllCarried(ColumnLines(ColumnCores(t.columns), |t.primaryKey| > 0, ""))
    requires AllCarried(PrimaryKeyLine(t.primaryKey, ""))
    ensures AllCarried(CarriedLines(t, ""))
  {
    var open := [OpenLine(t.name)];
    var cols := ColumnLines(ColumnCores(t.columns), |t.primaryKey| > 0, "");
    CarriedAppend(open + cols, PrimaryKeyLine(t.primaryKey, ""));
    CarriedAppend(open, cols);
  }

  lemma CarriedNoBreak(t: Table)
    requires |t.columns| > 0
    requires NoBreak(OpenLine(t.name))
    requires LinesNoBreak(ColumnLines(ColumnCores(t.columns), |t.primaryKey| > 0, "  "))
    requires LinesNoBreak(PrimaryKeyLine(t.primaryKey, "  "))
    ensures LinesNoBreak(CarriedLines(t, "  "))
  {
    var open := [OpenLine(t.name)];
    var cols := ColumnLines(ColumnCores(t.columns), |t.primaryKey| > 0, "  ");
    NoBreakAppend(open + cols, PrimaryKeyLine(t.primaryKey, "  "));
    NoBreakAppend(open, cols);
  }

  lemma CarriedAppend(a: seq<string>, b: seq<string>)
    requires AllCarried(a) && AllCarried(b)
    ensures AllCarried(a + b)
  {
    assert forall k :: |a| <= k < |a| + |b| ==> (a + b)[k] == b[k - |a|];
  }

  lemma NoBreakAppend(a: seq<string>, b: seq<string>)
    requires LinesNoBreak(a) && LinesNoBreak(b)
    ensures LinesNoBreak(a + b)
  {
    assert forall k :: |a| <= k < |a| + |b| ==> (a + b)[k] == b[k - |a|];
  }

  lemma TrimCarriedAppend(buffer: string)
    requires |buffer| > 0 && !IsJavaTrimmed(buffer[0])
    ensures JavaTrim(buffer + ");" + "\n") == buffer + ");"
  {
    TrimNewline(buffer + ");");
  }

  /** A `--` comment line is skipped, whatever the buffer. */
  lemma SplitComment(comment: string, rest: seq<string>, buffer: string)
    requires |comment| >= 2 && comment[0] == '-' && comment[1] == '-'
    ensures Split([comment] + rest, buffer) == Split(rest, buffer)
  {
    TrimComment(comment);
    assert ([comment] + rest)[1..] == rest;
  }

  /** A block of carried lines closed by ");" and an empty line is read as one
      statement: the buffered text, then ");". */
  lemma SplitBlock(carried: seq<string>, buffer: string)
    requires Split(carried, "") == ([], buffer)
    requires |buffer| > 0 && !IsJavaTrimmed(buffer[0])
    ensures Split(carried + [");", ""], "") == ([buffer + ");"], "")
  {
    var closing := [");", ""];
    SplitAppend(carried, closing, "");
    TrimCarriedAppend(buffer);
    SplitClosing(buffer);
    assert [] + [buffer + ");"] == [buffer + ");"];
  }

  /** The closing line of a `CREATE TABLE` emits the buffer. */
  lemma SplitClosing(buffer: string)
    ensures Split([");", ""], buffer) == ([JavaTrim(buffer + ");" + "\n")], "")
  {
    var closing := [");", ""];
    var line := JavaTrim(closing[0]);
    assert line == ");" by {
      JavaTrimIdentity(");");
    }
    assert !Ignored(line) by {
      assert line[0] != '-';
    }
    assert EndsWith(line, ";") by {
      assert line[|line| - 1..] == ";";
    }
    assert closing[1..] == [""];
    var rest := Split([""], "");
    assert rest == ([], "");
    assert Split(closing, buffer) == ([JavaTrim(buffer + line + "\n")] + rest.0, rest.1);
    assert buffer + line + "\n" == buffer + ");" + "\n";
    assert [JavaTrim(buffer + line + "\n")] + rest.0 == [JavaTrim(buffer + ");" + "\n")];
  }

  lemma CarriedStartsOpen(t: Table)
    requires |t.columns| > 0
    ensures |Unlines(CarriedLines(t, ""))| > 0 && Unlines(CarriedLines(t, ""))[0] == 'C'
  {
    var trimmed := CarriedLines(t, "");
    assert trimmed == [OpenLine(t.name)] + trimmed[1..];
    UnlinesCons(OpenLine(t.name), trimmed[1..]);
  }

  /** The structure part of a clean table is read back as its one
      `CREATE TABLE` statement. */
  lemma SplitCreate(t: Table)
    requires CleanTable(t)
    ensures Split(CreateLines(t), "") == ([CreateStatement(t)], "")
  {
    var carried := CarriedLines(t, "  ");
    var comment := StructureComment(t.name);
    CommentsDashed(t.name);
    ConsAppend(comment, carried, [");", ""]);
    SplitComment(comment, carried + [");", ""], "");
    SplitCarriedBlock(t);
  }

  /** The indented lines and the closing of a clean table make its one
      statement. */
  lemma SplitCarriedBlock(t: Table)
    requires CleanTable(t)
    ensures Split(CarriedLines(t, "  ") + [");", ""], "") == ([CreateStatement(t)], "")
  {
    var carried := CarriedLines(t, "  ");
    var trimmed := CarriedLines(t, "");
    CarriedLinesTrim(t);
    SplitCarries(carried, "");
    var buffer := Unlines(trimmed);
    assert "" + buffer == buffer;
    CarriedStartsOpen(t);
    SplitBlock(carried, buffer);
  }

  lemma ConsAppend<T>(x: T, a: seq<T>, b: seq<T>)
    ensures [x] + a + b == [x] + (a + b)
  {
  }

  /** The lines of the data part of a table. */
  function DataLines(t: Table): seq<string>
  {
    [DataComment(t.name)] + Inserts(t.name, t.resultColumns, t.rows) + [""]
  }

  lemma DataTextIsLines(t: Table)
    ensures DataText(t) == Unlines(DataLines(t))
  {
    var inserts := Inserts(t.name, t.resultColumns, t.rows);
    RowsTextIsLines(t.name, t.resultColumns, t.rows);
    UnlinesAppend([DataComment(t.name)] + inserts, [""]);
    UnlinesAppend([DataComment(t.name)], inserts);
  }

  lemma InsertsAreStatementLines(t: Table)
    requires CleanTable(t)
    ensures forall k :: 0 <= k < |t.rows| ==> StatementLine(Inserts(t.name, t.resultColumns, t.rows)[k])
  {
    forall k | 0 <= k < |t.rows|
      ensures StatementLine(Inserts(t.name, t.resultColumns, t.rows)[k])
    {
      InsertIsStatementLine(t.name, t.resultColumns, t.rows[k]);
    }
  }

  /** Statements that come back one by one still do after a comment and
      before an empty line. */
  lemma SplitStatementBlock(comment: string, statements: seq<string>)
    requires |comment| >= 2 && comment[0] == '-' && comment[1] == '-'
    requires Split(statements, "") == (statements, "")
    ensures Split([comment] + statements + [""], "") == (statements, "")
  {
    var body := statements + [""];
    SplitAppend(statements, [""], "");
    assert Split([""], "") == ([], "");
    assert statements + [] == statements;
    assert [comment] + statements + [""] == [comment] + body;
    SplitComment(comment, body, "");
  }

  /** The data part of a clean table is read back as its INSERT statements. */
  lemma SplitData(t: Table)
    requires CleanTable(t)
    ensures Split(DataLines(t), "") == (Inserts(t.name, t.resultColumns, t.rows), "")
  {
    var inserts := Inserts(t.name, t.resultColumns, t.rows);
    CommentsDashed(t.name);
    InsertsAreStatementLines(t);
    SplitStatementLines(inserts);
    SplitStatementBlock(DataComment(t.name), inserts);
  }
}
