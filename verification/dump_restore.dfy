/** A whole dump file read back by the restore. The writer wraps the tables
    in `BEGIN;` ... `COMMIT;`; the reader cuts the file into statements and
    drops the wrapper. For tables and foreign keys without line breaks in
    their names and values, the statements executed are exactly the ones
    written, in the order written. */
module DumpRestore {
  import opened Text
  import opened SqlDump

  /** Every table has at least one column, so its `CREATE TABLE` has a body. */
  predicate HaveColumns(tables: seq<Table>)
  {
    forall k :: 0 <= k < |tables| ==> |tables[k].columns| > 0
  }

  predicate AllClean(tables: seq<Table>)
  {
    forall k :: 0 <= k < |tables| ==> CleanTable(tables[k])
  }

  /** A foreign key whose names hold no line break. */
  predicate CleanKey(fk: ForeignKey)
  {
    NoBreak(fk.table) && NoBreak(fk.name) && NoBreak(fk.column) && NoBreak(fk.refTable) && NoBreak(fk.refColumn)
  }

  predicate AllCleanKeys(fks: seq<ForeignKey>)
  {
    forall k :: 0 <= k < |fks| ==> CleanKey(fks[k])
  }

  /** The statements one table contributes: its `CREATE TABLE`, then one
      `INSERT` per row. */
  function TableStatements(t: Table): (r: seq<string>)
    requires |t.columns| > 0
    ensures |r| == |t.rows| + 1 && r[0] == CreateStatement(t)
  {
    [CreateStatement(t)] + Inserts(t.name, t.resultColumns, t.rows)
  }

  /** The lines of the tables' part of the file. */
  function AllTableLines(tables: seq<Table>): seq<string>
    requires HaveColumns(tables)
  {
    if |tables| == 0 then [] else CreateLines(tables[0]) + DataLines(tables[0]) + AllTableLines(tables[1..])
  }

  /** The statements of the tables, table after table. */
  function AllTableStatements(tables: seq<Table>): seq<string>
    requires HaveColumns(tables)
  {
    if |tables| == 0 then [] else TableStatements(tables[0]) + AllTableStatements(tables[1..])
  }

  function ForeignKeyLines(fks: seq<ForeignKey>): (r: seq<string>)
    ensures |r| == |fks|
    ensures forall k :: 0 <= k < |fks| ==> r[k] == ForeignKeyStatement(fks[k])
  {
    seq(|fks|, k requires 0 <= k < |fks| => ForeignKeyStatement(fks[k]))
  }

  /** The lines of the whole file. */
  function DumpLines(tables: seq<Table>, fks: seq<ForeignKey>): seq<string>
    requires HaveColumns(tables)
  {
    [Begin, ""] + AllTableLines(tables) + ForeignKeyLines(fks) + ["", Commit]
  }

  // ---------------------------------------------------------------------
  // The text is its lines
  // ---------------------------------------------------------------------

  lemma {:induction false} TablesTextIsLines(tables: seq<Table>)
    requires HaveColumns(tables)
    ensures TablesText(tables) == Unlines(AllTableLines(tables))
    decreases |tables|
  {
    if |tables| > 0 {
      var t := tables[0];
      TablesTextIsLines(tables[1..]);
      CreateTextIsLines(t);
      DataTextIsLines(t);
      UnlinesAppend(CreateLines(t) + DataLines(t), AllTableLines(tables[1..]));
      UnlinesAppend(CreateLines(t), DataLines(t));
    }
  }

  lemma {:induction false} ForeignKeysTextIsLines(fks: seq<ForeignKey>)
    ensures ForeignKeysText(fks) == Unlines(ForeignKeyLines(fks))
    decreases |fks|
  {
    if |fks| > 0 {
      ForeignKeysTextIsLines(fks[1..]);
      assert ForeignKeyLines(fks) == [ForeignKeyStatement(fks[0])] + ForeignKeyLines(fks[1..]);
      UnlinesCons(ForeignKeyStatement(fks[0]), ForeignKeyLines(fks[1..]));
    }
  }

  /** Two lines, each followed by its break. */
  lemma UnlinesPair(a: string, b: string)
    ensures Unlines([a, b]) == a + "\n" + b + "\n"
  {
    UnlinesCons(a, [b]);
    UnlinesCons(b, []);
    assert [a] + [b] == [a, b];
  }

  lemma DumpIsLines(tables: seq<Table>, fks: seq<ForeignKey>)
    requires HaveColumns(tables)
    ensures Dump(tables, fks) == Unlines(DumpLines(tables, fks))
  {
    var a := AllTableLines(tables);
    var f := ForeignKeyLines(fks);
    TablesTextIsLines(tables);
    ForeignKeysTextIsLines(fks);
    WrappedLines(Begin, Commit, a, f);
  }

  /** Lines between a first line and a last one, each set off by an empty
      line, are that text between the two. */
  lemma WrappedLines(first: string, last: string, a: seq<string>, f: seq<string>)
    ensures Unlines([first, ""] + a + f + ["", last])
            == first + "\n\n" + Unlines(a) + Unlines(f) + "\n" + last + "\n"
  {
    UnlinesAppend([first, ""] + a + f, ["", last]);
    UnlinesAppend([first, ""] + a, f);
    UnlinesAppend([first, ""], a);
    UnlinesPair(first, "");
    UnlinesPair("", last);
  }

  // ---------------------------------------------------------------------
  // No line holds a break
  // ---------------------------------------------------------------------

  /** A literal followed by a name without breaks has no break. */
  lemma PrefixedNoBreak(literal: string, name: string)
    requires NoBreak(literal) && NoBreak(name)
    ensures NoBreak(literal + name)
  {
    ConcatNoBreak(literal, name);
  }

  /** The comment lines of a table without breaks in its name have none. */
  lemma CommentsNoBreak(name: string)
    requires NoBreak(name)
    ensures NoBreak(StructureComment(name)) && NoBreak(DataComment(name))
  {
    CommentHeads();
    PrefixedNoBreak("-- Структура таблицы ", name);
    PrefixedNoBreak("-- Данные таблицы ", name);
  }

  lemma CommentHeads()
    ensures NoBreak("-- Структура таблицы ") && NoBreak("-- Данные таблицы ")
  {
    Printable("-- Структура таблицы ");
    Printable("-- Данные таблицы ");
  }

  lemma CreateLinesNoBreak(t: Table)
    requires CleanTable(t)
    ensures LinesNoBreak(CreateLines(t))
  {
    CarriedLinesTrim(t);
    CommentsNoBreak(t.name);
    var comment := StructureComment(t.name);
    ClosingNoBreak();
    NoBreakAppend([comment], CarriedLines(t, "  "));
    NoBreakAppend([comment] + CarriedLines(t, "  "), [");", ""]);
  }

  lemma ClosingNoBreak()
    ensures LinesNoBreak([");", ""])
  {
    Printable(");");
  }

  lemma DataLinesNoBreak(t: Table)
    requires CleanTable(t)
    ensures LinesNoBreak(DataLines(t))
  {
    CommentsNoBreak(t.name);
    InsertsAreStatementLines(t);
    var inserts := Inserts(t.name, t.resultColumns, t.rows);
    assert LinesNoBreak(inserts);
    var comment := DataComment(t.name);
    NoBreakAppend([comment], inserts);
    NoBreakAppend([comment] + inserts, [""]);
  }

  lemma TableLinesNoBreak(t: Table)
    requires CleanTable(t)
    ensures LinesNoBreak(CreateLines(t) + DataLines(t))
  {
    CreateLinesNoBreak(t);
    DataLinesNoBreak(t);
    NoBreakAppend(CreateLines(t), DataLines(t));
  }

  lemma {:induction false} AllTableLinesNoBreak(tables: seq<Table>)
    requires AllClean(tables)
    ensures HaveColumns(tables) && LinesNoBreak(AllTableLines(tables))
    decreases |tables|
  {
    if |tables| > 0 {
      assert CleanTable(tables[0]);
      AllTableLinesNoBreak(tables[1..]);
      TableLinesNoBreak(tables[0]);
      NoBreakAppend(CreateLines(tables[0]) + DataLines(tables[0]), AllTableLines(tables[1..]));
    }
  }

  /** A foreign-key statement of clean names is a statement line of its
      own: its five names lie between six literal pieces, each without a
      break, the first starting with a letter and the last ending in ';'. */
  lemma ForeignKeyIsStatementLine(fk: ForeignKey)
    requires CleanKey(fk)
    ensures StatementLine(ForeignKeyStatement(fk))
  {
    PiecesNoBreak();
    Interleaved("ALTER TABLE ", fk.table, " ADD CONSTRAINT ", fk.name, " FOREIGN KEY (", fk.column,
                ") REFERENCES ", fk.refTable, "(", fk.refColumn, ");");
  }

  /** The six literal pieces of a foreign-key statement have no break. */
  lemma PiecesNoBreak()
    ensures NoBreak("ALTER TABLE ") && NoBreak(" ADD CONSTRAINT ") && NoBreak(" FOREIGN KEY (")
    ensures NoBreak(") REFERENCES ") && NoBreak("(") && NoBreak(");")
  {
    Printable("ALTER TABLE ");
    Printable(" ADD CONSTRAINT ");
    Printable(" FOREIGN KEY (");
    Printable(") REFERENCES ");
    Printable("(");
    Printable(");");
  }

  /** Text made of characters from the space upwards has no break. */
  lemma Printable(s: string)
    requires forall k :: 0 <= k < |s| ==> ' ' <= s[k]
    ensures NoBreak(s)
  {
    assert forall c :: c in s ==> ' ' <= c;
  }

  /** Pieces without breaks, the first starting with a letter and the last
      ending in ';', join into a statement line. */
  lemma Interleaved(p1: string, a: string, p2: string, b: string, p3: string, c: string,
                    p4: string, d: string, p5: string, e: string, p6: string)
    requires NoBreak(p1) && NoBreak(p2) && NoBreak(p3) && NoBreak(p4) && NoBreak(p5) && NoBreak(p6)
    requires NoBreak(a) && NoBreak(b) && NoBreak(c) && NoBreak(d) && NoBreak(e)
    requires |p1| > 0 && 'A' <= p1[0] <= 'Z' && |p6| > 0 && p6[|p6| - 1] == ';'
    ensures StatementLine(p1 + a + p2 + b + p3 + c + p4 + d + p5 + e + p6)
  {
    var x := p1 + a + p2 + b + p3 + c + p4 + d + p5 + e + p6;
    ConcatNoBreak(p1, a);
    ConcatNoBreak(p1 + a, p2);
    ConcatNoBreak(p1 + a + p2, b);
    ConcatNoBreak(p1 + a + p2 + b, p3);
    ConcatNoBreak(p1 + a + p2 + b + p3, c);
    ConcatNoBreak(p1 + a + p2 + b + p3 + c, p4);
    ConcatNoBreak(p1 + a + p2 + b + p3 + c + p4, d);
    ConcatNoBreak(p1 + a + p2 + b + p3 + c + p4 + d, p5);
    ConcatNoBreak(p1 + a + p2 + b + p3 + c + p4 + d + p5, e);
    ConcatNoBreak(p1 + a + p2 + b + p3 + c + p4 + d + p5 + e, p6);
    assert x[0] == p1[0];
    assert x[|x| - 1] == p6[|p6| - 1];
    assert x[0] != '-';
  }

  lemma ForeignKeyLinesAreStatements(fks: seq<ForeignKey>)
    requires AllCleanKeys(fks)
    ensures forall k :: 0 <= k < |fks| ==> StatementLine(ForeignKeyLines(fks)[k])
  {
    forall k | 0 <= k < |fks| ensures StatementLine(ForeignKeyLines(fks)[k]) {
      ForeignKeyIsStatementLine(fks[k]);
    }
  }

  // ---------------------------------------------------------------------
  // Splitting the file
  // ---------------------------------------------------------------------

  /** The tables' part splits into the tables' statements with nothing left
      over. */
  lemma {:induction false} SplitTables(tables: seq<Table>)
    requires AllClean(tables)
    ensures HaveColumns(tables)
    ensures Split(AllTableLines(tables), "") == (AllTableStatements(tables), "")
    decreases |tables|
  {
    AllTableLinesNoBreak(tables);
    if |tables| > 0 {
      assert CleanTable(tables[0]);
      SplitTables(tables[1..]);
      SplitTableStep(tables[0], AllTableLines(tables[1..]), AllTableStatements(tables[1..]));
    }
  }

  /** One clean table in front of lines that split cleanly adds its own
      statements in front. */
  lemma SplitTableStep(t: Table, rest: seq<string>, statements: seq<string>)
    requires CleanTable(t)
    requires Split(rest, "") == (statements, "")
    ensures Split(CreateLines(t) + DataLines(t) + rest, "") == (TableStatements(t) + statements, "")
  {
    SplitCreate(t);
    SplitData(t);
    SplitThree(CreateLines(t), DataLines(t), rest, [CreateStatement(t)],
               Inserts(t.name, t.resultColumns, t.rows), statements);
  }

  /** Three blocks that each split cleanly split cleanly together. */
  lemma SplitThree(a: seq<string>, b: seq<string>, c: seq<string>,
                   x: seq<string>, y: seq<string>, z: seq<string>)
    requires Split(a, "") == (x, "") && Split(b, "") == (y, "") && Split(c, "") == (z, "")
    ensures Split(a + b + c, "") == (x + y + z, "")
  {
    SplitTwo(a, b, x, y);
    SplitTwo(a + b, c, x + y, z);
  }

  /** Two blocks that each split cleanly split cleanly together. */
  lemma SplitTwo(a: seq<string>, b: seq<string>, x: seq<string>, y: seq<string>)
    requires Split(a, "") == (x, "") && Split(b, "") == (y, "")
    ensures Split(a + b, "") == (x + y, "")
  {
    SplitAppend(a, b, "");
  }

  /** The two wrapper lines with their empty neighbours are emitted as
      statements of their own. */
  lemma SplitWrapper()
    ensures Split([Begin, ""], "") == ([Begin], "")
    ensures Split(["", Commit], "") == ([Commit], "")
  {
    assert StatementLine(Begin) && StatementLine(Commit);
    assert Split([""], "") == ([], "");
    SplitOneStatement(Begin, [""]);
    assert [Begin] + [""] == [Begin, ""];
    assert [Begin] + Split([""], "").0 == [Begin];
    SplitOneStatement(Commit, []);
    assert [Commit] + [] == [Commit];
    assert Split(["", Commit], "") == Split([Commit], "");
  }

  lemma SplitDump(tables: seq<Table>, fks: seq<ForeignKey>)
    requires AllClean(tables) && AllCleanKeys(fks)
    ensures HaveColumns(tables)
    ensures Split(DumpLines(tables, fks), "").0
            == [Begin] + AllTableStatements(tables) + ForeignKeyLines(fks) + [Commit]
  {
    SplitTables(tables);
    var a, f := AllTableLines(tables), ForeignKeyLines(fks);
    ForeignKeyLinesAreStatements(fks);
    SplitStatementLines(f);
    SplitWrapper();
    SplitAppend([Begin, ""] + a + f, ["", Commit], "");
    SplitAppend([Begin, ""] + a, f, "");
    SplitAppend([Begin, ""], a, "");
  }

  // ---------------------------------------------------------------------
  // What is executed
  // ---------------------------------------------------------------------

  /** A statement longer than "COMMIT;" is never mistaken for the wrapper. */
  lemma LongNotSkipped(s: string)
    requires |s| > 7
    ensures !Skipped(s)
  {
  }

  lemma {:induction false} LongExecuted(statements: seq<string>)
    requires AllLong(statements)
    ensures Executed(statements) == statements
    decreases |statements|
  {
    if |statements| > 0 {
      LongNotSkipped(statements[0]);
      LongExecuted(statements[1..]);
    }
  }

  lemma {:induction false} UnlinesLonger(lines: seq<string>)
    requires |lines| > 0
    ensures |Unlines(lines)| > |lines[0]|
  {
    UnlinesCons(lines[0], lines[1..]);
    assert [lines[0]] + lines[1..] == lines;
  }

  /** Longer than "COMMIT;", so never taken for the wrapper. */
  predicate AllLong(statements: seq<string>)
  {
    forall k :: 0 <= k < |statements| ==> |statements[k]| > 7
  }

  lemma LongAppend(a: seq<string>, b: seq<string>)
    requires AllLong(a) && AllLong(b)
    ensures AllLong(a + b)
  {
    assert forall k :: |a| <= k < |a| + |b| ==> (a + b)[k] == b[k - |a|];
  }

  lemma TableLong(t: Table)
    requires |t.columns| > 0
    ensures AllLong(TableStatements(t))
  {
    UnlinesLonger(CarriedLines(t, ""));
    OpenLong(t.name);
    InsertsLong(t);
    LongAppend([CreateStatement(t)], Inserts(t.name, t.resultColumns, t.rows));
  }

  lemma OpenLong(name: string)
    ensures |OpenLine(name)| > 7
  {
  }

  lemma InsertsLong(t: Table)
    ensures AllLong(Inserts(t.name, t.resultColumns, t.rows))
  {
  }

  lemma {:induction false} TableStatementsLong(tables: seq<Table>)
    requires HaveColumns(tables)
    ensures AllLong(AllTableStatements(tables))
    decreases |tables|
  {
    if |tables| > 0 {
      TableStatementsLong(tables[1..]);
      TableLong(tables[0]);
      LongAppend(TableStatements(tables[0]), AllTableStatements(tables[1..]));
    }
  }

  lemma DumpLinesNoBreak(tables: seq<Table>, fks: seq<ForeignKey>)
    requires AllClean(tables) && AllCleanKeys(fks)
    ensures HaveColumns(tables) && LinesNoBreak(DumpLines(tables, fks))
  {
    AllTableLinesNoBreak(tables);
    var a, f := AllTableLines(tables), ForeignKeyLines(fks);
    ForeignKeyLinesAreStatements(fks);
    assert LinesNoBreak(f);
    WrapperNoBreak();
    NoBreakAppend([Begin, ""], a);
    NoBreakAppend([Begin, ""] + a, f);
    NoBreakAppend([Begin, ""] + a + f, ["", Commit]);
  }

  lemma WrapperNoBreak()
    ensures LinesNoBreak([Begin, ""]) && LinesNoBreak(["", Commit])
  {
  }

  /** Of the statements read from a dump, all but the wrapper are executed. */
  lemma ExecutedDump(tables: seq<Table>, fks: seq<ForeignKey>)
    requires HaveColumns(tables)
    ensures Executed([Begin] + AllTableStatements(tables) + ForeignKeyLines(fks) + [Commit])
            == AllTableStatements(tables) + ForeignKeyLines(fks)
  {
    var a, f := AllTableStatements(tables), ForeignKeyLines(fks);
    TableStatementsLong(tables);
    ForeignKeysLong(fks);
    LongAppend(a, f);
    assert [Begin] + a + f + [Commit] == [Begin] + (a + f) + [Commit];
    ExecutedWrapped(a + f);
  }

  /** Long statements between the wrapper's two are all executed, and only
      they. */
  lemma ExecutedWrapped(body: seq<string>)
    requires AllLong(body)
    ensures Executed([Begin] + body + [Commit]) == body
  {
    LongExecuted(body);
    ExecutedAppend([Begin] + body, [Commit]);
    ExecutedAppend([Begin], body);
    WrapperSkipped();
    assert [] + body + [] == body;
  }

  lemma WrapperSkipped()
    ensures Executed([Begin]) == [] && Executed([Commit]) == []
  {
    assert Skipped(Begin) && Skipped(Commit);
  }

  lemma ForeignKeysLong(fks: seq<ForeignKey>)
    ensures AllLong(ForeignKeyLines(fks))
  {
    forall k | 0 <= k < |fks| ensures |ForeignKeyLines(fks)[k]| > 7 {
      AlterLong(fks[k]);
    }
  }

  lemma AlterLong(fk: ForeignKey)
    ensures |ForeignKeyStatement(fk)| > 7
  {
  }

  /** The restore of a whole dump executes every table's `CREATE TABLE` and
      `INSERT` statements, table after table, then the foreign keys, and
      nothing else: the `BEGIN;` and `COMMIT;` the writer wraps them in are
      read as statements and dropped. */
  lemma DumpRoundTrip(tables: seq<Table>, fks: seq<ForeignKey>)
    requires AllClean(tables) && AllCleanKeys(fks)
    ensures HaveColumns(tables)
    ensures RestoredStatements(Dump(tables, fks)) == AllTableStatements(tables) + ForeignKeyLines(fks)
  {
    DumpLinesNoBreak(tables, fks);
    var lines := DumpLines(tables, fks);
    DumpIsLines(tables, fks);
    ReadUnlines(lines);
    SplitDump(tables, fks);
    ExecutedDump(tables, fks);
  }

  /** Text after the last ';' is collected but never executed: lines that
      are only carried add no statement. */
  lemma TailNeverExecuted(lines: seq<string>, tail: seq<string>)
    requires forall k :: 0 <= k < |tail| ==> Carried(JavaTrim(tail[k]))
    ensures Split(lines + tail, "").0 == Split(lines, "").0
  {
    SplitAppend(lines, tail, "");
    SplitCarries(tail, Split(lines, "").1);
  }
}
