/** The DELETE statement node: its guarded constructor, its structure-sharing child visit and its debug printer. */
module DeleteExpressions {
  import opened Wrappers
  import opened SqlTree
  import opened Text

  predicate NoNulls<T>(s: seq<Option<T>>)
  {
    forall i | 0 <= i < |s| :: s[i].Some?
  }

  /** The constructor: the main table must not be null, the joined-table list must be non-null and hold no null,
      and the node keeps its own copy of that list. */
  function NewDeleteExpression(table: Option<TableExpr>, wherePredicate: Option<SqlExpr>,
                               joinedTables: Option<seq<Option<TableNode>>>): (r: Result<DeleteExpr, Exception>)
    ensures table.None? ==> r == Err(ArgumentNull("table"))
    ensures table.Some? && joinedTables.None? ==> r == Err(ArgumentNull("joinedTables"))
    ensures table.Some? && joinedTables.Some? && !NoNulls(joinedTables.value) ==> r == Err(Argument("joinedTables"))
    ensures r.Ok? <==> table.Some? && joinedTables.Some? && NoNulls(joinedTables.value)
    ensures r.Ok? ==> r.value.table == table.value && r.value.wherePredicate == wherePredicate
    ensures r.Ok? ==> |r.value.joinedTables| == |joinedTables.value|
    ensures r.Ok? ==> forall i | 0 <= i < |joinedTables.value| :: r.value.joinedTables[i] == joinedTables.value[i].value
  {
    if table.None? then Err(ArgumentNull("table"))
    else if joinedTables.None? then Err(ArgumentNull("joinedTables"))
    else if !NoNulls(joinedTables.value) then Err(Argument("joinedTables"))
    else
      var list := joinedTables.value;
      Ok(DeleteExpr(table.value, wherePredicate, seq(|list|, i requires 0 <= i < |list| && list[i].Some? => list[i].value)))
  }

  /** What a host expression visitor does to each kind of child of a DELETE node (VisitAndConvert). */
  datatype ChildVisitor = ChildVisitor(
    visitTable: TableExpr -> Visited<TableExpr>,
    visitPredicate: SqlExpr -> Visited<SqlExpr>,
    visitJoined: TableNode -> Visited<TableNode>)

  /** VisitChildren: visits the main table, the predicate and every joined table in order; returns the node itself
      when every child came back as the same reference, and otherwise a new node holding the visited children. */
  method VisitChildren(d: DeleteExpr, visitor: ChildVisitor) returns (r: Visited<DeleteExpr>)
    ensures r.Same? <==>
      && visitor.visitTable(d.table).Same?
      && VisitOptional(visitor.visitPredicate, d.wherePredicate).Same?
      && forall i | 0 <= i < |d.joinedTables| :: visitor.visitJoined(d.joinedTables[i]).Same?
    ensures r.New? ==> r.value.table == Resolve(d.table, visitor.visitTable(d.table))
    ensures r.New? ==> r.value.wherePredicate == Resolve(d.wherePredicate, VisitOptional(visitor.visitPredicate, d.wherePredicate))
    ensures r.New? ==> |r.value.joinedTables| == |d.joinedTables|
    ensures r.New? ==> forall i | 0 <= i < |d.joinedTables| ::
      r.value.joinedTables[i] == Resolve(d.joinedTables[i], visitor.visitJoined(d.joinedTables[i]))
  {
    var tv := visitor.visitTable(d.table);
    var table := Resolve(d.table, tv);
    var changed := tv.New?;

    var pv := VisitOptional(visitor.visitPredicate, d.wherePredicate);
    var wherePredicate := Resolve(d.wherePredicate, pv);
    changed := changed || pv.New?;

    var joinedTables := d.joinedTables;
    var i := 0;
    while i < |joinedTables|
      invariant |joinedTables| == |d.joinedTables| && 0 <= i <= |joinedTables|
      invariant forall k | 0 <= k < i :: joinedTables[k] == Resolve(d.joinedTables[k], visitor.visitJoined(d.joinedTables[k]))
      invariant forall k | i <= k < |joinedTables| :: joinedTables[k] == d.joinedTables[k]
      invariant changed <==> tv.New? || pv.New? || exists k | 0 <= k < i :: visitor.visitJoined(d.joinedTables[k]).New?
    {
      var jv := visitor.visitJoined(d.joinedTables[i]);
      joinedTables := joinedTables[i := Resolve(d.joinedTables[i], jv)];
      changed := changed || jv.New?;
      i := i + 1;
    }

    if !changed {
      return Same;
    }
    var built := NewDeleteExpression(Some(table), wherePredicate, Some(seq(|joinedTables|, k requires 0 <= k < |joinedTables| => Some(joinedTables[k]))));
    r := New(built.value);
  }

  /** The host's expression printer: a text buffer and the way it renders the nodes it is asked to visit. */
  class ExpressionPrinter {
    var text: string
    const printTable: TableNode -> string
    const printSql: SqlExpr -> string

    constructor (printTable: TableNode -> string, printSql: SqlExpr -> string)
      ensures text == "" && this.printTable == printTable && this.printSql == printSql
    {
      text := "";
      this.printTable := printTable;
      this.printSql := printSql;
    }

    method Append(s: string)
      modifies this
      ensures text == old(text) + s
    {
      text := text + s;
    }

    method AppendLine()
      modifies this
      ensures text == old(text) + "\n"
    {
      text := text + "\n";
    }

    method VisitTable(t: TableNode)
      modifies this
      ensures text == old(text) + printTable(t)
    {
      text := text + printTable(t);
    }

    method VisitSql(e: SqlExpr)
      modifies this
      ensures text == old(text) + printSql(e)
    {
      text := text + printSql(e);
    }
  }

  /** The joined tables as the printing loop emits them: a line break follows table i only when i > 0. */
  function JoinedText(js: seq<TableNode>, printTable: TableNode -> string): string
  {
    if |js| == 0 then ""
    else JoinedText(js[..|js| - 1], printTable) + printTable(js[|js| - 1]) + (if |js| - 1 > 0 then "\n" else "")
  }

  function FromSection(js: seq<TableNode>, printTable: TableNode -> string): string
  {
    if |js| == 0 then "" else "\nFROM " + JoinedText(js, printTable)
  }

  function WhereSection(wherePredicate: Option<SqlExpr>, printSql: SqlExpr -> string): string
  {
    if wherePredicate.None? then "" else "\nWHERE " + printSql(wherePredicate.value)
  }

  /** The text Prints appends for a DELETE node. */
  function DeleteText(d: DeleteExpr, printTable: TableNode -> string, printSql: SqlExpr -> string): string
  {
    "DELETE " + printTable(Table(d.table)) + FromSection(d.joinedTables, printTable) + WhereSection(d.wherePredicate, printSql)
  }

  /** The loop of Prints over the joined tables. */
  method PrintJoinedTables(js: seq<TableNode>, printer: ExpressionPrinter)
    modifies printer
    ensures printer.text == old(printer.text) + JoinedText(js, printer.printTable)
  {
    var i := 0;
    while i < |js|
      invariant 0 <= i <= |js|
      invariant printer.text == old(printer.text) + JoinedText(js[..i], printer.printTable)
    {
      ghost var before := printer.text;
      printer.VisitTable(js[i]);
      if i > 0 {
        printer.AppendLine();
      }
      assert js[..i + 1][..i] == js[..i];
      i := i + 1;
    }
    assert js[..i] == js;
  }

  /** The FROM part of Prints: printed only when there are joined tables. */
  method PrintFrom(js: seq<TableNode>, printer: ExpressionPrinter)
    modifies printer
    ensures printer.text == old(printer.text) + FromSection(js, printer.printTable)
  {
    if |js| > 0 {
      ghost var t0 := printer.text;
      printer.AppendLine();
      printer.Append("FROM ");
      assert printer.text == t0 + "\nFROM " by {
        assert t0 + "\n" + "FROM " == t0 + ("\n" + "FROM ");
        assert "\n" + "FROM " == "\nFROM ";
      }
      ghost var t1 := printer.text;
      PrintJoinedTables(js, printer);
      assert t1 + JoinedText(js, printer.printTable) == t0 + ("\nFROM " + JoinedText(js, printer.printTable));
    }
  }

  /** The WHERE part of Prints. */
  method PrintWhere(wherePredicate: Option<SqlExpr>, printer: ExpressionPrinter)
    modifies printer
    ensures printer.text == old(printer.text) + WhereSection(wherePredicate, printer.printSql)
  {
    if wherePredicate.Some? {
      printer.AppendLine();
      printer.Append("WHERE ");
      printer.VisitSql(wherePredicate.value);
      assert "\n" + "WHERE " == "\nWHERE ";
    }
  }

  /** Prints: appends the DELETE text to the printer's buffer step by step. */
  method Prints(d: DeleteExpr, printer: ExpressionPrinter)
    modifies printer
    ensures printer.text == old(printer.text) + DeleteText(d, printer.printTable, printer.printSql)
  {
    printer.Append("DELETE ");
    printer.VisitTable(Table(d.table));
    PrintFrom(d.joinedTables, printer);
    PrintWhere(d.wherePredicate, printer);
  }

  /** The text always begins with DELETE and the main table, and what follows begins with a FROM line exactly when
      there are joined tables. */
  lemma DeleteTextShape(d: DeleteExpr, printTable: TableNode -> string, printSql: SqlExpr -> string)
    ensures StartsWith(DeleteText(d, printTable, printSql), "DELETE " + printTable(Table(d.table)))
    ensures var head := "DELETE " + printTable(Table(d.table));
            StartsWith(DeleteText(d, printTable, printSql)[|head|..], "\nFROM ") <==> |d.joinedTables| > 0
  {
    var head := "DELETE " + printTable(Table(d.table));
    var text := DeleteText(d, printTable, printSql);
    var rest := FromSection(d.joinedTables, printTable) + WhereSection(d.wherePredicate, printSql);
    assert text == head + rest;
    assert text[..|head|] == head;
    assert text[|head|..] == rest;
    if |d.joinedTables| == 0 && d.wherePredicate.Some? {
      assert rest[1] == 'W';
    }
  }

  lemma {:induction false} JoinedTextLineBreaks(js: seq<TableNode>, printTable: TableNode -> string)
    requires |js| > 0
    requires forall i | 0 <= i < |js| :: '\n' !in printTable(js[i])
    ensures CountNewlines(JoinedText(js, printTable)) == |js| - 1
  {
    var n := |js|;
    var front := js[..n - 1];
    var sep := if n - 1 > 0 then "\n" else "";
    CountNewlinesFree(printTable(js[n - 1]));
    CountNewlinesAppend(JoinedText(front, printTable) + printTable(js[n - 1]), sep);
    CountNewlinesAppend(JoinedText(front, printTable), printTable(js[n - 1]));
    if n > 1 {
      assert CountNewlines("\n") == 1 by {
        assert "\n"[..0] == "";
      }
      JoinedTextLineBreaks(front, printTable);
    }
  }

  /** When no rendered part contains a line break, the text has one line break per joined table (the FROM line and
      one after each table but the first) and one more exactly when there is a WHERE predicate. */
  lemma DeleteTextLineBreaks(d: DeleteExpr, printTable: TableNode -> string, printSql: SqlExpr -> string)
    requires '\n' !in printTable(Table(d.table))
    requires forall i | 0 <= i < |d.joinedTables| :: '\n' !in printTable(d.joinedTables[i])
    requires d.wherePredicate.Some? ==> '\n' !in printSql(d.wherePredicate.value)
    ensures CountNewlines(DeleteText(d, printTable, printSql)) == |d.joinedTables| + (if d.wherePredicate.Some? then 1 else 0)
  {
    var head := "DELETE " + printTable(Table(d.table));
    var from := FromSection(d.joinedTables, printTable);
    var where := WhereSection(d.wherePredicate, printSql);
    assert '\n' !in "DELETE ";
    CountNewlinesFree("DELETE ");
    CountNewlinesFree(printTable(Table(d.table)));
    CountNewlinesAppend("DELETE ", printTable(Table(d.table)));
    CountNewlinesAppend(head, from);
    CountNewlinesAppend(head + from, where);
    FromSectionLineBreaks(d.joinedTables, printTable);
    WhereSectionLineBreaks(d.wherePredicate, printSql);
  }

  lemma FromSectionLineBreaks(js: seq<TableNode>, printTable: TableNode -> string)
    requires forall i | 0 <= i < |js| :: '\n' !in printTable(js[i])
    ensures CountNewlines(FromSection(js, printTable)) == |js|
  {
    if |js| > 0 {
      JoinedTextLineBreaks(js, printTable);
      assert '\n' !in "FROM ";
      BreakThenLine("FROM ");
      assert "\nFROM " == "\n" + "FROM ";
      CountNewlinesAppend("\nFROM ", JoinedText(js, printTable));
    }
  }

  lemma WhereSectionLineBreaks(wherePredicate: Option<SqlExpr>, printSql: SqlExpr -> string)
    requires wherePredicate.Some? ==> '\n' !in printSql(wherePredicate.value)
    ensures CountNewlines(WhereSection(wherePredicate, printSql)) == if wherePredicate.Some? then 1 else 0
  {
    if wherePredicate.Some? {
      assert '\n' !in "WHERE ";
      BreakThenLine("WHERE ");
      assert "\nWHERE " == "\n" + "WHERE ";
      CountNewlinesFree(printSql(wherePredicate.value));
      CountNewlinesAppend("\nWHERE ", printSql(wherePredicate.value));
    }
  }

  /** A line break followed by a keyword without one counts once. */
  lemma BreakThenLine(word: string)
    requires '\n' !in word
    ensures CountNewlines("\n" + word) == 1
  {
    CountNewlinesFree(word);
    CountNewlinesAppend("\n", word);
    assert "\n"[..0] == "";
  }

  /** As written, the first two joined tables are printed with nothing between them. */
  lemma FirstTwoJoinedTablesAdjacent(a: TableNode, b: TableNode, printTable: TableNode -> string)
    ensures FromSection([a, b], printTable) == "\nFROM " + printTable(a) + printTable(b) + "\n"
  {
    assert [a, b][..1] == [a];
    assert [a][..0] == [];
    assert JoinedText([a], printTable) == printTable(a);
    assert JoinedText([a, b], printTable) == printTable(a) + printTable(b) + "\n";
  }
}
