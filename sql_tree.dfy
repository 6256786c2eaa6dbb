/** The SQL statement tree the merge and delete compilers build and the nullability pass rewrites.
    Expression kinds that belong to the host query layer are opaque tags. */
module SqlTree {
  import opened Wrappers

  /** Literal values carried by SQL constants and by in-memory source cells. */
  datatype Value = BoolValue(b: bool) | IntValue(i: int) | StringValue(s: string) | NullValue

  /** Scalar SQL expressions. */
  datatype SqlExpr =
    | SqlConstant(value: Value, typeMapping: string)
    | SqlParameter(name: string, typeMapping: string)
    | AffectedRows                                        // the affected-row count of a statement, never null
    | ExcludedTableColumn(column: string, isNullable: bool) // a column of the proposed row in an upsert
    | OtherSql(tag: nat)                                  // any kind handled by the host

  /** A plain table reference. */
  datatype TableExpr = TableExpr(name: string, schema: string, alias: string)

  /** One output column: an expression and its alias. */
  datatype Projection = Projection(expression: SqlExpr, alias: string)

  /** A query handled by the host: `tag` stands for its projections, predicates and orderings, and `tables` are the
      table sources of its FROM clause, which the host visits one by one through the virtual table visit. */
  datatype SelectExpr = SelectExpr(tag: nat, tables: seq<TableNode>)

  /** Table sources, including the statement kinds added by the core. */
  datatype TableNode =
    | Table(table: TableExpr)
    | Values(rows: seq<seq<SqlExpr>>, columnNames: seq<string>, alias: string)
    | Delete(delete: DeleteExpr)
    | Update(update: UpdateExpr)
    | SelectInto(tableName: string, schema: string, expression: SelectExpr)
    | Upsert(upsert: UpsertExpr)
    | OtherTable(tag: nat, tables: seq<TableNode>)  // a source handled by the host (a join, a subquery, a set
                                                    // operation, FROM SQL) with the sources nested directly in it

  /** DELETE main-table FROM joined-tables WHERE predicate. */
  datatype DeleteExpr = DeleteExpr(table: TableExpr, wherePredicate: Option<SqlExpr>, joinedTables: seq<TableNode>)

  datatype UpdateExpr = UpdateExpr(
    expanded: bool,
    expandedTable: Option<TableExpr>,
    wherePredicate: Option<SqlExpr>,
    fields: Option<seq<Projection>>,
    tables: seq<TableNode>)

  datatype UpsertExpr = UpsertExpr(
    targetTable: TableExpr,
    sourceTable: TableNode,
    columns: Option<seq<Projection>>,
    onConflictUpdate: Option<seq<Projection>>,
    conflictConstraintName: Option<string>)

  /** What a visitor hands back for a node: the very same reference, or a different object with the given content.
      Reference comparison `x != node` in the original is `New?` here. */
  datatype Visited<+T> = Same | New(value: T)

  /** The node a visit leaves in place of `original`. */
  function Resolve<T>(original: T, v: Visited<T>): (r: T)
    ensures v.Same? ==> r == original
    ensures v.New? ==> r == v.value
  {
    if v.Same? then original else v.value
  }

  /** Visiting a nullable child: null comes back as null. */
  function VisitOptional<T>(visit: T -> Visited<T>, o: Option<T>): (r: Visited<Option<T>>)
    ensures o.None? ==> r.Same?
    ensures o.Some? ==> (r.Same? <==> visit(o.value).Same?)
    ensures r.New? ==> o.Some? && r.value == Some(visit(o.value).value)
  {
    if o.None? then Same
    else
      var v := visit(o.value);
      if v.Same? then Same else New(Some(v.value))
  }
}
