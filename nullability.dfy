/** The nullability and cache-safety pass over the statement kinds the core adds (XysSqlNullabilityProcessor),
    and the order of the parameter-based optimisation (XysParameterBasedSqlProcessor.Optimize).
    The host's SqlNullabilityProcessor is a parameter: a record of the results of its own visits. */
module Nullability {
  import opened Wrappers
  import opened SqlTree
  import opened DeleteExpressions

  /** The base SqlNullabilityProcessor as this pass sees it. Every visit function gives the base's result for one
      kind of node; nullability results the pass discards are not recorded.
      - A host table source or a SELECT has nested table sources. The base visits them through the virtual table
        visit, that is, through this pass. It is handed the outcome of those visits and builds its result from it.
      - Each `...KeepsCache` field says whether the base's own work on a node leaves caching allowed. The base calls
        DoNotCache itself for some nodes, for instance an IN over a parameter list.
      - A plain table reference is a leaf that the base hands back without touching the flag. */
  datatype BaseProcessor = BaseProcessor(
    visitSql: SqlExpr -> Visited<SqlExpr>,
    sqlKeepsCache: SqlExpr -> bool,
    visitCustomSql: SqlExpr -> (Visited<SqlExpr>, bool),
    visitTableExpr: TableExpr -> Visited<TableExpr>,
    visitOtherTable: (nat, seq<TableNode>, Visited<seq<TableNode>>) -> Visited<TableNode>,
    otherTableKeepsCache: nat -> bool,
    visitSelect: (SelectExpr, Visited<seq<TableNode>>) -> Visited<SelectExpr>,
    selectKeepsCache: nat -> bool)

  /** TryGetBoolConstantValue: the literal of a boolean constant, nothing for any other expression or for null. */
  function TryGetBoolConstantValue(e: Option<SqlExpr>): (r: Option<bool>)
    ensures r.Some? <==> e.Some? && e.value.SqlConstant? && e.value.value.BoolValue?
    ensures r.Some? ==> r.value == e.value.value.b
  {
    match e
    case Some(SqlConstant(BoolValue(b), _)) => Some(b)
    case _ => None
  }

  /** VisitCustomSqlExpression: the two custom leaves come back unchanged with a fixed nullability; any other
      expression goes to the base processor. The pair is (result, nullable). The base routes here only the kinds it
      does not know itself. In this tree those are just the two leaves, so the fallback is reached only by a direct
      call. */
  function VisitCustomSqlExpression(base: BaseProcessor, e: SqlExpr): (r: (Visited<SqlExpr>, bool))
    ensures e.AffectedRows? ==> r == (Same, false)
    ensures e.ExcludedTableColumn? ==> r == (Same, e.isNullable)
    ensures !e.AffectedRows? && !e.ExcludedTableColumn? ==> r == base.visitCustomSql(e)
  {
    match e
    case AffectedRows => (Same, false)
    case ExcludedTableColumn(_, isNullable) => (Same, isNullable)
    case _ => base.visitCustomSql(e)
  }

  /** The processor's visit of a scalar expression: kinds the base does not know reach VisitCustomSqlExpression. */
  function SqlResult(base: BaseProcessor, e: SqlExpr): Visited<SqlExpr>
  {
    if e.AffectedRows? || e.ExcludedTableColumn? then VisitCustomSqlExpression(base, e).0 else base.visitSql(e)
  }

  function PredicateResult(base: BaseProcessor, p: Option<SqlExpr>): Visited<Option<SqlExpr>>
  {
    VisitOptional(e => SqlResult(base, e), p)
  }

  /** ProjectionExpression.Update: the same projection when the expression is the same reference. */
  function ProjectionResult(base: BaseProcessor, p: Projection): Visited<Projection>
  {
    var v := SqlResult(base, p.expression);
    if v.Same? then Same else New(Projection(v.value, p.alias))
  }

  /** What the projection-list visitor returns: null for null, the original list when no element changed, and
      otherwise a list of the same length holding the visited projections. */
  function ProjectionsResult(base: BaseProcessor, ps: Option<seq<Projection>>): (r: Visited<Option<seq<Projection>>>)
    ensures ps.None? ==> r.Same?
    ensures ps.Some? ==> (r.Same? <==> forall i | 0 <= i < |ps.value| :: ProjectionResult(base, ps.value[i]).Same?)
    ensures r.New? ==> ps.Some? && r.value.Some? && |r.value.value| == |ps.value|
    ensures r.New? ==> forall i | 0 <= i < |ps.value| ::
      r.value.value[i] == Resolve(ps.value[i], ProjectionResult(base, ps.value[i]))
    decreases if ps.None? then 0 else |ps.value|
  {
    if ps.None? || |ps.value| == 0 then Same
    else
      var s := ps.value;
      var n := |s|;
      var front := ProjectionsResult(base, Some(s[..n - 1]));
      var last := ProjectionResult(base, s[n - 1]);
      if front.Same? && last.Same? then
        assert forall i | 0 <= i < n - 1 :: s[..n - 1][i] == s[i];
        Same
      else
        var prefix := Resolve(Some(s[..n - 1]), front).value;
        assert forall i | 0 <= i < n - 1 :: s[..n - 1][i] == s[i];
        New(Some(prefix + [Resolve(s[n - 1], last)]))
  }

  /** Whether a table source holds a VALUES node among the table sources the visit descends into: the joined and
      updated tables, the upsert's source, and the sources nested in host sources and in SELECTs. */
  predicate ReachesValues(t: TableNode)
    decreases t, 1
  {
    match t
    case Values(_, _, _) => true
    case Delete(d) => AnyReachesValues(d.joinedTables)
    case Update(u) => AnyReachesValues(u.tables)
    case SelectInto(_, _, e) => AnyReachesValues(e.tables)
    case Upsert(u) => ReachesValues(u.sourceTable)
    case Table(_) => false
    case OtherTable(_, ts) => AnyReachesValues(ts)
  }

  predicate AnyReachesValues(ts: seq<TableNode>)
    decreases ts, 0
  {
    exists i | 0 <= i < |ts| :: ReachesValues(ts[i])
  }

  /** Visiting a scalar expression leaves caching allowed unless the base's visit of it calls DoNotCache; the custom
      leaves never do. */
  predicate SqlKeepsCache(base: BaseProcessor, e: SqlExpr)
  {
    e.AffectedRows? || e.ExcludedTableColumn? || base.sqlKeepsCache(e)
  }

  predicate PredicateKeepsCache(base: BaseProcessor, p: Option<SqlExpr>)
  {
    p.None? || SqlKeepsCache(base, p.value)
  }

  predicate ProjectionsKeepCache(base: BaseProcessor, ps: Option<seq<Projection>>)
  {
    ps.None? || forall i | 0 <= i < |ps.value| :: SqlKeepsCache(base, ps.value[i].expression)
  }

  /** Whether caching is still allowed after the pass visits t. No VALUES node may be reached, and no visit of the
      base on the way may call DoNotCache. */
  predicate TableKeepsCache(base: BaseProcessor, t: TableNode)
    decreases t, 2
  {
    match t
    case Values(_, _, _) => false
    case Delete(d) => TablesKeepCache(base, d.joinedTables) && PredicateKeepsCache(base, d.wherePredicate)
    case Update(u) =>
      PredicateKeepsCache(base, u.wherePredicate) && ProjectionsKeepCache(base, u.fields) && TablesKeepCache(base, u.tables)
    case SelectInto(_, _, e) => SelectKeepsCache(base, e)
    case Upsert(u) =>
      TableKeepsCache(base, u.sourceTable) && ProjectionsKeepCache(base, u.onConflictUpdate)
      && ProjectionsKeepCache(base, u.columns)
    case Table(_) => true
    case OtherTable(tag, ts) => TablesKeepCache(base, ts) && base.otherTableKeepsCache(tag)
  }

  predicate TablesKeepCache(base: BaseProcessor, ts: seq<TableNode>)
    decreases ts, 0
  {
    forall i | 0 <= i < |ts| :: TableKeepsCache(base, ts[i])
  }

  predicate SelectKeepsCache(base: BaseProcessor, e: SelectExpr)
    decreases e, 1
  {
    TablesKeepCache(base, e.tables) && base.selectKeepsCache(e.tag)
  }

  /** A base processor that never calls DoNotCache itself. */
  ghost predicate QuietBase(base: BaseProcessor)
  {
    && (forall e :: base.sqlKeepsCache(e))
    && (forall tag :: base.otherTableKeepsCache(tag))
    && (forall tag :: base.selectKeepsCache(tag))
  }

  /** Reaching a VALUES node rules caching out, whatever the base does. With a base that never calls DoNotCache
      itself, caching stays allowed exactly when no VALUES node is reached. */
  lemma {:induction false} CacheDecision(base: BaseProcessor, t: TableNode)
    ensures ReachesValues(t) ==> !TableKeepsCache(base, t)
    ensures QuietBase(base) ==> (TableKeepsCache(base, t) <==> !ReachesValues(t))
    decreases t, 1
  {
    match t
    case Values(_, _, _) =>
    case Delete(d) => CacheDecisionTables(base, d.joinedTables);
    case Update(u) => CacheDecisionTables(base, u.tables);
    case SelectInto(_, _, e) => CacheDecisionSelect(base, e);
    case Upsert(u) => CacheDecision(base, u.sourceTable);
    case Table(_) =>
    case OtherTable(_, ts) => CacheDecisionTables(base, ts);
  }

  lemma {:induction false} CacheDecisionTables(base: BaseProcessor, ts: seq<TableNode>)
    ensures AnyReachesValues(ts) ==> !TablesKeepCache(base, ts)
    ensures QuietBase(base) ==> (TablesKeepCache(base, ts) <==> !AnyReachesValues(ts))
    decreases ts, 0
  {
    forall i | 0 <= i < |ts|
      ensures ReachesValues(ts[i]) ==> !TableKeepsCache(base, ts[i])
      ensures QuietBase(base) ==> (TableKeepsCache(base, ts[i]) <==> !ReachesValues(ts[i]))
    {
      CacheDecision(base, ts[i]);
    }
  }

  /** The same for a SELECT, whose cache decision also includes the base's own work on the query. */
  lemma {:induction false} CacheDecisionSelect(base: BaseProcessor, e: SelectExpr)
    ensures AnyReachesValues(e.tables) ==> !SelectKeepsCache(base, e)
    ensures QuietBase(base) ==> (SelectKeepsCache(base, e) <==> !AnyReachesValues(e.tables))
    decreases e, 0
  {
    CacheDecisionTables(base, e.tables);
  }

  /** What Visit(TableExpressionBase) returns: VALUES nodes unchanged, the core's statement kinds through their own
      visits, everything else through the base processor. */
  function TableResult(base: BaseProcessor, t: TableNode): Visited<TableNode>
    decreases t, 2
  {
    match t
    case Values(_, _, _) => Same
    case Delete(d) =>
      var v := DeleteResult(base, d);
      if v.Same? then Same else New(Delete(v.value))
    case Update(u) =>
      var v := UpdateResult(base, u);
      if v.Same? then Same else New(Update(v.value))
    case SelectInto(name, schema, e) => SelectIntoResult(base, name, schema, e)
    case Upsert(u) =>
      var v := UpsertResult(base, u);
      if v.Same? then Same else New(Upsert(v.value))
    case Table(te) =>
      var v := base.visitTableExpr(te);
      if v.Same? then Same else New(Table(v.value))
    case OtherTable(tag, ts) => base.visitOtherTable(tag, ts, TablesResult(base, ts))
  }

  /** What the table-list visitor returns: the original list when no element changed, and otherwise a list of the
      same length and order holding the visited tables. */
  function TablesResult(base: BaseProcessor, ts: seq<TableNode>): (r: Visited<seq<TableNode>>)
    ensures r.Same? <==> forall i | 0 <= i < |ts| :: TableResult(base, ts[i]).Same?
    ensures r.New? ==> |r.value| == |ts|
    ensures r.New? ==> forall i | 0 <= i < |ts| :: r.value[i] == Resolve(ts[i], TableResult(base, ts[i]))
    decreases ts, 0
  {
    if |ts| == 0 then Same
    else
      var n := |ts|;
      var front := TablesResult(base, ts[..n - 1]);
      var last := TableResult(base, ts[n - 1]);
      assert forall i | 0 <= i < n - 1 :: ts[..n - 1][i] == ts[i];
      if front.Same? && last.Same? then Same
      else New(Resolve(ts[..n - 1], front) + [Resolve(ts[n - 1], last)])
  }

  /** Visit(DeleteExpression), as written: the change flag starts as "the main table came back unchanged", and a
      predicate that folds to the constant true is dropped. */
  function DeleteResult(base: BaseProcessor, d: DeleteExpr): Visited<DeleteExpr>
    decreases d, 1
  {
    var mainTable := base.visitTableExpr(d.table);
    var joinedTables := TablesResult(base, d.joinedTables);
    var predicateVisit := PredicateResult(base, d.wherePredicate);
    var newPredicate := Resolve(d.wherePredicate, predicateVisit);
    var isTrue := TryGetBoolConstantValue(newPredicate) == Some(true);
    var changed := mainTable.Same? || joinedTables.New? || predicateVisit.New? || isTrue;
    if changed then
      New(DeleteExpr(Resolve(d.table, mainTable), if isTrue then None else newPredicate, Resolve(d.joinedTables, joinedTables)))
    else Same
  }

  /** Visit(UpdateExpression), as written: fields and tables count as changed when they come back as the same
      reference, and the tables are visited a second time for that comparison. */
  function UpdateResult(base: BaseProcessor, u: UpdateExpr): Visited<UpdateExpr>
    decreases u, 1
  {
    var expandedTable := VisitOptional(base.visitTableExpr, u.expandedTable);
    var predicateVisit := PredicateResult(base, u.wherePredicate);
    var fields := ProjectionsResult(base, u.fields);
    var tables := TablesResult(base, u.tables);
    var changed := expandedTable.New? || predicateVisit.New? || fields.Same? || tables.Same?;
    if changed then
      New(UpdateExpr(u.expanded, Resolve(u.expandedTable, expandedTable), Resolve(u.wherePredicate, predicateVisit),
                     Resolve(u.fields, fields), Resolve(u.tables, tables)))
    else Same
  }

  /** The base's Visit(SelectExpression): its FROM sources go through this pass's table visit. */
  function SelectResult(base: BaseProcessor, e: SelectExpr): Visited<SelectExpr>
    decreases e, 1
  {
    base.visitSelect(e, TablesResult(base, e.tables))
  }

  /** Visit(SelectIntoExpression): rebuilt when the base processor changed the inner query. */
  function SelectIntoResult(base: BaseProcessor, name: string, schema: string, e: SelectExpr): Visited<TableNode>
    decreases e, 2
  {
    var v := SelectResult(base, e);
    if v.New? then New(SelectInto(name, schema, v.value)) else Same
  }

  /** Visit(UpsertExpression): rebuilt when any of its four parts changed; the constraint name is carried over. */
  function UpsertResult(base: BaseProcessor, u: UpsertExpr): Visited<UpsertExpr>
    decreases u, 1
  {
    var target := base.visitTableExpr(u.targetTable);
    var source := TableResult(base, u.sourceTable);
    var onConflictUpdate := ProjectionsResult(base, u.onConflictUpdate);
    var columns := ProjectionsResult(base, u.columns);
    if target.New? || source.New? || onConflictUpdate.New? || columns.New? then
      New(UpsertExpr(Resolve(u.targetTable, target), Resolve(u.sourceTable, source), Resolve(u.columns, columns),
                     Resolve(u.onConflictUpdate, onConflictUpdate), u.conflictConstraintName))
    else Same
  }

  /** A base processor that changes nothing of its own: it hands every leaf back, and a host source or a SELECT
      comes back as itself when its nested sources did, and otherwise as a copy holding the visited sources. */
  ghost predicate IdentityBase(base: BaseProcessor)
  {
    && (forall e :: base.visitSql(e).Same?)
    && (forall e :: base.visitCustomSql(e).0.Same?)
    && (forall te :: base.visitTableExpr(te).Same?)
    && (forall tag, ts, v :: base.visitOtherTable(tag, ts, v) == if v.Same? then Same else New(OtherTable(tag, v.value)))
    && (forall q, v :: base.visitSelect(q, v) == if v.Same? then Same else New(SelectExpr(q.tag, v.value)))
  }

  /** No DELETE in the tree (as far as this pass descends) has a WHERE clause that is the literal true. */
  predicate KeepsPredicates(t: TableNode)
  {
    match t
    case Delete(d) =>
      TryGetBoolConstantValue(d.wherePredicate) != Some(true)
      && forall i | 0 <= i < |d.joinedTables| :: KeepsPredicates(d.joinedTables[i])
    case Update(u) => forall i | 0 <= i < |u.tables| :: KeepsPredicates(u.tables[i])
    case Upsert(u) => KeepsPredicates(u.sourceTable)
    case SelectInto(_, _, e) => forall i | 0 <= i < |e.tables| :: KeepsPredicates(e.tables[i])
    case OtherTable(_, ts) => forall i | 0 <= i < |ts| :: KeepsPredicates(ts[i])
    case _ => true
  }

  /** When the base processor changes nothing, the pass leaves every tree's content as it was, whatever fresh
      nodes the inverted change flags make it allocate. */
  lemma {:induction false} IdentityBaseKeepsContent(base: BaseProcessor, t: TableNode)
    requires IdentityBase(base) && KeepsPredicates(t)
    ensures Resolve(t, TableResult(base, t)) == t
    decreases t, 1
  {
    match t
    case Delete(d) =>
      IdentityBaseKeepsTables(base, d.joinedTables);
      assert PredicateResult(base, d.wherePredicate).Same?;
    case Update(u) =>
      IdentityBaseKeepsTables(base, u.tables);
      assert PredicateResult(base, u.wherePredicate).Same?;
      assert ProjectionsResult(base, u.fields).Same?;
    case Upsert(u) =>
      IdentityBaseKeepsContent(base, u.sourceTable);
      assert ProjectionsResult(base, u.columns).Same?;
      assert ProjectionsResult(base, u.onConflictUpdate).Same?;
    case SelectInto(name, schema, e) =>
      IdentityBaseKeepsTables(base, e.tables);
      var nested := TablesResult(base, e.tables);
      assert SelectResult(base, e) == base.visitSelect(e, nested);
      if nested.New? {
        assert SelectResult(base, e) == New(SelectExpr(e.tag, e.tables));
        assert TableResult(base, t) == New(SelectInto(name, schema, e));
      }
    case OtherTable(_, ts) =>
      IdentityBaseKeepsTables(base, ts);
    case _ =>
  }

  lemma {:induction false} IdentityBaseKeepsTables(base: BaseProcessor, ts: seq<TableNode>)
    requires IdentityBase(base) && forall i | 0 <= i < |ts| :: KeepsPredicates(ts[i])
    ensures Resolve(ts, TablesResult(base, ts)) == ts
    decreases ts, 0
  {
    forall i | 0 <= i < |ts|
      ensures Resolve(ts[i], TableResult(base, ts[i])) == ts[i]
    {
      IdentityBaseKeepsContent(base, ts[i]);
    }
    if TablesResult(base, ts).New? {
      assert TablesResult(base, ts).value == ts;
    }
  }

  /** Because the DELETE change flag starts out inverted, a DELETE whose main table comes back unchanged is always
      rebuilt, even when no part of it changed. */
  lemma DeleteRebuiltWhenMainTableUnchanged(base: BaseProcessor, d: DeleteExpr)
    requires base.visitTableExpr(d.table).Same?
    ensures TableResult(base, Delete(d)).New?
  {
  }

  /** The other face of the inverted flag: when only the main table was rewritten, the original node is returned
      and the rewritten main table is lost. */
  lemma DeleteDiscardsRewrittenMainTable(base: BaseProcessor, d: DeleteExpr)
    requires base.visitTableExpr(d.table).New? && base.visitTableExpr(d.table).value != d.table
    requires TablesResult(base, d.joinedTables).Same? && PredicateResult(base, d.wherePredicate).Same?
    requires TryGetBoolConstantValue(d.wherePredicate) != Some(true)
    ensures Resolve(Delete(d), TableResult(base, Delete(d))) == Delete(d)
    ensures Resolve(Delete(d), TableResult(base, Delete(d))).delete.table != Resolve(d.table, base.visitTableExpr(d.table))
  {
  }

  /** A WHERE clause that folds to the literal true is removed, and the rest of the node is the visited parts. */
  lemma DeleteDropsTruePredicate(base: BaseProcessor, d: DeleteExpr)
    requires TryGetBoolConstantValue(Resolve(d.wherePredicate, PredicateResult(base, d.wherePredicate))) == Some(true)
    ensures TableResult(base, Delete(d)).New?
    ensures TableResult(base, Delete(d)).value
         == Delete(DeleteExpr(Resolve(d.table, base.visitTableExpr(d.table)), None,
                              Resolve(d.joinedTables, TablesResult(base, d.joinedTables))))
  {
  }

  /** Because the UPDATE flags for fields and tables are inverted, an UPDATE whose only changes are in its fields
      and its tables is returned as it was, and those changes are lost. */
  lemma UpdateDiscardsRewrittenFieldsAndTables(base: BaseProcessor, u: UpdateExpr)
    requires VisitOptional(base.visitTableExpr, u.expandedTable).Same? && PredicateResult(base, u.wherePredicate).Same?
    requires ProjectionsResult(base, u.fields).New? && TablesResult(base, u.tables).New?
    ensures TableResult(base, Update(u)).Same?
  {
  }

  /** ..., while an UPDATE whose fields came back unchanged is always rebuilt, keeping its Expanded flag. */
  lemma UpdateRebuiltWhenFieldsUnchanged(base: BaseProcessor, u: UpdateExpr)
    requires ProjectionsResult(base, u.fields).Same?
    ensures TableResult(base, Update(u)).New?
    ensures TableResult(base, Update(u)).value.update.expanded == u.expanded
    ensures TableResult(base, Update(u)).value.update.fields == u.fields
  {
  }

  /** An UPSERT is rebuilt exactly when one of its four parts changed; the visited column list and ON CONFLICT list
      land in their own places and the constraint name is carried over. */
  lemma UpsertRebuiltIffPartChanged(base: BaseProcessor, u: UpsertExpr)
    ensures UpsertResult(base, u).New? <==>
      base.visitTableExpr(u.targetTable).New? || TableResult(base, u.sourceTable).New?
      || ProjectionsResult(base, u.onConflictUpdate).New? || ProjectionsResult(base, u.columns).New?
    ensures UpsertResult(base, u).New? ==>
      && UpsertResult(base, u).value.columns == Resolve(u.columns, ProjectionsResult(base, u.columns))
      && UpsertResult(base, u).value.onConflictUpdate == Resolve(u.onConflictUpdate, ProjectionsResult(base, u.onConflictUpdate))
      && UpsertResult(base, u).value.conflictConstraintName == u.conflictConstraintName
  {
  }


  /** The processor: the base processor it extends and the flag DoNotCache clears. */
  class NullabilityProcessor {
    const base: BaseProcessor
    var canCache: bool

    constructor (base: BaseProcessor)
      ensures this.base == base && canCache
    {
      this.base := base;
      canCache := true;
    }

    method DoNotCache()
      modifies this
      ensures !canCache
    {
      canCache := false;
    }

    /** The visit of a scalar expression: the custom leaves through VisitCustomSqlExpression, every other kind
        through the base, which may call DoNotCache on the way. */
    method VisitSql(e: SqlExpr) returns (r: Visited<SqlExpr>)
      modifies this
      ensures r == SqlResult(base, e)
      ensures canCache == (old(canCache) && SqlKeepsCache(base, e))
    {
      if e.AffectedRows? || e.ExcludedTableColumn? {
        var visited := VisitCustomSqlExpression(base, e);
        r := visited.0;
      } else {
        r := base.visitSql(e);
        if !base.sqlKeepsCache(e) {
          DoNotCache();
        }
      }
    }

    /** The visit of a nullable predicate: null stays null. */
    method VisitPredicate(p: Option<SqlExpr>) returns (r: Visited<Option<SqlExpr>>)
      modifies this
      ensures r == PredicateResult(base, p)
      ensures canCache == (old(canCache) && PredicateKeepsCache(base, p))
    {
      if p.None? {
        return Same;
      }
      var v := VisitSql(p.value);
      r := if v.Same? then Same else New(Some(v.value));
    }

    method VisitTable(t: TableNode) returns (r: Visited<TableNode>)
      modifies this
      ensures r == TableResult(base, t)
      ensures canCache == (old(canCache) && TableKeepsCache(base, t))
      decreases t, 2
    {
      match t
      case Values(_, _, _) =>
        DoNotCache();
        r := Same;
      case Delete(d) =>
        var v := VisitDelete(d);
        r := if v.Same? then Same else New(Delete(v.value));
      case Update(u) =>
        var v := VisitUpdate(u);
        r := if v.Same? then Same else New(Update(v.value));
      case SelectInto(name, schema, e) =>
        r := VisitSelectInto(name, schema, e);
      case Upsert(u) =>
        var v := VisitUpsert(u);
        r := if v.Same? then Same else New(Upsert(v.value));
      case Table(te) =>
        var v := base.visitTableExpr(te);
        r := if v.Same? then Same else New(Table(v.value));
      case OtherTable(tag, ts) =>
        var nested := VisitTables(ts);
        r := base.visitOtherTable(tag, ts, nested);
        if !base.otherTableKeepsCache(tag) {
          DoNotCache();
        }
    }

    /** The projection-list visitor: copies the list, overwrites each element with its visited form, and returns
        the copy only if some element changed. */
    method VisitProjections(projections: Option<seq<Projection>>) returns (r: Visited<Option<seq<Projection>>>)
      modifies this
      ensures r == ProjectionsResult(base, projections)
      ensures canCache == (old(canCache) && ProjectionsKeepCache(base, projections))
    {
      if projections.None? {
        return Same;
      }
      var original := projections.value;
      var fields := original;
      var changed := false;
      var i := 0;
      while i < |fields|
        invariant |fields| == |original| && 0 <= i <= |fields|
        invariant forall k | 0 <= k < i :: fields[k] == Resolve(original[k], ProjectionResult(base, original[k]))
        invariant forall k | i <= k < |fields| :: fields[k] == original[k]
        invariant changed <==> exists k | 0 <= k < i :: ProjectionResult(base, original[k]).New?
        invariant canCache == (old(canCache) && forall k | 0 <= k < i :: SqlKeepsCache(base, original[k].expression))
      {
        var v := VisitSql(fields[i].expression);
        fields := fields[i := if v.Same? then fields[i] else Projection(v.value, fields[i].alias)];
        changed := changed || v.New?;
        i := i + 1;
      }
      var expected := ProjectionsResult(base, projections);
      if changed {
        assert expected.New?;
        r := New(Some(fields));
        assert expected.value.value == fields;
      } else {
        r := Same;
      }
    }

    /** The table-list visitor: copies the list, overwrites each element with its visited form, and returns the copy
        only if some element changed. */
    method VisitTables(origTables: seq<TableNode>) returns (r: Visited<seq<TableNode>>)
      modifies this
      ensures r == TablesResult(base, origTables)
      ensures canCache == (old(canCache) && TablesKeepCache(base, origTables))
      decreases origTables, 2
    {
      var changed := false;
      var tables := origTables;
      var i := 0;
      while i < |tables|
        invariant |tables| == |origTables| && 0 <= i <= |tables|
        invariant forall k | 0 <= k < i :: tables[k] == Resolve(origTables[k], TableResult(base, origTables[k]))
        invariant forall k | i <= k < |tables| :: tables[k] == origTables[k]
        invariant changed <==> exists k | 0 <= k < i :: TableResult(base, origTables[k]).New?
        invariant canCache == (old(canCache) && forall k | 0 <= k < i :: TableKeepsCache(base, origTables[k]))
      {
        var v := VisitTable(tables[i]);
        tables := tables[i := Resolve(tables[i], v)];
        changed := changed || v.New?;
        i := i + 1;
      }
      var expected := TablesResult(base, origTables);
      if changed {
        r := New(tables);
        assert expected.value == tables;
      } else {
        r := Same;
      }
    }

    method VisitDelete(deleteExpression: DeleteExpr) returns (r: Visited<DeleteExpr>)
      modifies this
      ensures r == DeleteResult(base, deleteExpression)
      ensures canCache == (old(canCache) && TableKeepsCache(base, Delete(deleteExpression)))
      decreases deleteExpression, 2
    {
      var d := deleteExpression;
      var mainTableVisit := base.visitTableExpr(d.table);
      var mainTable := Resolve(d.table, mainTableVisit);
      var changed := mainTableVisit.Same?;    // `mainTable == deleteExpression.Table` in the original

      var joinedTablesVisit := VisitTables(d.joinedTables);
      var joinedTables := Resolve(d.joinedTables, joinedTablesVisit);
      changed := changed || joinedTablesVisit.New?;

      var predicateVisit := VisitPredicate(d.wherePredicate);
      var newPredicate := Resolve(d.wherePredicate, predicateVisit);
      changed := changed || predicateVisit.New?;

      if TryGetBoolConstantValue(newPredicate) == Some(true) {
        newPredicate := None;
        changed := true;
      }

      if changed {
        var built := NewDeleteExpression(Some(mainTable), newPredicate,
          Some(seq(|joinedTables|, k requires 0 <= k < |joinedTables| => Some(joinedTables[k]))));
        assert built.value.joinedTables == joinedTables;
        r := New(built.value);
      } else {
        r := Same;
      }
    }

    method VisitUpdate(updateExpression: UpdateExpr) returns (r: Visited<UpdateExpr>)
      modifies this
      ensures r == UpdateResult(base, updateExpression)
      ensures canCache == (old(canCache) && TableKeepsCache(base, Update(updateExpression)))
      decreases updateExpression, 2
    {
      var u := updateExpression;
      var expandedTableVisit := VisitOptional(base.visitTableExpr, u.expandedTable);
      var changed := expandedTableVisit.New?;

      var predicateVisit := VisitPredicate(u.wherePredicate);
      changed := changed || predicateVisit.New?;

      var fieldsVisit := VisitProjections(u.fields);
      changed := changed || fieldsVisit.Same?;   // `fields == updateExpression.Fields` in the original

      var tablesVisit := VisitTables(u.tables);
      var secondVisit := VisitTables(u.tables);
      // `tables == Visit(updateExpression.Tables)`: two references are equal only when both visits handed back
      // the original list
      changed := changed || (tablesVisit.Same? && secondVisit.Same?);

      if changed {
        r := New(UpdateExpr(u.expanded, Resolve(u.expandedTable, expandedTableVisit), Resolve(u.wherePredicate, predicateVisit),
                            Resolve(u.fields, fieldsVisit), Resolve(u.tables, tablesVisit)));
      } else {
        r := Same;
      }
    }

    /** The base's Visit(SelectExpression): each FROM source through this pass's table visit, then the base's own
        work on the rest of the query, which may call DoNotCache. */
    method VisitSelect(expression: SelectExpr) returns (r: Visited<SelectExpr>)
      modifies this
      ensures r == SelectResult(base, expression)
      ensures canCache == (old(canCache) && SelectKeepsCache(base, expression))
      decreases expression, 1
    {
      var nested := VisitTables(expression.tables);
      r := base.visitSelect(expression, nested);
      if !base.selectKeepsCache(expression.tag) {
        DoNotCache();
      }
    }

    method VisitSelectInto(name: string, schema: string, expression: SelectExpr) returns (r: Visited<TableNode>)
      modifies this
      ensures r == SelectIntoResult(base, name, schema, expression)
      ensures canCache == (old(canCache) && SelectKeepsCache(base, expression))
      decreases expression, 2
    {
      var v := VisitSelect(expression);
      r := if v.New? then New(SelectInto(name, schema, v.value)) else Same;
    }

    method VisitUpsert(upsertExpression: UpsertExpr) returns (r: Visited<UpsertExpr>)
      modifies this
      ensures r == UpsertResult(base, upsertExpression)
      ensures canCache == (old(canCache) && TableKeepsCache(base, Upsert(upsertExpression)))
      decreases upsertExpression, 2
    {
      var u := upsertExpression;
      var targetVisit := base.visitTableExpr(u.targetTable);
      var changed := targetVisit.New?;

      var sourceVisit := VisitTable(u.sourceTable);
      changed := changed || sourceVisit.New?;

      var onConflictVisit := VisitProjections(u.onConflictUpdate);
      changed := changed || onConflictVisit.New?;

      var columnsVisit := VisitProjections(u.columns);
      changed := changed || columnsVisit.New?;

      if changed {
        r := New(UpsertExpr(Resolve(u.targetTable, targetVisit), Resolve(u.sourceTable, sourceVisit),
                            Resolve(u.columns, columnsVisit), Resolve(u.onConflictUpdate, onConflictVisit),
                            u.conflictConstraintName));
      } else {
        r := Same;
      }
    }

    /** Process: starts with caching allowed, visits the query and reports whether the result may be cached. A
        VALUES node among the sources rules caching out. */
    method Process(root: SelectExpr) returns (r: SelectExpr, cacheable: bool)
      modifies this
      ensures r == Resolve(root, SelectResult(base, root))
      ensures cacheable == SelectKeepsCache(base, root) && canCache == cacheable
      ensures AnyReachesValues(root.tables) ==> !cacheable
    {
      canCache := true;
      var v := VisitSelect(root);
      r := Resolve(root, v);
      cacheable := canCache;
      CacheDecisionSelect(base, root);
    }
  }

  /** Optimize: the base's Optimize runs first, and the expansion of VALUES parameters runs on its result afterwards.
      The base's Optimize is the nullability pass on a fresh processor, followed by the rest of the base's steps,
      `baseRest` here. Those steps are the FROM SQL parameter expansion and, for SQL Server, the search-condition
      conversion. Each step can forbid caching. */
  method Optimize(base: BaseProcessor, root: SelectExpr, baseRest: SelectExpr -> (SelectExpr, bool),
                  expandValues: SelectExpr -> SelectExpr)
    returns (r: SelectExpr, canCache: bool)
    ensures var rest := baseRest(Resolve(root, SelectResult(base, root)));
      && r == expandValues(rest.0)
      && canCache == (SelectKeepsCache(base, root) && rest.1)
    ensures AnyReachesValues(root.tables) ==> !canCache
    ensures QuietBase(base) ==>
      (canCache <==> !AnyReachesValues(root.tables) && baseRest(Resolve(root, SelectResult(base, root))).1)
  {
    var processor := new NullabilityProcessor(base);
    var processed, nullabilityCanCache := processor.Process(root);
    var rest := baseRest(processed);
    canCache := nullabilityCanCache && rest.1;
    r := expandValues(rest.0);
    CacheDecisionSelect(base, root);
  }
}
