/** Merge statement assembly (MergeIntoExtensions.GetSqlMerge): from the caller's source, the host translator's
    compiled join and the target entity's column map to a MERGE statement tree and its ordered parameters.
    The host translator (TranslationStrategy.Go together with the mapper it exposes) is a function parameter;
    reflection over the source's element type is given as data. */
module MergeInto {
  import opened Wrappers
  import opened SqlTree
  import opened Text
  import opened Enumerable
  import opened ColumnMap
  import opened MergeResultBinder

  const DefaultInvalidOperationMessage := "Operation is not valid due to the current state of the object."
  const NoElementsMessage := "Sequence contains no elements"
  const TranslateFailedMessage := "Translate failed."
  const UnknownEntityMessage := "Unknown entity configured."
  const WrongQueryMessage := "Wrong query."
  const InsertPrefix := "Insert."
  const UpdatePrefix := "Update."

  // ---------------------------------------------------------------------------------------------
  // Inputs and outputs

  /** The caller's source: a query, an in-memory list, or a null reference (which is not a query either). For a
      list, reflection gives whether its element type is anonymous, the element type's property names in
      declaration order and, per row, the property values. */
  datatype Source =
    | QuerySource
    | InMemory(isAnonymous: bool, properties: seq<string>, rows: seq<seq<Value>>)
    | NullList(isAnonymous: bool)

  /** Every row has one value per property, as reading the properties by reflection gives. */
  predicate UniformRows(rows: seq<seq<Value>>, width: nat)
  {
    forall i | 0 <= i < |rows| :: |rows[i]| == width
  }

  predicate WellFormedSource(source: Source)
  {
    source.InMemory? ==> UniformRows(source.rows, |source.properties|)
  }

  /** The table the join reads from: a subquery with its alias and projection, or a source the core does not look into. */
  datatype JoinSource = Subquery(alias: string, projection: seq<Projection>) | OtherJoinSource(tag: nat)

  datatype PlanTable =
    | PlanTableExpr(table: TableExpr)
    | InnerJoin(source: JoinSource, joinPredicate: SqlExpr)
    | OtherPlanTable(tag: nat)

  /** The parts of the compiled SelectExpression the core reads. */
  datatype SelectPlan = SelectPlan(tables: seq<PlanTable>, wherePredicate: Option<SqlExpr>, projection: seq<Projection>,
                                   limit: Option<SqlExpr>)

  datatype Parameter = Parameter(name: string, value: Value)

  /** What a result member is mapped to: a constant carrying the projection index, or anything else. */
  datatype MapValue = ConstantMap(v: Value) | NonConstantMap

  /** One entry of the mapper: the result member's name (`Insert.X` / `Update.X`) and what it is mapped to. */
  datatype MapEntry = MapEntry(member: string, value: MapValue)

  /** What the host translator returns: the compiled plan, the parameters registered so far and the mapper. */
  datatype Translation = Translation(plan: SelectPlan, parameters: seq<Parameter>, mapper: seq<MapEntry>)

  datatype MergeSource =
    | FromJoin(source: JoinSource)
    | FromValues(rows: seq<seq<SqlExpr>>, columnNames: seq<string>, alias: string)

  datatype MergeExpression = MergeExpression(
    joinPredicate: SqlExpr,
    targetTable: TableExpr,
    sourceTable: MergeSource,
    limit: Option<SqlExpr>,
    notMatchedBySource: bool,
    matched: Option<seq<Projection>>,
    notMatchedByTarget: Option<seq<Projection>>,
    tableChanges: Option<JoinSource>,
    columnChanges: Option<map<string, string>>)

  /** A fixed statement text, or the MERGE tree handed to the renderer. */
  datatype MergeCommand = Text(sql: string) | Statement(merge: MergeExpression)

  datatype Compiled = Compiled(command: MergeCommand, parameters: seq<Parameter>)

  // ---------------------------------------------------------------------------------------------
  // Parameters

  /** The generated parameter name `__ap_{n}`. */
  function ApName(n: nat): string
  {
    "__ap_" + NatToString(n)
  }

  lemma ApNameInjective(a: nat, b: nat)
    requires ApName(a) == ApName(b)
    ensures a == b
  {
    assert ApName(a)[5..] == NatToString(a);
    assert ApName(b)[5..] == NatToString(b);
    NatToStringInjective(a, b);
  }

  function Names(ps: seq<Parameter>): set<string>
  {
    set p | p in ps :: p.name
  }

  predicate UniqueNames(ps: seq<Parameter>)
  {
    forall i, j | 0 <= i < j < |ps| :: ps[i].name != ps[j].name
  }

  /** The query context's parameter dictionary, in insertion order. */
  class QueryContext {
    var parameterValues: seq<Parameter>

    constructor (parameterValues: seq<Parameter>)
      ensures this.parameterValues == parameterValues
    {
      this.parameterValues := parameterValues;
    }

    /** AddParameter: Dictionary.Add, which throws ArgumentException on a name already present. */
    method AddParameter(name: string, value: Value) returns (r: Result<(), Exception>)
      modifies this
      ensures name in Names(old(parameterValues)) ==>
        r == Err(DuplicateKey(name)) && parameterValues == old(parameterValues)
      ensures name !in Names(old(parameterValues)) ==>
        r == Ok(()) && parameterValues == old(parameterValues) + [Parameter(name, value)]
      ensures UniqueNames(old(parameterValues)) ==> UniqueNames(parameterValues)
    {
      if name in Names(parameterValues) {
        return Err(DuplicateKey(name));
      }
      assert forall p | p in parameterValues :: p.name != name;
      parameterValues := parameterValues + [Parameter(name, value)];
      r := Ok(());
    }
  }

  /** The parameters of one row: cell j gets the name `__ap_{n + j}`. */
  function RowParameters(n: nat, row: seq<Value>): (r: seq<Parameter>)
    ensures |r| == |row|
  {
    seq(|row|, j requires 0 <= j < |row| => Parameter(ApName(n + j), row[j]))
  }

  /** The parameters of the whole grid, row after row, numbered from n0. */
  function GridParameters(n0: nat, rows: seq<seq<Value>>, width: nat): seq<Parameter>
  {
    if |rows| == 0 then []
    else GridParameters(n0, rows[..|rows| - 1], width) + RowParameters(n0 + (|rows| - 1) * width, rows[|rows| - 1])
  }

  /** The k-th grid parameter is called `__ap_{n0 + k}`. */
  lemma {:induction false} GridParametersNames(n0: nat, rows: seq<seq<Value>>, width: nat)
    requires UniformRows(rows, width)
    ensures |GridParameters(n0, rows, width)| == |rows| * width
    ensures forall k | 0 <= k < |GridParameters(n0, rows, width)| :: GridParameters(n0, rows, width)[k].name == ApName(n0 + k)
  {
    if |rows| > 0 {
      var front := rows[..|rows| - 1];
      GridParametersNames(n0, front, width);
      assert |rows| * width == (|rows| - 1) * width + width;
    }
  }

  /** Cell (i, j) of an R-by-C grid is parameter n0 + i*C + j: named after its own position and carrying the row's
      j-th value, so the parameters are laid out in row-major order. */
  lemma {:induction false} GridParametersCell(n0: nat, rows: seq<seq<Value>>, width: nat, i: nat, j: nat)
    requires UniformRows(rows, width) && i < |rows| && j < width
    ensures i * width + j < |GridParameters(n0, rows, width)|
    ensures GridParameters(n0, rows, width)[i * width + j] == Parameter(ApName(n0 + i * width + j), rows[i][j])
  {
    var n := |rows|;
    var front := rows[..n - 1];
    GridParametersNames(n0, front, width);
    GridParametersNames(n0, rows, width);
    CellInGrid(i, j, n, width);
    if i < n - 1 {
      CellInGrid(i, j, n - 1, width);
      GridParametersCell(n0, front, width, i, j);
      assert front[i] == rows[i];
    } else {
      var g := GridParameters(n0, rows, width);
      assert g == GridParameters(n0, front, width) + RowParameters(n0 + (n - 1) * width, rows[n - 1]);
      assert g[i * width + j] == RowParameters(n0 + (n - 1) * width, rows[n - 1])[j];
    }
  }

  lemma CellInGrid(i: nat, j: nat, rows: nat, width: nat)
    requires i < rows && j < width
    ensures i * width + j < rows * width
  {
    assert (i + 1) * width <= rows * width;
  }

  /** The generated names are pairwise different. */
  lemma GridParametersUnique(n0: nat, rows: seq<seq<Value>>, width: nat)
    requires UniformRows(rows, width)
    ensures UniqueNames(GridParameters(n0, rows, width))
  {
    GridParametersNames(n0, rows, width);
    var g := GridParameters(n0, rows, width);
    forall i, j | 0 <= i < j < |g|
      ensures g[i].name != g[j].name
    {
      if g[i].name == g[j].name {
        ApNameInjective(n0 + i, n0 + j);
      }
    }
  }

  // ---------------------------------------------------------------------------------------------
  // The read-back projections of an in-memory source

  /** One element of `projects`: the subquery projection, its type mapping, the read-back index and the property. */
  datatype Project = Project(projection: Projection, typeMapping: string, index: int, name: string)

  function IndexKey(p: Project): int
  {
    p.index
  }

  /** `c.ReadBack()`: the integer a read-back constant carries, unboxed as `(int)c.Value` is: a null value throws
      NullReferenceException and any other non-integer InvalidCastException. */
  function ReadBack(v: Value): (r: Result<int, Exception>)
    ensures r.Ok? <==> v.IntValue?
    ensures r.Ok? ==> r.value == v.i
    ensures r.Err? ==> r.error == if v.NullValue? then NullReference else InvalidCast
  {
    if v.NullValue? then Err(NullReference) else if v.IntValue? then Ok(v.i) else Err(InvalidCast)
  }

  /** One element of the projects query: the cast to a constant, the read-back, and `props[i]`. */
  function ProjectOf(p: Projection, props: seq<string>): Result<Project, Exception>
  {
    if !p.expression.SqlConstant? then Err(InvalidCast)
    else
      var i :- ReadBack(p.expression.value);
      if 0 <= i < |props| then Ok(Project(p, p.expression.typeMapping, i, props[i])) else Err(IndexOutOfRange)
  }

  /** The projects list (built by ToList, in projection order): the first element that fails decides the error. */
  function BuildProjects(projection: seq<Projection>, props: seq<string>): (r: Result<seq<Project>, Exception>)
    ensures r.Ok? <==> forall k | 0 <= k < |projection| :: ProjectOf(projection[k], props).Ok?
    ensures r.Ok? ==> (|r.value| == |projection|
      && forall k | 0 <= k < |projection| :: r.value[k] == ProjectOf(projection[k], props).value)
    ensures r.Err? ==> exists k | 0 <= k < |projection| ::
      (forall m | 0 <= m < k :: ProjectOf(projection[m], props).Ok?) && ProjectOf(projection[k], props) == Err(r.error)
  {
    if |projection| == 0 then Ok([])
    else
      var n := |projection|;
      var front := BuildProjects(projection[..n - 1], props);
      assert forall m | 0 <= m < n - 1 :: projection[..n - 1][m] == projection[m];
      if front.Err? then Err(front.error)
      else
        var last := ProjectOf(projection[n - 1], props);
        if last.Err? then Err(last.error) else Ok(front.value + [last.value])
  }

  /** Every project reads back an index inside the property list. */
  lemma BuildProjectsIndices(projection: seq<Projection>, props: seq<string>)
    requires BuildProjects(projection, props).Ok?
    ensures forall k | 0 <= k < |projection| ::
      var p := BuildProjects(projection, props).value[k];
      0 <= p.index < |props| && p.name == props[p.index] && p.projection == projection[k]
  {
  }

  /** The check `projects.Last().i + 1 != projects.Count`, as written. */
  predicate LastIndexMatchesCount(sorted: seq<Project>)
    requires |sorted| > 0
  {
    sorted[|sorted| - 1].index + 1 == |sorted|
  }

  predicate DistinctIndices(s: seq<Project>)
  {
    forall a, b | 0 <= a < b < |s| :: s[a].index != s[b].index
  }

  /** On sorted, distinct, non-negative indices the check holds exactly when the indices are 0, 1, ..., n-1. */
  lemma ContiguityOnDistinctIndices(sorted: seq<Project>)
    requires |sorted| > 0 && SortedByKey(sorted, IndexKey) && DistinctIndices(sorted)
    requires forall k | 0 <= k < |sorted| :: sorted[k].index >= 0
    ensures LastIndexMatchesCount(sorted) <==> forall k | 0 <= k < |sorted| :: sorted[k].index == k
  {
    var n := |sorted|;
    IndicesAtLeastPosition(sorted, n - 1);
    if LastIndexMatchesCount(sorted) {
      forall k | 0 <= k < n
        ensures sorted[k].index == k
      {
        IndicesAtLeastPosition(sorted, k);
        IndicesAtMostFromEnd(sorted, k);
      }
    }
  }

  lemma {:induction false} IndicesAtLeastPosition(sorted: seq<Project>, k: nat)
    requires k < |sorted| && SortedByKey(sorted, IndexKey) && DistinctIndices(sorted)
    requires forall m | 0 <= m < |sorted| :: sorted[m].index >= 0
    ensures sorted[k].index >= k
  {
    if k > 0 {
      IndicesAtLeastPosition(sorted, k - 1);
      assert IndexKey(sorted[k - 1]) <= IndexKey(sorted[k]);
    }
  }

  lemma {:induction false} IndicesAtMostFromEnd(sorted: seq<Project>, k: nat)
    requires k < |sorted| && SortedByKey(sorted, IndexKey) && DistinctIndices(sorted)
    ensures sorted[k].index <= sorted[|sorted| - 1].index - (|sorted| - 1 - k)
    decreases |sorted| - k
  {
    if k < |sorted| - 1 {
      IndicesAtMostFromEnd(sorted, k + 1);
      assert IndexKey(sorted[k]) <= IndexKey(sorted[k + 1]);
    }
  }

  /** Without distinct indices the check is weaker than contiguity: indices 0, 0, 2 pass it although index 1 is
      missing, so property 0 names two columns and property 1 names none. */
  lemma ContiguityAdmitsRepeatedIndex(p: Projection)
    ensures var sorted := [Project(p, "int", 0, "A"), Project(p, "int", 0, "A"), Project(p, "int", 2, "C")];
      SortedByKey(sorted, IndexKey) && LastIndexMatchesCount(sorted) && !DistinctIndices(sorted)
      && ColumnNames(sorted) == ["A", "A", "C"]
  {
    var sorted := [Project(p, "int", 0, "A"), Project(p, "int", 0, "A"), Project(p, "int", 2, "C")];
    assert sorted[0].index == sorted[1].index;
    assert ColumnNames(sorted) == ["A", "A", "C"];
  }

  function TypeMappings(projects: seq<Project>): (r: seq<string>)
    ensures |r| == |projects|
  {
    seq(|projects|, j requires 0 <= j < |projects| => projects[j].typeMapping)
  }

  /** `projects.Select(a => a.a.Name)`. */
  function ColumnNames(projects: seq<Project>): (r: seq<string>)
    ensures |r| == |projects|
  {
    seq(|projects|, j requires 0 <= j < |projects| => projects[j].name)
  }

  /** The entries of `projects.ToDictionary(a => a.p.Alias, a => a.a.Name)`. */
  function AliasEntries(projects: seq<Project>): seq<(string, string)>
  {
    seq(|projects|, j requires 0 <= j < |projects| => (projects[j].projection.alias, projects[j].name))
  }

  // ---------------------------------------------------------------------------------------------
  // The parameter grid

  /** How many parameters the grid loops register before they stop: when there are rows and fewer projects than
      properties, the first row fails at the first column without a project, right after registering its parameter. */
  function Attempted(rowCount: nat, width: nat, projectCount: nat): nat
  {
    if rowCount > 0 && projectCount < width then projectCount + 1 else rowCount * width
  }

  /** Counter name `__ap_{q}` is already among the parameters registered before the loops. */
  predicate Taken(params0: seq<Parameter>, q: nat)
  {
    ApName(q) in Names(params0)
  }

  /** One of the counter values from `from` up to (excluding) `to` names a parameter registered before the loops. */
  predicate ClashIn(params0: seq<Parameter>, from: nat, to: nat)
  {
    exists q | from <= q < to :: Taken(params0, q)
  }

  /** The name of the first counter value from `from` on whose name is already taken: the key Dictionary.Add
      reports when the grid loops stop on a clash. */
  function ClashKey(params0: seq<Parameter>, from: nat, to: nat): string
    requires ClashIn(params0, from, to)
    decreases (to as int) - (from as int)
  {
    if Taken(params0, from) then ApName(from)
    else
      ClashPastStart(params0, from, to);
      ClashKey(params0, from + 1, to)
  }

  lemma ClashPastStart(params0: seq<Parameter>, from: nat, to: nat)
    requires ClashIn(params0, from, to) && !Taken(params0, from)
    ensures ClashIn(params0, from + 1, to)
  {
    var w :| from <= w < to && Taken(params0, w);
    assert from + 1 <= w;
  }

  /** The clash key of a range is the name of a taken counter value with none taken before it. */
  lemma {:induction false} ClashKeyAt(params0: seq<Parameter>, from: nat, q: nat, to: nat)
    requires from <= q < to && Taken(params0, q) && !ClashIn(params0, from, q)
    ensures ClashIn(params0, from, to) && ClashKey(params0, from, to) == ApName(q)
    decreases q - from
  {
    if from < q {
      assert !Taken(params0, from);
      ClashKeyAt(params0, from + 1, q, to);
    }
  }

  /** One of the first `count` generated names is already taken. */
  predicate ClashBefore(params0: seq<Parameter>, count: nat)
  {
    ClashIn(params0, |params0|, |params0| + count)
  }

  /** The placeholder cells: cell (i, j) refers to parameter `__ap_{n0 + i*C + j}` with column j's type mapping. */
  function GridItems(n0: nat, rowCount: nat, width: nat, typeMappings: seq<string>): seq<seq<SqlExpr>>
    requires width <= |typeMappings|
  {
    seq(rowCount, i requires 0 <= i < rowCount =>
      seq(width, j requires 0 <= j < width => SqlParameter(CellName(n0, width, i, j), typeMappings[j])))
  }

  /** The name of the parameter behind cell (i, j), counting from n0 in row-major order. */
  function CellName(n0: nat, width: nat, i: nat, j: nat): string
  {
    ApName(n0 + i * width + j)
  }

  /** What the grid loops produce, stated by cases: a name clash among the attempted parameters, a missing
      project for a column, or the full grid. */
  function GridOutcome(params0: seq<Parameter>, rows: seq<seq<Value>>, width: nat, typeMappings: seq<string>)
    : Result<(seq<seq<SqlExpr>>, seq<Parameter>), Exception>
  {
    var outOfRange := |rows| > 0 && |typeMappings| < width;
    var attempted := Attempted(|rows|, width, |typeMappings|);
    if ClashBefore(params0, attempted) then
      Err(DuplicateKey(ClashKey(params0, |params0|, |params0| + attempted)))
    else if outOfRange then Err(ArgumentOutOfRange)
    else if |rows| == 0 then Ok(([], params0))
    else Ok((GridItems(|params0|, |rows|, width, typeMappings), params0 + GridParameters(|params0|, rows, width)))
  }

  /** The parameters registered since the loops started carry the counter names. */
  ghost predicate Extends(params0: seq<Parameter>, ps: seq<Parameter>)
  {
    |params0| <= |ps| && ps[..|params0|] == params0
    && forall q | |params0| <= q < |ps| :: ps[q].name == ApName(q)
  }

  /** Registers one cell's value under the next counter name, `__ap_{count}`; `from` is where the current row's
      names began. */
  method AddNextParameter(queryContext: QueryContext, value: Value, ghost params0: seq<Parameter>, ghost from: nat)
    returns (name: string, r: Result<(), Exception>)
    requires Extends(params0, queryContext.parameterValues)
    requires from <= |queryContext.parameterValues| && !ClashIn(params0, from, |queryContext.parameterValues|)
    modifies queryContext
    ensures name == ApName(|old(queryContext.parameterValues)|)
    ensures r.Err? <==> Taken(params0, |old(queryContext.parameterValues)|)
    ensures r.Err? ==> r.error == DuplicateKey(name)
    ensures r.Ok? ==>
      && queryContext.parameterValues == old(queryContext.parameterValues) + [Parameter(name, value)]
      && Extends(params0, queryContext.parameterValues)
      && !ClashIn(params0, from, |queryContext.parameterValues|)
  {
    ghost var current := queryContext.parameterValues;
    name := ApName(|queryContext.parameterValues|);
    NewNameClashesOnlyWithInitial(params0, current, name);
    r := queryContext.AddParameter(name, value);
    if r.Ok? {
      ClashInSnoc(params0, from, |current|);
      ExtendsSnoc(params0, current, value);
    }
  }

  /** The inner loop for row i: one parameter per property, each registered before its cell is written. `first`
      and `bound` delimit the counter values the whole grid attempts, none taken before this row: a clash is
      reported under the first taken name among them. */
  method FillRow(queryContext: QueryContext, items: array2<SqlExpr>, i: nat, row: seq<Value>, typeMappings: seq<string>,
                 ghost params0: seq<Parameter>, ghost first: nat, ghost bound: nat)
    returns (r: Result<(), Exception>)
    requires i < items.Length0 && |row| == items.Length1
    requires Extends(params0, queryContext.parameterValues)
    requires var start := |queryContext.parameterValues|;
      var attempted := if |typeMappings| < |row| then |typeMappings| + 1 else |row|;
      first <= start && start + attempted <= bound && !ClashIn(params0, first, start)
    modifies queryContext, items
    ensures var start := |old(queryContext.parameterValues)|;
      var attempted := if |typeMappings| < |row| then |typeMappings| + 1 else |row|;
      var clash := ClashIn(params0, start, start + attempted);
      && (r.Ok? <==> !clash && |row| <= |typeMappings|)
      && (clash ==> ClashIn(params0, first, bound))
      && (r.Err? ==> r.error == if clash then DuplicateKey(ClashKey(params0, first, bound)) else ArgumentOutOfRange)
      && (r.Ok? ==>
            queryContext.parameterValues == old(queryContext.parameterValues) + RowParameters(start, row)
            && Extends(params0, queryContext.parameterValues)
            && forall b | 0 <= b < |row| :: items[i, b] == SqlParameter(ApName(start + b), typeMappings[b]))
    ensures forall a, b | 0 <= a < items.Length0 && 0 <= b < items.Length1 && a != i :: items[a, b] == old(items[a, b])
  {
    ghost var start := |queryContext.parameterValues|;
    ghost var before := queryContext.parameterValues;
    var j := 0;
    while j < |row|
      invariant 0 <= j <= |row| && j <= |typeMappings|
      invariant queryContext.parameterValues == before + RowParameters(start, row[..j])
      invariant |queryContext.parameterValues| == start + j
      invariant Extends(params0, queryContext.parameterValues)
      invariant !ClashIn(params0, start, start + j)
      invariant forall b | 0 <= b < j :: items[i, b] == SqlParameter(ApName(start + b), typeMappings[b])
      invariant forall a, b | 0 <= a < items.Length0 && 0 <= b < items.Length1 && a != i :: items[a, b] == old(items[a, b])
    {
      ghost var current := queryContext.parameterValues;
      var paraName, added := AddNextParameter(queryContext, row[j], params0, start);
      if added.Err? {
        RowClashesAt(params0, first, start, j, |row|, |typeMappings|, bound);
        return Err(added.error);
      }
      if j >= |typeMappings| {
        return Err(ArgumentOutOfRange);
      }
      RowStep(before, start, row, j, current, paraName, queryContext.parameterValues);
      items[i, j] := SqlParameter(paraName, typeMappings[j]);
      j := j + 1;
    }
    assert row[..|row|] == row;
    r := Ok(());
  }

  /** One pass of the outer grid loop: row i is registered and written after the first i rows. A failure is the
      grid's outcome; otherwise the loop's invariant holds for i + 1 rows. */
  method FillGridRow(queryContext: QueryContext, items: array2<SqlExpr>, rows: seq<seq<Value>>, width: nat,
                     typeMappings: seq<string>, i: nat, ghost params0: seq<Parameter>)
    returns (r: Result<(), Exception>)
    requires UniformRows(rows, width) && i < |rows| && items.Length0 == |rows| && items.Length1 == width
    requires i > 0 ==> width <= |typeMappings|
    requires |queryContext.parameterValues| == |params0| + i * width
    requires queryContext.parameterValues == params0 + GridParameters(|params0|, rows[..i], width)
    requires Extends(params0, queryContext.parameterValues)
    requires !ClashIn(params0, |params0|, |params0| + i * width)
    modifies queryContext, items
    ensures r.Err? ==> GridOutcome(params0, rows, width, typeMappings) == Err(r.error)
    ensures r.Ok? ==>
      && width <= |typeMappings|
      && |queryContext.parameterValues| == |params0| + (i + 1) * width
      && queryContext.parameterValues == params0 + GridParameters(|params0|, rows[..i + 1], width)
      && Extends(params0, queryContext.parameterValues)
      && !ClashIn(params0, |params0|, |params0| + (i + 1) * width)
      && forall b | 0 <= b < width :: items[i, b] == SqlParameter(CellName(|params0|, width, i, b), typeMappings[b])
    ensures forall a, b | 0 <= a < items.Length0 && 0 <= b < items.Length1 && a != i :: items[a, b] == old(items[a, b])
  {
    ghost var n0 := |params0|;
    ghost var start := |queryContext.parameterValues|;
    ghost var before := queryContext.parameterValues;
    assert |rows[i]| == width;
    GridStopsAt(params0, i, |rows|, width, |typeMappings|);
    ghost var bound := n0 + Attempted(|rows|, width, |typeMappings|);
    r := FillRow(queryContext, items, i, rows[i], typeMappings, params0, n0, bound);
    if r.Err? {
      GridFailsWith(params0, rows, width, typeMappings, i, start, n0, bound, r.error);
      return;
    }
    assert forall b | 0 <= b < width :: items[i, b] == SqlParameter(CellName(n0, width, i, b), typeMappings[b]);
    NoClashAcrossRow(params0, n0, start, start + width);
    GridGrows(params0, rows, width, i, before, start);
  }

  /** The grid loops: for every row and every property a fresh parameter is registered under the next counter
      name and the cell refers to it. */
  method FillGrid(queryContext: QueryContext, rows: seq<seq<Value>>, width: nat, typeMappings: seq<string>)
    returns (r: Result<seq<seq<SqlExpr>>, Exception>)
    requires UniformRows(rows, width)
    modifies queryContext
    ensures var outcome := GridOutcome(old(queryContext.parameterValues), rows, width, typeMappings);
      && (r.Ok? <==> outcome.Ok?)
      && (r.Err? ==> r.error == outcome.error)
      && (r.Ok? ==> r.value == outcome.value.0 && queryContext.parameterValues == outcome.value.1)
  {
    ghost var params0 := queryContext.parameterValues;
    ghost var n0 := |params0|;
    var items := new SqlExpr[|rows|, width];
    var i := 0;
    while i < |rows|
      invariant 0 <= i <= |rows|
      invariant i > 0 ==> width <= |typeMappings|
      invariant |queryContext.parameterValues| == n0 + i * width
      invariant queryContext.parameterValues == params0 + GridParameters(n0, rows[..i], width)
      invariant Extends(params0, queryContext.parameterValues)
      invariant !ClashIn(params0, n0, n0 + i * width)
      invariant forall a, b | 0 <= a < i && 0 <= b < width ::
        b < |typeMappings| && items[a, b] == SqlParameter(CellName(n0, width, a, b), typeMappings[b])
    {
      var filled := FillGridRow(queryContext, items, rows, width, typeMappings, i, params0);
      if filled.Err? {
        return Err(filled.error);
      }
      i := i + 1;
    }
    if |rows| == 0 {
      return Ok([]);
    }
    var cells := seq(|rows|, a requires 0 <= a < |rows| reads items =>
      seq(width, b requires 0 <= b < width reads items => items[a, b]));
    forall a | 0 <= a < |rows|
      ensures cells[a] == GridItems(n0, |rows|, width, typeMappings)[a]
    {
      assert forall b | 0 <= b < width :: cells[a][b] == items[a, b];
    }
    assert rows[..|rows|] == rows;
    r := Ok(cells);
  }

  lemma GridParametersSnoc(n0: nat, rows: seq<seq<Value>>, i: nat, width: nat, start: nat)
    requires i < |rows| && start == n0 + i * width
    ensures GridParameters(n0, rows[..i + 1], width)
         == GridParameters(n0, rows[..i], width) + RowParameters(start, rows[i])
  {
    assert rows[..i + 1][..i] == rows[..i];
  }

  /** Registering row i, numbered from `start`, after the first i rows yields the parameters of the first i + 1
      rows. */
  lemma GridGrows(params0: seq<Parameter>, rows: seq<seq<Value>>, width: nat, i: nat, before: seq<Parameter>,
                  start: nat)
    requires UniformRows(rows, width) && i < |rows|
    requires before == params0 + GridParameters(|params0|, rows[..i], width)
    requires start == |params0| + i * width && |before| == start
    ensures before + RowParameters(start, rows[i]) == params0 + GridParameters(|params0|, rows[..i + 1], width)
    ensures |before + RowParameters(start, rows[i])| == |params0| + (i + 1) * width
  {
    var front := GridParameters(|params0|, rows[..i], width);
    var row := RowParameters(start, rows[i]);
    GridParametersSnoc(|params0|, rows, i, width, start);
    ParametersAssoc(params0, front, row);
    MulSucc(i, width);
  }

  lemma ParametersAssoc(a: seq<Parameter>, b: seq<Parameter>, c: seq<Parameter>)
    ensures a + b + c == a + (b + c)
  {
  }

  lemma MulSucc(i: nat, width: nat)
    ensures (i + 1) * width == i * width + width
  {
  }

  /** One step of the inner loop on the parameter list: registering cell j's value under the next counter name
      extends the row's parameters by one. */
  lemma RowStep(before: seq<Parameter>, start: nat, row: seq<Value>, j: nat, current: seq<Parameter>, name: string,
                next: seq<Parameter>)
    requires j < |row| && current == before + RowParameters(start, row[..j]) && |current| == start + j
    requires name == ApName(|current|) && next == current + [Parameter(name, row[j])]
    ensures next == before + RowParameters(start, row[..j + 1]) && |next| == start + j + 1
    ensures name == ApName(start + j)
  {
    RowParametersSnoc(start, row, j);
    ParametersAssoc(before, RowParameters(start, row[..j]), [Parameter(name, row[j])]);
  }

  lemma RowParametersSnoc(start: nat, row: seq<Value>, j: nat)
    requires j < |row|
    ensures RowParameters(start, row[..j + 1]) == RowParameters(start, row[..j]) + [Parameter(ApName(start + j), row[j])]
  {
    assert row[..j + 1] == row[..j] + [row[j]];
  }

  /** Registering the next counter name keeps the registered parameters an extension of the initial ones. */
  lemma ExtendsSnoc(params0: seq<Parameter>, ps: seq<Parameter>, value: Value)
    requires Extends(params0, ps)
    ensures Extends(params0, ps + [Parameter(ApName(|ps|), value)])
  {
    var grown := ps + [Parameter(ApName(|ps|), value)];
    assert grown[..|params0|] == ps[..|params0|];
  }

  /** A clash at column j of a row, the first in the row and in the range before it, is the first clash among
      the names the grid attempts. */
  lemma RowClashesAt(params0: seq<Parameter>, first: nat, start: nat, j: nat, width: nat, projectCount: nat,
                     bound: nat)
    requires j < width && j <= projectCount && Taken(params0, start + j) && !ClashIn(params0, start, start + j)
    requires var attempted := if projectCount < width then projectCount + 1 else width;
      first <= start && start + attempted <= bound && !ClashIn(params0, first, start)
    ensures var attempted := if projectCount < width then projectCount + 1 else width;
      ClashIn(params0, start, start + attempted) && ClashIn(params0, first, bound)
      && ClashKey(params0, first, bound) == ApName(start + j)
  {
    var attempted := if projectCount < width then projectCount + 1 else width;
    assert ClashIn(params0, start, start + attempted);
    NoClashAcrossRow(params0, first, start, start + j);
    ClashKeyAt(params0, first, start + j, bound);
  }

  lemma ClashInSnoc(params0: seq<Parameter>, a: nat, b: nat)
    requires a <= b && !ClashIn(params0, a, b) && !Taken(params0, b)
    ensures !ClashIn(params0, a, b + 1)
  {
  }

  /** A row that fails ends the grid loops with the outcome GridOutcome states. */
  lemma GridStopsAt(params0: seq<Parameter>, i: nat, rowCount: nat, width: nat, projectCount: nat)
    requires i < rowCount && (i > 0 ==> width <= projectCount)
    ensures var start := |params0| + i * width;
      var attempted := if projectCount < width then projectCount + 1 else width;
      && (ClashIn(params0, start, start + attempted) ==>
            ClashBefore(params0, Attempted(rowCount, width, projectCount)))
      && (projectCount < width ==> start == |params0| && attempted == Attempted(rowCount, width, projectCount))
      && start + attempted <= |params0| + Attempted(rowCount, width, projectCount)
  {
    var n0 := |params0|;
    var start := n0 + i * width;
    var attempted := if projectCount < width then projectCount + 1 else width;
    if projectCount < width {
      assert i == 0;
    } else {
      MulMonotone(i + 1, rowCount, width);
      assert start + attempted <= n0 + Attempted(rowCount, width, projectCount);
    }
    if ClashIn(params0, start, start + attempted) {
      ClashInWider(params0, start, start + attempted, n0, n0 + Attempted(rowCount, width, projectCount));
    }
  }

  /** A row that fails ends the grid loops with the error GridOutcome states: row i, whose names start at
      counter value `start`, has a clash or lacks a project. */
  lemma GridFailsWith(params0: seq<Parameter>, rows: seq<seq<Value>>, width: nat, typeMappings: seq<string>, i: nat,
                      start: nat, first: nat, bound: nat, e: Exception)
    requires i < |rows| && (i > 0 ==> width <= |typeMappings|) && start == |params0| + i * width
    requires first == |params0| && bound == first + Attempted(|rows|, width, |typeMappings|)
    requires var attempted := if |typeMappings| < width then |typeMappings| + 1 else width;
      var clash := ClashIn(params0, start, start + attempted);
      && (clash || |typeMappings| < width)
      && (clash ==> ClashIn(params0, first, bound))
      && e == if clash then DuplicateKey(ClashKey(params0, first, bound)) else ArgumentOutOfRange
    ensures GridOutcome(params0, rows, width, typeMappings) == Err(e)
  {
    GridStopsAt(params0, i, |rows|, width, |typeMappings|);
  }

  lemma MulMonotone(a: nat, b: nat, c: nat)
    requires a <= b
    ensures a * c <= b * c
  {
  }

  lemma ClashInWider(params0: seq<Parameter>, a: nat, b: nat, c: nat, d: nat)
    requires c <= a && b <= d && ClashIn(params0, a, b)
    ensures ClashIn(params0, c, d)
  {
    var q :| a <= q < b && Taken(params0, q);
    assert c <= q < d;
  }

  lemma NoClashAcrossRow(params0: seq<Parameter>, a: nat, b: nat, c: nat)
    requires a <= b <= c && !ClashIn(params0, a, b) && !ClashIn(params0, b, c)
    ensures !ClashIn(params0, a, c)
  {
    forall q | a <= q < c
      ensures !Taken(params0, q)
    {
      if q < b {
        assert !ClashIn(params0, a, b);
      }
    }
  }

  /** The next counter name collides with a registered parameter only if it collides with one registered before
      the loops started. */
  lemma NewNameClashesOnlyWithInitial(params0: seq<Parameter>, ps: seq<Parameter>, name: string)
    requires Extends(params0, ps)
    requires name == ApName(|ps|)
    ensures name in Names(ps) <==> name in Names(params0)
  {
    if name in Names(ps) {
      var p :| p in ps && p.name == name;
      var q :| 0 <= q < |ps| && ps[q] == p;
      if q >= |params0| {
        ApNameInjective(q, |ps|);
      } else {
        assert params0[q] == p;
      }
    }
    if name in Names(params0) {
      var p :| p in params0 && p.name == name;
      var q :| 0 <= q < |params0| && params0[q] == p;
      assert ps[q] == p;
    }
  }

  // ---------------------------------------------------------------------------------------------
  // Routing the mapped columns

  /** The first check a mapper entry fails, in the order the routing loop performs them; None if it passes.
      `hasMatched` and `hasNotMatched` say whether the Matched and NotMatchedByTarget lists exist. */
  function EntryCheck(e: MapEntry, projection: seq<Projection>, columns: map<string, string>,
                      hasMatched: bool, hasNotMatched: bool): Option<Exception>
  {
    if !e.value.ConstantMap? then Some(NotSupported(WrongQueryMessage))
    else if !(StartsWith(e.member, InsertPrefix) || StartsWith(e.member, UpdatePrefix)) then
      Some(InvalidOperation(TranslateFailedMessage))
    else if e.value.v.NullValue? then Some(NullReference)
    else if !e.value.v.IntValue? then Some(InvalidCast)
    else if !(0 <= e.value.v.i < |projection|) then Some(ArgumentOutOfRange)
    else if e.member[7..] !in columns then Some(KeyNotFound(e.member[7..]))
    else if StartsWith(e.member, InsertPrefix) && !hasNotMatched then Some(NullReference)
    else if !StartsWith(e.member, InsertPrefix) && !hasMatched then Some(NullReference)
    else None
  }

  /** The projection an entry that passes its checks adds: the plan's projection at the mapped index, aliased with
      the column the member's path names. */
  function RoutedItem(e: MapEntry, projection: seq<Projection>, columns: map<string, string>): Projection
    requires EntryCheck(e, projection, columns, true, true).None?
  {
    Projection(projection[e.value.v.i].expression, columns[e.member[7..]])
  }

  /** One iteration of the routing loop. */
  function RouteEntry(e: MapEntry, projection: seq<Projection>, columns: map<string, string>,
                      lists: (Option<seq<Projection>>, Option<seq<Projection>>))
    : Result<(Option<seq<Projection>>, Option<seq<Projection>>), Exception>
  {
    var check := EntryCheck(e, projection, columns, lists.0.Some?, lists.1.Some?);
    if check.Some? then Err(check.value)
    else if StartsWith(e.member, InsertPrefix) then Ok((lists.0, Some(lists.1.value + [RoutedItem(e, projection, columns)])))
    else Ok((Some(lists.0.value + [RoutedItem(e, projection, columns)]), lists.1))
  }

  /** The routing loop over the mapper entries, entry by entry. */
  function RouteAll(entries: seq<MapEntry>, projection: seq<Projection>, columns: map<string, string>,
                    matched: Option<seq<Projection>>, notMatched: Option<seq<Projection>>)
    : Result<(Option<seq<Projection>>, Option<seq<Projection>>), Exception>
  {
    if |entries| == 0 then Ok((matched, notMatched))
    else
      var front := RouteAll(entries[..|entries| - 1], projection, columns, matched, notMatched);
      if front.Err? then front else RouteEntry(entries[|entries| - 1], projection, columns, front.value)
  }

  /** The projections routed to the list that `insert` selects, in mapper order (all entries pass their checks). */
  function Routed(entries: seq<MapEntry>, insert: bool, projection: seq<Projection>, columns: map<string, string>)
    : seq<Projection>
    requires forall k | 0 <= k < |entries| :: EntryCheck(entries[k], projection, columns, true, true).None?
  {
    if |entries| == 0 then []
    else
      var e := entries[|entries| - 1];
      Routed(entries[..|entries| - 1], insert, projection, columns)
        + (if StartsWith(e.member, InsertPrefix) == insert then [RoutedItem(e, projection, columns)] else [])
  }

  function Extend(list: Option<seq<Projection>>, items: seq<Projection>): Option<seq<Projection>>
  {
    if list.None? then None else Some(list.value + items)
  }

  /** Routing, stated independently of the loop: it succeeds exactly when every entry passes its checks;
      otherwise the first failing entry's error is the result. */
  lemma {:induction false} RouteAllOutcome(entries: seq<MapEntry>, projection: seq<Projection>, columns: map<string, string>,
                                           matched: Option<seq<Projection>>, notMatched: Option<seq<Projection>>)
    ensures var r := RouteAll(entries, projection, columns, matched, notMatched);
      && (r.Ok? <==> forall k | 0 <= k < |entries| ::
            EntryCheck(entries[k], projection, columns, matched.Some?, notMatched.Some?).None?)
      && (r.Ok? ==> r.value.0.Some? == matched.Some? && r.value.1.Some? == notMatched.Some?)
      && (r.Err? ==> exists k | 0 <= k < |entries| ::
            (forall m | 0 <= m < k :: EntryCheck(entries[m], projection, columns, matched.Some?, notMatched.Some?).None?)
            && EntryCheck(entries[k], projection, columns, matched.Some?, notMatched.Some?) == Some(r.error))
  {
    if |entries| > 0 {
      var n := |entries|;
      var front := entries[..n - 1];
      RouteAllOutcome(front, projection, columns, matched, notMatched);
      assert forall m | 0 <= m < n - 1 :: front[m] == entries[m];
    }
  }

  /** When routing succeeds, the Update entries are appended to Matched and the Insert entries to
      NotMatchedByTarget, each in mapper order. */
  lemma {:induction false} RouteAllLists(entries: seq<MapEntry>, projection: seq<Projection>, columns: map<string, string>,
                                         matched: Option<seq<Projection>>, notMatched: Option<seq<Projection>>)
    requires RouteAll(entries, projection, columns, matched, notMatched).Ok?
    ensures forall k | 0 <= k < |entries| :: EntryCheck(entries[k], projection, columns, true, true).None?
    ensures var r := RouteAll(entries, projection, columns, matched, notMatched);
      && r.value.0 == Extend(matched, Routed(entries, false, projection, columns))
      && r.value.1 == Extend(notMatched, Routed(entries, true, projection, columns))
  {
    RouteAllOutcome(entries, projection, columns, matched, notMatched);
    if |entries| == 0 {
      if matched.Some? {
        assert matched.value + [] == matched.value;
      }
      if notMatched.Some? {
        assert notMatched.value + [] == notMatched.value;
      }
    } else {
      var front := entries[..|entries| - 1];
      RouteAllLists(front, projection, columns, matched, notMatched);
      RouteAllOutcome(front, projection, columns, matched, notMatched);
      RouteListsStep(entries, projection, columns, matched, notMatched);
    }
  }

  /** One step of RouteAllLists: the last entry goes to the end of the list its prefix selects. */
  lemma RouteListsStep(entries: seq<MapEntry>, projection: seq<Projection>, columns: map<string, string>,
                       matched: Option<seq<Projection>>, notMatched: Option<seq<Projection>>)
    requires |entries| > 0
    requires RouteAll(entries, projection, columns, matched, notMatched).Ok?
    requires var front := entries[..|entries| - 1];
      var f := RouteAll(front, projection, columns, matched, notMatched);
      && f.Ok? && f.value.0.Some? == matched.Some? && f.value.1.Some? == notMatched.Some?
      && (forall k | 0 <= k < |front| :: EntryCheck(front[k], projection, columns, true, true).None?)
      && f.value.0 == Extend(matched, Routed(front, false, projection, columns))
      && f.value.1 == Extend(notMatched, Routed(front, true, projection, columns))
    ensures forall k | 0 <= k < |entries| :: EntryCheck(entries[k], projection, columns, true, true).None?
    ensures var r := RouteAll(entries, projection, columns, matched, notMatched);
      && r.value.0 == Extend(matched, Routed(entries, false, projection, columns))
      && r.value.1 == Extend(notMatched, Routed(entries, true, projection, columns))
  {
    var n := |entries|;
    var front := entries[..n - 1];
    var e := entries[n - 1];
    var f := RouteAll(front, projection, columns, matched, notMatched);
    assert EntryCheck(e, projection, columns, matched.Some?, notMatched.Some?).None?;
    assert forall m | 0 <= m < n - 1 :: front[m] == entries[m];
    var item := RoutedItem(e, projection, columns);
    var insert := StartsWith(e.member, InsertPrefix);
    var updates, inserts := Routed(front, false, projection, columns), Routed(front, true, projection, columns);
    assert Routed(entries, true, projection, columns) == inserts + (if insert then [item] else []);
    assert Routed(entries, false, projection, columns) == updates + (if insert then [] else [item]);
    if insert {
      assert updates + [] == updates;
      assert notMatched.value + inserts + [item] == notMatched.value + (inserts + [item]);
    } else {
      assert inserts + [] == inserts;
      assert matched.value + updates + [item] == matched.value + (updates + [item]);
    }
  }

  /** An entry that fails ends the routing: later entries do not change the outcome. */
  lemma {:induction false} RouteAllStops(entries: seq<MapEntry>, k: nat, projection: seq<Projection>,
                                         columns: map<string, string>,
                                         matched: Option<seq<Projection>>, notMatched: Option<seq<Projection>>)
    requires k <= |entries|
    requires RouteAll(entries[..k], projection, columns, matched, notMatched).Err?
    ensures RouteAll(entries, projection, columns, matched, notMatched)
         == RouteAll(entries[..k], projection, columns, matched, notMatched)
    decreases |entries| - k
  {
    if k == |entries| {
      assert entries[..k] == entries;
    } else {
      assert entries[..k + 1][..k] == entries[..k];
      RouteAllStops(entries, k + 1, projection, columns, matched, notMatched);
    }
  }

  /** One more entry of the routing loop: the prefix outcome extended by that entry's iteration. */
  lemma RouteAllPrefixStep(entries: seq<MapEntry>, k: nat, projection: seq<Projection>, columns: map<string, string>,
                           matched: Option<seq<Projection>>, notMatched: Option<seq<Projection>>,
                           lists: (Option<seq<Projection>>, Option<seq<Projection>>))
    requires k < |entries|
    requires RouteAll(entries[..k], projection, columns, matched, notMatched) == Ok(lists)
    ensures RouteAll(entries[..k + 1], projection, columns, matched, notMatched)
         == RouteEntry(entries[k], projection, columns, lists)
  {
    assert entries[..k + 1][..k] == entries[..k];
  }

  /** An entry that fails its checks after a successful prefix decides the outcome of the whole routing. */
  lemma RouteFailsAt(entries: seq<MapEntry>, k: nat, projection: seq<Projection>, columns: map<string, string>,
                     matched: Option<seq<Projection>>, notMatched: Option<seq<Projection>>,
                     lists: (Option<seq<Projection>>, Option<seq<Projection>>))
    requires k < |entries|
    requires RouteAll(entries[..k], projection, columns, matched, notMatched) == Ok(lists)
    requires EntryCheck(entries[k], projection, columns, lists.0.Some?, lists.1.Some?).Some?
    ensures RouteAll(entries, projection, columns, matched, notMatched)
         == Err(EntryCheck(entries[k], projection, columns, lists.0.Some?, lists.1.Some?).value)
  {
    RouteAllPrefixStep(entries, k, projection, columns, matched, notMatched, lists);
    RouteAllStops(entries, k + 1, projection, columns, matched, notMatched);
  }

  /** The routing loop (the foreach over the mapper). */
  method RouteColumns(mapper: seq<MapEntry>, projection: seq<Projection>, columns: map<string, string>,
                      matched: Option<seq<Projection>>, notMatchedByTarget: Option<seq<Projection>>)
    returns (r: Result<(Option<seq<Projection>>, Option<seq<Projection>>), Exception>)
    ensures r == RouteAll(mapper, projection, columns, matched, notMatchedByTarget)
  {
    var m, n := matched, notMatchedByTarget;
    for k := 0 to |mapper|
      invariant RouteAll(mapper[..k], projection, columns, matched, notMatchedByTarget) == Ok((m, n))
    {
      RouteAllPrefixStep(mapper, k, projection, columns, matched, notMatchedByTarget, (m, n));
      var entry := mapper[k];
      if !entry.value.ConstantMap? {
        RouteFailsAt(mapper, k, projection, columns, matched, notMatchedByTarget, (m, n));
        return Err(NotSupported(WrongQueryMessage));
      }
      var name := entry.member;
      if StartsWith(name, InsertPrefix) || StartsWith(name, UpdatePrefix) {
        var isInsert := StartsWith(name, InsertPrefix);
        var target := if isInsert then n else m;
        var v := entry.value.v;
        if v.NullValue? {
          RouteFailsAt(mapper, k, projection, columns, matched, notMatchedByTarget, (m, n));
          return Err(NullReference);
        }
        if !v.IntValue? {
          RouteFailsAt(mapper, k, projection, columns, matched, notMatchedByTarget, (m, n));
          return Err(InvalidCast);
        }
        if !(0 <= v.i < |projection|) {
          RouteFailsAt(mapper, k, projection, columns, matched, notMatchedByTarget, (m, n));
          return Err(ArgumentOutOfRange);
        }
        var key := name[7..];
        if key !in columns {
          RouteFailsAt(mapper, k, projection, columns, matched, notMatchedByTarget, (m, n));
          return Err(KeyNotFound(key));
        }
        if target.None? {
          RouteFailsAt(mapper, k, projection, columns, matched, notMatchedByTarget, (m, n));
          return Err(NullReference);
        }
        var added := target.value + [Projection(projection[v.i].expression, columns[key])];
        if isInsert {
          n := Some(added);
        } else {
          m := Some(added);
        }
      } else {
        RouteFailsAt(mapper, k, projection, columns, matched, notMatchedByTarget, (m, n));
        return Err(InvalidOperation(TranslateFailedMessage));
      }
    }
    assert mapper[..|mapper|] == mapper;
    r := Ok((m, n));
  }

  // ---------------------------------------------------------------------------------------------
  // The whole compilation

  /** The plan shape the core accepts: two tables, no residual predicate, a plain table joined to one source. */
  predicate SupportedShape(plan: SelectPlan)
  {
    |plan.tables| == 2 && plan.wherePredicate.None? && plan.tables[1].InnerJoin? && plan.tables[0].PlanTableExpr?
  }

  /** The MERGE tree before the in-memory rewrite and the routing: branches present exactly as given. */
  function InitialMerge(plan: SelectPlan, update: Option<Lambda>, insert: Option<Lambda>, delete: bool): MergeExpression
    requires SupportedShape(plan)
  {
    MergeExpression(
      plan.tables[1].joinPredicate, plan.tables[0].table, FromJoin(plan.tables[1].source), plan.limit, delete,
      if update.Some? then Some([]) else None,
      if insert.Some? then Some([]) else None,
      None, None)
  }

  /** The in-memory rewrite: the subquery's read-back projections, sorted and checked, the parameter grid, and
      the VALUES source replacing the join source. Returns the rewritten tree and the parameters. */
  function MaterializeOutcome(exp: MergeExpression, joined: JoinSource, props: seq<string>, rows: seq<seq<Value>>,
                              params0: seq<Parameter>): Result<(MergeExpression, seq<Parameter>), Exception>
    requires UniformRows(rows, |props|)
  {
    if !joined.Subquery? then Err(InvalidOperation(TranslateFailedMessage))
    else
      var projects :- BuildProjects(joined.projection, props);
      var sorted := SortByKey(projects, IndexKey);
      if |sorted| == 0 then Err(InvalidOperation(NoElementsMessage))
      else if !LastIndexMatchesCount(sorted) then Err(InvalidOperation(TranslateFailedMessage))
      else
        var grid :- GridOutcome(params0, rows, |props|, TypeMappings(sorted));
        var columnChanges :- ToDictionary(AliasEntries(sorted));
        Ok((exp.(tableChanges := Some(joined), sourceTable := FromValues(grid.0, ColumnNames(sorted), joined.alias),
                 columnChanges := Some(columnChanges)),
            grid.1))
  }

  /** The in-memory block of GetSqlMerge, run against the query context's parameters. */
  method Materialize(queryContext: QueryContext, exp: MergeExpression, joined: JoinSource, props: seq<string>,
                     rows: seq<seq<Value>>)
    returns (r: Result<MergeExpression, Exception>)
    requires UniformRows(rows, |props|)
    modifies queryContext
    ensures var outcome := MaterializeOutcome(exp, joined, props, rows, old(queryContext.parameterValues));
      && (r.Ok? <==> outcome.Ok?)
      && (r.Err? ==> r.error == outcome.error)
      && (r.Ok? ==> r.value == outcome.value.0 && queryContext.parameterValues == outcome.value.1)
  {
    if !joined.Subquery? {
      return Err(InvalidOperation(TranslateFailedMessage));
    }
    var built := BuildProjects(joined.projection, props);
    if built.Err? {
      return Err(built.error);
    }
    var projects := SortByKey(built.value, IndexKey);
    if |projects| == 0 {
      return Err(InvalidOperation(NoElementsMessage));
    }
    if projects[|projects| - 1].index + 1 != |projects| {
      return Err(InvalidOperation(TranslateFailedMessage));
    }
    var items := FillGrid(queryContext, rows, |props|, TypeMappings(projects));
    if items.Err? {
      return Err(items.error);
    }
    var columnChanges := ToDictionary(AliasEntries(projects));
    if columnChanges.Err? {
      return Err(columnChanges.error);
    }
    r := Ok(exp.(tableChanges := Some(joined), sourceTable := FromValues(items.value, ColumnNames(projects), joined.alias),
                 columnChanges := Some(columnChanges.value)));
  }

  const EmptyQueryText := "SELECT 0"

  function TruncateText(tableName: string): string
  {
    "TRUNCATE TABLE [" + tableName + "]"
  }

  /** GetSqlMerge as one function of its inputs: the specification the method below is proved against. */
  function CompileMerge(source: Source, tableName: string, entityType: EntityType, translate: Lambda -> Translation,
                        update: Option<Lambda>, insert: Option<Lambda>, delete: bool): Result<Compiled, Exception>
    requires WellFormedSource(source)
  {
    if !source.QuerySource? && !source.isAnonymous then Err(InvalidOperation(DefaultInvalidOperationMessage))
    else if source.NullList? then Err(ArgumentNull("source"))
    else if source.InMemory? && |source.rows| == 0 then
      Ok(Compiled(Text(if delete then TruncateText(tableName) else EmptyQueryText), []))
    else
      var execution := translate(MergeResult(update, insert));
      var plan := execution.plan;
      if !SupportedShape(plan) then Err(NotSupported(UnknownEntityMessage))
      else
        var exp0 := InitialMerge(plan, update, insert, delete);
        var materialized :- if source.InMemory? then
            MaterializeOutcome(exp0, plan.tables[1].source, source.properties, source.rows, execution.parameters)
          else Ok((exp0, execution.parameters));
        var exp := materialized.0;
        var columns :- GetColumns(entityType);
        var routed :- RouteAll(execution.mapper, plan.projection, columns, exp.matched, exp.notMatchedByTarget);
        Ok(Compiled(Statement(exp.(matched := routed.0, notMatchedByTarget := routed.1)), materialized.1))
  }

  /** GetSqlMerge (up to the hand-off to the renderer). */
  method GetSqlMerge(source: Source, tableName: string, entityType: EntityType, translate: Lambda -> Translation,
                     update: Option<Lambda>, insert: Option<Lambda>, delete: bool)
    returns (r: Result<Compiled, Exception>)
    requires WellFormedSource(source)
    ensures r == CompileMerge(source, tableName, entityType, translate, update, insert, delete)
  {
    if !source.QuerySource? {
      if !source.isAnonymous {
        return Err(InvalidOperation(DefaultInvalidOperationMessage));
      }
      if source.NullList? {
        return Err(ArgumentNull("source"));
      }
      if |source.rows| == 0 {
        return Ok(Compiled(Text(if delete then TruncateText(tableName) else EmptyQueryText), []));
      }
    }

    var execution := translate(MergeResult(update, insert));
    var selectExpression := execution.plan;
    var queryContext := new QueryContext(execution.parameters);

    if |selectExpression.tables| != 2
      || selectExpression.wherePredicate.Some?
      || !selectExpression.tables[1].InnerJoin?
      || !selectExpression.tables[0].PlanTableExpr?
    {
      return Err(NotSupported(UnknownEntityMessage));
    }
    var innerJoin := selectExpression.tables[1];
    var exp := InitialMerge(selectExpression, update, insert, delete);

    if source.InMemory? {
      var materialized := Materialize(queryContext, exp, innerJoin.source, source.properties, source.rows);
      if materialized.Err? {
        return Err(materialized.error);
      }
      exp := materialized.value;
    }

    var columns := GetColumns(entityType);
    if columns.Err? {
      return Err(columns.error);
    }
    var routed := RouteColumns(execution.mapper, selectExpression.projection, columns.value, exp.matched, exp.notMatchedByTarget);
    if routed.Err? {
      return Err(routed.error);
    }
    exp := exp.(matched := routed.value.0, notMatchedByTarget := routed.value.1);
    r := Ok(Compiled(Statement(exp), queryContext.parameterValues));
  }

  // ---------------------------------------------------------------------------------------------
  // What the compilation promises

  /** An empty in-memory list is answered without consulting the translator or the column map: a TRUNCATE of the
      target when unmatched target rows are to be deleted, a no-op query otherwise, and no parameters. */
  lemma EmptySourceShortCircuits(source: Source, tableName: string, entityType: EntityType, other: EntityType,
                                 translate: Lambda -> Translation, otherTranslate: Lambda -> Translation,
                                 update: Option<Lambda>, insert: Option<Lambda>, delete: bool)
    requires source.InMemory? && source.isAnonymous && |source.rows| == 0
    ensures CompileMerge(source, tableName, entityType, translate, update, insert, delete)
         == CompileMerge(source, tableName, other, otherTranslate, update, insert, delete)
    ensures var r := CompileMerge(source, tableName, entityType, translate, update, insert, delete);
      && r.Ok? && r.value.parameters == []
      && r.value.command == Text(if delete then "TRUNCATE TABLE [" + tableName + "]" else "SELECT 0")
  {
  }

  /** A source that is not a query and whose element type is not anonymous is refused before anything else is
      looked at, even when it is empty or null. */
  lemma NonAnonymousSourceRejected(source: Source, tableName: string, entityType: EntityType,
                                   translate: Lambda -> Translation, update: Option<Lambda>, insert: Option<Lambda>,
                                   delete: bool)
    requires WellFormedSource(source) && !source.QuerySource? && !source.isAnonymous
    ensures CompileMerge(source, tableName, entityType, translate, update, insert, delete)
         == Err(InvalidOperation(DefaultInvalidOperationMessage))
  {
  }

  /** A null source of an anonymous element type fails in ToList with ArgumentNullException for its "source"
      argument, before the translator or the column map is consulted. */
  lemma NullSourceRejected(source: Source, tableName: string, entityType: EntityType,
                           translate: Lambda -> Translation, update: Option<Lambda>, insert: Option<Lambda>,
                           delete: bool)
    requires source.NullList? && source.isAnonymous
    ensures CompileMerge(source, tableName, entityType, translate, update, insert, delete) == Err(ArgumentNull("source"))
  {
  }

  /** Past the source checks, compilation fails with "Unknown entity configured." exactly when the translated plan
      is not two tables joined by an inner join on a plain table with no residual predicate. */
  lemma UnsupportedShapeRejected(source: Source, tableName: string, entityType: EntityType,
                                 translate: Lambda -> Translation, update: Option<Lambda>, insert: Option<Lambda>,
                                 delete: bool)
    requires WellFormedSource(source)
    requires source.QuerySource? || (source.InMemory? && source.isAnonymous && |source.rows| > 0)
    ensures CompileMerge(source, tableName, entityType, translate, update, insert, delete)
         == Err(NotSupported(UnknownEntityMessage))
        <==> !SupportedShape(translate(MergeResult(update, insert)).plan)
  {
    var t := translate(MergeResult(update, insert));
    if SupportedShape(t.plan) {
      var exp0 := InitialMerge(t.plan, update, insert, delete);
      if source.InMemory? {
        var m := MaterializeOutcome(exp0, t.plan.tables[1].source, source.properties, source.rows, t.parameters);
        if m.Err? {
          MaterializeNeverShapeError(exp0, t.plan.tables[1].source, source.properties, source.rows, t.parameters);
        } else if GetColumns(entityType).Ok? {
          var exp := m.value.0;
          var columns := GetColumns(entityType).value;
          if RouteAll(t.mapper, t.plan.projection, columns, exp.matched, exp.notMatchedByTarget).Err? {
            RouteAllNeverShapeError(t.mapper, t.plan.projection, columns, exp.matched, exp.notMatchedByTarget);
          }
        }
      } else if GetColumns(entityType).Ok? {
        var columns := GetColumns(entityType).value;
        if RouteAll(t.mapper, t.plan.projection, columns, exp0.matched, exp0.notMatchedByTarget).Err? {
          RouteAllNeverShapeError(t.mapper, t.plan.projection, columns, exp0.matched, exp0.notMatchedByTarget);
        }
      }
    }
  }

  lemma MaterializeNeverShapeError(exp: MergeExpression, joined: JoinSource, props: seq<string>, rows: seq<seq<Value>>,
                                   params0: seq<Parameter>)
    requires UniformRows(rows, |props|)
    requires MaterializeOutcome(exp, joined, props, rows, params0).Err?
    ensures MaterializeOutcome(exp, joined, props, rows, params0).error != NotSupported(UnknownEntityMessage)
  {
    if joined.Subquery? {
      var b := BuildProjects(joined.projection, props);
      if b.Err? {
        var k :| 0 <= k < |joined.projection| && ProjectOf(joined.projection[k], props) == Err(b.error);
      }
    }
  }

  lemma RouteAllNeverShapeError(entries: seq<MapEntry>, projection: seq<Projection>, columns: map<string, string>,
                                matched: Option<seq<Projection>>, notMatched: Option<seq<Projection>>)
    requires RouteAll(entries, projection, columns, matched, notMatched).Err?
    ensures RouteAll(entries, projection, columns, matched, notMatched).error != NotSupported(UnknownEntityMessage)
  {
    RouteAllOutcome(entries, projection, columns, matched, notMatched);
    var r := RouteAll(entries, projection, columns, matched, notMatched);
    var k :| 0 <= k < |entries| && EntryCheck(entries[k], projection, columns, matched.Some?, notMatched.Some?) == Some(r.error);
  }

  /** The tree and parameters the source stage of CompileMerge hands to routing: the initial tree and the
      translator's parameters for a query source, the rewritten tree and the grown parameters for an in-memory one. */
  function StagedTree(source: Source, t: Translation, update: Option<Lambda>, insert: Option<Lambda>, delete: bool)
    : Result<(MergeExpression, seq<Parameter>), Exception>
    requires WellFormedSource(source) && SupportedShape(t.plan)
  {
    var exp0 := InitialMerge(t.plan, update, insert, delete);
    if source.InMemory? then MaterializeOutcome(exp0, t.plan.tables[1].source, source.properties, source.rows, t.parameters)
    else Ok((exp0, t.parameters))
  }

  /** How a produced MERGE statement is assembled: the staged tree with the routed lists in place of its empty
      action lists, and the staged parameters. */
  lemma CompileMergeAssembly(source: Source, tableName: string, entityType: EntityType, translate: Lambda -> Translation,
                             update: Option<Lambda>, insert: Option<Lambda>, delete: bool)
    requires WellFormedSource(source)
    requires CompileMerge(source, tableName, entityType, translate, update, insert, delete).Ok?
    requires CompileMerge(source, tableName, entityType, translate, update, insert, delete).value.command.Statement?
    ensures var t := translate(MergeResult(update, insert));
      && SupportedShape(t.plan) && GetColumns(entityType).Ok?
      && StagedTree(source, t, update, insert, delete).Ok?
      && var staged := StagedTree(source, t, update, insert, delete).value;
      && var routed := RouteAll(t.mapper, t.plan.projection, GetColumns(entityType).value, staged.0.matched,
                                staged.0.notMatchedByTarget);
      && routed.Ok?
      && CompileMerge(source, tableName, entityType, translate, update, insert, delete).value
         == Compiled(Statement(staged.0.(matched := routed.value.0, notMatchedByTarget := routed.value.1)), staged.1)
  {
  }

  /** The staged tree keeps the plan's join, target and limit, and its action lists are still empty, present
      exactly for the requested actions. */
  lemma StagedTreeShape(source: Source, t: Translation, update: Option<Lambda>, insert: Option<Lambda>, delete: bool)
    requires WellFormedSource(source) && SupportedShape(t.plan)
    requires StagedTree(source, t, update, insert, delete).Ok?
    ensures var e := StagedTree(source, t, update, insert, delete).value.0;
      && e.joinPredicate == t.plan.tables[1].joinPredicate && e.targetTable == t.plan.tables[0].table
      && e.limit == t.plan.limit && e.notMatchedBySource == delete
      && e.matched == (if update.Some? then Some([]) else None)
      && e.notMatchedByTarget == (if insert.Some? then Some([]) else None)
  {
    if source.InMemory? {
      MaterializeShape(InitialMerge(t.plan, update, insert, delete), t.plan.tables[1].source, source.properties,
                       source.rows, t.parameters);
    }
  }

  /** Routing into freshly created lists: the lists that exist are exactly the requested ones, every entry passed
      its checks, and each list holds the entries routed to it. */
  lemma RoutedFromInitial(entries: seq<MapEntry>, projection: seq<Projection>, columns: map<string, string>,
                          hasMatched: bool, hasNotMatched: bool)
    requires RouteAll(entries, projection, columns, if hasMatched then Some([]) else None,
                      if hasNotMatched then Some([]) else None).Ok?
    ensures forall k | 0 <= k < |entries| :: EntryCheck(entries[k], projection, columns, true, true).None?
    ensures var r := RouteAll(entries, projection, columns, if hasMatched then Some([]) else None,
                              if hasNotMatched then Some([]) else None).value;
      && (r.0.Some? <==> hasMatched) && (r.1.Some? <==> hasNotMatched)
      && (r.0.Some? ==> r.0.value == Routed(entries, false, projection, columns))
      && (r.1.Some? ==> r.1.value == Routed(entries, true, projection, columns))
  {
    var matched: Option<seq<Projection>> := if hasMatched then Some([]) else None;
    var notMatched: Option<seq<Projection>> := if hasNotMatched then Some([]) else None;
    RouteAllOutcome(entries, projection, columns, matched, notMatched);
    RouteAllLists(entries, projection, columns, matched, notMatched);
    assert [] + Routed(entries, false, projection, columns) == Routed(entries, false, projection, columns);
    assert [] + Routed(entries, true, projection, columns) == Routed(entries, true, projection, columns);
  }

  /** A produced MERGE statement: the plan's shape and the column map were accepted, the statement copies the
      plan's join, target and limit, and it has a Matched list exactly when an update is given and a
      NotMatchedByTarget list exactly when an insert is given. */
  lemma CompileMergeStatement(source: Source, tableName: string, entityType: EntityType, translate: Lambda -> Translation,
                              update: Option<Lambda>, insert: Option<Lambda>, delete: bool)
    requires WellFormedSource(source)
    requires CompileMerge(source, tableName, entityType, translate, update, insert, delete).Ok?
    requires CompileMerge(source, tableName, entityType, translate, update, insert, delete).value.command.Statement?
    ensures var t := translate(MergeResult(update, insert));
      var m := CompileMerge(source, tableName, entityType, translate, update, insert, delete).value.command.merge;
      && SupportedShape(t.plan) && GetColumns(entityType).Ok?
      && m.joinPredicate == t.plan.tables[1].joinPredicate && m.targetTable == t.plan.tables[0].table
      && m.limit == t.plan.limit && m.notMatchedBySource == delete
      && (m.matched.Some? <==> update.Some?) && (m.notMatchedByTarget.Some? <==> insert.Some?)
  {
    var t := translate(MergeResult(update, insert));
    CompileMergeAssembly(source, tableName, entityType, translate, update, insert, delete);
    StagedTreeShape(source, t, update, insert, delete);
    RoutedFromInitial(t.mapper, t.plan.projection, GetColumns(entityType).value, update.Some?, insert.Some?);
  }

  /** The action lists of a produced MERGE statement: every mapper entry passed its checks, and each list holds the
      mapper's `Update.` or `Insert.` entries, in mapper order. */
  lemma CompileMergeRouting(source: Source, tableName: string, entityType: EntityType, translate: Lambda -> Translation,
                            update: Option<Lambda>, insert: Option<Lambda>, delete: bool)
    requires WellFormedSource(source)
    requires CompileMerge(source, tableName, entityType, translate, update, insert, delete).Ok?
    requires CompileMerge(source, tableName, entityType, translate, update, insert, delete).value.command.Statement?
    ensures var t := translate(MergeResult(update, insert));
      var m := CompileMerge(source, tableName, entityType, translate, update, insert, delete).value.command.merge;
      && GetColumns(entityType).Ok?
      && (forall k | 0 <= k < |t.mapper| :: EntryCheck(t.mapper[k], t.plan.projection, GetColumns(entityType).value, true, true).None?)
      && (m.matched.Some? ==> m.matched.value == Routed(t.mapper, false, t.plan.projection, GetColumns(entityType).value))
      && (m.notMatchedByTarget.Some? ==>
            m.notMatchedByTarget.value == Routed(t.mapper, true, t.plan.projection, GetColumns(entityType).value))
  {
    var t := translate(MergeResult(update, insert));
    CompileMergeAssembly(source, tableName, entityType, translate, update, insert, delete);
    StagedTreeShape(source, t, update, insert, delete);
    RoutedFromInitial(t.mapper, t.plan.projection, GetColumns(entityType).value, update.Some?, insert.Some?);
  }

  /** The source side of a produced MERGE statement. A query source keeps the join source and the translator's
      parameters. An in-memory source becomes a VALUES table with one row per element and the table and column
      changes set, and the grid parameters follow the translator's. */
  lemma CompileMergeSource(source: Source, tableName: string, entityType: EntityType, translate: Lambda -> Translation,
                           update: Option<Lambda>, insert: Option<Lambda>, delete: bool)
    requires WellFormedSource(source)
    requires CompileMerge(source, tableName, entityType, translate, update, insert, delete).Ok?
    requires CompileMerge(source, tableName, entityType, translate, update, insert, delete).value.command.Statement?
    ensures var t := translate(MergeResult(update, insert));
      var c := CompileMerge(source, tableName, entityType, translate, update, insert, delete).value;
      var m := c.command.merge;
      && SupportedShape(t.plan)
      && (source.QuerySource? ==>
            m.sourceTable == FromJoin(t.plan.tables[1].source) && c.parameters == t.parameters
            && m.tableChanges.None? && m.columnChanges.None?)
      && (source.InMemory? ==>
            m.sourceTable.FromValues? && |m.sourceTable.rows| == |source.rows|
            && m.tableChanges == Some(t.plan.tables[1].source) && m.columnChanges.Some?
            && c.parameters == t.parameters + GridParameters(|t.parameters|, source.rows, |source.properties|))
  {
    if source.InMemory? {
      var t := translate(MergeResult(update, insert));
      CompileMergeInMemory(source, tableName, entityType, translate, update, insert, delete);
      MaterializeShape(InitialMerge(t.plan, update, insert, delete), t.plan.tables[1].source, source.properties,
                       source.rows, t.parameters);
    }
  }

  /** A successful in-memory rewrite: the source becomes a VALUES table with one row per element, the table and
      column changes are recorded, the action lists are left as they were, and the grid parameters are appended. It
      read back one project per subquery projection and passed the contiguity gate after the sort. */
  lemma MaterializeShape(exp: MergeExpression, joined: JoinSource, props: seq<string>, rows: seq<seq<Value>>,
                         params0: seq<Parameter>)
    requires UniformRows(rows, |props|)
    requires MaterializeOutcome(exp, joined, props, rows, params0).Ok?
    ensures var e := MaterializeOutcome(exp, joined, props, rows, params0).value.0;
      && e.sourceTable.FromValues? && |e.sourceTable.rows| == |rows|
      && e.tableChanges == Some(joined) && e.columnChanges.Some?
      && e.matched == exp.matched && e.notMatchedByTarget == exp.notMatchedByTarget
      && e.joinPredicate == exp.joinPredicate && e.targetTable == exp.targetTable && e.limit == exp.limit
      && e.notMatchedBySource == exp.notMatchedBySource
    ensures MaterializeOutcome(exp, joined, props, rows, params0).value.1
         == params0 + GridParameters(|params0|, rows, |props|)
    ensures joined.Subquery? && |joined.projection| > 0 && BuildProjects(joined.projection, props).Ok?
    ensures var sorted := SortByKey(BuildProjects(joined.projection, props).value, IndexKey);
      |sorted| == |joined.projection| && LastIndexMatchesCount(sorted)
  {
    var sorted := SortByKey(BuildProjects(joined.projection, props).value, IndexKey);
    var grid := GridOutcome(params0, rows, |props|, TypeMappings(sorted));
    assert grid.Ok?;
    if |rows| == 0 {
      assert params0 + GridParameters(|params0|, rows, |props|) == params0;
    }
  }

  /** In a compiled MERGE whose source is a VALUES table, cell (i, j) refers to parameter k, and that parameter
      holds value j of element i. */
  predicate ValuesCellBound(c: Compiled, i: nat, j: nat, k: int, rows: seq<seq<Value>>)
  {
    && c.command.Statement? && c.command.merge.sourceTable.FromValues?
    && var values := c.command.merge.sourceTable;
    && i < |values.rows| && j < |values.rows[i]| && 0 <= k < |c.parameters|
    && values.rows[i][j].SqlParameter? && values.rows[i][j].name == c.parameters[k].name
    && i < |rows| && j < |rows[i]| && c.parameters[k].value == rows[i][j]
  }

  /** In the VALUES table, cell (i, j) refers to the parameter that holds the j-th property of the i-th element. */
  lemma CompileMergeCellsBoundToValues(source: Source, tableName: string, entityType: EntityType,
                                       translate: Lambda -> Translation,
                                       update: Option<Lambda>, insert: Option<Lambda>, delete: bool, i: nat, j: nat)
    requires WellFormedSource(source) && source.InMemory?
    requires CompileMerge(source, tableName, entityType, translate, update, insert, delete).Ok?
    requires CompileMerge(source, tableName, entityType, translate, update, insert, delete).value.command.Statement?
    requires i < |source.rows| && j < |source.properties|
    ensures ValuesCellBound(CompileMerge(source, tableName, entityType, translate, update, insert, delete).value, i, j,
                            |translate(MergeResult(update, insert)).parameters| + i * |source.properties| + j,
                            source.rows)
  {
    var t := translate(MergeResult(update, insert));
    var c := CompileMerge(source, tableName, entityType, translate, update, insert, delete).value;
    var n0, w := |t.parameters|, |source.properties|;
    MulMonotone(0, i, w);
    CompileMergeInMemory(source, tableName, entityType, translate, update, insert, delete);
    var exp0 := InitialMerge(t.plan, update, insert, delete);
    var values := MaterializeOutcome(exp0, t.plan.tables[1].source, source.properties, source.rows, t.parameters).value.0.sourceTable;
    MaterializeCells(exp0, t.plan.tables[1].source, source.properties, source.rows, t.parameters, i, j);
    AppendedGridCell(t.parameters, source.rows, w, i, j);
    assert c.command.merge.sourceTable == values;
    assert c.parameters[n0 + i * w + j] == Parameter(CellName(n0, w, i, j), source.rows[i][j]);
    assert values.rows[i][j].name == CellName(n0, w, i, j);
  }

  /** The two facts about an in-memory compilation that the cell binding rests on. */
  lemma CompileMergeInMemory(source: Source, tableName: string, entityType: EntityType, translate: Lambda -> Translation,
                             update: Option<Lambda>, insert: Option<Lambda>, delete: bool)
    requires WellFormedSource(source) && source.InMemory?
    requires CompileMerge(source, tableName, entityType, translate, update, insert, delete).Ok?
    requires CompileMerge(source, tableName, entityType, translate, update, insert, delete).value.command.Statement?
    ensures var t := translate(MergeResult(update, insert));
      var c := CompileMerge(source, tableName, entityType, translate, update, insert, delete).value;
      && SupportedShape(t.plan)
      && c.parameters == t.parameters + GridParameters(|t.parameters|, source.rows, |source.properties|)
      && MaterializeOutcome(InitialMerge(t.plan, update, insert, delete), t.plan.tables[1].source,
                            source.properties, source.rows, t.parameters).Ok?
      && var e := MaterializeOutcome(InitialMerge(t.plan, update, insert, delete),
           t.plan.tables[1].source, source.properties, source.rows, t.parameters).value.0;
      && c.command.merge.sourceTable == e.sourceTable
      && c.command.merge.tableChanges == e.tableChanges && c.command.merge.columnChanges == e.columnChanges
  {
    var t := translate(MergeResult(update, insert));
    MaterializeShape(InitialMerge(t.plan, update, insert, delete), t.plan.tables[1].source, source.properties,
                     source.rows, t.parameters);
  }

  lemma AppendedGridCell(params0: seq<Parameter>, rows: seq<seq<Value>>, width: nat, i: nat, j: nat)
    requires UniformRows(rows, width) && i < |rows| && j < width
    ensures var all := params0 + GridParameters(|params0|, rows, width);
      var k := |params0| + i * width + j;
      k < |all| && all[k] == Parameter(CellName(|params0|, width, i, j), rows[i][j])
  {
    GridParametersCell(|params0|, rows, width, i, j);
  }

  /** The VALUES rows of a successful in-memory rewrite: cell (i, j) refers to the parameter numbered after it. */
  lemma MaterializeCells(exp: MergeExpression, joined: JoinSource, props: seq<string>, rows: seq<seq<Value>>,
                         params0: seq<Parameter>, i: nat, j: nat)
    requires UniformRows(rows, |props|)
    requires MaterializeOutcome(exp, joined, props, rows, params0).Ok?
    requires i < |rows| && j < |props|
    ensures var values := MaterializeOutcome(exp, joined, props, rows, params0).value.0.sourceTable;
      && values.FromValues? && i < |values.rows| && j < |values.rows[i]|
      && values.rows[i][j].SqlParameter? && values.rows[i][j].name == CellName(|params0|, |props|, i, j)
  {
    var sorted := SortByKey(BuildProjects(joined.projection, props).value, IndexKey);
    var grid := GridOutcome(params0, rows, |props|, TypeMappings(sorted));
    assert grid.Ok?;
    assert grid.value.0 == GridItems(|params0|, |rows|, |props|, TypeMappings(sorted));
  }

  /** Starting from parameters with distinct names, the compiled statement's parameters have distinct names: the
      generated names never collide with the translator's or with each other. */
  lemma CompileMergeUniqueParameters(source: Source, tableName: string, entityType: EntityType,
                                     translate: Lambda -> Translation,
                                     update: Option<Lambda>, insert: Option<Lambda>, delete: bool)
    requires WellFormedSource(source)
    requires UniqueNames(translate(MergeResult(update, insert)).parameters)
    requires CompileMerge(source, tableName, entityType, translate, update, insert, delete).Ok?
    ensures UniqueNames(CompileMerge(source, tableName, entityType, translate, update, insert, delete).value.parameters)
  {
    var c := CompileMerge(source, tableName, entityType, translate, update, insert, delete).value;
    if c.command.Statement? {
      CompileMergeParameters(source, tableName, entityType, translate, update, insert, delete);
      if source.InMemory? {
        AppendUniqueGrid(translate(MergeResult(update, insert)).parameters, source.rows, |source.properties|);
      }
    }
  }

  /** Where a compiled statement's parameters come from: the translator's alone for a query source; for an
      in-memory source, the translator's followed by the grid, none of whose names was taken. */
  lemma CompileMergeParameters(source: Source, tableName: string, entityType: EntityType,
                               translate: Lambda -> Translation,
                               update: Option<Lambda>, insert: Option<Lambda>, delete: bool)
    requires WellFormedSource(source)
    requires CompileMerge(source, tableName, entityType, translate, update, insert, delete).Ok?
    requires CompileMerge(source, tableName, entityType, translate, update, insert, delete).value.command.Statement?
    ensures var t := translate(MergeResult(update, insert));
      var c := CompileMerge(source, tableName, entityType, translate, update, insert, delete).value;
      && (source.QuerySource? ==> c.parameters == t.parameters)
      && (source.InMemory? ==>
            c.parameters == t.parameters + GridParameters(|t.parameters|, source.rows, |source.properties|)
            && !ClashBefore(t.parameters, |source.rows| * |source.properties|))
  {
    if source.InMemory? {
      var t := translate(MergeResult(update, insert));
      CompileMergeInMemory(source, tableName, entityType, translate, update, insert, delete);
      MaterializeGridFree(InitialMerge(t.plan, update, insert, delete), t.plan.tables[1].source, source.properties,
                          source.rows, t.parameters);
    }
  }

  /** A successful in-memory rewrite registered all R*C grid names without a clash. */
  lemma MaterializeGridFree(exp: MergeExpression, joined: JoinSource, props: seq<string>, rows: seq<seq<Value>>,
                            params0: seq<Parameter>)
    requires UniformRows(rows, |props|)
    requires MaterializeOutcome(exp, joined, props, rows, params0).Ok?
    ensures !ClashBefore(params0, |rows| * |props|)
  {
    var sorted := SortByKey(BuildProjects(joined.projection, props).value, IndexKey);
    assert GridOutcome(params0, rows, |props|, TypeMappings(sorted)).Ok?;
    assert Attempted(|rows|, |props|, |sorted|) == |rows| * |props|;
  }

  lemma AppendUniqueGrid(params0: seq<Parameter>, rows: seq<seq<Value>>, width: nat)
    requires UniformRows(rows, width) && UniqueNames(params0)
    requires !ClashBefore(params0, |rows| * width)
    ensures UniqueNames(params0 + GridParameters(|params0|, rows, width))
  {
    var n0 := |params0|;
    var g := GridParameters(n0, rows, width);
    GridParametersUnique(n0, rows, width);
    GridParametersNames(n0, rows, width);
    forall k | 0 <= k < |g|
      ensures g[k].name !in Names(params0)
    {
      assert !Taken(params0, n0 + k);
    }
    AppendUnique(params0, g);
  }

  lemma AppendUnique(a: seq<Parameter>, b: seq<Parameter>)
    requires UniqueNames(a) && UniqueNames(b)
    requires forall k | 0 <= k < |b| :: b[k].name !in Names(a)
    ensures UniqueNames(a + b)
  {
    var all := a + b;
    forall x, y | 0 <= x < y < |all|
      ensures all[x].name != all[y].name
    {
      if x < |a| && y >= |a| {
        assert all[x] in a && all[y] == b[y - |a|];
      } else if x >= |a| {
        assert all[x] == b[x - |a|] && all[y] == b[y - |a|];
      }
    }
  }
}
