/** The projection the merge join is translated with (MergeIntoExtensions.MergeResult): one lambda over the target
    row `t` and the source row `s` whose body initialises a Result object with an Update member, an Insert member,
    both or neither. Lambda parameters are positional: `ParamRef(k)` is the k-th parameter of the enclosing lambda. */
module MergeResultBinder {
  import opened Wrappers
  import opened SqlTree

  datatype LinqExpr =
    | ParamRef(index: nat)
    | ConstExpr(value: Value)
    | MemberAccess(target: LinqExpr, member: string)
    | BinaryExpr(op: string, left: LinqExpr, right: LinqExpr)
    | ConditionalExpr(test: LinqExpr, ifTrue: LinqExpr, ifFalse: LinqExpr)
    | MemberInit(typeName: string, bindings: seq<MemberBinding>)

  datatype MemberBinding = MemberBinding(member: string, expression: LinqExpr)

  datatype Lambda = Lambda(parameters: seq<string>, body: LinqExpr)

  const ResultTypeName := "Result"
  const UpdateMember := "Update"
  const InsertMember := "Insert"

  /** The parameters an expression refers to. */
  function Refs(e: LinqExpr): set<nat>
    decreases e, 1
  {
    match e
    case ParamRef(k) => {k}
    case ConstExpr(_) => {}
    case MemberAccess(t, _) => Refs(t)
    case BinaryExpr(_, l, r) => Refs(l) + Refs(r)
    case ConditionalExpr(c, a, b) => Refs(c) + Refs(a) + Refs(b)
    case MemberInit(_, bs) => BindingRefs(bs)
  }

  function BindingRefs(bs: seq<MemberBinding>): set<nat>
    decreases bs, 0
  {
    if |bs| == 0 then {} else BindingRefs(bs[..|bs| - 1]) + Refs(bs[|bs| - 1].expression)
  }

  /** ParameterReplaceVisitor: parameter k becomes parameter mapping[k]; a parameter the mapping does not name is
      left alone. */
  function Rebind(e: LinqExpr, mapping: seq<nat>): LinqExpr
    decreases e, 1
  {
    match e
    case ParamRef(k) => if k < |mapping| then ParamRef(mapping[k]) else e
    case ConstExpr(_) => e
    case MemberAccess(t, m) => MemberAccess(Rebind(t, mapping), m)
    case BinaryExpr(op, l, r) => BinaryExpr(op, Rebind(l, mapping), Rebind(r, mapping))
    case ConditionalExpr(c, a, b) => ConditionalExpr(Rebind(c, mapping), Rebind(a, mapping), Rebind(b, mapping))
    case MemberInit(ty, bs) => MemberInit(ty, RebindBindings(bs, mapping))
  }

  function RebindBindings(bs: seq<MemberBinding>, mapping: seq<nat>): (r: seq<MemberBinding>)
    ensures |r| == |bs|
    decreases bs, 0
  {
    if |bs| == 0 then []
    else
      var last := bs[|bs| - 1];
      RebindBindings(bs[..|bs| - 1], mapping) + [MemberBinding(last.member, Rebind(last.expression, mapping))]
  }

  /** Where the parameters in `s` are sent by `mapping`. */
  function Image(s: set<nat>, mapping: seq<nat>): set<nat>
  {
    set k | k in s && k < |mapping| :: mapping[k]
  }

  lemma ImageUnion(a: set<nat>, b: set<nat>, mapping: seq<nat>)
    ensures Image(a + b, mapping) == Image(a, mapping) + Image(b, mapping)
  {
  }

  /** Rebinding moves every reference through the mapping and adds none. */
  lemma {:induction false} RebindRefs(e: LinqExpr, mapping: seq<nat>)
    requires forall k | k in Refs(e) :: k < |mapping|
    ensures Refs(Rebind(e, mapping)) == Image(Refs(e), mapping)
    decreases e, 1
  {
    match e
    case ParamRef(k) =>
    case ConstExpr(_) =>
    case MemberAccess(t, _) =>
      assert Refs(e) == Refs(t);
      RebindRefs(t, mapping);
    case BinaryExpr(_, l, r) =>
      assert Refs(e) == Refs(l) + Refs(r);
      RebindRefs(l, mapping);
      RebindRefs(r, mapping);
      ImageUnion(Refs(l), Refs(r), mapping);
    case ConditionalExpr(c, a, b) =>
      assert Refs(e) == Refs(c) + Refs(a) + Refs(b);
      RebindRefs(c, mapping);
      RebindRefs(a, mapping);
      RebindRefs(b, mapping);
      ImageUnion(Refs(c), Refs(a), mapping);
      ImageUnion(Refs(c) + Refs(a), Refs(b), mapping);
    case MemberInit(_, bs) =>
      assert Refs(e) == BindingRefs(bs);
      RebindBindingsRefs(bs, mapping);
  }

  lemma {:induction false} RebindBindingsRefs(bs: seq<MemberBinding>, mapping: seq<nat>)
    requires forall k | k in BindingRefs(bs) :: k < |mapping|
    ensures BindingRefs(RebindBindings(bs, mapping)) == Image(BindingRefs(bs), mapping)
    decreases bs, 0
  {
    if |bs| > 0 {
      var front, last := bs[..|bs| - 1], bs[|bs| - 1];
      var r := RebindBindings(bs, mapping);
      assert r[..|r| - 1] == RebindBindings(front, mapping);
      assert BindingRefs(bs) == BindingRefs(front) + Refs(last.expression);
      RebindBindingsRefs(front, mapping);
      RebindRefs(last.expression, mapping);
      ImageUnion(BindingRefs(front), Refs(last.expression), mapping);
    }
  }

  /** Sending (0, 1) to (t, s) keeps a two-parameter body as it is. */
  lemma {:induction false} RebindIdentity(e: LinqExpr)
    ensures Rebind(e, [0, 1]) == e
    decreases e, 1
  {
    match e
    case ParamRef(k) =>
    case ConstExpr(_) =>
    case MemberAccess(t, _) =>
      RebindIdentity(t);
    case BinaryExpr(_, l, r) =>
      RebindIdentity(l);
      RebindIdentity(r);
    case ConditionalExpr(c, a, b) =>
      RebindIdentity(c);
      RebindIdentity(a);
      RebindIdentity(b);
    case MemberInit(_, bs) =>
      RebindBindingsIdentity(bs);
  }

  lemma {:induction false} RebindBindingsIdentity(bs: seq<MemberBinding>)
    ensures RebindBindings(bs, [0, 1]) == bs
    decreases bs, 0
  {
    if |bs| > 0 {
      RebindBindingsIdentity(bs[..|bs| - 1]);
      RebindIdentity(bs[|bs| - 1].expression);
      assert bs == bs[..|bs| - 1] + [bs[|bs| - 1]];
    }
  }

  /** MergeResult: `(t, s) => new Result { Update = <update body over t, s>, Insert = <insert body over s> }`, with
      each member bound only when its projection is given. */
  function MergeResult(update: Option<Lambda>, insert: Option<Lambda>): (r: Lambda)
    ensures r.parameters == ["t", "s"] && r.body.MemberInit? && r.body.typeName == ResultTypeName
    ensures (exists b | b in r.body.bindings :: b.member == UpdateMember) <==> update.Some?
    ensures (exists b | b in r.body.bindings :: b.member == InsertMember) <==> insert.Some?
    ensures forall b | b in r.body.bindings && b.member == UpdateMember ::
      update.Some? && b.expression == Rebind(update.value.body, [0, 1])
    ensures forall b | b in r.body.bindings && b.member == InsertMember ::
      insert.Some? && b.expression == Rebind(insert.value.body, [1])
    ensures forall i, j | 0 <= i < j < |r.body.bindings| :: r.body.bindings[i].member == UpdateMember && r.body.bindings[j].member == InsertMember
  {
    var updateBinding := if update.Some? then [MemberBinding(UpdateMember, Rebind(update.value.body, [0, 1]))] else [];
    var insertBinding := if insert.Some? then [MemberBinding(InsertMember, Rebind(insert.value.body, [1]))] else [];
    Lambda(["t", "s"], MemberInit(ResultTypeName, updateBinding + insertBinding))
  }

  /** For well-scoped projections the merged lambda is well scoped: the update body keeps its references to t and s,
      and the insert body, whose only parameter was the source row, now refers to s alone. */
  lemma MergeResultScoped(update: Option<Lambda>, insert: Option<Lambda>)
    requires update.Some? ==> Refs(update.value.body) <= {0, 1}
    requires insert.Some? ==> Refs(insert.value.body) <= {0}
    ensures Refs(MergeResult(update, insert).body) <= {0, 1}
    ensures forall b | b in MergeResult(update, insert).body.bindings && b.member == InsertMember :: Refs(b.expression) <= {1}
    ensures forall b | b in MergeResult(update, insert).body.bindings && b.member == UpdateMember ::
      b.expression == update.value.body
  {
    var bs := MergeResult(update, insert).body.bindings;
    if update.Some? {
      RebindRefs(update.value.body, [0, 1]);
      RebindIdentity(update.value.body);
    }
    if insert.Some? {
      RebindRefs(insert.value.body, [1]);
    }
    forall i | 0 <= i <= |bs|
      ensures BindingRefs(bs[..i]) <= {0, 1}
    {
      BindingRefsPrefix(bs, i);
    }
    assert bs[..|bs|] == bs;
  }

  lemma {:induction false} BindingRefsPrefix(bs: seq<MemberBinding>, i: nat)
    requires i <= |bs|
    requires forall b | b in bs :: Refs(b.expression) <= {0, 1}
    ensures BindingRefs(bs[..i]) <= {0, 1}
  {
    if i > 0 {
      assert bs[..i][..i - 1] == bs[..i - 1];
      assert bs[i - 1] in bs;
      BindingRefsPrefix(bs, i - 1);
    }
  }
}
