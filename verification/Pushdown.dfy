/** Recognition of a closure body as a tree of conditions (`ast.rs`), its instantiation with the
    captured variables (`runtime/mod.rs`), and the proof that filtering through the conditions is
    filtering through the closure. */
module Pushdown {
  import opened Wrappers
  import opened Expressions

  datatype Statement = Statement(run: Env -> Option<Env>)

  datatype Block = Block(stmts: seq<Statement>, tail: Option<Expr>)

  datatype Operand = Value(e: Expr) | Truth(b: bool) | Field(name: string)

  datatype PredicateExpr =
    | Leaf(field: string, op: BinaryOp, operand: Operand)
    | InList(field: string, list: Expr, negated: bool)
    | StringMatch(field: string, how: StringMatchOp, pattern: Expr, negated: bool)
    | AllOf(items: seq<PredicateExpr>)
    | AnyOf(items: seq<PredicateExpr>)

  // ----- recognition -----

  function StripParens(e: Expr): Expr {
    if e.Paren? then StripParens(e.inner) else e
  }

  method StripParensLoop(e: Expr) returns (r: Expr)
    ensures r == StripParens(e) && !r.Paren?
    ensures forall env :: Eval(r, env) == Eval(e, env)
  {
    r := e;
    while r.Paren?
      invariant StripParens(r) == StripParens(e)
      invariant forall env :: Eval(r, env) == Eval(e, env)
      decreases r
    {
      r := r.inner;
    }
  }

  function FieldOfParam(param: string, e: Expr): Option<string> {
    if e.FieldAccess? && e.base == Ident(param) then Some(e.field) else None
  }

  function Conjuncts(t: PredicateExpr): seq<PredicateExpr> { if t.AllOf? then t.items else [t] }

  function Disjuncts(t: PredicateExpr): seq<PredicateExpr> { if t.AnyOf? then t.items else [t] }

  predicate Mentions(param: string, e: Expr)
    decreases e
  {
    match e
    case Ident(name) => name == param
    case FieldAccess(base, _) => Mentions(param, base)
    case Call(callee, args) => Mentions(param, callee) || exists i :: 0 <= i < |args| && Mentions(param, args[i])
    case ArrayLit(items) => exists i :: 0 <= i < |items| && Mentions(param, items[i])
    case TupleLit(elems) => exists i :: 0 <= i < |elems| && Mentions(param, elems[i])
    case Index(base, index) => Mentions(param, base) || Mentions(param, index)
    case TupleIndex(base, _) => Mentions(param, base)
    case Binary(_, left, right) => Mentions(param, left) || Mentions(param, right)
    case Unary(_, operand) => Mentions(param, operand)
    case Paren(inner) => Mentions(param, inner)
    case _ => false
  }

  function MatchOpOf(name: string): Option<StringMatchOp> {
    if name == "contains" then Some(Contains)
    else if name == "startsWith" then Some(StartsWith)
    else if name == "endsWith" then Some(EndsWith)
    else None
  }

  function RecognizeCall(param: string, callee: Expr, args: seq<Expr>, negated: bool): Option<PredicateExpr> {
    var callee := StripParens(callee);
    if !callee.FieldAccess? || |args| != 1 then None
    else
      var base, arg := StripParens(callee.base), StripParens(args[0]);
      if callee.field == "contains" && FieldOfParam(param, arg).Some? && !Mentions(param, base) then
        Some(InList(FieldOfParam(param, arg).value, base, negated))
      else if MatchOpOf(callee.field).Some? && FieldOfParam(param, base).Some? && !Mentions(param, arg) then
        Some(StringMatch(FieldOfParam(param, base).value, MatchOpOf(callee.field).value, arg, negated))
      else
        None
  }

  function Flip(op: BinaryOp): BinaryOp {
    match op
    case Lt => Gt
    case LtEq => GtEq
    case Gt => Lt
    case GtEq => LtEq
    case other => other
  }

  predicate IsRelational(op: BinaryOp) { op in {Lt, LtEq, Gt, GtEq} }

  predicate IsComparison(op: BinaryOp) { op in {Eq, NotEq} || IsRelational(op) }

  /** `call == true`, `false != call` and the like, the call being either side. */
  function RecognizeTruthTest(param: string, op: BinaryOp, call: Expr, truth: Expr): Option<PredicateExpr> {
    if op in {Eq, NotEq} && truth.Bool? && call.Call?
    then RecognizeCall(param, call.callee, call.args, truth.b == op.NotEq?) else None
  }

  function RecognizeComparison(param: string, op: BinaryOp, left: Expr, right: Expr): Option<PredicateExpr> {
    if RecognizeTruthTest(param, op, left, right).Some? then RecognizeTruthTest(param, op, left, right)
    else if RecognizeTruthTest(param, op, right, left).Some? then RecognizeTruthTest(param, op, right, left)
    else
      var lf, rf := FieldOfParam(param, left), FieldOfParam(param, right);
      if IsRelational(op) && lf.Some? && rf.Some? then Some(Leaf(lf.value, op, Field(rf.value)))
      else if lf.Some? then Some(Leaf(lf.value, op, Value(right)))
      else if rf.Some? then Some(Leaf(rf.value, Flip(op), Value(left)))
      else None
  }

  function RecognizeTree(param: string, e: Expr): Option<PredicateExpr>
    decreases e
  {
    match e
    case Paren(inner) => RecognizeTree(param, inner)
    case Binary(op, left, right) =>
      if op.And? || op.Or? then
        var l, r := RecognizeTree(param, left), RecognizeTree(param, right);
        if l.None? || r.None? then None
        else if op.And? then Some(AllOf(Conjuncts(l.value) + Conjuncts(r.value)))
        else Some(AnyOf(Disjuncts(l.value) + Disjuncts(r.value)))
      else if IsComparison(op) then RecognizeComparison(param, op, StripParens(left), StripParens(right))
      else None
    case Unary(Not, operand) =>
      var inner := StripParens(operand);
      var call := if inner.Call? then RecognizeCall(param, inner.callee, inner.args, true) else None;
      if call.Some? then call
      else if FieldOfParam(param, inner).Some? then Some(Leaf(FieldOfParam(param, inner).value, Eq, Truth(false)))
      else None
    case Call(callee, args) => RecognizeCall(param, callee, args, false)
    case _ =>
      if FieldOfParam(param, e).Some? then Some(Leaf(FieldOfParam(param, e).value, Eq, Truth(true))) else None
  }

  function Recognize(params: seq<string>, body: Block): Option<PredicateExpr> {
    if |params| == 1 && body.stmts == [] && body.tail.Some? then RecognizeTree(params[0], body.tail.value) else None
  }

  /** The two merges of `ast.rs` as they are written, growing a vector. */
  method MergeAnd(l: PredicateExpr, r: PredicateExpr) returns (t: PredicateExpr)
    ensures t == AllOf(Conjuncts(l) + Conjuncts(r))
  {
    var items := [];
    match l {
      case AllOf(v) => items := items + v;
      case other => items := items + [other];
    }
    match r {
      case AllOf(v) => items := items + v;
      case other => items := items + [other];
    }
    t := AllOf(items);
  }

  method MergeOr(l: PredicateExpr, r: PredicateExpr) returns (t: PredicateExpr)
    ensures t == AnyOf(Disjuncts(l) + Disjuncts(r))
  {
    var items := [];
    match l {
      case AnyOf(v) => items := items + v;
      case other => items := items + [other];
    }
    match r {
      case AnyOf(v) => items := items + v;
      case other => items := items + [other];
    }
    t := AnyOf(items);
  }

  // ----- which bodies are recognised -----

  /** The expression is that field of the parameter, perhaps in parentheses. */
  predicate IsField(param: string, e: Expr) {
    match e
    case Paren(inner) => IsField(param, inner)
    case FieldAccess(Ident(name), _) => name == param
    case _ => false
  }

  predicate IsTruth(e: Expr) { e.Bool? || (e.Paren? && IsTruth(e.inner)) }

  /** `list.contains(x.field)`, or `x.field.contains(text)` and the like, what is not the field leaving `x` alone. */
  predicate IsTest(param: string, e: Expr) {
    match e
    case Paren(inner) => IsTest(param, inner)
    case Call(callee, args) => |args| == 1 && IsTestOf(param, callee, args[0])
    case _ => false
  }

  predicate IsTestOf(param: string, callee: Expr, arg: Expr) {
    match callee
    case Paren(inner) => IsTestOf(param, inner, arg)
    case FieldAccess(base, name) =>
      || (name == "contains" && IsField(param, arg) && !Mentions(param, base))
      || (name in {"contains", "startsWith", "endsWith"} && IsField(param, base) && !Mentions(param, arg))
    case _ => false
  }

  /** Conditions: fields and tests, either perhaps negated; comparisons of a field, or of a test with a truth
      value; and conditions joined by `&&` and `||`. */
  predicate IsCondition(param: string, e: Expr) {
    || IsField(param, e)
    || IsTest(param, e)
    || match e {
      case Paren(inner) => IsCondition(param, inner)
      case Unary(Not, operand) => IsField(param, operand) || IsTest(param, operand)
      case Binary(op, left, right) =>
        if op == And || op == Or then IsCondition(param, left) && IsCondition(param, right)
        else if op == Eq || op == NotEq then
          || IsField(param, left) || IsField(param, right)
          || (IsTest(param, left) && IsTruth(right)) || (IsTruth(left) && IsTest(param, right))
        else op in {Lt, LtEq, Gt, GtEq} && (IsField(param, left) || IsField(param, right))
      case _ => false
    }
  }

  lemma {:induction false} FieldInParens(param: string, e: Expr)
    ensures IsField(param, e) <==> FieldOfParam(param, StripParens(e)).Some?
    ensures IsTruth(e) <==> StripParens(e).Bool?
    ensures Mentions(param, StripParens(e)) <==> Mentions(param, e)
    decreases e
  {
    if e.Paren? { FieldInParens(param, e.inner); }
  }

  lemma {:induction false} TestOfInParens(param: string, callee: Expr, arg: Expr, negated: bool)
    ensures IsTestOf(param, callee, arg) <==> RecognizeCall(param, callee, [arg], negated).Some?
    decreases callee
  {
    if callee.Paren? {
      TestOfInParens(param, callee.inner, arg, negated);
    } else if callee.FieldAccess? {
      FieldInParens(param, callee.base);
      FieldInParens(param, arg);
    }
  }

  lemma {:induction false} TestInParens(param: string, e: Expr, negated: bool)
    ensures IsTest(param, e) <==>
      StripParens(e).Call? && RecognizeCall(param, StripParens(e).callee, StripParens(e).args, negated).Some?
    decreases e
  {
    hide RecognizeCall, IsTestOf;
    if e.Paren? {
      TestInParens(param, e.inner, negated);
    } else if e.Call? {
      if |e.args| == 1 {
        assert e.args == [e.args[0]];
        TestOfInParens(param, e.callee, e.args[0], negated);
      } else {
        OneArgument(param, e.callee, e.args, negated);
      }
    }
  }

  lemma OneArgument(param: string, callee: Expr, args: seq<Expr>, negated: bool)
    requires |args| != 1
    ensures RecognizeCall(param, callee, args, negated).None?
  {}

  /** Exactly the conditions are recognised. */
  lemma {:induction false} RecognizedExactly(param: string, e: Expr)
    ensures RecognizeTree(param, e).Some? <==> IsCondition(param, e)
    decreases e
  {
    hide RecognizeCall, Mentions;
    FieldInParens(param, e);
    TestInParens(param, e, false);
    match e
    case Paren(inner) => RecognizedExactly(param, inner);
    case Binary(op, left, right) =>
      if op == And || op == Or {
        RecognizedExactly(param, left);
        RecognizedExactly(param, right);
      } else {
        ComparisonRecognized(param, op, left, right);
      }
    case Unary(_, operand) =>
      FieldInParens(param, operand);
      TestInParens(param, operand, true);
    case _ =>
  }

  lemma ComparisonRecognized(param: string, op: BinaryOp, left: Expr, right: Expr)
    requires op != And && op != Or
    ensures IsCondition(param, Binary(op, left, right))
      <==> IsComparison(op) && RecognizeComparison(param, op, StripParens(left), StripParens(right)).Some?
  {
    hide RecognizeCall, Mentions, IsField, IsTest, IsTruth;
    NoFieldNoTest(param, op, left, right);
    FieldInParens(param, left);
    FieldInParens(param, right);
    TestInParens(param, left, true);
    TestInParens(param, left, false);
    TestInParens(param, right, true);
    TestInParens(param, right, false);
  }

  lemma NoFieldNoTest(param: string, op: BinaryOp, left: Expr, right: Expr)
    ensures !IsField(param, Binary(op, left, right)) && !IsTest(param, Binary(op, left, right))
  {}

  // ----- meaning of a tree on a row, its operands evaluated with the parameter bound to that row -----

  type Row = map<string, Value>

  function At(row: Row, field: string): Value { if field in row then row[field] else VNull }

  predicate Related(op: BinaryOp, l: Value, r: Value) { Relate(op, l, r) == Some(true) }

  predicate TreeHolds(t: PredicateExpr, env: Env, row: Row) {
    match t
    case Leaf(field, op, Value(e)) => Eval(e, env).Some? && Related(op, At(row, field), Eval(e, env).value)
    case Leaf(field, op, Truth(b)) => Related(op, At(row, field), VBool(b))
    case Leaf(field, op, Field(other)) => Related(op, At(row, field), At(row, other))
    case InList(field, list, negated) =>
      var v := Eval(list, env);
      v.Some? && v.value.VList? && (At(row, field) in v.value.items) != negated
    case StringMatch(field, how, pattern, negated) =>
      var v := Eval(pattern, env);
      && v.Some? && v.value.VStr? && At(row, field).VStr?
      && StringMatches(how, At(row, field).s, v.value.s) != negated
    case AllOf(items) => forall i | 0 <= i < |items| :: TreeHolds(items[i], env, row)
    case AnyOf(items) => exists i | 0 <= i < |items| :: TreeHolds(items[i], env, row)
  }

  /** Every list operand denotes a list, every pattern and every matched field a string. */
  predicate KindsFit(t: PredicateExpr, env: Env, row: Row) {
    match t
    case Leaf(_, _, _) => true
    case InList(_, list, _) => Eval(list, env).Some? && Eval(list, env).value.VList?
    case StringMatch(field, _, pattern, _) =>
      Eval(pattern, env).Some? && Eval(pattern, env).value.VStr? && At(row, field).VStr?
    case AllOf(items) => forall i | 0 <= i < |items| :: KindsFit(items[i], env, row)
    case AnyOf(items) => forall i | 0 <= i < |items| :: KindsFit(items[i], env, row)
  }

  lemma {:induction false} StripParensMeans(e: Expr, env: Env)
    ensures Eval(StripParens(e), env) == Eval(e, env) && !StripParens(e).Paren?
    decreases e
  {
    if e.Paren? { StripParensMeans(e.inner, env); }
  }

  lemma AllOfConcat(a: seq<PredicateExpr>, b: seq<PredicateExpr>, env: Env, row: Row)
    ensures TreeHolds(AllOf(a + b), env, row) <==> TreeHolds(AllOf(a), env, row) && TreeHolds(AllOf(b), env, row)
    ensures KindsFit(AllOf(a + b), env, row) <==> KindsFit(AllOf(a), env, row) && KindsFit(AllOf(b), env, row)
  {
    hide Eval, Related, StringMatches;
    assert forall i | 0 <= i < |a| :: (a + b)[i] == a[i];
    assert forall i | 0 <= i < |b| :: (a + b)[|a| + i] == b[i];
  }

  lemma AnyOfConcat(a: seq<PredicateExpr>, b: seq<PredicateExpr>, env: Env, row: Row)
    ensures TreeHolds(AnyOf(a + b), env, row) <==> TreeHolds(AnyOf(a), env, row) || TreeHolds(AnyOf(b), env, row)
    ensures KindsFit(AnyOf(a + b), env, row) <==> KindsFit(AnyOf(a), env, row) && KindsFit(AnyOf(b), env, row)
  {
    assert forall i | 0 <= i < |a| :: (a + b)[i] == a[i];
    assert forall i | 0 <= i < |b| :: (a + b)[|a| + i] == b[i];
  }

  lemma SingletonMeans(t: PredicateExpr, env: Env, row: Row)
    ensures TreeHolds(AllOf([t]), env, row) == TreeHolds(AnyOf([t]), env, row) == TreeHolds(t, env, row)
    ensures KindsFit(AllOf([t]), env, row) == KindsFit(AnyOf([t]), env, row) == KindsFit(t, env, row)
  {
    assert [t][0] == t;
  }

  /** Flattening keeps the meaning of a conjunction and of a disjunction. */
  lemma MergeMeans(l: PredicateExpr, r: PredicateExpr, env: Env, row: Row)
    ensures TreeHolds(AllOf(Conjuncts(l) + Conjuncts(r)), env, row) <==> TreeHolds(l, env, row) && TreeHolds(r, env, row)
    ensures TreeHolds(AnyOf(Disjuncts(l) + Disjuncts(r)), env, row) <==> TreeHolds(l, env, row) || TreeHolds(r, env, row)
    ensures KindsFit(AllOf(Conjuncts(l) + Conjuncts(r)), env, row) <==> KindsFit(l, env, row) && KindsFit(r, env, row)
    ensures KindsFit(AnyOf(Disjuncts(l) + Disjuncts(r)), env, row) <==> KindsFit(l, env, row) && KindsFit(r, env, row)
  {
    AllOfConcat(Conjuncts(l), Conjuncts(r), env, row);
    AnyOfConcat(Disjuncts(l), Disjuncts(r), env, row);
    SingletonMeans(l, env, row);
    SingletonMeans(r, env, row);
  }

  ghost predicate BoundTo(env: Env, param: string, row: Row) { param in env && env[param] == VStruct(row) }

  lemma FieldOfParamMeans(param: string, e: Expr, env: Env, row: Row)
    requires BoundTo(env, param, row) && FieldOfParam(param, e).Some?
    ensures Eval(e, env) == Some(At(row, FieldOfParam(param, e).value))
  {}

  lemma FlipMeans(op: BinaryOp, l: Value, r: Value)
    ensures Relate(Flip(op), r, l) == Relate(op, l, r)
  {}

  lemma SingleArgument(args: seq<Expr>, env: Env)
    requires |args| == 1
    ensures EvalAll(args, env) == if Eval(args[0], env).Some? then Some([Eval(args[0], env).value]) else None
  {
    assert EvalAll(args[1..], env) == Some([]);
    if Eval(args[0], env).Some? { assert [Eval(args[0], env).value] + [] == [Eval(args[0], env).value]; }
  }

  /** A recognised call that evaluates to a truth value means that value, negated on request. */
  lemma CallMeans(param: string, callee: Expr, args: seq<Expr>, negated: bool, env: Env, row: Row, b: bool)
    requires BoundTo(env, param, row)
    requires RecognizeCall(param, callee, args, negated).Some?
    requires KindsFit(RecognizeCall(param, callee, args, negated).value, env, row)
    requires Eval(Call(callee, args), env) == Some(VBool(b))
    ensures TreeHolds(RecognizeCall(param, callee, args, negated).value, env, row) <==> b != negated
  {
    StripParensMeans(callee, env);
    var access := StripParens(callee);
    StripParensMeans(access.base, env);
    StripParensMeans(args[0], env);
    var base, arg := StripParens(access.base), StripParens(args[0]);
    SingleArgument(args, env);
    if access.field == "contains" && FieldOfParam(param, arg).Some? && !Mentions(param, base) {
      FieldOfParamMeans(param, arg, env, row);
    } else {
      FieldOfParamMeans(param, base, env, row);
    }
  }

  lemma ComparisonMeans(param: string, op: BinaryOp, left: Expr, right: Expr, env: Env, row: Row, b: bool)
    requires BoundTo(env, param, row) && IsComparison(op)
    requires RecognizeComparison(param, op, left, right).Some?
    requires KindsFit(RecognizeComparison(param, op, left, right).value, env, row)
    requires Eval(Binary(op, left, right), env) == Some(VBool(b))
    ensures TreeHolds(RecognizeComparison(param, op, left, right).value, env, row) <==> b
  {
    if RecognizeTruthTest(param, op, left, right).Some? {
      if Eval(left, env).value.VBool? {
        CallMeans(param, left.callee, left.args, right.b == op.NotEq?, env, row, Eval(left, env).value.b);
      } else {
        CallIsTruth(param, left.callee, left.args, env);
      }
    } else if RecognizeTruthTest(param, op, right, left).Some? {
      if Eval(right, env).value.VBool? {
        CallMeans(param, right.callee, right.args, left.b == op.NotEq?, env, row, Eval(right, env).value.b);
      } else {
        CallIsTruth(param, right.callee, right.args, env);
      }
    } else {
      if FieldOfParam(param, left).Some? { FieldOfParamMeans(param, left, env, row); }
      if FieldOfParam(param, right).Some? { FieldOfParamMeans(param, right, env, row); }
      FlipMeans(op, Eval(left, env).value, Eval(right, env).value);
    }
  }

  lemma CallIsTruth(param: string, callee: Expr, args: seq<Expr>, env: Env)
    ensures Eval(Call(callee, args), env).Some? ==> Eval(Call(callee, args), env).value.VBool?
  {}

  /** Property of the recogniser: wherever the body evaluates to a truth value, the tree means it. */
  lemma {:induction false} TreeMeans(param: string, e: Expr, env: Env, row: Row, b: bool)
    requires BoundTo(env, param, row)
    requires RecognizeTree(param, e).Some?
    requires KindsFit(RecognizeTree(param, e).value, env, row)
    requires Eval(e, env) == Some(VBool(b))
    ensures TreeHolds(RecognizeTree(param, e).value, env, row) <==> b
    decreases e
  {
    hide StringMatches, RecognizeCall;
    match e
    case Paren(inner) => TreeMeans(param, inner, env, row, b);
    case Binary(op, left, right) =>
      if op.And? || op.Or? {
        var l, r := RecognizeTree(param, left).value, RecognizeTree(param, right).value;
        var lb := Eval(left, env).value.b;
        MergeMeans(l, r, env, row);
        TreeMeans(param, left, env, row, lb);
        if lb == op.And? { TreeMeans(param, right, env, row, b); }
      } else {
        StripParensMeans(left, env);
        StripParensMeans(right, env);
        assert Eval(Binary(op, StripParens(left), StripParens(right)), env) == Eval(e, env);
        ComparisonMeans(param, op, StripParens(left), StripParens(right), env, row, b);
      }
    case Unary(_, operand) =>
      StripParensMeans(operand, env);
      var inner := StripParens(operand);
      if inner.Call? && RecognizeCall(param, inner.callee, inner.args, true).Some? {
        CallMeans(param, inner.callee, inner.args, true, env, row, !b);
      } else {
        FieldOfParamMeans(param, inner, env, row);
      }
    case Call(callee, args) => CallMeans(param, callee, args, false, env, row, b);
    case _ => FieldOfParamMeans(param, e, env, row);
  }

  /** The tree never nests a conjunction in a conjunction, nor a disjunction in a disjunction. */
  predicate Flat(t: PredicateExpr) {
    match t
    case AllOf(items) => |items| >= 2 && forall i | 0 <= i < |items| :: !items[i].AllOf? && Flat(items[i])
    case AnyOf(items) => |items| >= 2 && forall i | 0 <= i < |items| :: !items[i].AnyOf? && Flat(items[i])
    case _ => true
  }

  lemma {:induction false} RecognizedIsFlat(param: string, e: Expr)
    requires RecognizeTree(param, e).Some?
    ensures Flat(RecognizeTree(param, e).value)
    decreases e
  {
    match e
    case Paren(inner) => RecognizedIsFlat(param, inner);
    case Binary(op, left, right) =>
      if op.And? || op.Or? {
        RecognizedIsFlat(param, left);
        RecognizedIsFlat(param, right);
        var l, r := RecognizeTree(param, left).value, RecognizeTree(param, right).value;
        assert forall t | t in Conjuncts(l) + Conjuncts(r) :: t in Conjuncts(l) || t in Conjuncts(r);
        assert forall t | t in Disjuncts(l) + Disjuncts(r) :: t in Disjuncts(l) || t in Disjuncts(r);
      }
    case _ =>
  }

  // ----- operands hoisted out of the scan -----

  /** Built only from forms that `Mentions` descends into, and literals. */
  predicate Transparent(e: Expr) {
    match e
    case FieldAccess(base, _) => Transparent(base)
    case Call(callee, args) => Transparent(callee) && forall i | 0 <= i < |args| :: Transparent(args[i])
    case ArrayLit(items) => forall i | 0 <= i < |items| :: Transparent(items[i])
    case TupleLit(elems) => forall i | 0 <= i < |elems| :: Transparent(elems[i])
    case Index(base, index) => Transparent(base) && Transparent(index)
    case TupleIndex(base, _) => Transparent(base)
    case Binary(_, left, right) => Transparent(left) && Transparent(right)
    case Unary(_, operand) => Transparent(operand)
    case Paren(inner) => Transparent(inner)
    case If(_, _, _) => false
    case Opaque(_) => false
    case _ => true
  }

  /** Such an operand, when it does not mention the parameter, has one value for every row. */
  lemma {:induction false} HoistedOperand(param: string, e: Expr, captured: Env, v: Expressions.Value, w: Expressions.Value)
    requires Transparent(e) && !Mentions(param, e)
    ensures Eval(e, captured[param := v]) == Eval(e, captured[param := w])
    decreases e, 1
  {
    hide Eval, EvalAll;
    match e {
      case FieldAccess(base, _) => HoistedOperand(param, base, captured, v, w);
      case Call(callee, args) =>
        HoistedOperand(param, callee, captured, v, w);
        HoistedOperands(param, args, captured, v, w);
      case ArrayLit(items) => HoistedOperands(param, items, captured, v, w);
      case TupleLit(elems) => HoistedOperands(param, elems, captured, v, w);
      case Index(base, index) =>
        HoistedOperand(param, base, captured, v, w);
        HoistedOperand(param, index, captured, v, w);
      case TupleIndex(base, _) => HoistedOperand(param, base, captured, v, w);
      case Binary(_, left, right) =>
        HoistedOperand(param, left, captured, v, w);
        HoistedOperand(param, right, captured, v, w);
      case Unary(_, operand) => HoistedOperand(param, operand, captured, v, w);
      case Paren(inner) => HoistedOperand(param, inner, captured, v, w);
      case _ =>
    }
    SameValue(e, captured[param := v], captured[param := w]);
  }

  /** The direct operands of `e`, or its variable, have the same values. */
  predicate SameParts(e: Expr, env1: Env, env2: Env) {
    match e
    case Ident(name) => (name in env1 <==> name in env2) && (name in env1 ==> env1[name] == env2[name])
    case FieldAccess(base, _) => Eval(base, env1) == Eval(base, env2)
    case Call(callee, args) => Eval(callee, env1) == Eval(callee, env2) && EvalAll(args, env1) == EvalAll(args, env2)
    case ArrayLit(items) => EvalAll(items, env1) == EvalAll(items, env2)
    case TupleLit(elems) => EvalAll(elems, env1) == EvalAll(elems, env2)
    case Index(base, index) => Eval(base, env1) == Eval(base, env2) && Eval(index, env1) == Eval(index, env2)
    case TupleIndex(base, _) => Eval(base, env1) == Eval(base, env2)
    case Binary(_, left, right) => Eval(left, env1) == Eval(left, env2) && Eval(right, env1) == Eval(right, env2)
    case Unary(_, operand) => Eval(operand, env1) == Eval(operand, env2)
    case Paren(inner) => Eval(inner, env1) == Eval(inner, env2)
    case _ => true
  }

  lemma SameValue(e: Expr, env1: Env, env2: Env)
    requires Transparent(e) && SameParts(e, env1, env2)
    ensures Eval(e, env1) == Eval(e, env2)
  {}

  lemma {:induction false} HoistedOperands(param: string, es: seq<Expr>, captured: Env, v: Expressions.Value, w: Expressions.Value)
    requires forall i | 0 <= i < |es| :: Transparent(es[i]) && !Mentions(param, es[i])
    ensures EvalAll(es, captured[param := v]) == EvalAll(es, captured[param := w])
    decreases es, 0
  {
    if es != [] {
      HoistedOperand(param, es[0], captured, v, w);
      HoistedOperands(param, es[1..], captured, v, w);
    }
  }

  /** A recognised call whose operand is transparent can have that operand evaluated once, before the scan. */
  lemma RecognizedOperandIsHoisted(param: string, callee: Expr, args: seq<Expr>, negated: bool, captured: Env,
      v: Expressions.Value, w: Expressions.Value)
    requires RecognizeCall(param, callee, args, negated).Some?
    ensures match RecognizeCall(param, callee, args, negated).value {
      case InList(_, list, _) => Transparent(list) ==> Eval(list, captured[param := v]) == Eval(list, captured[param := w])
      case StringMatch(_, _, pattern, _) => Transparent(pattern) ==> Eval(pattern, captured[param := v]) == Eval(pattern, captured[param := w])
      case _ => false
    }
  {
    match RecognizeCall(param, callee, args, negated).value
    case InList(_, list, _) => if Transparent(list) { HoistedOperand(param, list, captured, v, w); }
    case StringMatch(_, _, pattern, _) => if Transparent(pattern) { HoistedOperand(param, pattern, captured, v, w); }
  }

  /** `(if x.a { .. } else { .. }).contains(x.b)` is recognised although its list reads the row:
      the search for mentions does not descend into `if`. */
  lemma ConditionalOperandIsNotHoisted(param: string, a: string, b: string, thn: Expr, els: Expr, captured: Env)
    ensures var list := If(FieldAccess(Ident(param), a), thn, els);
      && RecognizeCall(param, FieldAccess(list, "contains"), [FieldAccess(Ident(param), b)], false) == Some(InList(b, list, false))
      && (forall truth :: var env := captured[param := VStruct(map[a := VBool(truth)])];
        Eval(list, env) == if truth then Eval(thn, env) else Eval(els, env))
  {
    forall truth
      ensures var env := captured[param := VStruct(map[a := VBool(truth)])];
        Eval(FieldAccess(Ident(param), a), env) == Some(VBool(truth))
    {}
  }

  // ----- instantiation with the captured variables (`evaluate_predicate_tree`) -----

  datatype Condition =
    | CLeaf(field: string, op: BinaryOp, value: Expressions.Value)
    | CFieldPair(field: string, op: BinaryOp, other: string)
    | CInList(field: string, values: seq<Expressions.Value>, negated: bool)
    | CStringMatch(field: string, how: StringMatchOp, pattern: string, negated: bool)
    | CAllOf(items: seq<Condition>)
    | CAnyOf(items: seq<Condition>)

  function EvalSimple(e: Expr, captured: Env): Option<Expressions.Value>
    decreases e
  {
    match e
    case Int(n) => Some(VInt(n))
    case Float(x) => Some(VFloat(x))
    case Str(s) => Some(VStr(s))
    case Bool(b) => Some(VBool(b))
    case Ident(name) => if name in captured then Some(captured[name]) else None
    case ArrayLit(items) =>
      var vs := EvalSimpleAll(items, captured);
      if vs.None? then None else Some(VList(vs.value))
    case Paren(inner) => EvalSimple(inner, captured)
    case _ => None
  }

  function EvalSimpleAll(es: seq<Expr>, captured: Env): Option<seq<Expressions.Value>>
    decreases es
  {
    if es == [] then Some([])
    else
      var v, vs := EvalSimple(es[0], captured), EvalSimpleAll(es[1..], captured);
      if v.None? || vs.None? then None else Some([v.value] + vs.value)
  }

  function Instantiate(t: PredicateExpr, captured: Env): Option<Condition>
    decreases t
  {
    match t
    case Leaf(field, op, Field(other)) => Some(CFieldPair(field, op, other))
    case Leaf(field, op, Truth(b)) => Some(CLeaf(field, op, VBool(b)))
    case Leaf(field, op, Value(e)) =>
      var v := EvalSimple(e, captured);
      if v.None? then None else Some(CLeaf(field, op, v.value))
    case InList(field, list, negated) =>
      var v := EvalSimple(list, captured);
      if v.None? || !v.value.VList? then None else Some(CInList(field, v.value.items, negated))
    case StringMatch(field, how, pattern, negated) =>
      var v := EvalSimple(pattern, captured);
      if v.None? || !v.value.VStr? then None else Some(CStringMatch(field, how, v.value.s, negated))
    case AllOf(items) =>
      var cs := InstantiateAll(items, captured);
      if cs.None? then None else Some(CAllOf(cs.value))
    case AnyOf(items) =>
      var cs := InstantiateAll(items, captured);
      if cs.None? then None else Some(CAnyOf(cs.value))
  }

  function InstantiateAll(ts: seq<PredicateExpr>, captured: Env): (cs: Option<seq<Condition>>)
    ensures cs.Some? ==> |cs.value| == |ts| && forall i | 0 <= i < |ts| :: Instantiate(ts[i], captured) == Some(cs.value[i])
    decreases ts
  {
    if ts == [] then Some([])
    else
      var c, cs := Instantiate(ts[0], captured), InstantiateAll(ts[1..], captured);
      if c.None? || cs.None? then None else Some([c.value] + cs.value)
  }

  function Pushdown(params: seq<string>, body: Block, captured: Env): Option<Condition> {
    var t := Recognize(params, body);
    if t.None? then None else Instantiate(t.value, captured)
  }

  /** What the generated `WHERE` clause selects, in two-valued logic. */
  predicate Holds(c: Condition, row: Row) {
    match c
    case CLeaf(field, op, value) => Related(op, At(row, field), value)
    case CFieldPair(field, op, other) => Related(op, At(row, field), At(row, other))
    case CInList(field, values, negated) => (At(row, field) in values) != negated
    case CStringMatch(field, how, pattern, negated) =>
      At(row, field).VStr? && StringMatches(how, At(row, field).s, pattern) != negated
    case CAllOf(items) => forall i | 0 <= i < |items| :: Holds(items[i], row)
    case CAnyOf(items) => exists i | 0 <= i < |items| :: Holds(items[i], row)
  }

  /** SQL generation refuses a string match on a column that is not text. */
  predicate TextFieldsFit(c: Condition, row: Row) {
    match c
    case CStringMatch(field, _, _, _) => At(row, field).VStr?
    case CAllOf(items) => forall i | 0 <= i < |items| :: TextFieldsFit(items[i], row)
    case CAnyOf(items) => forall i | 0 <= i < |items| :: TextFieldsFit(items[i], row)
    case _ => true
  }

  predicate Avoids(param: string, t: PredicateExpr) {
    match t
    case Leaf(_, _, Value(e)) => !Mentions(param, e)
    case InList(_, list, _) => !Mentions(param, list)
    case StringMatch(_, _, pattern, _) => !Mentions(param, pattern)
    case AllOf(items) => forall i | 0 <= i < |items| :: Avoids(param, items[i])
    case AnyOf(items) => forall i | 0 <= i < |items| :: Avoids(param, items[i])
    case _ => true
  }

  /** The parameter's name is not also a captured variable, or no operand uses it. */
  predicate Unshadowed(param: string, t: PredicateExpr, captured: Env) { param !in captured || Avoids(param, t) }

  lemma {:induction false} SimpleMeans(param: string, e: Expr, captured: Env, v: Expressions.Value)
    requires EvalSimple(e, captured).Some? && (param !in captured || !Mentions(param, e))
    ensures Eval(e, captured[param := v]) == EvalSimple(e, captured)
    decreases e, 1
  {
    match e
    case ArrayLit(items) => SimpleAllMeans(param, items, captured, v);
    case Paren(inner) => SimpleMeans(param, inner, captured, v);
    case _ =>
  }

  lemma {:induction false} SimpleAllMeans(param: string, es: seq<Expr>, captured: Env, v: Expressions.Value)
    requires EvalSimpleAll(es, captured).Some?
    requires param !in captured || forall i | 0 <= i < |es| :: !Mentions(param, es[i])
    ensures EvalAll(es, captured[param := v]) == EvalSimpleAll(es, captured)
    decreases es, 0
  {
    if es != [] {
      SimpleMeans(param, es[0], captured, v);
      SimpleAllMeans(param, es[1..], captured, v);
    }
  }

  lemma {:induction false} InstantiateMeans(param: string, t: PredicateExpr, captured: Env, row: Row)
    requires Instantiate(t, captured).Some? && Unshadowed(param, t, captured)
    ensures var env := captured[param := VStruct(row)];
      && (TreeHolds(t, env, row) <==> Holds(Instantiate(t, captured).value, row))
      && (KindsFit(t, env, row) <==> TextFieldsFit(Instantiate(t, captured).value, row))
    decreases t
  {
    hide Eval, EvalSimple, Mentions, Related, StringMatches;
    match t
    case Leaf(_, _, Value(e)) => SimpleMeans(param, e, captured, VStruct(row));
    case InList(_, list, _) => SimpleMeans(param, list, captured, VStruct(row));
    case StringMatch(_, _, pattern, _) => SimpleMeans(param, pattern, captured, VStruct(row));
    case AllOf(items) =>
      forall i | 0 <= i < |items| { InstantiateMeans(param, items[i], captured, row); }
    case AnyOf(items) =>
      forall i | 0 <= i < |items| { InstantiateMeans(param, items[i], captured, row); }
    case _ =>
  }

  function RunAll(stmts: seq<Statement>, env: Env): Option<Env> {
    if stmts == [] then Some(env)
    else
      var next := stmts[0].run(env);
      if next.None? then None else RunAll(stmts[1..], next.value)
  }

  /** The closure applied to one row. */
  function Apply(params: seq<string>, body: Block, captured: Env, row: Row): Option<Expressions.Value> {
    if |params| != 1 then None
    else
      var env := RunAll(body.stmts, captured[params[0] := VStruct(row)]);
      if env.None? then None else if body.tail.None? then Some(VNull) else Eval(body.tail.value, env.value)
  }

  /** The pushed condition selects exactly the rows the closure accepts. */
  lemma PushdownMeans(params: seq<string>, body: Block, captured: Env, row: Row, b: bool)
    requires Pushdown(params, body, captured).Some?
    requires Unshadowed(params[0], Recognize(params, body).value, captured)
    requires TextFieldsFit(Pushdown(params, body, captured).value, row)
    requires Apply(params, body, captured, row) == Some(VBool(b))
    ensures Holds(Pushdown(params, body, captured).value, row) <==> b
  {
    InstantiateMeans(params[0], Recognize(params, body).value, captured, row);
    TreeMeans(params[0], body.tail.value, captured[params[0] := VStruct(row)], row, b);
  }

  /** The rows a pushed condition selects, and those the closure accepts, in order. */
  function SelectedBySql(c: Condition, rows: seq<Row>): seq<Row> {
    if rows == [] then [] else (if Holds(c, rows[0]) then [rows[0]] else []) + SelectedBySql(c, rows[1..])
  }

  function SelectedByClosure(params: seq<string>, body: Block, captured: Env, rows: seq<Row>): Option<seq<Row>> {
    if rows == [] then Some([])
    else
      var keep := AsBool(Apply(params, body, captured, rows[0]));
      var rest := SelectedByClosure(params, body, captured, rows[1..]);
      if keep.None? || rest.None? then None else Some((if keep.value then [rows[0]] else []) + rest.value)
  }

  /** Hence, when the closure runs through, filtering a whole collection by SQL is filtering it by the closure. */
  lemma {:induction false} FilterMeans(params: seq<string>, body: Block, captured: Env, rows: seq<Row>)
    requires Pushdown(params, body, captured).Some?
    requires Unshadowed(params[0], Recognize(params, body).value, captured)
    requires forall i | 0 <= i < |rows| :: TextFieldsFit(Pushdown(params, body, captured).value, rows[i])
    requires SelectedByClosure(params, body, captured, rows).Some?
    ensures SelectedByClosure(params, body, captured, rows).value == SelectedBySql(Pushdown(params, body, captured).value, rows)
  {
    if rows != [] {
      PushdownMeans(params, body, captured, rows[0], AsBool(Apply(params, body, captured, rows[0])).value);
      FilterMeans(params, body, captured, rows[1..]);
    }
  }

  /** The closure `|x| x.f == x`. */
  function ComparesWithItself(param: string, field: string): Block {
    Block([], Some(Binary(Eq, FieldAccess(Ident(param), field), Ident(param))))
  }

  /** Where a captured variable has the parameter's name, that closure refuses a row that the pushed condition selects. */
  lemma ShadowedRow(param: string, field: string, captured: Env) returns (row: Row)
    requires param in captured
    ensures var body := ComparesWithItself(param, field);
      && Pushdown([param], body, captured) == Some(CLeaf(field, Eq, captured[param]))
      && Holds(CLeaf(field, Eq, captured[param]), row)
      && Apply([param], body, captured, row) == Some(VBool(false))
  {
    var body := ComparesWithItself(param, field);
    assert RecognizeTree(param, body.tail.value) == Some(Leaf(field, Eq, Value(Ident(param))));
    var v := captured[param];
    row := map[field := v];
    var env := captured[param := VStruct(row)];
    assert Eval(FieldAccess(Ident(param), field), env) == Some(v);
    assert Eval(Ident(param), env) == Some(VStruct(row));
    assert v != VStruct(row) by { assert v == VStruct(row).fields[field]; }
    assert Eval(body.tail.value, env) == Some(VBool(false));
  }

  /** On `|x| x.f == x` the pushed condition, when there is one, agrees with the closure on every
      row exactly when `x` is not the name of a captured variable. */
  lemma ShadowedParameter(param: string, field: string, captured: Env)
    ensures var body := ComparesWithItself(param, field);
      var pushed := Pushdown([param], body, captured);
      (pushed.Some? ==> forall row: Row :: Apply([param], body, captured, row) == Some(VBool(Holds(pushed.value, row))))
      <==> param !in captured
  {
    var body := ComparesWithItself(param, field);
    assert RecognizeTree(param, body.tail.value) == Some(Leaf(field, Eq, Value(Ident(param))));
    if param in captured { var row := ShadowedRow(param, field, captured); }
  }

  /** Whenever the closure gives a boolean on a row with text columns where text is matched, the
      pushed condition gives the same one. */
  ghost predicate Agrees(param: string, body: Block, captured: Env, row: Row, b: bool) {
    var pushed := Pushdown([param], body, captured);
    pushed.Some? && TextFieldsFit(pushed.value, row) && Apply([param], body, captured, row) == Some(VBool(b)) ==>
      (Holds(pushed.value, row) <==> b)
  }

  /** Pushing down is right for all closures over an environment, on all rows, exactly when their
      parameter is not the name of a captured variable. */
  lemma PushdownIsRightExactly(param: string, captured: Env)
    ensures (forall body, row, b :: Agrees(param, body, captured, row, b)) <==> param !in captured
  {
    if param in captured {
      var row := ShadowedRow(param, "", captured);
      assert !Agrees(param, ComparesWithItself(param, ""), captured, row, false);
    } else {
      forall body, row, b
        ensures Agrees(param, body, captured, row, b)
      {
        var pushed := Pushdown([param], body, captured);
        if pushed.Some? && TextFieldsFit(pushed.value, row) && Apply([param], body, captured, row) == Some(VBool(b)) {
          PushdownMeans([param], body, captured, row, b);
        }
      }
    }
  }

  /** `|x| x.tags.contains("a")` where the field holds a list: the closure tests membership, the
      condition matches text, so the text-column check of SQL generation keeps the two together. */
  lemma ListFieldNeedsTextCheck(param: string, field: string, text: string, captured: Env)
    ensures var body := Block([], Some(Call(FieldAccess(FieldAccess(Ident(param), field), "contains"), [Str(text)])));
      var row := map[field := VList([VStr(text)])];
      && Pushdown([param], body, captured) == Some(CStringMatch(field, Contains, text, false))
      && Apply([param], body, captured, row) == Some(VBool(true))
      && !Holds(CStringMatch(field, Contains, text, false), row)
  {
    var access := FieldAccess(FieldAccess(Ident(param), field), "contains");
    var items := [VStr(text)];
    var env := captured[param := VStruct(map[field := VList(items)])];
    assert Eval(FieldAccess(Ident(param), field), env) == Some(VList(items));
    assert Eval(access, env) == Some(VBound(VList(items), "contains"));
    SingleArgument([Str(text)], env);
    assert VStr(text) == items[0];
  }
}
