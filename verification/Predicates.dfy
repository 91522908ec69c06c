/** The predicate pushdown of `ast.rs`: a closure body over one row is recognised as a tree of
    conditions, and `runtime/mod.rs` instantiates that tree with the captured variables before
    SQL is generated from it.  The evaluators below are those of `runtime/mod.rs`, restricted to
    what a recognised closure can contain; `None` stands for a runtime error. */
module Expressions {
  import opened Wrappers

  datatype BinaryOp = Add | Sub | Mul | Div | Rem | Eq | NotEq | Lt | LtEq | Gt | GtEq | And | Or | Coalesce

  datatype UnaryOp = Neg | Not

  datatype Value =
    | VNull
    | VInt(n: int)
    | VFloat(x: real)
    | VBool(b: bool)
    | VStr(s: string)
    | VList(items: seq<Value>)
    | VTuple(elems: seq<Value>)
    | VStruct(fields: map<string, Value>)
    | VBound(receiver: Value, name: string)  // `value.method`, before it is called

  type Env = map<string, Value>

  /** `Opaque` is any form the recogniser never looks into (match, struct and map literals,
      closures, transactions, html): all that matters is that it has some meaning. */
  datatype Expr =
    | Int(n: int)
    | Float(x: real)
    | Str(s: string)
    | Bool(b: bool)
    | Null
    | Ident(name: string)
    | FieldAccess(base: Expr, field: string)
    | Call(callee: Expr, args: seq<Expr>)
    | ArrayLit(items: seq<Expr>)
    | Index(base: Expr, index: Expr)
    | TupleLit(elems: seq<Expr>)
    | TupleIndex(base: Expr, position: nat)
    | If(cond: Expr, thn: Expr, els: Expr)
    | Binary(op: BinaryOp, left: Expr, right: Expr)
    | Unary(uop: UnaryOp, operand: Expr)
    | Paren(inner: Expr)
    | Opaque(meaning: Env -> Option<Value>)

  const MIN_INT64 := -0x8000_0000_0000_0000
  const MAX_INT64 := 0x7fff_ffff_ffff_ffff

  function CheckedInt(n: int): Option<Value> {
    if MIN_INT64 <= n <= MAX_INT64 then Some(VInt(n)) else None
  }

  /** Integer division that truncates toward zero. */
  function Quotient(a: int, b: int): int
    requires b != 0
  {
    if (a >= 0) == (b > 0) || a == 0 then Abs(a) / Abs(b) else -(Abs(a) / Abs(b))
  }

  function Abs(a: int): nat { if a < 0 then -a else a }

  function Arithmetic(op: BinaryOp, l: Value, r: Value): Option<Value> {
    match (op, l, r)
    case (Add, VStr(a), VStr(b)) => Some(VStr(a + b))
    case (Add, VList(a), VList(b)) => Some(VList(a + b))
    case (Add, VInt(a), VInt(b)) => CheckedInt(a + b)
    case (Sub, VInt(a), VInt(b)) => CheckedInt(a - b)
    case (Mul, VInt(a), VInt(b)) => CheckedInt(a * b)
    case (Div, VInt(a), VInt(b)) => if b == 0 then None else CheckedInt(Quotient(a, b))
    case (Rem, VInt(a), VInt(b)) =>
      if b == 0 || (a == MIN_INT64 && b == -1) then None else Some(VInt(a - b * Quotient(a, b)))
    case (Add, VFloat(a), VFloat(b)) => Some(VFloat(a + b))
    case (Sub, VFloat(a), VFloat(b)) => Some(VFloat(a - b))
    case (Mul, VFloat(a), VFloat(b)) => Some(VFloat(a * b))
    case (Div, VFloat(a), VFloat(b)) => if b == 0.0 then None else Some(VFloat(a / b))
    case _ => None
  }

  /** The four relational operators accept two numbers of one type and fail on anything else. */
  function Compare(op: BinaryOp, l: Value, r: Value): Option<bool> {
    match (l, r)
    case (VInt(a), VInt(b)) =>
      (match op
       case Lt => Some(a < b)
       case LtEq => Some(a <= b)
       case Gt => Some(a > b)
       case GtEq => Some(a >= b)
       case _ => None)
    case (VFloat(a), VFloat(b)) =>
      (match op
       case Lt => Some(a < b)
       case LtEq => Some(a <= b)
       case Gt => Some(a > b)
       case GtEq => Some(a >= b)
       case _ => None)
    case _ => None
  }

  function Relate(op: BinaryOp, l: Value, r: Value): Option<bool> {
    match op
    case Eq => Some(l == r)
    case NotEq => Some(l != r)
    case _ => Compare(op, l, r)
  }

  datatype StringMatchOp = Contains | StartsWith | EndsWith

  predicate StringMatches(op: StringMatchOp, s: string, pattern: string) {
    match op
    case Contains => exists i :: 0 <= i <= |s| && pattern <= s[i..]
    case StartsWith => pattern <= s
    case EndsWith => |pattern| <= |s| && s[|s| - |pattern|..] == pattern
  }

  function CallMethod(receiver: Value, name: string, args: seq<Value>): Option<Value> {
    match receiver
    case VList(items) =>
      if name == "contains" && |args| > 0 then Some(VBool(args[0] in items)) else None
    case VStr(s) =>
      if |args| == 0 || !args[0].VStr? then None
      else if name == "contains" then Some(VBool(StringMatches(Contains, s, args[0].s)))
      else if name == "startsWith" then Some(VBool(StringMatches(StartsWith, s, args[0].s)))
      else if name == "endsWith" then Some(VBool(StringMatches(EndsWith, s, args[0].s)))
      else None
    case _ => None
  }

  function AccessField(base: Value, field: string): Option<Value> {
    match base
    case VStruct(fields) => Some(if field in fields then fields[field] else VNull)
    case VList(_) => Some(VBound(base, field))
    case VStr(_) => Some(VBound(base, field))
    case _ => None
  }

  function AsBool(v: Option<Value>): Option<bool> {
    if v.Some? && v.value.VBool? then Some(v.value.b) else None
  }

  function FromBool(b: Option<bool>): Option<Value> {
    if b.Some? then Some(VBool(b.value)) else None
  }

  /** Evaluation order is immaterial here: nothing in the fragment has an effect. */
  function Eval(e: Expr, env: Env): Option<Value>
    decreases e
  {
    match e
    case Int(n) => Some(VInt(n))
    case Float(x) => Some(VFloat(x))
    case Str(s) => Some(VStr(s))
    case Bool(b) => Some(VBool(b))
    case Null => Some(VNull)
    case Ident(name) => if name in env then Some(env[name]) else None
    case FieldAccess(base, field) =>
      var b := Eval(base, env);
      if b.None? then None else AccessField(b.value, field)
    case Call(callee, args) =>
      var c := Eval(callee, env);
      var vs := EvalAll(args, env);
      if c.None? || vs.None? || !c.value.VBound? then None
      else CallMethod(c.value.receiver, c.value.name, vs.value)
    case ArrayLit(items) =>
      var vs := EvalAll(items, env);
      if vs.None? then None else Some(VList(vs.value))
    case TupleLit(elems) =>
      var vs := EvalAll(elems, env);
      if vs.None? then None else Some(VTuple(vs.value))
    case Index(base, index) =>
      var b := Eval(base, env);
      var i := Eval(index, env);
      if b.Some? && b.value.VList? && i.Some? && i.value.VInt? && 0 <= i.value.n < |b.value.items|
      then Some(b.value.items[i.value.n]) else None
    case TupleIndex(base, position) =>
      var b := Eval(base, env);
      if b.Some? && b.value.VTuple? && position < |b.value.elems| then Some(b.value.elems[position]) else None
    case If(cond, thn, els) =>
      var c := AsBool(Eval(cond, env));
      if c.None? then None else if c.value then Eval(thn, env) else Eval(els, env)
    case Binary(op, left, right) =>
      var l := Eval(left, env);
      if op.And? || op.Or? then
        var lb := AsBool(l);
        if lb.None? then None
        else if lb.value == op.Or? then Some(VBool(op.Or?))
        else FromBool(AsBool(Eval(right, env)))
      else if l.None? then None
      else if op.Coalesce? then
        if l.value.VNull? then Eval(right, env) else l
      else
        var r := Eval(right, env);
        if r.None? then None
        else if op in {Eq, NotEq, Lt, LtEq, Gt, GtEq} then FromBool(Relate(op, l.value, r.value))
        else Arithmetic(op, l.value, r.value)
    case Unary(uop, operand) =>
      var v := Eval(operand, env);
      if v.None? then None
      else if uop.Not? then (if v.value.VBool? then Some(VBool(!v.value.b)) else None)
      else if v.value.VInt? then CheckedInt(-v.value.n)
      else if v.value.VFloat? then Some(VFloat(-v.value.x))
      else None
    case Paren(inner) => Eval(inner, env)
    case Opaque(meaning) => meaning(env)
  }

  function EvalAll(es: seq<Expr>, env: Env): (vs: Option<seq<Value>>)
    ensures vs.Some? ==> |vs.value| == |es|
    decreases es
  {
    if es == [] then Some([])
    else
      var v := Eval(es[0], env);
      var vs := EvalAll(es[1..], env);
      if v.None? || vs.None? then None else Some([v.value] + vs.value)
  }
}
