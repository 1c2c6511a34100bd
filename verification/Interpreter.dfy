/** The interpreter in the form the Go code has it: index loops with early returns. */
module Interpreter {
  import opened Prelude
  import opened Strconv
  import opened Expr

  method Evaluate(e: Expr, env: Env) returns (r: Outcome<Value>)
    ensures r == Eval(e, env)
    decreases e, 1
  {
    match e {
      case Lit(v) => return Ok(v);
      case Ref(p) => return EvalParam(p, env);
      case Oper(op, _, ops) =>
        match op {
          case Not => r := EvaluateNot(op, ops, env);
          case Or | And => r := EvaluateConnective(op, ops, env);
          case FNV => r := EvaluateFnv(op, ops, env);
          case Percentile => r := EvaluatePercentile(op, ops, env);
          case _ => r := EvaluateAgainstFirst(op, ops, env);
        }
    }
  }

  method EvaluateNot(op: Op, ops: seq<Expr>, env: Env) returns (r: Outcome<Value>)
    requires op == Not
    ensures r == Eval(Oper(op, "", ops), env)
    decreases ops, 0
  {
    if |ops| < 1 { return Err(BadArity(op)); }
    var v :- Evaluate(ops[0], env);
    if v.typ != "bool" { return Err(BadOperandType(op)); }
    if v == BoolValue(true) { return Ok(BoolValue(false)); }
    return Ok(BoolValue(true));
  }

  method EvaluateConnective(op: Op, ops: seq<Expr>, env: Env) returns (r: Outcome<Value>)
    requires op == Or || op == And
    ensures r == Eval(Oper(op, "", ops), env)
    decreases ops, 0
  {
    if |ops| < 2 { return Err(BadArity(op)); }
    for i := 0 to |ops|
      invariant EvalConnective(op, ops, env) == EvalConnective(op, ops[i..], env)
    {
      assert ops[i..][1..] == ops[i + 1..];
      var v :- Evaluate(ops[i], env);
      if v.typ != "bool" { return Err(BadOperandType(op)); }
      if v == BoolValue(op == Or) { return Ok(v); }
    }
    return Ok(BoolValue(op == And));
  }

  method EvaluateAgainstFirst(op: Op, ops: seq<Expr>, env: Env) returns (r: Outcome<Value>)
    requires op in {Eq, In, GT, GTE, LT, LTE}
    ensures r == Eval(Oper(op, "", ops), env)
    decreases ops, 0
  {
    if |ops| < 2 { return Err(BadArity(op)); }
    var a :- Evaluate(ops[0], env);
    for i := 1 to |ops|
      invariant EvalAgainst(op, a, ops[1..], env) == EvalAgainst(op, a, ops[i..], env)
    {
      assert ops[i..][1..] == ops[i + 1..];
      var b :- Evaluate(ops[i], env);
      var holds :- Relate(op, a, b, env.floats);
      if holds == (op == In) { return Ok(BoolValue(holds)); }
    }
    return Ok(BoolValue(op != In));
  }

  /** hash/fnv: the hash state is updated byte by byte. */
  method HashBytes(data: string) returns (h: uint32)
    ensures h == HashInt(data)
  {
    h := FNV_OFFSET;
    for i := 0 to |data|
      invariant h == HashInt(data[..i])
    {
      assert data[..i + 1][..i] == data[..i];
      h := FnvStep(h, data[i]);
    }
    assert data[..|data|] == data;
  }

  method EvaluateFnv(op: Op, ops: seq<Expr>, env: Env) returns (r: Outcome<Value>)
    requires op == FNV
    ensures r == Eval(Oper(op, "", ops), env)
    decreases ops, 0
  {
    if |ops| != 1 { return Err(BadArity(op)); }
    var v :- Evaluate(ops[0], env);
    var h := HashBytes(v.data);
    return Ok(Int64Value(h));
  }

  method EvaluatePercentile(op: Op, ops: seq<Expr>, env: Env) returns (r: Outcome<Value>)
    requires op == Percentile
    ensures r == Eval(Oper(op, "", ops), env)
    decreases ops, 0
  {
    if |ops| != 2 { return Err(BadArity(op)); }
    var hash :- HashedOperand(ops[0], env);
    var p :- Evaluate(ops[1], env);
    var bound :- ParseInt64Of(p);
    return Ok(BoolValue(hash % 100 <= bound));
  }

  /** exprToInt64 of the FNV of an operand: the hash, through its decimal text. */
  method HashedOperand(e: Expr, env: Env) returns (r: Outcome<int64>)
    ensures r == match Eval(e, env)
      case Ok(v) => Ok(HashInt(v.data))
      case Err(x) => Err(x)
    decreases e, 2
  {
    var v :- Evaluate(e, env);
    var h := HashBytes(v.data);
    assert HashOf(v) == Ok(h);
    return ParseInt64Of(Int64Value(h));
  }
}
