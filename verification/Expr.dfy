/** The expression language: values, parameters, operators and their evaluation. */
module Expr {
  import opened Prelude
  import opened Strconv
  import Bytes

  /** A value as it is stored and exchanged: a kind tag, a type name and its text. */
  datatype Value = Value(kind: string, typ: string, data: string)

  datatype Param = Param(kind: string, typ: string, name: string)

  datatype Op = Not | Or | And | Eq | In | GT | GTE | LT | LTE | FNV | Percentile

  /** An expression node. `op` is the Go type of an operator node, `kind` the tag it carries. */
  datatype Expr =
    | Lit(value: Value)
    | Ref(param: Param)
    | Oper(op: Op, kind: string, operands: seq<Expr>)

  datatype EvalError =
    | ParamNotFound
    | ParamTypeMismatch
    | NoMatch
    | NilParams
    | UnsupportedParamType
    | BadArity(op: Op)
    | BadOperandType(op: Op)
    | UnknownValueType(typ: string)
    | BadBool(data: string)
    | BadInt(data: string)
    | BadFloat(data: string)
    | NonBoolRule

  type Outcome<T> = Result<T, EvalError>

  function MakeValue(typ: string, data: string): Value { Value("value", typ, data) }
  function BoolValue(b: bool): Value { MakeValue("bool", FormatBool(b)) }
  function StringValue(s: string): Value { MakeValue("string", s) }
  function Int64Value(i: int64): Value { MakeValue("int64", FormatInt(i)) }

  const TRUE: Value := BoolValue(true)
  const FALSE: Value := BoolValue(false)

  /** What the model takes from binary64 arithmetic: how two texts compare, and what text a parsed
      number is formatted back to. Every result holds whatever these functions are. */
  datatype FloatOrder = Below | Same | Above | Unordered | Unreadable
  datatype Floats = Floats(compare: (string, string) -> FloatOrder, reformat: string -> Option<string>)

  /** A Go interface{} handed over as a parameter; a float64 is known by its 6-digit text. */
  datatype Arg = StrArg(s: string) | BoolArg(b: bool) | IntArg(i: int64) | FloatArg(text: string) | OtherArg

  /** The implementations of rule.Params: none, the Go map, and the server's query string. */
  datatype Params = Nil | Typed(args: map<string, Arg>) | Query(texts: map<string, string>)

  datatype Env = Env(params: Params, floats: Floats)

  function GetString(ps: Params, key: string): Outcome<string>
    requires !ps.Nil?
  {
    match ps
    case Typed(args) =>
      if key !in args then Err(ParamNotFound)
      else if args[key].StrArg? then Ok(args[key].s) else Err(ParamTypeMismatch)
    case Query(texts) =>
      if key !in texts then Err(ParamNotFound) else Ok(texts[key])
  }

  function GetBool(ps: Params, key: string): Outcome<bool>
    requires !ps.Nil?
  {
    match ps
    case Typed(args) =>
      if key !in args then Err(ParamNotFound)
      else if args[key].BoolArg? then Ok(args[key].b) else Err(ParamTypeMismatch)
    case Query(texts) =>
      if key !in texts then Err(ParamNotFound)
      else match ParseBool(texts[key])
        case Some(b) => Ok(b)
        case None => Err(ParamTypeMismatch)
  }

  function GetInt64(ps: Params, key: string): Outcome<int64>
    requires !ps.Nil?
  {
    match ps
    case Typed(args) =>
      if key !in args then Err(ParamNotFound)
      else if args[key].IntArg? then Ok(args[key].i) else Err(ParamTypeMismatch)
    case Query(texts) =>
      if key !in texts then Err(ParamNotFound)
      else match ParseInt(texts[key])
        case Some(i) => Ok(i)
        case None => Err(ParamTypeMismatch)
  }

  /** The 6-digit text of the float64 parameter. */
  function GetFloat64(env: Env, key: string): Outcome<string>
    requires !env.params.Nil?
  {
    match env.params
    case Typed(args) =>
      if key !in args then Err(ParamNotFound)
      else if args[key].FloatArg? then Ok(args[key].text) else Err(ParamTypeMismatch)
    case Query(texts) =>
      if key !in texts then Err(ParamNotFound)
      else match env.floats.reformat(texts[key])
        case Some(t) => Ok(t)
        case None => Err(ParamTypeMismatch)
  }

  function EvalParam(p: Param, env: Env): Outcome<Value> {
    if env.params.Nil? then Err(NilParams)
    else if p.typ == "string" then
      var s :- GetString(env.params, p.name);
      Ok(StringValue(s))
    else if p.typ == "bool" then
      var b :- GetBool(env.params, p.name);
      Ok(BoolValue(b))
    else if p.typ == "int64" then
      var i :- GetInt64(env.params, p.name);
      Ok(Int64Value(i))
    else if p.typ == "float64" then
      var t :- GetFloat64(env, p.name);
      Ok(MakeValue("float64", t))
    else Err(UnsupportedParamType)
  }

  function ParseInt64Of(v: Value): Outcome<int64> {
    match ParseInt(v.data)
    case Some(i) => Ok(i)
    case None => Err(BadInt(v.data))
  }

  function ParseBoolOf(v: Value): Outcome<bool> {
    match ParseBool(v.data)
    case Some(b) => Ok(b)
    case None => Err(BadBool(v.data))
  }

  function CompareBools(op: Op, a: bool, b: bool): bool {
    match op
    case GT => a && !b
    case GTE => a || !b
    case LT => !a && b
    case LTE => !a || b
    case _ => false
  }

  function CompareStrings(op: Op, a: string, b: string): bool {
    match op
    case GT => !Bytes.AtMost(a, b)
    case GTE => !Bytes.Less(a, b)
    case LT => Bytes.Less(a, b)
    case LTE => Bytes.AtMost(a, b)
    case _ => false
  }

  function CompareInts(op: Op, a: int64, b: int64): bool {
    match op
    case GT => a > b
    case GTE => a >= b
    case LT => a < b
    case LTE => a <= b
    case _ => false
  }

  /** Each method answers false only when the opposite strict or weak relation holds, so an
      unordered pair (NaN) answers true. */
  function CompareFloats(op: Op, o: FloatOrder): bool {
    match op
    case GT => o != Below && o != Same
    case GTE => o != Below
    case LT => o != Above && o != Same
    case LTE => o != Above
    case _ => false
  }

  predicate IsOrder(op: Op) { op in {GT, GTE, LT, LTE} }

  /** Value.GT, GTE, LT and LTE: the type of the first value selects how both are read. */
  function Compare(op: Op, a: Value, b: Value, floats: Floats): Outcome<bool> {
    if a.typ == "bool" then
      var x :- ParseBoolOf(a);
      var y :- ParseBoolOf(b);
      Ok(CompareBools(op, x, y))
    else if a.typ == "string" then Ok(CompareStrings(op, a.data, b.data))
    else if a.typ == "int64" then
      if op == LTE && (ParseInt64Of(a).Err? || ParseInt64Of(b).Err?) then Ok(false)
      else
        var x :- ParseInt64Of(a);
        var y :- ParseInt64Of(b);
        Ok(CompareInts(op, x, y))
    else if a.typ == "float64" then
      var o := floats.compare(a.data, b.data);
      if o == Unreadable then Err(BadFloat(a.data)) else Ok(CompareFloats(op, o))
    else Err(UnknownValueType(a.typ))
  }

  /** How operand b relates to the first operand a; Eq and In use structural equality. */
  function Relate(op: Op, a: Value, b: Value, floats: Floats): Outcome<bool> {
    if op == Eq || op == In then Ok(a == b) else Compare(op, a, b, floats)
  }

  const TWO_32: int := 0x1_0000_0000
  type uint32 = n: int | 0 <= n < TWO_32

  const FNV_OFFSET: uint32 := 2166136261
  const FNV_PRIME: uint32 := 16777619

  function Pow2(n: nat): nat { if n == 0 then 1 else 2 * Pow2(n - 1) }

  /** Exclusive or, bit by bit. */
  function Xor(a: nat, b: nat): nat {
    if a == 0 && b == 0 then 0 else 2 * Xor(a / 2, b / 2) + (if a % 2 == b % 2 then 0 else 1)
  }

  /** The exclusive or of two n-bit numbers has n bits. */
  lemma {:induction false} XorBelow(a: nat, b: nat, n: nat)
    requires a < Pow2(n) && b < Pow2(n)
    ensures Xor(a, b) < Pow2(n)
  {
    if n > 0 { XorBelow(a / 2, b / 2, n - 1); }
  }

  lemma XorOfBytes(a: nat, b: nat)
    requires a < 256 && b < 256
    ensures Xor(a, b) < 256
  {
    assert Pow2(8) == 256;
    XorBelow(a, b, 8);
  }

  /** hash *= prime, in 32-bit arithmetic; then hash ^= byte, which touches the low byte only. */
  function FnvStep(h: uint32, c: char): uint32 {
    XorLowByte((h * FNV_PRIME) % TWO_32, c as int % 256)
  }

  function XorLowByte(m: uint32, byte: int): uint32
    requires 0 <= byte < 256
  {
    XorOfBytes(m % 256, byte);
    256 * (m / 256) + Xor(m % 256, byte)
  }

  /** The 32-bit FNV-1 hash of the bytes of a string. */
  function HashInt(data: string): uint32 {
    if data == "" then FNV_OFFSET else FnvStep(HashInt(data[..|data| - 1]), data[|data| - 1])
  }

  /** exprToInt64(FNV(v)): the hash goes through its decimal text and comes back unchanged, which is why
      Eval uses it as it is. */
  function HashOf(v: Value): (h: Outcome<int64>)
    ensures h == Ok(HashInt(v.data))
  {
    IntRoundTrip(HashInt(v.data));
    ParseInt64Of(Int64Value(HashInt(v.data)))
  }

  function Eval(e: Expr, env: Env): Outcome<Value>
    decreases e, 1
  {
    match e
    case Lit(v) => Ok(v)
    case Ref(p) => EvalParam(p, env)
    case Oper(op, _, ops) =>
      match op
      case Not =>
        if |ops| < 1 then Err(BadArity(op))
        else
          var v :- Eval(ops[0], env);
          if v.typ != "bool" then Err(BadOperandType(op)) else Ok(BoolValue(v != TRUE))
      case Or | And =>
        if |ops| < 2 then Err(BadArity(op)) else EvalConnective(op, ops, env)
      case FNV =>
        if |ops| != 1 then Err(BadArity(op))
        else
          var v :- Eval(ops[0], env);
          Ok(Int64Value(HashInt(v.data)))
      case Percentile =>
        if |ops| != 2 then Err(BadArity(op))
        else
          var v :- Eval(ops[0], env);
          var p :- Eval(ops[1], env);
          var bound :- ParseInt64Of(p);
          Ok(BoolValue(HashInt(v.data) % 100 <= bound))
      case _ =>
        if |ops| < 2 then Err(BadArity(op))
        else
          var v :- Eval(ops[0], env);
          EvalAgainst(op, v, ops[1..], env)
  }

  /** The value at which Or (true) and And (false) stop looking. */
  function StopValue(op: Op): Value { BoolValue(op == Or) }

  /** Or and And: evaluate from left to right until an operand decides. */
  function EvalConnective(op: Op, ops: seq<Expr>, env: Env): Outcome<Value>
    decreases ops, 0
  {
    if ops == [] then Ok(BoolValue(op != Or))
    else
      var v :- Eval(ops[0], env);
      if v.typ != "bool" then Err(BadOperandType(op))
      else if v == StopValue(op) then Ok(v)
      else EvalConnective(op, ops[1..], env)
  }

  /** Eq, In and the orders: relate every further operand to the first one until one decides. */
  function EvalAgainst(op: Op, a: Value, ops: seq<Expr>, env: Env): Outcome<Value>
    decreases ops, 0
  {
    if ops == [] then Ok(BoolValue(op != In))
    else
      var b :- Eval(ops[0], env);
      var holds :- Relate(op, a, b, env.floats);
      if holds == (op == In) then Ok(BoolValue(holds)) else EvalAgainst(op, a, ops[1..], env)
  }
}
