/** What evaluation does on every input, failing operands and unreadable texts included: which operand
    an operator stops at, what it answers there, and that nothing behind it is looked at. */
module Operators {
  import opened Prelude
  import opened Strconv
  import opened Expr
  import opened Typing
  import opened Rulesets

  // ---- Or and And ----

  /** What one operand makes an Or or And answer; None when it goes on to the next operand. */
  function ConnectiveVerdict(op: Op, e: Expr, env: Env): Option<Outcome<Value>> {
    match Eval(e, env)
    case Err(x) => Some(Err(x))
    case Ok(v) =>
      if v.typ != "bool" then Some(Err(BadOperandType(op)))
      else if op == Or && v == TRUE then Some(Ok(TRUE))
      else if op == And && v == FALSE then Some(Ok(FALSE))
      else None
  }

  predicate ConnectiveOpen(op: Op, ops: seq<Expr>, env: Env) {
    forall i | 0 <= i < |ops| :: ConnectiveVerdict(op, ops[i], env) == None
  }

  lemma {:induction false} ConnectiveRuns(op: Op, ops: seq<Expr>, rest: seq<Expr>, env: Env)
    requires (op == Or || op == And) && ConnectiveOpen(op, ops, env)
    ensures EvalConnective(op, ops + rest, env) == EvalConnective(op, rest, env)
  {
    if ops == [] {
      assert ops + rest == rest;
    } else {
      assert ConnectiveVerdict(op, ops[0], env) == None;
      assert forall i | 0 <= i < |ops[1..]| :: ops[1..][i] == ops[i + 1];
      assert (ops + rest)[1..] == ops[1..] + rest;
      ConnectiveRuns(op, ops[1..], rest, env);
    }
  }

  /** Nothing behind a deciding operand is looked at. */
  lemma ConnectiveDecides(op: Op, last: Expr, tail: seq<Expr>, env: Env)
    requires (op == Or || op == And) && ConnectiveVerdict(op, last, env).Some?
    ensures EvalConnective(op, [last] + tail, env) == ConnectiveVerdict(op, last, env).value
  {
    assert ([last] + tail)[0] == last;
  }

  lemma ConnectiveNode(op: Op, kind: string, ops: seq<Expr>, env: Env)
    requires op == Or || op == And
    ensures Eval(Oper(op, kind, ops), env) == if |ops| < 2 then Err(BadArity(op)) else EvalConnective(op, ops, env)
  {
  }

  /** Or and And answer what the first deciding operand says, whatever stands behind it; with no
      deciding operand Or is false and And is true. */
  lemma ConnectiveStops(op: Op, kind: string, ops: seq<Expr>, last: Expr, tail: seq<Expr>, env: Env)
    requires (op == Or || op == And) && ConnectiveOpen(op, ops, env)
    ensures |ops + ([last] + tail)| >= 2 && ConnectiveVerdict(op, last, env).Some? ==>
              Eval(Oper(op, kind, ops + ([last] + tail)), env) == ConnectiveVerdict(op, last, env).value
    ensures |ops| >= 2 ==> Eval(Oper(op, kind, ops), env) == Ok(if op == Or then FALSE else TRUE)
    ensures |ops| < 2 ==> Eval(Oper(op, kind, ops), env) == Err(BadArity(op))
  {
    ConnectiveNode(op, kind, ops + ([last] + tail), env);
    ConnectiveNode(op, kind, ops, env);
    if ConnectiveVerdict(op, last, env).Some? {
      ConnectiveRuns(op, ops, [last] + tail, env);
      ConnectiveDecides(op, last, tail, env);
    }
    ConnectiveRuns(op, ops, [], env);
    assert ops + [] == ops;
  }

  // ---- Eq, In and the orders ----

  predicate IsRelation(op: Op) { op == Eq || op == In || op == GT || op == GTE || op == LT || op == LTE }

  /** What one further operand makes these operators answer, given the first operand's value. */
  function RelationVerdict(op: Op, first: Value, e: Expr, env: Env): Option<Outcome<Value>> {
    match Eval(e, env)
    case Err(x) => Some(Err(x))
    case Ok(v) =>
      match Relate(op, first, v, env.floats)
      case Err(x) => Some(Err(x))
      case Ok(holds) =>
        if op == In && holds then Some(Ok(TRUE))
        else if op != In && !holds then Some(Ok(FALSE))
        else None
  }

  predicate RelationOpen(op: Op, first: Value, ops: seq<Expr>, env: Env) {
    forall i | 0 <= i < |ops| :: RelationVerdict(op, first, ops[i], env) == None
  }

  lemma {:induction false} RelationRuns(op: Op, first: Value, ops: seq<Expr>, rest: seq<Expr>, env: Env)
    requires IsRelation(op) && RelationOpen(op, first, ops, env)
    ensures EvalAgainst(op, first, ops + rest, env) == EvalAgainst(op, first, rest, env)
  {
    if ops == [] {
      assert ops + rest == rest;
    } else {
      assert RelationVerdict(op, first, ops[0], env) == None;
      assert forall i | 0 <= i < |ops[1..]| :: ops[1..][i] == ops[i + 1];
      assert (ops + rest)[1..] == ops[1..] + rest;
      RelationRuns(op, first, ops[1..], rest, env);
    }
  }

  /** Nothing behind a deciding operand is looked at. */
  lemma RelationDecides(op: Op, first: Value, last: Expr, tail: seq<Expr>, env: Env)
    requires IsRelation(op) && RelationVerdict(op, first, last, env).Some?
    ensures EvalAgainst(op, first, [last] + tail, env) == RelationVerdict(op, first, last, env).value
  {
    assert ([last] + tail)[0] == last;
  }

  lemma RelationNode(op: Op, kind: string, head: Expr, first: Value, rest: seq<Expr>, env: Env)
    requires IsRelation(op) && Eval(head, env) == Ok(first) && rest != []
    ensures Eval(Oper(op, kind, [head] + rest), env) == EvalAgainst(op, first, rest, env)
  {
    assert ([head] + rest)[0] == head && ([head] + rest)[1..] == rest;
  }

  /** Eq, In and the orders answer what the first deciding operand says, whatever stands behind it,
      failing operands included; with no deciding operand In is false and the others are true. */
  lemma RelationStops(op: Op, kind: string, head: Expr, first: Value, ops: seq<Expr>, last: Expr, tail: seq<Expr>, env: Env)
    requires IsRelation(op) && Eval(head, env) == Ok(first) && RelationOpen(op, first, ops, env)
    ensures RelationVerdict(op, first, last, env).Some? ==>
              Eval(Oper(op, kind, [head] + (ops + ([last] + tail))), env) == RelationVerdict(op, first, last, env).value
    ensures ops != [] ==> Eval(Oper(op, kind, [head] + ops), env) == Ok(if op == In then FALSE else TRUE)
  {
    if RelationVerdict(op, first, last, env).Some? {
      RelationNode(op, kind, head, first, ops + ([last] + tail), env);
      RelationRuns(op, first, ops, [last] + tail, env);
      RelationDecides(op, first, last, tail, env);
    }
    if ops != [] {
      RelationNode(op, kind, head, first, ops, env);
      RelationRuns(op, first, ops, [], env);
      assert ops + [] == ops;
    }
  }

  /** These operators fail at once when there is no second operand, or when the first one fails. */
  lemma RelationFails(op: Op, kind: string, head: Expr, tail: seq<Expr>, env: Env)
    requires IsRelation(op)
    ensures Eval(Oper(op, kind, []), env) == Err(BadArity(op))
    ensures Eval(Oper(op, kind, [head]), env) == Err(BadArity(op))
    ensures Eval(head, env).Err? && tail != [] ==> Eval(Oper(op, kind, [head] + tail), env) == Err(Eval(head, env).error)
  {
    assert tail != [] ==> ([head] + tail)[0] == head;
  }

  /** The value that decides an In is the one it was looking for, whatever the later operands are. */
  lemma MembershipStops(kind: string, head: Expr, before: seq<Expr>, hit: Expr, tail: seq<Expr>, env: Env)
    requires Eval(head, env).Ok? && Eval(hit, env) == Eval(head, env)
    requires forall i | 0 <= i < |before| :: Eval(before[i], env).Ok? && Eval(before[i], env) != Eval(head, env)
    ensures Eval(Oper(In, kind, [head] + (before + ([hit] + tail))), env) == Ok(TRUE)
  {
    var first := Eval(head, env).value;
    forall i | 0 <= i < |before| ensures RelationVerdict(In, first, before[i], env) == None {
      assert Eval(before[i], env).Ok? && Eval(before[i], env).value != first;
    }
    RelationStops(In, kind, head, first, before, hit, tail, env);
  }

  // ---- The other nodes ----

  /** Not looks at its first operand only, and is true for every bool text but "true". */
  lemma NotOutcome(kind: string, e: Expr, tail: seq<Expr>, env: Env)
    ensures Eval(Oper(Not, kind, []), env) == Err(BadArity(Not))
    ensures var r := Eval(Oper(Not, kind, [e] + tail), env);
            match Eval(e, env)
            case Err(x) => r == Err(x)
            case Ok(v) =>
              if v.typ != "bool" then r == Err(BadOperandType(Not))
              else if v.kind == "value" && v.data == "true" then r == Ok(FALSE)
              else r == Ok(TRUE)
  {
    assert ([e] + tail)[0] == e;
  }

  /** FNV takes exactly one operand and Percentile exactly two. */
  lemma HashArity(kind: string, ops: seq<Expr>, env: Env)
    ensures |ops| != 1 ==> Eval(Oper(FNV, kind, ops), env) == Err(BadArity(FNV))
    ensures |ops| != 2 ==> Eval(Oper(Percentile, kind, ops), env) == Err(BadArity(Percentile))
  {
  }

  lemma HashFails(kind: string, x: Expr, env: Env)
    requires Eval(x, env).Err?
    ensures Eval(Oper(FNV, kind, [x]), env) == Err(Eval(x, env).error)
  {
    assert [x][0] == x;
  }

  /** The errors of a Percentile come in operand order, an unreadable bound last. */
  lemma PercentileFails(kind: string, x: Expr, y: Expr, env: Env)
    ensures Eval(x, env).Err? ==> Eval(Oper(Percentile, kind, [x, y]), env) == Err(Eval(x, env).error)
    ensures Eval(x, env).Ok? && Eval(y, env).Err? ==> Eval(Oper(Percentile, kind, [x, y]), env) == Err(Eval(y, env).error)
    ensures Eval(x, env).Ok? && Eval(y, env).Ok? && ParseInt(Eval(y, env).value.data) == None ==>
              Eval(Oper(Percentile, kind, [x, y]), env) == Err(BadInt(Eval(y, env).value.data))
  {
    if Eval(x, env).Err? {
      PercentileFirst(kind, [x, y], env, Eval(x, env).error);
    } else if Eval(y, env).Err? {
      PercentileSecond(kind, [x, y], env, Eval(x, env).value, Eval(y, env).error);
    } else if ParseInt(Eval(y, env).value.data) == None {
      PercentileBound(kind, [x, y], env, Eval(x, env).value, Eval(y, env).value);
    }
  }

  lemma PercentileFirst(kind: string, ops: seq<Expr>, env: Env, error: EvalError)
    requires |ops| == 2 && Eval(ops[0], env) == Err(error)
    ensures Eval(Oper(Percentile, kind, ops), env) == Err(error)
  {
  }

  lemma PercentileSecond(kind: string, ops: seq<Expr>, env: Env, v: Value, error: EvalError)
    requires |ops| == 2 && Eval(ops[0], env) == Ok(v) && Eval(ops[1], env) == Err(error)
    ensures Eval(Oper(Percentile, kind, ops), env) == Err(error)
  {
  }

  lemma PercentileBound(kind: string, ops: seq<Expr>, env: Env, v: Value, p: Value)
    requires |ops| == 2 && Eval(ops[0], env) == Ok(v) && Eval(ops[1], env) == Ok(p) && ParseInt(p.data) == None
    ensures Eval(Oper(Percentile, kind, ops), env) == Err(BadInt(p.data))
  {
  }

  // ---- Comparing any two values ----

  function CannotRead(t: Ty, text: string): EvalError { if t == TBool then BadBool(text) else BadInt(text) }

  /** The type of the first value decides how both texts are read; the second value's type does not
      matter. Texts that cannot be read are an error, except that LTE on int64 then answers false. */
  lemma CompareOutcome(op: Op, t: Ty, a: Value, b: Value, fl: Floats)
    requires IsOrder(op) && a.typ == TyName(t)
    ensures var x, y := ReadAs(t, a.data), ReadAs(t, b.data);
            Compare(op, a, b, fl) ==
              if x.Some? && y.Some? then Ok(AnyRelated(op, x.value, y.value))
              else if op == LTE && t == TInt then Ok(false)
              else Err(CannotRead(t, if x.None? then a.data else b.data))
  {
    assert "bool"[0] == 'b' && "string"[0] == 's' && "int64"[0] == 'i';
    if t == TString { StringsRelate(op, a.data, b.data, fl); }
  }

  function AnyRelated(op: Op, x: Datum, y: Datum): bool {
    TyOf(x) == TyOf(y) && Related(op, x, y)
  }

  /** The four orders on numbers. */
  lemma IntOrders(a: Value, b: Value, i: int64, j: int64, fl: Floats)
    requires a.typ == "int64" && ParseInt(a.data) == Some(i) && ParseInt(b.data) == Some(j)
    ensures Compare(GT, a, b, fl) == Ok(i > j) && Compare(GTE, a, b, fl) == Ok(i >= j)
    ensures Compare(LT, a, b, fl) == Ok(i < j) && Compare(LTE, a, b, fl) == Ok(i <= j)
  {
    assert "bool"[0] == 'b' && "string"[0] == 's' && "int64"[0] == 'i';
  }

  lemma OtherTypesFail(op: Op, a: Value, b: Value, fl: Floats)
    requires IsOrder(op) && a.typ != "bool" && a.typ != "string" && a.typ != "int64" && a.typ != "float64"
    ensures Compare(op, a, b, fl) == Err(UnknownValueType(a.typ))
  {
  }

  /** float64 texts are compared by the numbers they read as; a pair without an order, as with NaN,
      answers true to all four. */
  lemma FloatOutcome(op: Op, a: Value, b: Value, fl: Floats)
    requires IsOrder(op) && a.typ == "float64"
    ensures var o := fl.compare(a.data, b.data);
            Compare(op, a, b, fl) ==
              if o == Unreadable then Err(BadFloat(a.data))
              else if o == Unordered then Ok(true)
              else if o == Same then Ok(op == GTE || op == LTE)
              else Ok((o == Above) == (op == GT || op == GTE))
  {
  }

  // ---- Looking up a parameter ----

  /** The other types of a parameter: the 6-digit text of a float64, and none besides. */
  lemma OtherLookups(p: Param, env: Env)
    requires !env.params.Nil? && p.typ != "string" && p.typ != "bool" && p.typ != "int64"
    ensures p.typ != "float64" ==> EvalParam(p, env) == Err(UnsupportedParamType)
    ensures p.typ == "float64" && env.params.Typed? && p.name in env.params.args && env.params.args[p.name].FloatArg? ==>
              EvalParam(p, env) == Ok(Value("value", "float64", env.params.args[p.name].text))
  {
  }

  /** How a parameter lookup can end: exactly when the name is missing, when it has another type, and
      what is found otherwise. */
  lemma LookupOutcome(p: Param, t: Ty, env: Env)
    requires p.typ == TyName(t)
    ensures env.params.Nil? ==> EvalParam(p, env) == Err(NilParams)
    ensures !env.params.Nil? ==>
              var present := if env.params.Typed? then p.name in env.params.args else p.name in env.params.texts;
              && (EvalParam(p, env) == Err(ParamNotFound) <==> !present)
              && (EvalParam(p, env) == Err(ParamTypeMismatch) <==> present && Fetch(env.params, p.name, t) == None)
              && (EvalParam(p, env).Ok? <==> Fetch(env.params, p.name, t).Some?)
  {
    assert "bool"[0] == 'b' && "string"[0] == 's' && "int64"[0] == 'i';
    if Fetch(env.params, p.name, t).Some? { ParamIsFetched(p, t, env); }
  }

  // ---- A rule ----

  /** A rule matches on the spellings of true and is false on those of false; any other value is an
      error, and so is a condition that fails. */
  lemma RuleOutcome(r: Rule, env: Env)
    ensures EvalRule(r, env) == match Eval(r.expr, env)
              case Err(x) => Err(x)
              case Ok(v) =>
                if v.typ != "bool" then Err(NonBoolRule)
                else match ReadAs(TBool, v.data)
                  case Some(B(true)) => Ok(r.result)
                  case Some(_) => Err(NoMatch)
                  case None => Err(BadBool(v.data))
  {
  }
}
