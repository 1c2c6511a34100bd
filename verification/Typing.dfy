/** A typed meaning for expressions, independent of texts and of evaluation order, and the proof
    that the string-encoded, short-circuiting interpreter computes it. */
module Typing {
  import opened Prelude
  import opened Strconv
  import opened Expr
  import Bytes

  datatype Ty = TBool | TString | TInt

  datatype Datum = B(b: bool) | S(s: string) | I(i: int64)

  type Context = map<string, Ty>

  function TyName(t: Ty): string {
    match t
    case TBool => "bool"
    case TString => "string"
    case TInt => "int64"
  }

  function TyOf(d: Datum): Ty {
    match d
    case B(_) => TBool
    case S(_) => TString
    case I(_) => TInt
  }

  /** The value the constructors BoolValue, StringValue and Int64Value build. */
  function Encode(d: Datum): (v: Value)
    ensures v.typ == TyName(TyOf(d))
  {
    match d
    case B(b) => BoolValue(b)
    case S(s) => StringValue(s)
    case I(i) => Int64Value(i)
  }

  /** The datum a canonical value stands for. */
  function Decode(v: Value): Option<Datum> {
    if v.kind != "value" then None
    else if v.typ == "string" then Some(S(v.data))
    else if v.typ == "bool" then
      if v.data == "true" then Some(B(true)) else if v.data == "false" then Some(B(false)) else None
    else if v.typ == "int64" then
      match ParseInt(v.data)
      case Some(i) => if FormatInt(i) == v.data then Some(I(i)) else None
      case None => None
    else None
  }

  /** What a text stands for at a type, in any of its spellings. */
  function ReadAs(t: Ty, text: string): Option<Datum> {
    match t
    case TBool => (match ParseBool(text) case Some(b) => Some(B(b)) case None => None)
    case TString => Some(S(text))
    case TInt => (match ParseInt(text) case Some(i) => Some(I(i)) case None => None)
  }

  lemma DecodeEncode(d: Datum)
    ensures Decode(Encode(d)) == Some(d)
  {
    if d.I? { IntRoundTrip(d.i); }
  }

  lemma EncodeDecode(v: Value)
    ensures Decode(v).Some? ==> Encode(Decode(v).value) == v
  {
  }

  /** The datum a parameter set holds under a name, at a type: a typed argument, or a text that reads
      as one. */
  function Fetch(ps: Params, name: string, t: Ty): (d: Option<Datum>)
    ensures d.Some? ==> TyOf(d.value) == t
  {
    match ps
    case Nil => None
    case Typed(args) =>
      if name !in args then None
      else (match (args[name], t)
        case (StrArg(s), TString) => Some(S(s))
        case (BoolArg(b), TBool) => Some(B(b))
        case (IntArg(i), TInt) => Some(I(i))
        case _ => None)
    case Query(texts) =>
      if name !in texts then None
      else match t
        case TString => Some(S(texts[name]))
        case TBool => (match ParseBool(texts[name]) case Some(b) => Some(B(b)) case None => None)
        case TInt => (match ParseInt(texts[name]) case Some(i) => Some(I(i)) case None => None)
  }

  ghost predicate Conforms(ps: Params, ctx: Context) {
    forall n | n in ctx :: Fetch(ps, n, ctx[n]).Some?
  }

  /** The types of the data, in order. */
  function Types(ds: seq<Datum>): (ts: seq<Ty>)
    ensures |ts| == |ds| && forall i | 0 <= i < |ds| :: ts[i] == TyOf(ds[i])
  {
    seq(|ds|, i requires 0 <= i < |ds| => TyOf(ds[i]))
  }

  /** Arity and operand types of each operator. */
  predicate Accepts(op: Op, ts: seq<Ty>) {
    match op
    case Not => ts == [TBool]
    case Or | And => |ts| >= 2 && forall i | 0 <= i < |ts| :: ts[i] == TBool
    case Eq | In => |ts| >= 2
    case FNV => |ts| == 1
    case Percentile => |ts| == 2 && ts[1] == TInt
    case _ => |ts| >= 2 && forall i | 0 <= i < |ts| :: ts[i] == ts[0]
  }

  function ResultType(op: Op): Ty { if op == FNV then TInt else TBool }

  /** The static type of an expression whose literals are canonical; None when it is ill typed. */
  function TypeOf(e: Expr, ctx: Context): Option<Ty>
    decreases e, 1
  {
    match e
    case Lit(v) => (match Decode(v) case Some(d) => Some(TyOf(d)) case None => None)
    case Ref(p) => if p.name in ctx && p.typ == TyName(ctx[p.name]) then Some(ctx[p.name]) else None
    case Oper(op, _, ops) =>
      match TypesOf(ops, ctx)
      case Some(ts) => if Accepts(op, ts) then Some(ResultType(op)) else None
      case None => None
  }

  function TypesOf(ops: seq<Expr>, ctx: Context): Option<seq<Ty>>
    decreases ops, 0
  {
    if ops == [] then Some([])
    else match (TypeOf(ops[0], ctx), TypesOf(ops[1..], ctx))
      case (Some(t), Some(ts)) => Some([t] + ts)
      case _ => None
  }

  /** The natural strict order on data of one type. */
  predicate DLess(a: Datum, b: Datum)
    requires TyOf(a) == TyOf(b)
  {
    match a
    case B(x) => !x && b.b
    case S(x) => Bytes.Less(x, b.s)
    case I(x) => x < b.i
  }

  /** What the operator says about the first operand's datum and another one. */
  predicate Related(op: Op, a: Datum, b: Datum)
    requires IsOrder(op) ==> TyOf(a) == TyOf(b)
  {
    match op
    case GT => DLess(b, a)
    case GTE => !DLess(a, b)
    case LT => DLess(a, b)
    case LTE => !DLess(b, a)
    case _ => a == b
  }

  /** What each operator means on data. */
  ghost function Meaning(op: Op, ds: seq<Datum>): (d: Datum)
    requires Accepts(op, Types(ds))
    ensures TyOf(d) == ResultType(op)
  {
    match op
    case Not => B(!ds[0].b)
    case Or => B(B(true) in ds)
    case And => B(B(false) !in ds)
    case In => B(ds[0] in ds[1..])
    case FNV => I(HashInt(Encode(ds[0]).data))
    case Percentile => B(HashInt(Encode(ds[0]).data) % 100 <= ds[1].i)
    case _ => B(AllRelated(op, ds[0], ds[1..]))
  }

  /** The first operand relates to every other one. */
  ghost predicate AllRelated(op: Op, a: Datum, ds: seq<Datum>)
    requires IsOrder(op) ==> forall i | 0 <= i < |ds| :: TyOf(ds[i]) == TyOf(a)
  {
    forall i | 0 <= i < |ds| :: Related(op, a, ds[i])
  }

  /** The meaning of a well-typed expression: no texts, no errors, no evaluation order. */
  ghost function Denote(e: Expr, ctx: Context, ps: Params): (d: Datum)
    requires TypeOf(e, ctx).Some? && Conforms(ps, ctx)
    ensures TypeOf(e, ctx) == Some(TyOf(d))
    decreases e, 1
  {
    match e
    case Lit(v) => Decode(v).value
    case Ref(p) => Fetch(ps, p.name, ctx[p.name]).value
    case Oper(op, _, ops) => Meaning(op, DenoteAll(ops, ctx, ps))
  }

  ghost function DenoteAll(ops: seq<Expr>, ctx: Context, ps: Params): (ds: seq<Datum>)
    requires TypesOf(ops, ctx).Some? && Conforms(ps, ctx)
    ensures TypesOf(ops, ctx) == Some(Types(ds))
    decreases ops, 0
  {
    if ops == [] then []
    else
      var d := Denote(ops[0], ctx, ps);
      var rest := DenoteAll(ops[1..], ctx, ps);
      assert Types([d] + rest) == [TyOf(d)] + Types(rest);
      [d] + rest
  }

  /** Soundness and adequacy in one: a well-typed expression never errors under conforming
      parameters, and its value is the canonical encoding of its meaning. */
  lemma {:induction false} EvalIsDenote(e: Expr, ctx: Context, env: Env)
    requires TypeOf(e, ctx).Some? && Conforms(env.params, ctx)
    ensures Eval(e, env) == Ok(Encode(Denote(e, ctx, env.params)))
    decreases e, 1
  {
    match e {
      case Lit(v) => EncodeDecode(v);
      case Ref(p) => ParamIsFetched(p, ctx[p.name], env);
      case Oper(op, kind, ops) =>
        OperandsAreDenoted(ops, ctx, env);
        OperatorIsMeaning(op, kind, ops, DenoteAll(ops, ctx, env.params), env);
    }
  }

  lemma ParamIsFetched(p: Param, t: Ty, env: Env)
    requires p.typ == TyName(t) && Fetch(env.params, p.name, t).Some?
    ensures EvalParam(p, env) == Ok(Encode(Fetch(env.params, p.name, t).value))
  {
    assert "bool"[0] == 'b' && "string"[0] == 's' && "int64"[0] == 'i';
  }

  /** An operator whose operands evaluate to encoded data evaluates to the encoding of its meaning. */
  lemma OperatorIsMeaning(op: Op, kind: string, ops: seq<Expr>, ds: seq<Datum>, env: Env)
    requires AllDenoted(ops, ds, env) && Accepts(op, Types(ds))
    ensures Eval(Oper(op, kind, ops), env) == Ok(Encode(Meaning(op, ds)))
  {
    match op {
      case Not => NotIsMeaning(op, kind, ops, ds, env);
      case Or | And => ConnectiveIsMeaning(op, ops, ds, env);
      case FNV =>
      case Percentile => PercentileIsMeaning(op, kind, ops, ds, env);
      case _ => AgainstIsMeaning(op, kind, ops, ds, env);
    }
  }

  lemma AgainstIsMeaning(op: Op, kind: string, ops: seq<Expr>, ds: seq<Datum>, env: Env)
    requires (op == Eq || op == In || IsOrder(op)) && AllDenoted(ops, ds, env) && Accepts(op, Types(ds))
    ensures Eval(Oper(op, kind, ops), env) == Ok(Encode(Meaning(op, ds)))
  {
    assert Eval(ops[0], env) == Ok(Encode(ds[0]));
    assert Eval(Oper(op, kind, ops), env) == EvalAgainst(op, Encode(ds[0]), ops[1..], env);
    if op == In {
      MembershipIsMeaning(ds[0], ops[1..], ds[1..], env);
    } else {
      RelationIsMeaning(op, ds[0], ops[1..], ds[1..], env);
    }
  }

  lemma NotIsMeaning(op: Op, kind: string, ops: seq<Expr>, ds: seq<Datum>, env: Env)
    requires op == Not && AllDenoted(ops, ds, env) && Accepts(op, Types(ds))
    ensures Eval(Oper(op, kind, ops), env) == Ok(Encode(Meaning(op, ds)))
  {
    assert Types(ds)[0] == TBool;
    BoolRoundTrip(ds[0].b);
  }

  lemma PercentileIsMeaning(op: Op, kind: string, ops: seq<Expr>, ds: seq<Datum>, env: Env)
    requires op == Percentile && AllDenoted(ops, ds, env) && Accepts(op, Types(ds))
    ensures Eval(Oper(op, kind, ops), env) == Ok(Encode(Meaning(op, ds)))
  {
    assert Types(ds)[1] == TInt;
    IntRoundTrip(ds[1].i);
    assert ops == [ops[0], ops[1]];
    PercentileOf(kind, ops[0], ops[1], Encode(ds[0]), Encode(ds[1]), ds[1].i, env);
  }

  lemma PercentileOf(kind: string, v: Expr, q: Expr, x: Value, y: Value, bound: int64, env: Env)
    requires Eval(v, env) == Ok(x) && Eval(q, env) == Ok(y) && ParseInt64Of(y) == Ok(bound)
    ensures Eval(Oper(Percentile, kind, [v, q]), env) == Ok(BoolValue(HashInt(x.data) % 100 <= bound))
  {
    var ops := [v, q];
    assert ops[0] == v && ops[1] == q && |ops| == 2;
  }

  lemma {:induction false} OperandsAreDenoted(ops: seq<Expr>, ctx: Context, env: Env)
    requires TypesOf(ops, ctx).Some? && Conforms(env.params, ctx)
    ensures AllDenoted(ops, DenoteAll(ops, ctx, env.params), env)
    decreases ops, 0
  {
    if ops != [] {
      EvalIsDenote(ops[0], ctx, env);
      OperandsAreDenoted(ops[1..], ctx, env);
      DenotedOneMore(ops, Denote(ops[0], ctx, env.params), DenoteAll(ops[1..], ctx, env.params), env);
    }
  }

  lemma DenotedOneMore(ops: seq<Expr>, d: Datum, rest: seq<Datum>, env: Env)
    requires ops != [] && Eval(ops[0], env) == Ok(Encode(d)) && AllDenoted(ops[1..], rest, env)
    ensures AllDenoted(ops, [d] + rest, env)
  {
    assert forall i | 1 <= i < |ops| :: ops[i] == ops[1..][i - 1];
  }

  ghost predicate AllDenoted(ops: seq<Expr>, ds: seq<Datum>, env: Env) {
    |ops| == |ds| && forall i | 0 <= i < |ops| :: Eval(ops[i], env) == Ok(Encode(ds[i]))
  }

  lemma {:induction false} ConnectiveIsMeaning(op: Op, ops: seq<Expr>, ds: seq<Datum>, env: Env)
    requires (op == Or || op == And) && AllDenoted(ops, ds, env)
    requires forall i | 0 <= i < |ds| :: ds[i].B?
    ensures EvalConnective(op, ops, env)
         == Ok(BoolValue(if op == Or then B(true) in ds else B(false) !in ds))
  {
    if ops != [] {
      ConnectiveIsMeaning(op, ops[1..], ds[1..], env);
      assert ds == [ds[0]] + ds[1..];
    }
  }

  lemma {:induction false} MembershipIsMeaning(a: Datum, ops: seq<Expr>, ds: seq<Datum>, env: Env)
    requires AllDenoted(ops, ds, env)
    ensures EvalAgainst(In, Encode(a), ops, env) == Ok(BoolValue(a in ds))
  {
    if ops != [] {
      RelateIsRelated(In, a, ds[0], env.floats);
      MembershipIsMeaning(a, ops[1..], ds[1..], env);
      assert ds == [ds[0]] + ds[1..];
    }
  }

  lemma {:induction false} RelationIsMeaning(op: Op, a: Datum, ops: seq<Expr>, ds: seq<Datum>, env: Env)
    requires (op == Eq || IsOrder(op)) && AllDenoted(ops, ds, env)
    requires IsOrder(op) ==> forall i | 0 <= i < |ds| :: TyOf(ds[i]) == TyOf(a)
    ensures EvalAgainst(op, Encode(a), ops, env) == Ok(BoolValue(AllRelated(op, a, ds)))
  {
    if ops != [] {
      RelateIsRelated(op, a, ds[0], env.floats);
      RelationIsMeaning(op, a, ops[1..], ds[1..], env);
      AllRelatedStep(op, a, ds);
    }
  }

  lemma AllRelatedStep(op: Op, a: Datum, ds: seq<Datum>)
    requires ds != []
    requires IsOrder(op) ==> forall i | 0 <= i < |ds| :: TyOf(ds[i]) == TyOf(a)
    ensures AllRelated(op, a, ds) <==> Related(op, a, ds[0]) && AllRelated(op, a, ds[1..])
  {
    assert forall i | 1 <= i < |ds| :: ds[i] == ds[1..][i - 1];
  }

  /** On canonical values, comparing texts is comparing what they stand for. */
  lemma RelateIsRelated(op: Op, a: Datum, b: Datum, floats: Floats)
    requires op in {Eq, In, GT, GTE, LT, LTE}
    requires IsOrder(op) ==> TyOf(a) == TyOf(b)
    ensures Relate(op, Encode(a), Encode(b), floats) == Ok(Related(op, a, b))
  {
    if IsOrder(op) {
      match a {
        case B(x) => BoolRoundTrip(x); BoolRoundTrip(b.b);
        case S(x) => StringsRelate(op, x, b.s, floats);
        case I(x) => IntsRelate(op, x, b.i, floats);
      }
    } else {
      EncodeInjective(a, b);
    }
  }

  lemma EncodeInjective(a: Datum, b: Datum)
    ensures Encode(a) == Encode(b) <==> a == b
  {
    DecodeEncode(a);
    DecodeEncode(b);
  }

  lemma StringsRelate(op: Op, x: string, y: string, floats: Floats)
    requires IsOrder(op)
    ensures Compare(op, StringValue(x), StringValue(y), floats) == Ok(Related(op, S(x), S(y)))
  {
    Bytes.LessTotal(x, y);
  }

  lemma IntsRelate(op: Op, x: int64, y: int64, floats: Floats)
    requires IsOrder(op)
    ensures Compare(op, Int64Value(x), Int64Value(y), floats) == Ok(Related(op, I(x), I(y)))
  {
    IntRoundTrip(x);
    IntRoundTrip(y);
    assert ParseInt64Of(Int64Value(x)) == Ok(x) && ParseInt64Of(Int64Value(y)) == Ok(y);
    ReadIntsCompare(op, Int64Value(x), Int64Value(y), x, y, floats);
  }

  lemma ReadIntsCompare(op: Op, a: Value, b: Value, x: int64, y: int64, floats: Floats)
    requires IsOrder(op) && a.typ == "int64" && ParseInt64Of(a) == Ok(x) && ParseInt64Of(b) == Ok(y)
    ensures Compare(op, a, b, floats) == Ok(CompareInts(op, x, y))
    ensures CompareInts(op, x, y) == Related(op, I(x), I(y))
  {
    assert a.typ[0] == 'i' && "bool"[0] == 'b' && "string"[0] == 's';
  }
}
