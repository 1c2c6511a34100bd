/** The JSON form of expressions, rules and rulesets, read the way encoding/json and gjson read it. */
module Codec {
  import opened Prelude
  import opened Expr
  import opened Rulesets

  /** A JSON document; members keep their order and may repeat. */
  datatype Json = JNull | JBool(b: bool) | JNum(text: string) | JStr(s: string) | JArr(items: seq<Json>) | JObj(members: seq<Member>)
  datatype Member = Member(key: string, val: Json)

  datatype DecodeError = Malformed | UnknownKind(kind: string) | NoResultType | UnsupportedType | Incoherent | Crash

  type Decoded<T> = Result<T, DecodeError>

  function Lower(c: char): char {
    if 'A' <= c <= 'Z' then (c as int - 'A' as int + 'a' as int) as char else c
  }

  /** encoding/json matches member names to fields without regard to case. */
  predicate Names(key: string, field: string) {
    |key| == |field| && forall i | 0 <= i < |key| :: Lower(key[i]) == Lower(field[i])
  }

  /** A string field: the last matching member wins, null leaves it alone. */
  function TextField(ms: seq<Member>, field: string, current: string): Decoded<string> {
    if ms == [] then Ok(current)
    else if !Names(ms[0].key, field) then TextField(ms[1..], field, current)
    else match ms[0].val
      case JStr(s) => TextField(ms[1..], field, s)
      case JNull => TextField(ms[1..], field, current)
      case _ => Err(Malformed)
  }

  /** gjson.Get(data, "kind").Str: the first member with exactly this name, if it is a string. */
  function RawKind(ms: seq<Member>): string {
    if ms == [] then ""
    else if ms[0].key == "kind" then (if ms[0].val.JStr? then ms[0].val.s else "")
    else RawKind(ms[1..])
  }

  function KindOf(j: Json): string {
    if j.JObj? then RawKind(j.members) else ""
  }

  function OpKind(op: Op): string {
    match op
    case Not => "not"
    case Or => "or"
    case And => "and"
    case Eq => "eq"
    case In => "in"
    case GT => "gt"
    case GTE => "gte"
    case LT => "lt"
    case LTE => "lte"
    case FNV => "fnv"
    case Percentile => "percentile"
  }

  function KindOp(kind: string): (op: Option<Op>)
    ensures op.Some? ==> OpKind(op.value) == kind
  {
    if kind == "eq" then Some(Eq)
    else if kind == "in" then Some(In)
    else if kind == "not" then Some(Not)
    else if kind == "and" then Some(And)
    else if kind == "or" then Some(Or)
    else if kind == "gt" then Some(GT)
    else if kind == "gte" then Some(GTE)
    else if kind == "percentile" then Some(Percentile)
    else if kind == "fnv" then Some(FNV)
    else if kind == "lt" then Some(LT)
    else if kind == "lte" then Some(LTE)
    else None
  }

  lemma KindOpKind(op: Op)
    ensures KindOp(OpKind(op)) == Some(op)
    ensures OpKind(op) != "value" && OpKind(op) != "param"
  {
    assert forall o: Op, p: Op | OpKind(o) == OpKind(p) :: |OpKind(o)| == |OpKind(p)|;
  }

  function DecodeValue(current: Value, j: Json): Decoded<Value> {
    match j
    case JNull => Ok(current)
    case JObj(ms) =>
      var kind :- TextField(ms, "kind", current.kind);
      var typ :- TextField(ms, "type", current.typ);
      var data :- TextField(ms, "data", current.data);
      Ok(Value(kind, typ, data))
    case _ => Err(Malformed)
  }

  function DecodeParam(j: Json): Decoded<Param> {
    match j
    case JNull => Ok(Param("", "", ""))
    case JObj(ms) =>
      var kind :- TextField(ms, "kind", "");
      var typ :- TextField(ms, "type", "");
      var name :- TextField(ms, "name", "");
      Ok(Param(kind, typ, name))
    case _ => Err(Malformed)
  }

  const NO_VALUE: Value := Value("", "", "")

  /** unmarshalExpr: the kind selects the node, the document fills it. */
  function DecodeExpr(kind: string, j: Json): Decoded<Expr>
    decreases j, 1
  {
    if kind == "value" then
      var v :- DecodeValue(NO_VALUE, j);
      Ok(Lit(v))
    else if kind == "param" then
      var p :- DecodeParam(j);
      Ok(Ref(p))
    else match KindOp(kind)
      case None => Err(UnknownKind(kind))
      case Some(op) =>
        match j
        case JNull => Ok(Oper(op, "", []))
        case JObj(ms) =>
          var tag :- TextField(ms, "kind", "");
          var ops :- DecodeOperandMembers(ms);
          Ok(Oper(op, tag, ops))
        case _ => Err(Malformed)
  }

  /** The operands of every matching member, appended in order. */
  function DecodeOperandMembers(ms: seq<Member>): Decoded<seq<Expr>>
    decreases ms, 0
  {
    if ms == [] then Ok([])
    else
      var here :- if !Names(ms[0].key, "operands") then Ok([]) else
        (match ms[0].val
         case JNull => Ok([])
         case JArr(items) => DecodeOperands(items)
         case _ => Err(Malformed));
      var rest :- DecodeOperandMembers(ms[1..]);
      Ok(here + rest)
  }

  function DecodeOperands(items: seq<Json>): Decoded<seq<Expr>>
    decreases items, 0
  {
    if items == [] then Ok([])
    else
      var e :- DecodeExpr(KindOf(items[0]), items[0]);
      var rest :- DecodeOperands(items[1..]);
      Ok([e] + rest)
  }

  function ReadExpr(j: Json): Decoded<Expr> { DecodeExpr(KindOf(j), j) }

  function EncodeValue(v: Value): Json {
    JObj([Member("kind", JStr(v.kind)), Member("type", JStr(v.typ)), Member("data", JStr(v.data))])
  }

  function EncodeParam(p: Param): Json {
    JObj([Member("kind", JStr(p.kind)), Member("type", JStr(p.typ)), Member("name", JStr(p.name))])
  }

  function EncodeExpr(e: Expr): Json
    decreases e, 1
  {
    match e
    case Lit(v) => EncodeValue(v)
    case Ref(p) => EncodeParam(p)
    case Oper(_, kind, ops) =>
      JObj([Member("kind", JStr(kind)), Member("operands", JArr(EncodeOperands(ops)))])
  }

  function EncodeOperands(ops: seq<Expr>): seq<Json>
    decreases ops, 0
  {
    if ops == [] then [] else [EncodeExpr(ops[0])] + EncodeOperands(ops[1..])
  }

  /** Every node carries the tag of its own type. */
  predicate Tagged(e: Expr)
    decreases e, 1
  {
    match e
    case Lit(v) => v.kind == "value"
    case Ref(p) => p.kind == "param"
    case Oper(op, kind, ops) => kind == OpKind(op) && AllTagged(ops)
  }

  predicate AllTagged(ops: seq<Expr>)
    decreases ops, 0
  {
    ops == [] || (Tagged(ops[0]) && AllTagged(ops[1..]))
  }

  // ---- The loops of rule/json.go ----

  method UnmarshalExpr(kind: string, j: Json) returns (r: Decoded<Expr>)
    ensures r == DecodeExpr(kind, j)
    decreases j, 1
  {
    if kind == "value" {
      var v :- DecodeValue(NO_VALUE, j);
      return Ok(Lit(v));
    }
    if kind == "param" {
      var p :- DecodeParam(j);
      return Ok(Ref(p));
    }
    match KindOp(kind) {
      case None => return Err(UnknownKind(kind));
      case Some(op) =>
        match j {
          case JNull => return Ok(Oper(op, "", []));
          case JObj(ms) =>
            var tag :- TextField(ms, "kind", "");
            var exprs: seq<Expr> := [];
            PrependNothing(DecodeOperandMembers(ms));
            assert ms[0..] == ms;
            for i := 0 to |ms|
              invariant DecodeOperandMembers(ms) == Prepend(exprs, DecodeOperandMembers(ms[i..]))
            {
              assert ms[i..][1..] == ms[i + 1..];
              PrependNothing(DecodeOperandMembers(ms[i + 1..]));
              if Names(ms[i].key, "operands") && ms[i].val != JNull {
                if !ms[i].val.JArr? { return Err(Malformed); }
                var more :- UnmarshalOperands(ms[i].val.items);
                PrependTwice(exprs, more, DecodeOperandMembers(ms[i + 1..]));
                exprs := exprs + more;
              }
            }
            assert exprs + [] == exprs;
            return Ok(Oper(op, tag, exprs));
          case _ => return Err(Malformed);
        }
    }
  }

  method UnmarshalOperands(items: seq<Json>) returns (r: Decoded<seq<Expr>>)
    ensures r == DecodeOperands(items)
    decreases items, 0
  {
    var exprs: seq<Expr> := [];
    PrependNothing(DecodeOperands(items));
    assert items[0..] == items;
    for i := 0 to |items|
      invariant DecodeOperands(items) == Prepend(exprs, DecodeOperands(items[i..]))
    {
      assert items[i..][1..] == items[i + 1..];
      var e :- UnmarshalExpr(KindOf(items[i]), items[i]);
      PrependTwice(exprs, [e], DecodeOperands(items[i + 1..]));
      exprs := exprs + [e];
    }
    assert exprs + [] == exprs;
    return Ok(exprs);
  }

  // ---- Round trips of expressions ----

  /** What one member does to a string field. */
  function Pick(m: Member, field: string, current: string): string {
    if Names(m.key, field) && m.val.JStr? then m.val.s else current
  }

  lemma Fields1(a: Member, field: string, current: string)
    requires Names(a.key, field) ==> a.val.JStr?
    ensures TextField([a], field, current) == Ok(Pick(a, field, current))
  {
    assert [a][1..] == [];
    assert TextField([], field, Pick(a, field, current)) == Ok(Pick(a, field, current));
  }

  lemma Fields2(a: Member, b: Member, field: string, current: string)
    requires (Names(a.key, field) ==> a.val.JStr?) && (Names(b.key, field) ==> b.val.JStr?)
    ensures TextField([a, b], field, current) == Ok(Pick(b, field, Pick(a, field, current)))
  {
    assert [a, b][1..] == [b];
    Fields1(b, field, Pick(a, field, current));
  }

  lemma Fields3(a: Member, b: Member, c: Member, field: string, current: string)
    requires a.val.JStr? && b.val.JStr? && c.val.JStr?
    ensures TextField([a, b, c], field, current)
         == Ok(Pick(c, field, Pick(b, field, Pick(a, field, current))))
  {
    assert [a, b, c][1..] == [b, c];
    Fields2(b, c, field, Pick(a, field, current));
  }

  lemma DifferentNames(key: string, field: string, i: nat)
    requires i < |key| && i < |field| && Lower(key[i]) != Lower(field[i])
    ensures !Names(key, field)
  {
  }

  lemma ValueRoundTrip(v: Value, current: Value)
    ensures DecodeValue(current, EncodeValue(v)) == Ok(v)
    ensures KindOf(EncodeValue(v)) == v.kind
  {
    var k, t, d := Member("kind", JStr(v.kind)), Member("type", JStr(v.typ)), Member("data", JStr(v.data));
    DifferentNames("type", "kind", 0);
    DifferentNames("data", "kind", 0);
    DifferentNames("data", "type", 0);
    Fields3(k, t, d, "kind", current.kind);
    Fields3(k, t, d, "type", current.typ);
    Fields3(k, t, d, "data", current.data);
  }

  lemma ParamRoundTrip(p: Param)
    ensures DecodeParam(EncodeParam(p)) == Ok(p)
    ensures KindOf(EncodeParam(p)) == p.kind
  {
    var k, t, n := Member("kind", JStr(p.kind)), Member("type", JStr(p.typ)), Member("name", JStr(p.name));
    DifferentNames("type", "kind", 0);
    DifferentNames("name", "kind", 0);
    DifferentNames("name", "type", 0);
    Fields3(k, t, n, "kind", "");
    Fields3(k, t, n, "type", "");
    Fields3(k, t, n, "name", "");
  }

  /** Reading back an operator node: its tag, and its operands one by one. */
  lemma OperatorFields(kind: string, items: seq<Json>)
    ensures var ms := [Member("kind", JStr(kind)), Member("operands", JArr(items))];
            && RawKind(ms) == kind
            && TextField(ms, "kind", "") == Ok(kind)
            && DecodeOperandMembers(ms) == DecodeOperands(items)
  {
    var k, o := Member("kind", JStr(kind)), Member("operands", JArr(items));
    assert [k, o][1..] == [o];
    DifferentNames("operands", "kind", 0);
    DifferentNames("kind", "operands", 0);
    Fields2(k, o, "kind", "");
    OneOperandsMember(o, items);
    if DecodeOperands(items).Ok? { assert [] + DecodeOperands(items).value == DecodeOperands(items).value; }
  }

  lemma OneOperandsMember(o: Member, items: seq<Json>)
    requires o.key == "operands" && o.val == JArr(items)
    ensures DecodeOperandMembers([o]) == DecodeOperands(items)
  {
    assert [o][1..] == [] && DecodeOperandMembers([]) == Ok([]);
    if DecodeOperands(items).Ok? { assert DecodeOperands(items).value + [] == DecodeOperands(items).value; }
  }

  /** Marshalling and unmarshalling gives back exactly the trees whose tags match their nodes. */
  lemma {:induction false} ExprRoundTrip(e: Expr)
    ensures Tagged(e) ==> ReadExpr(EncodeExpr(e)) == Ok(e)
    ensures ReadExpr(EncodeExpr(e)) == Ok(e) ==> Tagged(e)
    decreases e, 1
  {
    match e {
      case Lit(v) => ValueRoundTrip(v, NO_VALUE);
      case Ref(p) => ParamRoundTrip(p);
      case Oper(op, kind, ops) =>
        OperandsRoundTrip(ops);
        NodeRoundTrip(op, kind, ops);
    }
  }

  lemma NodeRoundTrip(op: Op, kind: string, ops: seq<Expr>)
    requires AllTagged(ops) <==> DecodeOperands(EncodeOperands(ops)) == Ok(ops)
    ensures Tagged(Oper(op, kind, ops)) <==> ReadExpr(EncodeExpr(Oper(op, kind, ops))) == Ok(Oper(op, kind, ops))
  {
    OperatorFields(kind, EncodeOperands(ops));
    KindOpKind(op);
  }

  lemma {:induction false} OperandsRoundTrip(ops: seq<Expr>)
    ensures AllTagged(ops) <==> DecodeOperands(EncodeOperands(ops)) == Ok(ops)
    decreases ops, 0
  {
    if ops != [] {
      ExprRoundTrip(ops[0]);
      OperandsRoundTrip(ops[1..]);
      assert EncodeOperands(ops)[1..] == EncodeOperands(ops[1..]);
      var r := DecodeOperands(EncodeOperands(ops));
      if r == Ok(ops) { assert r.value[0] == ops[0] && r.value[1..] == ops[1..]; }
      assert [ops[0]] + ops[1..] == ops;
    }
  }

  // ---- Which documents decode to matching tags ----

  /** encoding/json and gjson agree on the kind of this node and of every operand below it. */
  predicate KindsAgree(j: Json)
    decreases j, 1
  {
    j.JObj? && TextField(j.members, "kind", "") == Ok(RawKind(j.members))
    && (KindOp(RawKind(j.members)).Some? ==> OperandKindsAgree(j.members))
  }

  predicate OperandKindsAgree(ms: seq<Member>)
    decreases ms, 0
  {
    ms == [] ||
    ((Names(ms[0].key, "operands") && ms[0].val.JArr? ==> ItemKindsAgree(ms[0].val.items))
     && OperandKindsAgree(ms[1..]))
  }

  predicate ItemKindsAgree(items: seq<Json>)
    decreases items, 0
  {
    items == [] || (KindsAgree(items[0]) && ItemKindsAgree(items[1..]))
  }

  /** A document that decodes has matching tags exactly when no node spells its kind twice in ways
      on which the two readers differ. */
  lemma {:induction false} DecodedTags(j: Json)
    requires ReadExpr(j).Ok?
    ensures Tagged(ReadExpr(j).value) <==> KindsAgree(j)
    decreases j, 1
  {
    var kind := KindOf(j);
    assert j.JObj?;
    if kind != "value" && kind != "param" {
      DecodedOperandMembers(j.members);
      KindOpKind(KindOp(kind).value);
    } else {
      assert KindOp(kind).None? by {
        if KindOp(kind).Some? { KindOpKind(KindOp(kind).value); }
      }
    }
  }

  lemma {:induction false} DecodedOperandMembers(ms: seq<Member>)
    requires DecodeOperandMembers(ms).Ok?
    ensures AllTagged(DecodeOperandMembers(ms).value) <==> OperandKindsAgree(ms)
    decreases ms, 0
  {
    if ms != [] {
      DecodedOperandMembers(ms[1..]);
      var rest := DecodeOperandMembers(ms[1..]).value;
      if Names(ms[0].key, "operands") && ms[0].val.JArr? {
        DecodedItems(ms[0].val.items);
        AllTaggedConcat(DecodeOperands(ms[0].val.items).value, rest);
      } else {
        AllTaggedConcat([], rest);
      }
    }
  }

  lemma {:induction false} DecodedItems(items: seq<Json>)
    requires DecodeOperands(items).Ok?
    ensures AllTagged(DecodeOperands(items).value) <==> ItemKindsAgree(items)
    decreases items, 0
  {
    if items != [] {
      DecodedTags(items[0]);
      DecodedItems(items[1..]);
      var r := DecodeOperands(items).value;
      assert r[0] == ReadExpr(items[0]).value && r[1..] == DecodeOperands(items[1..]).value;
    }
  }

  lemma {:induction false} AllTaggedConcat(a: seq<Expr>, b: seq<Expr>)
    ensures AllTagged(a + b) <==> AllTagged(a) && AllTagged(b)
  {
    if a == [] {
      assert a + b == b;
    } else {
      AllTaggedConcat(a[1..], b);
      assert (a + b)[1..] == a[1..] + b;
    }
  }

  // ---- Rules and rulesets ----

  function EncodeRule(r: Rule): Json {
    JObj([Member("expr", EncodeExpr(r.expr)), Member("result", EncodeValue(r.result))])
  }

  function EncodeRules(rules: seq<Rule>): seq<Json> {
    if rules == [] then [] else [EncodeRule(rules[0])] + EncodeRules(rules[1..])
  }

  function EncodeRuleset(rs: Ruleset): Json {
    JObj([Member("rules", JArr(EncodeRules(rs.rules))), Member("type", JStr(rs.typ))])
  }

  /** The raw document of the last matching member. */
  function RawField(ms: seq<Member>, field: string, current: Option<Json>): Option<Json> {
    if ms == [] then current
    else RawField(ms[1..], field, if Names(ms[0].key, field) then Some(ms[0].val) else current)
  }

  /** A pointer field: null clears it, an object is read into what is there already. */
  function ResultField(ms: seq<Member>, current: Option<Value>): Decoded<Option<Value>> {
    if ms == [] then Ok(current)
    else if !Names(ms[0].key, "result") then ResultField(ms[1..], current)
    else if ms[0].val == JNull then ResultField(ms[1..], None)
    else
      var v :- DecodeValue(if current.Some? then current.value else NO_VALUE, ms[0].val);
      ResultField(ms[1..], Some(v))
  }

  function DecodeRule(j: Json): Decoded<Rule> {
    if !j.JObj? then (if j.JNull? then Err(Crash) else Err(Malformed))
    else
      var result :- ResultField(j.members, None);
      if result.None? then Err(Crash)
      else if result.value.typ == "" then Err(NoResultType)
      else match RawField(j.members, "expr", None)
        case None => Err(UnknownKind(""))
        case Some(raw) =>
          var e :- ReadExpr(raw);
          Ok(Rule(e, result.value))
  }

  function DecodeRules(items: seq<Json>): Decoded<seq<Rule>> {
    if items == [] then Ok([])
    else
      var r :- DecodeRule(items[0]);
      var rest :- DecodeRules(items[1..]);
      Ok([r] + rest)
  }

  function RulesField(ms: seq<Member>, current: seq<Rule>): Decoded<seq<Rule>> {
    if ms == [] then Ok(current)
    else if !Names(ms[0].key, "rules") then RulesField(ms[1..], current)
    else match ms[0].val
      case JNull => RulesField(ms[1..], [])
      case JArr(items) =>
        var rules :- DecodeRules(items);
        RulesField(ms[1..], rules)
      case _ => Err(Malformed)
  }

  predicate KnownType(typ: string) { typ in ["string", "bool", "int64", "float64"] }

  /** Ruleset.UnmarshalJSON, which also validates. */
  function DecodeRuleset(j: Json): Decoded<Ruleset> {
    if !j.JObj? then Err(if j.JNull? then UnsupportedType else Malformed)
    else
      var rules :- RulesField(j.members, []);
      var typ :- TextField(j.members, "type", "");
      if !KnownType(typ) then Err(UnsupportedType)
      else if !Coherent(Ruleset(rules, typ)) then Err(Incoherent)
      else Ok(Ruleset(rules, typ))
  }

  method UnmarshalRuleset(j: Json) returns (r: Decoded<Ruleset>)
    ensures r == DecodeRuleset(j)
  {
    if !j.JObj? { return Err(if j.JNull? then UnsupportedType else Malformed); }
    var rules :- RulesField(j.members, []);
    var typ :- TextField(j.members, "type", "");
    if typ != "string" && typ != "bool" && typ != "int64" && typ != "float64" { return Err(UnsupportedType); }
    var ok := Validate(Ruleset(rules, typ));
    if !ok { return Err(Incoherent); }
    return Ok(Ruleset(rules, typ));
  }

  /** What a ruleset needs to survive storage: matching tags, a known type, and coherence. */
  predicate Storable(rs: Ruleset) {
    && (forall r | r in rs.rules :: Tagged(r.expr))
    && KnownType(rs.typ)
    && Coherent(rs)
  }

  /** A rule document, whatever its expression. */
  lemma RuleDocDecodes(raw: Json, result: Value)
    requires result.typ != ""
    ensures DecodeRule(JObj([Member("expr", raw), Member("result", EncodeValue(result))])) == (match ReadExpr(raw)
      case Ok(e) => Ok(Rule(e, result))
      case Err(x) => Err(x))
  {
    var e, v := Member("expr", raw), Member("result", EncodeValue(result));
    assert [e, v][1..] == [v] && [v][1..] == [];
    DifferentNames("expr", "result", 0);
    DifferentNames("result", "expr", 0);
    ValueRoundTrip(result, NO_VALUE);
    assert ResultField([], Some(result)) == Ok(Some(result));
    assert ResultField([v], None) == Ok(Some(result));
    assert RawField([], "expr", Some(e.val)) == Some(e.val);
    assert RawField([v], "expr", Some(e.val)) == Some(e.val);
  }

  lemma {:induction false} RulesRoundTrip(rules: seq<Rule>)
    requires forall r | r in rules :: r.result.typ != ""
    ensures DecodeRules(EncodeRules(rules)) == Ok(rules) <==> forall r | r in rules :: Tagged(r.expr)
  {
    if rules != [] {
      RuleDocDecodes(EncodeExpr(rules[0].expr), rules[0].result);
      ExprRoundTrip(rules[0].expr);
      RulesRoundTrip(rules[1..]);
      assert EncodeRules(rules)[1..] == EncodeRules(rules[1..]);
      assert rules == [rules[0]] + rules[1..];
      var d := DecodeRules(EncodeRules(rules));
      if d == Ok(rules) {
        assert d.value[0] == rules[0] && d.value[1..] == rules[1..];
      }
    }
  }

  lemma RulesetFields(items: seq<Json>, typ: string)
    ensures var ms := [Member("rules", JArr(items)), Member("type", JStr(typ))];
            && RulesField(ms, []) == DecodeRules(items)
            && TextField(ms, "type", "") == Ok(typ)
  {
    var r, t := Member("rules", JArr(items)), Member("type", JStr(typ));
    assert [r, t][1..] == [t] && [t][1..] == [];
    DifferentNames("type", "rules", 0);
    DifferentNames("rules", "type", 0);
    Fields2(r, t, "type", "");
    if DecodeRules(items).Ok? {
      assert RulesField([], DecodeRules(items).value) == Ok(DecodeRules(items).value);
      assert RulesField([t], DecodeRules(items).value) == Ok(DecodeRules(items).value);
    }
  }

  /** A ruleset decodes back to itself exactly when it is storable. */
  lemma RulesetRoundTrip(rs: Ruleset)
    ensures DecodeRuleset(EncodeRuleset(rs)) == Ok(rs) <==> Storable(rs)
  {
    RulesetFields(EncodeRules(rs.rules), rs.typ);
    if KnownType(rs.typ) && Coherent(rs) {
      RulesRoundTrip(rs.rules);
    }
  }

  // ---- Which ruleset documents decode to storable rulesets ----

  /** The rule documents of the deciding "rules" member. */
  function RuleDocs(ms: seq<Member>, current: seq<Json>): seq<Json> {
    if ms == [] then current
    else if !Names(ms[0].key, "rules") then RuleDocs(ms[1..], current)
    else RuleDocs(ms[1..], if ms[0].val.JArr? then ms[0].val.items else [])
  }

  /** The deciding "expr" member of a rule document spells every kind in one way. */
  predicate RuleKindsAgree(j: Json) {
    j.JObj? && match RawField(j.members, "expr", None)
      case Some(raw) => KindsAgree(raw)
      case None => false
  }

  predicate AllRuleKindsAgree(items: seq<Json>) {
    forall i | 0 <= i < |items| :: RuleKindsAgree(items[i])
  }

  predicate RulesetKindsAgree(j: Json) { j.JObj? && AllRuleKindsAgree(RuleDocs(j.members, [])) }

  lemma DecodedRuleTags(j: Json)
    requires DecodeRule(j).Ok?
    ensures Tagged(DecodeRule(j).value.expr) <==> RuleKindsAgree(j)
  {
    DecodedTags(RawField(j.members, "expr", None).value);
  }

  lemma {:induction false} DecodedRulesTags(items: seq<Json>)
    requires DecodeRules(items).Ok?
    ensures (forall r | r in DecodeRules(items).value :: Tagged(r.expr)) <==> AllRuleKindsAgree(items)
  {
    if items != [] {
      DecodedRuleTags(items[0]);
      DecodedRulesTags(items[1..]);
      var rules := DecodeRules(items).value;
      assert rules == [rules[0]] + DecodeRules(items[1..]).value;
      assert forall i | 1 <= i < |items| :: items[i] == items[1..][i - 1];
    }
  }

  /** The rules of a ruleset document are those of its rule documents. */
  lemma {:induction false} RulesAreDocs(ms: seq<Member>, rules: seq<Rule>, docs: seq<Json>)
    requires RulesField(ms, rules).Ok? && DecodeRules(docs) == Ok(rules)
    ensures DecodeRules(RuleDocs(ms, docs)) == RulesField(ms, rules)
  {
    if ms != [] {
      if !Names(ms[0].key, "rules") {
        RulesAreDocs(ms[1..], rules, docs);
      } else if ms[0].val.JNull? {
        RulesAreDocs(ms[1..], [], []);
      } else {
        RulesAreDocs(ms[1..], DecodeRules(ms[0].val.items).value, ms[0].val.items);
      }
    }
  }

  /** A ruleset that was decoded is storable exactly when no rule of the document spells a kind in two
      ways on which the readers differ: a server can tell from what it receives. */
  lemma DecodedIsStorable(j: Json)
    requires DecodeRuleset(j).Ok?
    ensures Storable(DecodeRuleset(j).value) <==> RulesetKindsAgree(j)
  {
    var docs := RuleDocs(j.members, []);
    RulesAreDocs(j.members, [], []);
    DecodedRulesTags(docs);
  }
}
