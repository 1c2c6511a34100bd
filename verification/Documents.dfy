/** From received JSON text to meaning, for whole documents: the member names, kind names and type
    names of the wire format are spelled out here, next to what they are to mean. */
module Documents {
  import opened Prelude
  import opened Strconv
  import opened Expr
  import opened Typing
  import opened Rulesets
  import opened Codec
  import Bytes

  // ---- Formulas and how they are written ----

  datatype Word = Negation | AnyOf | AllOf | Equal | OneOf | Greater | AtLeast | Smaller | AtMost | Hash | Within

  datatype Formula = Const(d: Datum) | Var(name: string, ty: Ty) | Apply(word: Word, fs: seq<Formula>)

  function KindName(w: Word): string {
    match w
    case Negation => "not"
    case AnyOf => "or"
    case AllOf => "and"
    case Equal => "eq"
    case OneOf => "in"
    case Greater => "gt"
    case AtLeast => "gte"
    case Smaller => "lt"
    case AtMost => "lte"
    case Hash => "fnv"
    case Within => "percentile"
  }

  /** The text of a constant. */
  function DataText(d: Datum): string {
    match d
    case B(b) => if b then "true" else "false"
    case S(s) => s
    case I(i) => FormatInt(i)
  }

  function TypeText(t: Ty): string {
    match t
    case TBool => "bool"
    case TString => "string"
    case TInt => "int64"
  }

  function ValueText(typ: string, data: string): Json {
    JObj([Member("kind", JStr("value")), Member("type", JStr(typ)), Member("data", JStr(data))])
  }

  function Text(f: Formula): Json
    decreases f, 1
  {
    match f
    case Const(d) => ValueText(TypeText(TyOf(d)), DataText(d))
    case Var(name, ty) =>
      JObj([Member("kind", JStr("param")), Member("type", JStr(TypeText(ty))), Member("name", JStr(name))])
    case Apply(w, fs) => JObj([Member("kind", JStr(KindName(w))), Member("operands", JArr(Texts(fs)))])
  }

  function Texts(fs: seq<Formula>): seq<Json>
    decreases fs, 0
  {
    if fs == [] then [] else [Text(fs[0])] + Texts(fs[1..])
  }

  // ---- What they mean ----

  predicate Exceeds(a: Datum, b: Datum) {
    match (a, b)
    case (B(x), B(y)) => x && !y
    case (S(x), S(y)) => Bytes.Less(y, x)
    case (I(x), I(y)) => x > y
    case _ => false
  }

  ghost predicate AllBools(ds: seq<Datum>) { forall i | 0 <= i < |ds| :: ds[i].B? }

  ghost predicate OneType(ds: seq<Datum>) { forall i | 0 <= i < |ds| :: TyOf(ds[i]) == TyOf(ds[0]) }

  /** The operand lists for which the word means something. */
  ghost predicate Sensible(w: Word, ds: seq<Datum>) {
    match w
    case Negation => |ds| == 1 && ds[0].B?
    case AnyOf | AllOf => |ds| >= 2 && AllBools(ds)
    case Equal | OneOf => |ds| >= 2
    case Hash => |ds| == 1
    case Within => |ds| == 2 && ds[1].I?
    case _ => |ds| >= 2 && OneType(ds)
  }

  ghost function Says(w: Word, ds: seq<Datum>): Datum
    requires Sensible(w, ds)
  {
    match w
    case Negation => B(!ds[0].b)
    case AnyOf => B(exists i :: 0 <= i < |ds| && ds[i] == B(true))
    case AllOf => B(forall i | 0 <= i < |ds| :: ds[i] == B(true))
    case Equal => B(forall i | 1 <= i < |ds| :: ds[i] == ds[0])
    case OneOf => B(exists i :: 1 <= i < |ds| && ds[i] == ds[0])
    case Greater => B(forall i | 1 <= i < |ds| :: Exceeds(ds[0], ds[i]))
    case AtLeast => B(forall i | 1 <= i < |ds| :: Exceeds(ds[0], ds[i]) || ds[0] == ds[i])
    case Smaller => B(forall i | 1 <= i < |ds| :: Exceeds(ds[i], ds[0]))
    case AtMost => B(forall i | 1 <= i < |ds| :: Exceeds(ds[i], ds[0]) || ds[0] == ds[i])
    case Hash => I(HashInt(DataText(ds[0])))
    case Within => B(HashInt(DataText(ds[0])) % 100 <= ds[1].i)
  }

  /** The meaning of a formula under the parameters; None when it has none. */
  ghost function Truth(f: Formula, ps: Params): Option<Datum>
    decreases f, 1
  {
    match f
    case Const(d) => Some(d)
    case Var(name, ty) => Fetch(ps, name, ty)
    case Apply(w, fs) =>
      match Truths(fs, ps)
      case Some(ds) => if Sensible(w, ds) then Some(Says(w, ds)) else None
      case None => None
  }

  ghost function Truths(fs: seq<Formula>, ps: Params): (r: Option<seq<Datum>>)
    ensures r.Some? ==> |r.value| == |fs|
    decreases fs, 0
  {
    if fs == [] then Some([])
    else match (Truth(fs[0], ps), Truths(fs[1..], ps))
      case (Some(d), Some(ds)) => Some([d] + ds)
      case _ => None
  }

  // ---- Reading ----

  function OpOf(w: Word): Op {
    match w
    case Negation => Not
    case AnyOf => Or
    case AllOf => And
    case Equal => Eq
    case OneOf => In
    case Greater => GT
    case AtLeast => GTE
    case Smaller => LT
    case AtMost => LTE
    case Hash => FNV
    case Within => Percentile
  }

  /** The expression that the constructors of the rule package build. */
  function Node(f: Formula): Expr
    decreases f, 1
  {
    match f
    case Const(d) => Lit(Value("value", TypeText(TyOf(d)), DataText(d)))
    case Var(name, ty) => Ref(Param("param", TypeText(ty), name))
    case Apply(w, fs) => Oper(OpOf(w), KindName(w), Nodes(fs))
  }

  function Nodes(fs: seq<Formula>): (es: seq<Expr>)
    ensures |es| == |fs|
    decreases fs, 0
  {
    if fs == [] then [] else [Node(fs[0])] + Nodes(fs[1..])
  }

  lemma {:induction false} TextIsRead(f: Formula)
    ensures ReadExpr(Text(f)) == Ok(Node(f))
    decreases f, 1
  {
    match f {
      case Const(d) =>
        var v := Value("value", TypeText(TyOf(d)), DataText(d));
        ValueRoundTrip(v, NO_VALUE);
        assert Text(f) == EncodeValue(v);
      case Var(name, ty) =>
        var p := Param("param", TypeText(ty), name);
        ParamRoundTrip(p);
        assert Text(f) == EncodeParam(p);
      case Apply(w, fs) =>
        TextsAreRead(fs);
        WordIsRead(w, Texts(fs));
    }
  }

  lemma {:induction false} TextsAreRead(fs: seq<Formula>)
    ensures DecodeOperands(Texts(fs)) == Ok(Nodes(fs))
    decreases fs, 0
  {
    if fs != [] {
      TextIsRead(fs[0]);
      TextsAreRead(fs[1..]);
      assert Texts(fs)[1..] == Texts(fs[1..]);
    }
  }

  lemma KindNames(w: Word)
    ensures KindOp(KindName(w)) == Some(OpOf(w)) && KindName(w) != "value" && KindName(w) != "param"
  {
    KindOpKind(OpOf(w));
    assert OpKind(OpOf(w)) == KindName(w);
  }

  lemma WordIsRead(w: Word, items: seq<Json>)
    requires DecodeOperands(items).Ok?
    ensures ReadExpr(JObj([Member("kind", JStr(KindName(w))), Member("operands", JArr(items))]))
         == Ok(Oper(OpOf(w), KindName(w), DecodeOperands(items).value))
  {
    KindNames(w);
    OperatorFields(KindName(w), items);
  }

  // ---- Evaluating ----

  lemma EncodedText(d: Datum)
    ensures Encode(d) == Value("value", TypeText(TyOf(d)), DataText(d))
  {
  }

  /** What a word says on data is what its operator means. */
  lemma WordIsMeaning(w: Word, ds: seq<Datum>)
    requires Sensible(w, ds)
    ensures Accepts(OpOf(w), Types(ds)) && Meaning(OpOf(w), ds) == Says(w, ds)
  {
    var ts := Types(ds);
    assert forall i | 0 <= i < |ds| :: ts[i] == TyOf(ds[i]);
    assert Accepts(OpOf(w), ts) by { if w == Negation { assert ts == [TBool]; } }
    assert forall i | 1 <= i < |ds| :: ds[1..][i - 1] == ds[i];
    match w {
      case Negation =>
      case AnyOf => assert B(true) in ds <==> exists i :: 0 <= i < |ds| && ds[i] == B(true);
      case AllOf => assert B(false) !in ds <==> forall i | 0 <= i < |ds| :: ds[i] == B(true);
      case Equal => AllRelatedExact(Eq, ds);
      case OneOf => assert ds[0] in ds[1..] <==> exists i :: 1 <= i < |ds| && ds[i] == ds[0];
      case Hash => EncodedText(ds[0]);
      case Within => EncodedText(ds[0]);
      case _ => OrderSays(w, ds);
    }
  }

  lemma AllRelatedExact(op: Op, ds: seq<Datum>)
    requires |ds| >= 2 && (IsOrder(op) ==> OneType(ds))
    ensures AllRelated(op, ds[0], ds[1..]) <==> forall i | 1 <= i < |ds| :: TyOf(ds[i]) == TyOf(ds[0]) || !IsOrder(op) ==> Related(op, ds[0], ds[i])
  {
    assert forall i | 1 <= i < |ds| :: ds[1..][i - 1] == ds[i];
  }

  lemma OrderSays(w: Word, ds: seq<Datum>)
    requires w == Greater || w == AtLeast || w == Smaller || w == AtMost
    requires |ds| >= 2 && OneType(ds)
    ensures Accepts(OpOf(w), Types(ds)) && Meaning(OpOf(w), ds) == Says(w, ds)
  {
    assert forall i | 0 <= i < |ds| :: Types(ds)[i] == TyOf(ds[i]);
    AllRelatedExact(OpOf(w), ds);
    forall i | 1 <= i < |ds| ensures Related(OpOf(w), ds[0], ds[i]) <==> OrderHolds(w, ds[0], ds[i]) {
      OrderExact(w, ds[0], ds[i]);
    }
  }

  predicate OrderHolds(w: Word, a: Datum, b: Datum) {
    match w
    case Greater => Exceeds(a, b)
    case AtLeast => Exceeds(a, b) || a == b
    case Smaller => Exceeds(b, a)
    case AtMost => Exceeds(b, a) || a == b
    case _ => false
  }

  lemma OrderExact(w: Word, a: Datum, b: Datum)
    requires (w == Greater || w == AtLeast || w == Smaller || w == AtMost) && TyOf(a) == TyOf(b)
    ensures Related(OpOf(w), a, b) <==> OrderHolds(w, a, b)
  {
    if a.S? { Bytes.LessTotal(a.s, b.s); }
  }

  lemma {:induction false} NodeIsTruth(f: Formula, env: Env)
    requires Truth(f, env.params).Some?
    ensures Eval(Node(f), env) == Ok(Encode(Truth(f, env.params).value))
    decreases f, 1
  {
    match f {
      case Const(d) => EncodedText(d);
      case Var(name, ty) => ParamIsFetched(Param("param", TypeText(ty), name), ty, env);
      case Apply(w, fs) =>
        var ds := Truths(fs, env.params).value;
        NodesAreTruths(fs, env);
        WordIsMeaning(w, ds);
        OperatorIsMeaning(OpOf(w), KindName(w), Nodes(fs), ds, env);
    }
  }

  lemma {:induction false} NodesAreTruths(fs: seq<Formula>, env: Env)
    requires Truths(fs, env.params).Some?
    ensures AllDenoted(Nodes(fs), Truths(fs, env.params).value, env)
    decreases fs, 0
  {
    if fs != [] {
      NodeIsTruth(fs[0], env);
      NodesAreTruths(fs[1..], env);
    }
  }

  /** From text to meaning: reading the document of a formula and evaluating it gives the value that
      spells what the formula says under the parameters. */
  lemma TextIsTruth(f: Formula, env: Env)
    requires Truth(f, env.params).Some?
    ensures var d := Truth(f, env.params).value;
            ReadExpr(Text(f)).Ok? && Eval(ReadExpr(Text(f)).value, env) == Ok(Value("value", TypeText(TyOf(d)), DataText(d)))
  {
    TextIsRead(f);
    NodeIsTruth(f, env);
    EncodedText(Truth(f, env.params).value);
  }

  /** The document {"kind": "gt", "operands": [i, j]} and its three neighbours, in numbers. */
  lemma IntComparisons(i: int64, j: int64, env: Env)
    ensures ReadsAsBool("gt", [I(i), I(j)], i > j, env) && ReadsAsBool("gte", [I(i), I(j)], i >= j, env)
    ensures ReadsAsBool("lt", [I(i), I(j)], i < j, env) && ReadsAsBool("lte", [I(i), I(j)], i <= j, env)
  {
    WordOnData(Greater, [I(i), I(j)], env);
    WordOnData(AtLeast, [I(i), I(j)], env);
    WordOnData(Smaller, [I(i), I(j)], env);
    WordOnData(AtMost, [I(i), I(j)], env);
  }

  /** The operator document of this kind over these constants reads and evaluates to the bool. */
  ghost predicate ReadsAsBool(kind: string, ds: seq<Datum>, b: bool, env: Env) {
    var doc := JObj([Member("kind", JStr(kind)), Member("operands", JArr(DataTexts(ds)))]);
    ReadExpr(doc).Ok? && Eval(ReadExpr(doc).value, env) == Ok(Value("value", "bool", if b then "true" else "false"))
  }

  function Consts(ds: seq<Datum>): seq<Formula> { seq(|ds|, i requires 0 <= i < |ds| => Const(ds[i])) }

  function DataTexts(ds: seq<Datum>): seq<Json> {
    seq(|ds|, i requires 0 <= i < |ds| => ValueText(TypeText(TyOf(ds[i])), DataText(ds[i])))
  }

  lemma {:induction false} ConstTexts(ds: seq<Datum>)
    ensures Texts(Consts(ds)) == DataTexts(ds)
  {
    if ds != [] {
      ConstTexts(ds[1..]);
      assert Consts(ds)[1..] == Consts(ds[1..]) && Consts(ds)[0] == Const(ds[0]);
      assert DataTexts(ds) == [DataTexts(ds)[0]] + DataTexts(ds[1..]);
    }
  }

  lemma {:induction false} ConstTruths(ds: seq<Datum>, ps: Params)
    ensures Truths(Consts(ds), ps) == Some(ds)
  {
    if ds != [] {
      ConstTruths(ds[1..], ps);
      assert Consts(ds)[1..] == Consts(ds[1..]) && Consts(ds)[0] == Const(ds[0]);
      assert ds == [ds[0]] + ds[1..];
    }
  }

  lemma WordOnData(w: Word, ds: seq<Datum>, env: Env)
    requires Sensible(w, ds) && Says(w, ds).B?
    ensures ReadsAsBool(KindName(w), ds, Says(w, ds).b, env)
  {
    ConstTexts(ds);
    ConstTruths(ds, env.params);
    TextIsTruth(Apply(w, Consts(ds)), env);
  }

  // ---- What is refused ----

  /** Any other kind is refused, and so is a document without one. */
  lemma OtherKindsAreRefused(j: Json)
    requires j.JObj? && ReadExpr(j).Ok?
    ensures var k := RawKind(j.members);
            k == "value" || k == "param" || exists w :: k == KindName(w)
  {
    var k := RawKind(j.members);
    if k != "value" && k != "param" {
      var op := KindOp(k).value;
      var w := match op case Not => Negation case Or => AnyOf case And => AllOf case Eq => Equal case In => OneOf
        case GT => Greater case GTE => AtLeast case LT => Smaller case LTE => AtMost case FNV => Hash case Percentile => Within;
      assert KindName(w) == OpKind(op);
    }
  }

  // ---- Rulesets ----

  datatype RuleText = RuleText(condition: Formula, typ: string, data: string)

  function RulesetText(rules: seq<RuleText>, typ: string): Json {
    JObj([Member("rules", JArr(RuleTexts(rules))), Member("type", JStr(typ))])
  }

  function RuleTexts(rules: seq<RuleText>): seq<Json> {
    if rules == [] then []
    else [JObj([Member("expr", Text(rules[0].condition)), Member("result", ValueText(rules[0].typ, rules[0].data))])]
         + RuleTexts(rules[1..])
  }

  function RuleNodes(rules: seq<RuleText>): (rs: seq<Rule>)
    ensures |rs| == |rules|
    ensures forall i | 0 <= i < |rs| :: rs[i] == Rule(Node(rules[i].condition), Value("value", rules[i].typ, rules[i].data))
  {
    if rules == [] then []
    else [Rule(Node(rules[0].condition), Value("value", rules[0].typ, rules[0].data))] + RuleNodes(rules[1..])
  }

  /** Every variable has the type that m gives its name. */
  predicate TypedBy(f: Formula, m: map<string, Ty>)
    decreases f, 1
  {
    match f
    case Const(_) => true
    case Var(name, ty) => name in m && m[name] == ty
    case Apply(_, fs) => AllTypedBy(fs, m)
  }

  predicate AllTypedBy(fs: seq<Formula>, m: map<string, Ty>)
    decreases fs, 0
  {
    fs == [] || (TypedBy(fs[0], m) && AllTypedBy(fs[1..], m))
  }

  ghost predicate OccursTyped(ps: seq<Param>, m: map<string, Ty>) {
    forall p | p in ps :: p.name in m && p.typ == TypeText(m[p.name])
  }

  lemma {:induction false} NodeOccurrences(f: Formula, m: map<string, Ty>)
    requires TypedBy(f, m)
    ensures OccursTyped(Occurrences(Node(f)), m)
    decreases f, 1
  {
    if f.Apply? { NodesOccurrences(f.fs, m); }
  }

  lemma {:induction false} NodesOccurrences(fs: seq<Formula>, m: map<string, Ty>)
    requires AllTypedBy(fs, m)
    ensures OccursTyped(AllOccurrences(Nodes(fs)), m)
    decreases fs, 0
  {
    if fs != [] {
      NodeOccurrences(fs[0], m);
      NodesOccurrences(fs[1..], m);
      assert Nodes(fs)[1..] == Nodes(fs[1..]);
    }
  }

  lemma {:induction false} RulesOccurTyped(rules: seq<RuleText>, m: map<string, Ty>)
    requires forall i | 0 <= i < |rules| :: TypedBy(rules[i].condition, m)
    ensures OccursTyped(RulesOccurrences(RuleNodes(rules)), m)
  {
    if rules != [] {
      NodeOccurrences(rules[0].condition, m);
      RulesOccurTyped(rules[1..], m);
      assert RuleNodes(rules)[1..] == RuleNodes(rules[1..]);
    }
  }

  lemma {:induction false} RulesAreRead(rules: seq<RuleText>)
    requires forall i | 0 <= i < |rules| :: rules[i].typ != ""
    ensures DecodeRules(RuleTexts(rules)) == Ok(RuleNodes(rules))
  {
    if rules != [] {
      var v := Value("value", rules[0].typ, rules[0].data);
      TextIsRead(rules[0].condition);
      assert ValueText(rules[0].typ, rules[0].data) == EncodeValue(v);
      RuleDocDecodes(Text(rules[0].condition), v);
      RulesAreRead(rules[1..]);
      assert RuleTexts(rules)[1..] == RuleTexts(rules[1..]);
      assert RuleNodes(rules) == [Rule(Node(rules[0].condition), v)] + RuleNodes(rules[1..]);
    }
  }

  predicate WireType(typ: string) { typ == "string" || typ == "bool" || typ == "int64" || typ == "float64" }

  /** A ruleset document whose variables are used at one type each is accepted exactly when its type
      is one of the four and all its results have it; what is read are its rules. */
  lemma RulesetIsAccepted(rules: seq<RuleText>, typ: string, m: map<string, Ty>)
    requires forall i | 0 <= i < |rules| :: rules[i].typ != "" && TypedBy(rules[i].condition, m)
    ensures DecodeRuleset(RulesetText(rules, typ)).Ok? <==> WireType(typ) && forall i | 0 <= i < |rules| :: rules[i].typ == typ
    ensures DecodeRuleset(RulesetText(rules, typ)).Ok? ==>
              DecodeRuleset(RulesetText(rules, typ)) == Ok(Ruleset(RuleNodes(rules), typ))
  {
    RulesAreRead(rules);
    RulesOccurTyped(rules, m);
    TypedIsConsistent(RulesOccurrences(RuleNodes(rules)), m);
    FourTypes(typ);
    RulesDocIsRead(RuleTexts(rules), RuleNodes(rules), typ);
    ResultTypes(rules, typ);
  }

  lemma TypedIsConsistent(ps: seq<Param>, m: map<string, Ty>)
    requires OccursTyped(ps, m)
    ensures Consistent(ps)
  {
    assert forall i | 0 <= i < |ps| :: ps[i] in ps;
  }

  lemma RulesDocIsRead(items: seq<Json>, rules: seq<Rule>, typ: string)
    requires DecodeRules(items) == Ok(rules) && Consistent(RulesOccurrences(rules))
    ensures DecodeRuleset(JObj([Member("rules", JArr(items)), Member("type", JStr(typ))])) ==
              if !KnownType(typ) then Err(UnsupportedType)
              else if forall r | r in rules :: r.result.typ == typ then Ok(Ruleset(rules, typ))
              else Err(Incoherent)
  {
    RulesetFields(items, typ);
  }

  lemma ResultTypes(rules: seq<RuleText>, typ: string)
    ensures (forall r | r in RuleNodes(rules) :: r.result.typ == typ) <==> forall i | 0 <= i < |rules| :: rules[i].typ == typ
  {
    var rs := RuleNodes(rules);
    assert forall i | 0 <= i < |rs| :: rs[i] in rs && rs[i].result.typ == rules[i].typ;
  }

  lemma FourTypes(typ: string)
    ensures KnownType(typ) <==> WireType(typ)
  {
    var four := ["string", "bool", "int64", "float64"];
    assert four[0] == "string" && four[1] == "bool" && four[2] == "int64" && four[3] == "float64";
  }

  /** Rule k is the first whose condition is true; the ones before it are false. */
  ghost predicate FirstTrueText(rules: seq<RuleText>, k: nat, ps: Params) {
    && k < |rules| && Truth(rules[k].condition, ps) == Some(B(true))
    && forall i | 0 <= i < k :: Truth(rules[i].condition, ps) == Some(B(false))
  }

  /** From received text to answer: the first rule whose condition is true gives its result, and there
      is no match when all conditions are false. */
  lemma RulesetTextIsTruth(rules: seq<RuleText>, typ: string, env: Env)
    ensures forall k: nat | FirstTrueText(rules, k, env.params) ::
              EvalRuleset(Ruleset(RuleNodes(rules), typ), env) == Ok(Value("value", rules[k].typ, rules[k].data))
    ensures (forall i | 0 <= i < |rules| :: Truth(rules[i].condition, env.params) == Some(B(false))) ==>
              EvalRuleset(Ruleset(RuleNodes(rules), typ), env) == Err(NoMatch)
  {
    var rs := RuleNodes(rules);
    forall i | 0 <= i < |rules| && (Truth(rules[i].condition, env.params) == Some(B(true)) || Truth(rules[i].condition, env.params) == Some(B(false)))
      ensures EvalRule(rs[i], env) == if Truth(rules[i].condition, env.params) == Some(B(true)) then Ok(rs[i].result) else Err(NoMatch)
    {
      NodeIsTruth(rules[i].condition, env);
      BoolRoundTrip(Truth(rules[i].condition, env.params).value.b);
    }
    FirstMatch(rs, env);
    forall k: nat | FirstTrueText(rules, k, env.params) ensures EvalRuleset(Ruleset(rs, typ), env) == Ok(rs[k].result) {
      assert Decides(rs, k, env);
    }
  }

  // ---- Repeated, unknown and empty members ----

  /** Of several members with a field's name the last one counts; null and other members change
      nothing; a member that is no string is an error. */
  lemma {:induction false} LastMemberCounts(ms: seq<Member>, m: Member, field: string, current: string)
    ensures TextField(ms + [m], field, current) ==
              if TextField(ms, field, current).Err? then TextField(ms, field, current)
              else if !Codec.Names(m.key, field) || m.val.JNull? then TextField(ms, field, current)
              else if m.val.JStr? then Ok(m.val.s)
              else Err(Malformed)
  {
    if ms == [] {
      assert ms + [m] == [m] && [m][1..] == [];
    } else {
      assert (ms + [m])[0] == ms[0] && (ms + [m])[1..] == ms[1..] + [m];
      if !Codec.Names(ms[0].key, field) || ms[0].val.JNull? {
        LastMemberCounts(ms[1..], m, field, current);
      } else if ms[0].val.JStr? {
        LastMemberCounts(ms[1..], m, field, ms[0].val.s);
      }
    }
  }

  /** The operands of several members are put one behind the other. */
  lemma {:induction false} OperandMembersAppend(ms: seq<Member>, m: Member)
    requires DecodeOperandMembers(ms).Ok?
    ensures DecodeOperandMembers(ms + [m]) ==
              if !Codec.Names(m.key, "operands") || m.val.JNull? then DecodeOperandMembers(ms)
              else if m.val.JArr? then Prepend(DecodeOperandMembers(ms).value, DecodeOperands(m.val.items))
              else Err(Malformed)
  {
    if ms == [] {
      assert ms + [m] == [m];
      OneMember(m);
    } else {
      assert (ms + [m])[0] == ms[0] && (ms + [m])[1..] == ms[1..] + [m];
      OperandMembersAppend(ms[1..], m);
      if m.val.JArr? {
        var here := if Codec.Names(ms[0].key, "operands") && ms[0].val.JArr? then DecodeOperands(ms[0].val.items).value else [];
        PrependTwice(here, DecodeOperandMembers(ms[1..]).value, DecodeOperands(m.val.items));
      }
    }
  }

  lemma OneMember(m: Member)
    ensures DecodeOperandMembers([m]) ==
              if !Codec.Names(m.key, "operands") || m.val.JNull? then Ok([])
              else if m.val.JArr? then Prepend([], DecodeOperands(m.val.items))
              else Err(Malformed)
  {
    var none: seq<Expr> := [];
    assert [m][1..] == [] && DecodeOperandMembers([]) == Ok(none) && none + none == none;
    if m.val.JArr? {
      PrependNothing(DecodeOperands(m.val.items));
      if DecodeOperands(m.val.items).Ok? { assert DecodeOperands(m.val.items).value + [] == DecodeOperands(m.val.items).value; }
    }
  }

  /** Of several results the last one counts; null takes the result away, an object is read into what
      is there already. */
  lemma {:induction false} LastResultCounts(ms: seq<Member>, m: Member, current: Option<Value>)
    requires ResultField(ms, current).Ok?
    ensures var before := ResultField(ms, current).value;
            ResultField(ms + [m], current) ==
              if !Codec.Names(m.key, "result") then Ok(before)
              else if m.val.JNull? then Ok(None)
              else match DecodeValue(if before.Some? then before.value else NO_VALUE, m.val)
                case Ok(v) => Ok(Some(v))
                case Err(x) => Err(x)
  {
    if ms == [] {
      assert ms + [m] == [m] && [m][1..] == [];
    } else {
      assert (ms + [m])[0] == ms[0] && (ms + [m])[1..] == ms[1..] + [m];
      if !Codec.Names(ms[0].key, "result") {
        LastResultCounts(ms[1..], m, current);
      } else if ms[0].val == JNull {
        LastResultCounts(ms[1..], m, None);
      } else {
        LastResultCounts(ms[1..], m, Some(DecodeValue(if current.Some? then current.value else NO_VALUE, ms[0].val).value));
      }
    }
  }

  /** Of several expressions of a rule the last one counts, whatever it is. */
  lemma {:induction false} LastExpressionCounts(ms: seq<Member>, m: Member, current: Option<Json>)
    ensures RawField(ms + [m], "expr", current)
         == if Codec.Names(m.key, "expr") then Some(m.val) else RawField(ms, "expr", current)
  {
    if ms == [] {
      assert ms + [m] == [m] && [m][1..] == [];
    } else {
      assert (ms + [m])[0] == ms[0] && (ms + [m])[1..] == ms[1..] + [m];
      LastExpressionCounts(ms[1..], m, if Codec.Names(ms[0].key, "expr") then Some(ms[0].val) else current);
    }
  }

  /** Of several lists of rules the last one counts, and null empties it. */
  lemma {:induction false} LastRulesCount(ms: seq<Member>, m: Member, current: seq<Rule>)
    requires RulesField(ms, current).Ok?
    ensures RulesField(ms + [m], current) ==
              if !Codec.Names(m.key, "rules") then RulesField(ms, current)
              else if m.val.JNull? then Ok([])
              else if m.val.JArr? then DecodeRules(m.val.items)
              else Err(Malformed)
  {
    if ms == [] {
      assert ms + [m] == [m] && [m][1..] == [];
    } else {
      assert (ms + [m])[0] == ms[0] && (ms + [m])[1..] == ms[1..] + [m];
      if !Codec.Names(ms[0].key, "rules") {
        LastRulesCount(ms[1..], m, current);
      } else if ms[0].val.JNull? {
        LastRulesCount(ms[1..], m, []);
      } else {
        LastRulesCount(ms[1..], m, DecodeRules(ms[0].val.items).value);
      }
    }
  }
}
