/** The one way to break the contract: a document that spells the kind of a node twice, in letter
    cases on which the two JSON readers differ, put into the store and evaluated. */
module Ambiguity {
  import opened Prelude
  import opened Expr
  import opened Rulesets
  import opened Codec
  import opened Backends
  import opened Store
  import opened Contract
  import Names
  import Paths

  /** gjson sees kind "value", encoding/json reads the tag "param". */
  function AmbiguousExpr(): Json {
    JObj([Member("kind", JStr("value")), Member("KIND", JStr("param")), Member("type", JStr("string"))])
  }

  function AmbiguousValue(): Value { Value("param", "string", "") }

  function Doc(raw: Json, result: Value): Json {
    JObj([Member("rules", JArr([JObj([Member("expr", raw), Member("result", EncodeValue(result))])])),
          Member("type", JStr(result.typ))])
  }

  function OneRule(e: Expr, result: Value): Ruleset { Ruleset([Rule(e, result)], result.typ) }

  /** The document decodes and validates; the ruleset has no parameter, so it can be put on any new
      path, with a signature that asks for nothing. Yet evaluating the latest version there fails a
      parameter lookup, whatever the parameters are named. */
  lemma AmbiguousKindBreaksContract(ns: string, sum: Json -> string, path: string, version: string, result: Value, fl: Floats)
    requires Names.IsRulesetName(path) && Paths.IsPlain(version) && KnownType(result.typ)
    ensures var b := Regula(ns, sum);
            var rs := OneRule(Lit(AmbiguousValue()), result);
            var (kv, put) := SeqPut(b, map[], 1, path, rs, version);
            var env := Env(Typed(map[]), fl);
            && DecodeRuleset(Doc(AmbiguousExpr(), result)) == Ok(rs) && !RulesetKindsAgree(Doc(AmbiguousExpr(), result))
            && put == Created(Entry(path, version, rs)) && SignatureOf(rs) == Signature(result.typ, map[])
            && Serves(env, map[])
            && EvalEntry(Latest(b, kv, path), env) == EvalFailed(ParamNotFound)
  {
    var b := Regula(ns, sum);
    var rs := OneRule(Lit(AmbiguousValue()), result);
    RegulaIsGood(ns, sum);
    ReceivedRuleset(result);
    StoredRuleset(result);
    NoOccurrences(Lit(AmbiguousValue()), result);
    PutOnEmpty(b, path, rs, version, OneRule(Ref(Param("param", "string", "")), result));
    LookupFails(Param("param", "string", ""), result, fl);
  }

  lemma ReceivedRuleset(result: Value)
    requires KnownType(result.typ)
    ensures DecodeRuleset(Doc(AmbiguousExpr(), result)) == Ok(OneRule(Lit(AmbiguousValue()), result))
    ensures !RulesetKindsAgree(Doc(AmbiguousExpr(), result))
  {
    ReadAmbiguous();
    DocDecodes(AmbiguousExpr(), Lit(AmbiguousValue()), result);
    DecodedIsStorable(Doc(AmbiguousExpr(), result));
    var rules := OneRule(Lit(AmbiguousValue()), result).rules;
    assert rules[0] in rules && !Tagged(rules[0].expr);
  }

  /** What is stored for the received ruleset decodes, to another ruleset. */
  lemma StoredRuleset(result: Value)
    requires KnownType(result.typ)
    ensures DecodeRuleset(EncodeRuleset(OneRule(Lit(AmbiguousValue()), result))) == Ok(OneRule(Ref(Param("param", "string", "")), result))
  {
    var e := Lit(AmbiguousValue());
    ValueReadsAsParam("string", "");
    DocDecodes(EncodeExpr(e), Ref(Param("param", "string", "")), result);
    var rules := OneRule(e, result).rules;
    assert rules[1..] == [] && EncodeRules([]) == [];
    assert EncodeRules(rules) == [EncodeRule(rules[0])];
  }

  lemma DocDecodes(raw: Json, e: Expr, result: Value)
    requires KnownType(result.typ) && ReadExpr(raw) == Ok(e) && |Occurrences(e)| <= 1
    ensures DecodeRuleset(Doc(raw, result)) == Ok(OneRule(e, result))
  {
    var items := [JObj([Member("expr", raw), Member("result", EncodeValue(result))])];
    RulesetFields(items, result.typ);
    RuleDocDecodes(raw, result);
    assert items[1..] == [] && DecodeRules([]) == Ok([]);
    assert [Rule(e, result)] + [] == [Rule(e, result)];
    assert DecodeRules(items) == Ok([Rule(e, result)]);
    var rules := [Rule(e, result)];
    assert rules[1..] == [] && RulesOccurrences([]) == [];
    assert RulesOccurrences(rules) == Occurrences(e);
  }

  lemma NoOccurrences(e: Expr, result: Value)
    requires Occurrences(e) == []
    ensures RulesOccurrences(OneRule(e, result).rules) == [] && SignatureOf(OneRule(e, result)) == Signature(result.typ, map[])
  {
    var rules := OneRule(e, result).rules;
    assert rules[1..] == [] && RulesOccurrences([]) == [];
    assert RulesOccurrences(rules) == [];
    assert Distinct([]) == [] && TypeMap([]) == map[];
  }

  /** Putting on the empty store and reading back, whatever decoding makes of the ruleset. */
  lemma PutOnEmpty(b: Backend, path: string, rs: Ruleset, version: string, read: Ruleset)
    requires Good(b) && b.isName(path) && b.isVersion(version) && RulesOccurrences(rs.rules) == []
    requires b.decode(b.encode(rs)) == Ok(read)
    ensures var (kv, put) := SeqPut(b, map[], 1, path, rs, version);
            put == Created(Entry(path, version, rs)) && Latest(b, kv, path) == Ok(Entry(path, version, read))
  {
    assert KeysApart(b, path, version, path, version);
  }

  lemma LookupFails(p: Param, result: Value, fl: Floats)
    requires p.typ == "string"
    ensures EvalRuleset(OneRule(Ref(p), result), Env(Typed(map[]), fl)) == Err(ParamNotFound)
  {
    var rules := OneRule(Ref(p), result).rules;
    assert EvalRule(rules[0], Env(Typed(map[]), fl)) == Err(ParamNotFound);
  }

  lemma ReadAmbiguous()
    ensures var ms := [Member("kind", JStr("value")), Member("KIND", JStr("param")), Member("type", JStr("string"))];
            && ReadExpr(JObj(ms)) == Ok(Lit(Value("param", "string", "")))
            && RawKind(ms) == "value" && TextField(ms, "kind", "") == Ok("param")
  {
    var k, c, t := Member("kind", JStr("value")), Member("KIND", JStr("param")), Member("type", JStr("string"));
    assert Codec.Names(c.key, "kind");
    DifferentNames(t.key, "kind", 0);
    DifferentNames(k.key, "type", 0);
    DifferentNames(c.key, "type", 0);
    DifferentNames(k.key, "data", 0);
    DifferentNames(c.key, "data", 0);
    DifferentNames(t.key, "data", 0);
    Fields3(k, c, t, "kind", "");
    Fields3(k, c, t, "type", "");
    Fields3(k, c, t, "data", "");
    assert RawKind([k, c, t]) == "value";
  }

  /** A value tagged "param" is written as a value and read as a parameter without a name. */
  lemma ValueReadsAsParam(typ: string, data: string)
    ensures ReadExpr(EncodeExpr(Lit(Value("param", typ, data)))) == Ok(Ref(Param("param", typ, "")))
  {
    var k, t, d := Member("kind", JStr("param")), Member("type", JStr(typ)), Member("data", JStr(data));
    DifferentNames(d.key, "kind", 0);
    DifferentNames(t.key, "kind", 0);
    DifferentNames(d.key, "type", 0);
    DifferentNames(k.key, "name", 0);
    DifferentNames(t.key, "name", 0);
    DifferentNames(d.key, "name", 0);
    Fields3(k, t, d, "kind", "");
    Fields3(k, t, d, "type", "");
    Fields3(k, t, d, "name", "");
    assert EncodeValue(Value("param", typ, data)) == JObj([k, t, d]);
    assert RawKind([k, t, d]) == "param";
  }
}
