/** The promise to callers: a ruleset that matches a signature looks up only parameters the
    signature names, at the types it names, and returns only its return type. */
module Contract {
  import opened Prelude
  import opened Expr
  import opened Rulesets
  import opened Store

  /** The parameter interface serves every parameter of a signature at its type. */
  ghost predicate Serves(env: Env, paramTypes: map<string, string>) {
    !env.params.Nil? && forall n | n in paramTypes :: ServesParam(env, n, paramTypes[n])
  }

  ghost predicate ServesParam(env: Env, name: string, typ: string)
    requires !env.params.Nil?
  {
    && (typ == "string" ==> GetString(env.params, name).Ok?)
    && (typ == "bool" ==> GetBool(env.params, name).Ok?)
    && (typ == "int64" ==> GetInt64(env.params, name).Ok?)
    && (typ == "float64" ==> GetFloat64(env, name).Ok?)
  }

  predicate LookupFailed<T(==)>(r: Outcome<T>) {
    r == Err(ParamNotFound) || r == Err(ParamTypeMismatch)
  }

  ghost predicate Known(ps: seq<Param>, paramTypes: map<string, string>) {
    forall p | p in ps :: p.name in paramTypes && paramTypes[p.name] == p.typ
  }

  lemma KnownParts(a: seq<Param>, b: seq<Param>, m: map<string, string>)
    requires Known(a + b, m)
    ensures Known(a, m) && Known(b, m)
  {
    assert forall p | p in a :: p in a + b;
    assert forall p | p in b :: p in a + b;
  }

  lemma {:induction false} ExprLooksUpKnown(e: Expr, m: map<string, string>, env: Env)
    requires Known(Occurrences(e), m) && Serves(env, m)
    ensures !LookupFailed(Eval(e, env))
    decreases e, 1
  {
    match e {
      case Lit(_) =>
      case Ref(p) => assert p in Occurrences(e); assert ServesParam(env, p.name, m[p.name]);
      case Oper(op, _, ops) =>
        if op == Or || op == And {
          ConnectiveLooksUpKnown(op, ops, m, env);
        } else if ops != [] {
          FirstLooksUpKnown(op, ops, m, env);
        }
    }
  }

  /** The operators that evaluate their first operand before anything else. */
  lemma {:induction false} FirstLooksUpKnown(op: Op, ops: seq<Expr>, m: map<string, string>, env: Env)
    requires ops != [] && op != Or && op != And
    requires Known(AllOccurrences(ops), m) && Serves(env, m)
    ensures forall kind :: !LookupFailed(Eval(Oper(op, kind, ops), env))
    decreases ops, 0
  {
    KnownParts(Occurrences(ops[0]), AllOccurrences(ops[1..]), m);
    ExprLooksUpKnown(ops[0], m, env);
    if op == Percentile {
      if |ops| == 2 {
        KnownParts(Occurrences(ops[1]), AllOccurrences(ops[1..][1..]), m);
        ExprLooksUpKnown(ops[1], m, env);
      }
    } else if op != Not && op != FNV {
      if Eval(ops[0], env).Ok? { AgainstLooksUpKnown(op, Eval(ops[0], env).value, ops[1..], m, env); }
    }
  }

  lemma {:induction false} ConnectiveLooksUpKnown(op: Op, ops: seq<Expr>, m: map<string, string>, env: Env)
    requires Known(AllOccurrences(ops), m) && Serves(env, m)
    ensures !LookupFailed(EvalConnective(op, ops, env))
    decreases ops, 0
  {
    if ops != [] {
      KnownParts(Occurrences(ops[0]), AllOccurrences(ops[1..]), m);
      ExprLooksUpKnown(ops[0], m, env);
      ConnectiveLooksUpKnown(op, ops[1..], m, env);
    }
  }

  lemma {:induction false} AgainstLooksUpKnown(op: Op, a: Value, ops: seq<Expr>, m: map<string, string>, env: Env)
    requires Known(AllOccurrences(ops), m) && Serves(env, m)
    ensures !LookupFailed(EvalAgainst(op, a, ops, env))
    decreases ops, 0
  {
    if ops != [] {
      KnownParts(Occurrences(ops[0]), AllOccurrences(ops[1..]), m);
      ExprLooksUpKnown(ops[0], m, env);
      AgainstLooksUpKnown(op, a, ops[1..], m, env);
    }
  }

  lemma {:induction false} RulesLookUpKnown(rules: seq<Rule>, m: map<string, string>, typ: string, env: Env)
    requires Known(RulesOccurrences(rules), m) && Serves(env, m)
    requires forall r | r in rules :: r.result.typ == typ
    ensures !LookupFailed(EvalRules(rules, env))
    ensures EvalRules(rules, env).Ok? ==> EvalRules(rules, env).value.typ == typ
  {
    if rules != [] {
      KnownParts(Occurrences(rules[0].expr), RulesOccurrences(rules[1..]), m);
      ExprLooksUpKnown(rules[0].expr, m, env);
      RulesLookUpKnown(rules[1..], m, typ, env);
    }
  }

  /** A coherent ruleset whose signature matches `sig` keeps the promise made by `sig`. */
  lemma MatchingKeepsContract(rs: Ruleset, sig: Signature, env: Env)
    requires Coherent(rs) && MatchWith(sig, SignatureOf(rs)) && Serves(env, sig.paramTypes)
    ensures !LookupFailed(EvalRuleset(rs, env))
    ensures EvalRuleset(rs, env).Ok? ==> EvalRuleset(rs, env).value.typ == sig.returnType
  {
    SignatureIsExact(rs);
    RulesLookUpKnown(rs.rules, sig.paramTypes, rs.typ, env);
  }
}
