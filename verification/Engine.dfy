/** The in-memory buffer of ruleset versions and the typed getters on top of it. */
module Engine {
  import opened Prelude
  import opened Strconv
  import opened Expr
  import opened Rulesets
  import opened Typing
  import opened Store
  import opened Ledger

  type Buffered = map<string, seq<Entry>>

  /** The versions buffered for a path, oldest first. */
  function VersionsOf(m: Buffered, path: string): seq<Entry> {
    if path in m then m[path] else []
  }

  function LatestIn(m: Buffered, path: string): Result<Entry, ReadError> {
    var l := VersionsOf(m, path);
    if l == [] then Err(NotFound) else Ok(l[|l| - 1])
  }

  function VersionIn(m: Buffered, path: string, version: string): Result<Entry, ReadError> {
    FindVersion(VersionsOf(m, path), version)
  }

  class RulesetBuffer {
    var rulesets: Buffered

    constructor ()
      ensures rulesets == map[]
    {
      rulesets := map[];
    }

    method Add(path: string, version: string, r: Ruleset)
      modifies this
      ensures VersionsOf(rulesets, path) == VersionsOf(old(rulesets), path) + [Entry(path, version, r)]
      ensures forall q | q != path :: VersionsOf(rulesets, q) == VersionsOf(old(rulesets), q)
    {
      var l := if path in rulesets then rulesets[path] else [];
      rulesets := rulesets[path := l + [Entry(path, version, r)]];
    }

    method Latest(path: string) returns (r: Result<Entry, ReadError>)
      ensures r == LatestIn(rulesets, path)
    {
      if path !in rulesets || |rulesets[path]| == 0 { return Err(NotFound); }
      var l := rulesets[path];
      return Ok(l[|l| - 1]);
    }

    method GetVersion(path: string, version: string) returns (r: Result<Entry, ReadError>)
      ensures r == VersionIn(rulesets, path, version)
    {
      if path !in rulesets || |rulesets[path]| == 0 { return Err(NotFound); }
      var l := rulesets[path];
      for i := 0 to |l|
        invariant FindVersion(l, version) == FindVersion(l[i..], version)
      {
        assert l[i..][1..] == l[i + 1..];
        if l[i].version == version { return Ok(l[i]); }
      }
      return Err(NotFound);
    }

    method Eval(path: string, env: Env) returns (r: EvalReply)
      ensures r == EvalEntry(LatestIn(rulesets, path), env)
    {
      var found := Latest(path);
      r := EvalEntry(found, env);
    }

    method EvalVersion(path: string, version: string, env: Env) returns (r: EvalReply)
      ensures r == EvalEntry(VersionIn(rulesets, path, version), env)
    {
      var found := GetVersion(path, version);
      r := EvalEntry(found, env);
    }
  }

  // ---- Engine ----

  datatype GetError = RulesetNotFound | NoRuleMatched | EvaluationFailed(error: EvalError) | StoreError | TypeMismatch | ParseError

  datatype Answer<T> = Answer(value: T, version: string)

  type Got<T> = Result<Answer<T>, GetError>

  /** Engine.get: map the evaluator's errors and check the type. */
  function Get(typ: string, reply: EvalReply): Got<Value> {
    match reply
    case NoRuleset => Err(RulesetNotFound)
    case EvalFailed(NoMatch) => Err(NoRuleMatched)
    case EvalFailed(e) => Err(EvaluationFailed(e))
    case StoreFailed => Err(StoreError)
    case Evaluated(v, version) => if v.typ != typ then Err(TypeMismatch) else Ok(Answer(v, version))
  }

  function GetString(reply: EvalReply): Got<string> {
    var r :- Get("string", reply);
    Ok(Answer(r.value.data, r.version))
  }

  function GetBool(reply: EvalReply): Got<bool> {
    var r :- Get("bool", reply);
    match ParseBool(r.value.data)
    case Some(b) => Ok(Answer(b, r.version))
    case None => Err(ParseError)
  }

  function GetInt64(reply: EvalReply): Got<int64> {
    var r :- Get("int64", reply);
    match ParseInt(r.value.data)
    case Some(i) => Ok(Answer(i, r.version))
    case None => Err(ParseError)
  }

  /** The getter that matches a type. */
  function GetTyped(t: Ty, reply: EvalReply): Got<Datum> {
    match t
    case TString => (var r :- GetString(reply); Ok(Answer(S(r.value), r.version)))
    case TBool => (var r :- GetBool(reply); Ok(Answer(B(r.value), r.version)))
    case TInt => (var r :- GetInt64(reply); Ok(Answer(I(r.value), r.version)))
  }

  /** How a getter ends, for every reply: each failure has its own error, a value of another type is a
      mismatch, and a value of the type is what its text stands for, in any spelling. */
  lemma GetterOutcome(t: Ty, reply: EvalReply)
    ensures GetTyped(t, reply) == match reply
              case NoRuleset => Err(RulesetNotFound)
              case StoreFailed => Err(StoreError)
              case EvalFailed(x) => if x == NoMatch then Err(NoRuleMatched) else Err(EvaluationFailed(x))
              case Evaluated(v, version) =>
                if v.typ != TyName(t) then Err(TypeMismatch)
                else match ReadAs(t, v.data)
                  case Some(d) => Ok(Answer(d, version))
                  case None => Err(ParseError)
  {
  }

  /** Nothing is found exactly when the buffer holds no version of the path, or not the one asked for. */
  lemma NotBuffered(t: Ty, m: Buffered, path: string, version: string, env: Env)
    ensures GetTyped(t, Evaluate(m, path, version, env)) == Err(RulesetNotFound) <==>
              forall e | e in VersionsOf(m, path) :: version != "" && e.version != version
  {
    var found := if version != "" then VersionIn(m, path, version) else LatestIn(m, path);
    FindVersionFinds(VersionsOf(m, path), version);
    if VersionsOf(m, path) != [] { assert VersionsOf(m, path)[0] in VersionsOf(m, path); }
    assert Evaluate(m, path, version, env) == EvalEntry(found, env);
    GetterOutcome(t, EvalEntry(found, env));
    assert found.Err? ==> found == Err(NotFound);
  }

  /** The evaluator call behind a getter; an empty version option asks for the latest. */
  function Evaluate(m: Buffered, path: string, version: string, env: Env): EvalReply {
    EvalEntry(if version != "" then VersionIn(m, path, version) else LatestIn(m, path), env)
  }

  // ---- Typed getters, end to end ----

  datatype Source = Source(expr: Expr, result: Datum)

  /** A ruleset whose results come from the value constructors. */
  function Build(t: Ty, rules: seq<Source>): Ruleset {
    Ruleset(seq(|rules|, i requires 0 <= i < |rules| => Rule(rules[i].expr, Encode(rules[i].result))), TyName(t))
  }

  lemma GetEncoded(d: Datum, version: string)
    ensures GetTyped(TyOf(d), Evaluated(Encode(d), version)) == Ok(Answer(d, version))
  {
    match d {
      case B(x) => BoolRoundTrip(x);
      case S(x) =>
      case I(x) => IntRoundTrip(x);
    }
  }

  /** For a buffer whose selected version was built from constructor arguments of one type, the
      matching getter returns the argument of the deciding rule when that rule matches, the rule's
      error when it fails, and "no match" when no rule decides. It never fails on a type or a text. */
  lemma GetterReturnsArgument(m: Buffered, path: string, version: string, t: Ty, rules: seq<Source>, e: Entry, env: Env)
    requires (if version != "" then VersionIn(m, path, version) else LatestIn(m, path)) == Ok(e)
    requires e.ruleset == Build(t, rules) && forall i | 0 <= i < |rules| :: TyOf(rules[i].result) == t
    ensures var got := GetTyped(t, Evaluate(m, path, version, env));
            && (version != "" ==> e.version == version)
            && got != Err(TypeMismatch) && got != Err(ParseError)
            && (forall k: nat | Decides(e.ruleset.rules, k, env) :: got == Outcome(rules, e.ruleset.rules, k, e.version, env))
            && (got == Err(NoRuleMatched) <==> !exists k: nat :: Decides(e.ruleset.rules, k, env))
  {
    var rs := e.ruleset.rules;
    FirstMatch(rs, env);
    FindVersionFinds(VersionsOf(m, path), version);
    assert Evaluate(m, path, version, env) == EvalEntry(Ok(e), env);
    forall k: nat | Decides(rs, k, env)
      ensures GetTyped(t, EvalEntry(Ok(e), env)) == Outcome(rules, rs, k, e.version, env)
    {
      GetDecided(t, rules, e, k, env);
    }
    if EvalRules(rs, env) != Err(NoMatch) {
      var k: nat :| Decides(rs, k, env);
    }
  }

  /** What a getter makes of the deciding rule. */
  function Outcome(rules: seq<Source>, rs: seq<Rule>, k: nat, version: string, env: Env): Got<Datum>
    requires k < |rules| == |rs|
  {
    match EvalRule(rs[k], env)
    case Ok(_) => Ok(Answer(rules[k].result, version))
    case Err(x) => Err(EvaluationFailed(x))
  }

  lemma GetDecided(t: Ty, rules: seq<Source>, e: Entry, k: nat, env: Env)
    requires e.ruleset == Build(t, rules) && forall i | 0 <= i < |rules| :: TyOf(rules[i].result) == t
    requires Decides(e.ruleset.rules, k, env)
    ensures GetTyped(t, EvalEntry(Ok(e), env)) == Outcome(rules, e.ruleset.rules, k, e.version, env)
  {
    var rs := e.ruleset.rules;
    FirstMatch(rs, env);
    assert EvalRuleset(e.ruleset, env) == EvalRule(rs[k], env);
    if EvalRule(rs[k], env).Ok? {
      assert EvalEntry(Ok(e), env) == Evaluated(Encode(rules[k].result), e.version);
      GetEncoded(rules[k].result, e.version);
    }
  }

  // ---- Well-typed rules ----

  ghost predicate WellTyped(rules: seq<Source>, ctx: Context) {
    forall i | 0 <= i < |rules| :: TypeOf(rules[i].expr, ctx) == Some(TBool)
  }

  /** A well-typed rule matches exactly when its condition means true, and never fails. */
  lemma RuleIsDenoted(r: Rule, ctx: Context, env: Env)
    requires TypeOf(r.expr, ctx) == Some(TBool) && Conforms(env.params, ctx)
    ensures EvalRule(r, env) == if Denote(r.expr, ctx, env.params) == B(true) then Ok(r.result) else Err(NoMatch)
  {
    EvalIsDenote(r.expr, ctx, env);
    BoolRoundTrip(Denote(r.expr, ctx, env.params).b);
  }

  /** Rule k is the first whose condition means true. */
  ghost predicate FirstTrue(rules: seq<Source>, k: nat, ctx: Context, ps: Params)
    requires WellTyped(rules, ctx) && Conforms(ps, ctx)
  {
    && k < |rules| && Denote(rules[k].expr, ctx, ps) == B(true)
    && forall i | 0 <= i < k :: Denote(rules[i].expr, ctx, ps) == B(false)
  }

  /** From parameters to answer with no text in between: with well-typed conditions and conforming
      parameters the getter returns the constructor argument of the first rule whose condition means
      true, or "no match" when there is none. No other error is possible. */
  lemma TypedGetterIsMeaning(m: Buffered, path: string, version: string, t: Ty, rules: seq<Source>, e: Entry,
                             ctx: Context, env: Env)
    requires (if version != "" then VersionIn(m, path, version) else LatestIn(m, path)) == Ok(e)
    requires e.ruleset == Build(t, rules) && forall i | 0 <= i < |rules| :: TyOf(rules[i].result) == t
    requires WellTyped(rules, ctx) && Conforms(env.params, ctx)
    ensures var got := GetTyped(t, Evaluate(m, path, version, env));
            && (got == Err(NoRuleMatched) || got.Ok?)
            && (got == Err(NoRuleMatched) <==> forall i | 0 <= i < |rules| :: Denote(rules[i].expr, ctx, env.params) == B(false))
            && forall k: nat | FirstTrue(rules, k, ctx, env.params) :: got == Ok(Answer(rules[k].result, e.version))
  {
    var rs := e.ruleset.rules;
    assert Evaluate(m, path, version, env) == EvalEntry(Ok(e), env);
    forall i | 0 <= i < |rules|
      ensures EvalRule(rs[i], env) == if Denote(rules[i].expr, ctx, env.params) == B(true) then Ok(rs[i].result) else Err(NoMatch)
    {
      RuleIsDenoted(rs[i], ctx, env);
    }
    FirstMatch(rs, env);
    if EvalRules(rs, env) != Err(NoMatch) {
      var k: nat :| Decides(rs, k, env);
      GetDecided(t, rules, e, k, env);
    }
    forall k: nat | FirstTrue(rules, k, ctx, env.params)
      ensures GetTyped(t, EvalEntry(Ok(e), env)) == Ok(Answer(rules[k].result, e.version))
    {
      assert Decides(rs, k, env);
      GetDecided(t, rules, e, k, env);
    }
  }
}
