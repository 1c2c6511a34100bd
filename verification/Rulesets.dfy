/** Rules, rulesets, their parameters, their validation and their signature. */
module Rulesets {
  import opened Prelude
  import opened Expr

  datatype Rule = Rule(expr: Expr, result: Value)

  datatype Ruleset = Ruleset(rules: seq<Rule>, typ: string)

  /** What callers rely on: the return type and the type of each parameter. */
  datatype Signature = Signature(returnType: string, paramTypes: map<string, string>)

  // ---- Evaluation ----

  function EvalRule(r: Rule, env: Env): Outcome<Value> {
    var v :- Eval(r.expr, env);
    if v.typ != "bool" then Err(NonBoolRule)
    else
      var ok :- ParseBoolOf(v);
      if ok then Ok(r.result) else Err(NoMatch)
  }

  function EvalRules(rules: seq<Rule>, env: Env): Outcome<Value> {
    if rules == [] then Err(NoMatch)
    else
      var r := EvalRule(rules[0], env);
      if r != Err(NoMatch) then r else EvalRules(rules[1..], env)
  }

  function EvalRuleset(rs: Ruleset, env: Env): Outcome<Value> { EvalRules(rs.rules, env) }

  method EvaluateRuleset(rs: Ruleset, env: Env) returns (r: Outcome<Value>)
    ensures r == EvalRuleset(rs, env)
  {
    for i := 0 to |rs.rules|
      invariant EvalRules(rs.rules, env) == EvalRules(rs.rules[i..], env)
    {
      assert rs.rules[i..][1..] == rs.rules[i + 1..];
      r := EvalRule(rs.rules[i], env);
      if r != Err(NoMatch) { return r; }
    }
    return Err(NoMatch);
  }

  /** Rule k decides: it is the first one that does not evaluate to false. */
  ghost predicate Decides(rules: seq<Rule>, k: nat, env: Env) {
    && k < |rules| && EvalRule(rules[k], env) != Err(NoMatch)
    && forall i | 0 <= i < k :: EvalRule(rules[i], env) == Err(NoMatch)
  }

  /** The outcome is that of the one deciding rule, and NoMatch exactly when there is none. */
  lemma {:induction false} FirstMatch(rules: seq<Rule>, env: Env)
    ensures EvalRules(rules, env) == Err(NoMatch) <==>
              forall i | 0 <= i < |rules| :: EvalRule(rules[i], env) == Err(NoMatch)
    ensures EvalRules(rules, env) != Err(NoMatch) <==> exists k: nat :: Decides(rules, k, env)
    ensures forall k: nat | Decides(rules, k, env) :: EvalRules(rules, env) == EvalRule(rules[k], env)
  {
    if rules != [] {
      var rest := rules[1..];
      FirstMatch(rest, env);
      if EvalRule(rules[0], env) == Err(NoMatch) {
        forall k: nat ensures Decides(rules, k, env) <==> k > 0 && Decides(rest, k - 1, env) {
          DecidesLater(rules, k, env);
        }
        if EvalRules(rest, env) != Err(NoMatch) {
          var k: nat :| Decides(rest, k, env);
          assert Decides(rules, k + 1, env);
        }
        assert forall i | 1 <= i < |rules| :: rules[i] == rest[i - 1];
      } else {
        assert Decides(rules, 0, env);
      }
    }
  }

  lemma DecidesLater(rules: seq<Rule>, k: nat, env: Env)
    requires rules != [] && EvalRule(rules[0], env) == Err(NoMatch)
    ensures Decides(rules, k, env) <==> k > 0 && Decides(rules[1..], k - 1, env)
  {
    assert forall i | 0 <= i < |rules[1..]| :: rules[1..][i] == rules[i + 1];
    if k > 0 && Decides(rules[1..], k - 1, env) {
      forall i | 0 <= i < k ensures EvalRule(rules[i], env) == Err(NoMatch) {
        if i > 0 { assert rules[i] == rules[1..][i - 1]; }
      }
    }
  }

  /** Rules behind a deciding rule are never looked at. */
  lemma {:induction false} AppendIsInvisible(rules: seq<Rule>, more: seq<Rule>, env: Env)
    ensures EvalRules(rules + more, env)
         == if EvalRules(rules, env) != Err(NoMatch) then EvalRules(rules, env) else EvalRules(more, env)
  {
    if rules == [] {
      assert rules + more == more;
    } else {
      AppendIsInvisible(rules[1..], more, env);
      assert (rules + more)[1..] == rules[1..] + more;
    }
  }

  /** Deleting a rule that is false under the given parameters changes nothing. */
  lemma DeleteFalseRule(rules: seq<Rule>, i: nat, env: Env)
    requires i < |rules| && EvalRule(rules[i], env) == Err(NoMatch)
    ensures EvalRules(rules[..i] + rules[i + 1..], env) == EvalRules(rules, env)
  {
    var front, back := rules[..i], rules[i..];
    assert front + back == rules && back[0] == rules[i] && back[1..] == rules[i + 1..];
    AppendIsInvisible(front, back[1..], env);
    AppendIsInvisible(front, back, env);
  }

  // ---- Parameters ----

  /** Every occurrence of a parameter, in the order in which walk visits the tree. */
  function Occurrences(e: Expr): seq<Param>
    decreases e, 1
  {
    match e
    case Lit(_) => []
    case Ref(p) => [p]
    case Oper(_, _, ops) => AllOccurrences(ops)
  }

  function AllOccurrences(ops: seq<Expr>): seq<Param>
    decreases ops, 0
  {
    if ops == [] then [] else Occurrences(ops[0]) + AllOccurrences(ops[1..])
  }

  function RulesOccurrences(rules: seq<Rule>): seq<Param> {
    if rules == [] then [] else Occurrences(rules[0].expr) + RulesOccurrences(rules[1..])
  }

  /** The list a rule's walk appends to. */
  class ParamList {
    var list: seq<Param>

    constructor ()
      ensures list == []
    {
      list := [];
    }

    method Walk(e: Expr)
      modifies this
      ensures list == old(list) + Occurrences(e)
      decreases e
    {
      if e.Ref? { list := list + [e.param]; }
      if e.Oper? {
        var ops := e.operands;
        for i := 0 to |ops|
          invariant list + AllOccurrences(ops[i..]) == old(list) + AllOccurrences(ops)
        {
          assert ops[i..][0] == ops[i] && ops[i..][1..] == ops[i + 1..];
          ghost var before := list;
          Walk(ops[i]);
          Assoc(before, Occurrences(ops[i]), AllOccurrences(ops[i + 1..]));
        }
        assert list + [] == list;
      }
    }
  }

  method RuleParams(r: Rule) returns (list: seq<Param>)
    ensures list == Occurrences(r.expr)
  {
    var c := new ParamList();
    c.Walk(r.expr);
    list := c.list;
  }

  /** One name-to-type function covers all occurrences. */
  predicate Consistent(ps: seq<Param>) {
    forall i, j | 0 <= i < |ps| && 0 <= j < |ps| && ps[i].name == ps[j].name :: ps[i].typ == ps[j].typ
  }

  /** What validate is meant to establish. */
  predicate Coherent(rs: Ruleset) {
    && (forall r | r in rs.rules :: r.result.typ == rs.typ)
    && Consistent(RulesOccurrences(rs.rules))
  }

  function Names(ps: seq<Param>): set<string> {
    set p | p in ps :: p.name
  }

  lemma NamesAppend(ps: seq<Param>, p: Param)
    ensures Names(ps + [p]) == Names(ps) + {p.name}
  {
    assert forall q :: q in ps + [p] <==> q in ps || q == p;
    assert p in ps + [p];
  }

  /** The map holds the type of exactly the names that occur. */
  ghost predicate Covers(m: map<string, string>, ps: seq<Param>) {
    && m.Keys == Names(ps)
    && (forall p | p in ps :: p.name in m && m[p.name] == p.typ)
  }

  lemma CoversIsConsistent(m: map<string, string>, ps: seq<Param>)
    requires Covers(m, ps)
    ensures Consistent(ps)
  {
    assert forall i | 0 <= i < |ps| :: ps[i] in ps;
  }

  lemma {:induction false} OccurrencesAppend(rules: seq<Rule>, r: Rule)
    ensures RulesOccurrences(rules + [r]) == RulesOccurrences(rules) + Occurrences(r.expr)
  {
    if rules == [] {
      assert rules + [r] == [r] && [r][1..] == [];
    } else {
      OccurrencesAppend(rules[1..], r);
      assert (rules + [r])[1..] == rules[1..] + [r];
    }
  }

  lemma {:induction false} OccurrencesSplit(rules: seq<Rule>, i: nat)
    requires i <= |rules|
    ensures RulesOccurrences(rules) == RulesOccurrences(rules[..i]) + RulesOccurrences(rules[i..])
  {
    if i > 0 {
      OccurrencesSplit(rules[1..], i - 1);
      assert rules[..i][1..] == rules[1..][..i - 1] && rules[1..][i - 1..] == rules[i..];
    } else {
      assert rules[..0] == [] && rules[0..] == rules;
    }
  }

  lemma PartOfConsistent(a: seq<Param>, b: seq<Param>)
    requires Consistent(a + b)
    ensures Consistent(a)
  {
    assert forall i | 0 <= i < |a| :: a[i] == (a + b)[i];
  }

  /** Ruleset.validate succeeds exactly on coherent rulesets. */
  method Validate(rs: Ruleset) returns (ok: bool)
    ensures ok <==> Coherent(rs)
  {
    var paramTypes: map<string, string> := map[];
    for i := 0 to |rs.rules|
      invariant Covers(paramTypes, RulesOccurrences(rs.rules[..i]))
      invariant forall k | 0 <= k < i :: rs.rules[k].result.typ == rs.typ
    {
      if rs.rules[i].result.typ != rs.typ { return false; }
      var ps := RuleParams(rs.rules[i]);
      ghost var seen := RulesOccurrences(rs.rules[..i]);
      assert RulesOccurrences(rs.rules[..i + 1]) == seen + ps by {
        assert rs.rules[..i + 1] == rs.rules[..i] + [rs.rules[i]];
        OccurrencesAppend(rs.rules[..i], rs.rules[i]);
      }
      ok, paramTypes := AddParamTypes(paramTypes, ps, seen);
      if !ok {
        OccurrencesSplit(rs.rules, i + 1);
        if Consistent(RulesOccurrences(rs.rules)) {
          PartOfConsistent(seen + ps, RulesOccurrences(rs.rules[i + 1..]));
        }
        return false;
      }
    }
    assert rs.rules[..|rs.rules|] == rs.rules;
    CoversIsConsistent(paramTypes, RulesOccurrences(rs.rules));
    return true;
  }

  /** The inner loop of validate: record new names, compare known ones. */
  method AddParamTypes(known: map<string, string>, ps: seq<Param>, ghost seen: seq<Param>)
    returns (ok: bool, paramTypes: map<string, string>)
    requires Covers(known, seen)
    ensures ok ==> Covers(paramTypes, seen + ps)
    ensures !ok ==> !Consistent(seen + ps)
  {
    paramTypes := known;
    assert seen + ps[..0] == seen;
    for j := 0 to |ps|
      invariant Covers(paramTypes, seen + ps[..j])
    {
      ghost var sofar := seen + ps[..j];
      assert seen + ps[..j + 1] == sofar + [ps[j]];
      if ps[j].name in paramTypes {
        if ps[j].typ != paramTypes[ps[j].name] {
          Clash(paramTypes, sofar, ps[j]);
          if Consistent(seen + ps) {
            assert seen + ps == (sofar + [ps[j]]) + ps[j + 1..];
            PartOfConsistent(sofar + [ps[j]], ps[j + 1..]);
          }
          return false, paramTypes;
        }
        NamesAppend(sofar, ps[j]);
      } else {
        CoverOneMore(paramTypes, sofar, ps[j]);
        paramTypes := paramTypes[ps[j].name := ps[j].typ];
      }
    }
    assert ps[..|ps|] == ps;
    return true, paramTypes;
  }

  lemma Clash(m: map<string, string>, ps: seq<Param>, p: Param)
    requires Covers(m, ps) && p.name in m && m[p.name] != p.typ
    ensures !Consistent(ps + [p])
  {
    assert p.name in Names(ps);
    var q :| q in ps && q.name == p.name;
    var i :| 0 <= i < |ps| && ps[i] == q;
    assert (ps + [p])[i] == q && (ps + [p])[|ps|] == p;
  }

  lemma CoverOneMore(m: map<string, string>, ps: seq<Param>, p: Param)
    requires Covers(m, ps) && p.name !in m
    ensures Covers(m[p.name := p.typ], ps + [p])
  {
    NamesAppend(ps, p);
    assert forall q | q in ps :: q.name in Names(ps);
  }

  /** The occurrences whose name has not occurred before. */
  function Distinct(ps: seq<Param>): seq<Param> {
    if ps == [] then []
    else
      var init, last := ps[..|ps| - 1], ps[|ps| - 1];
      if last.name in Names(init) then Distinct(init) else Distinct(init) + [last]
  }

  lemma DistinctStep(ps: seq<Param>, p: Param)
    ensures Distinct(ps + [p]) == if p.name in Names(ps) then Distinct(ps) else Distinct(ps) + [p]
    ensures Names(ps + [p]) == Names(ps) + {p.name}
  {
    assert (ps + [p])[..|ps|] == ps;
    NamesAppend(ps, p);
  }

  /** Ruleset.Params: each name once, at its first occurrence. */
  method RulesetParams(rs: Ruleset) returns (params: seq<Param>)
    ensures params == Distinct(RulesOccurrences(rs.rules))
  {
    var seen: map<string, bool> := map[];
    params := [];
    for i := 0 to |rs.rules|
      invariant params == Distinct(RulesOccurrences(rs.rules[..i]))
      invariant seen.Keys == Names(RulesOccurrences(rs.rules[..i]))
    {
      var ps := RuleParams(rs.rules[i]);
      ghost var before := RulesOccurrences(rs.rules[..i]);
      assert RulesOccurrences(rs.rules[..i + 1]) == before + ps by {
        assert rs.rules[..i + 1] == rs.rules[..i] + [rs.rules[i]];
        OccurrencesAppend(rs.rules[..i], rs.rules[i]);
      }
      params, seen := AddDistinct(params, seen, ps, before);
    }
    assert rs.rules[..|rs.rules|] == rs.rules;
  }

  lemma OneMore(before: seq<Param>, ps: seq<Param>, j: nat)
    requires j < |ps|
    ensures before + ps[..j] + [ps[j]] == before + ps[..j + 1]
  {
  }

  /** The inner loop of Params. */
  method AddDistinct(list: seq<Param>, names: map<string, bool>, ps: seq<Param>, ghost before: seq<Param>)
    returns (params: seq<Param>, seen: map<string, bool>)
    requires list == Distinct(before) && names.Keys == Names(before)
    ensures params == Distinct(before + ps) && seen.Keys == Names(before + ps)
  {
    params, seen := list, names;
    ghost var sofar := before;
    for j := 0 to |ps|
      invariant sofar == before + ps[..j]
      invariant params == Distinct(sofar) && seen.Keys == Names(sofar)
    {
      DistinctStep(sofar, ps[j]);
      OneMore(before, ps, j);
      assert ps[j].name in seen <==> ps[j].name in Names(sofar);
      sofar := sofar + [ps[j]];
      if ps[j].name !in seen {
        params := params + [ps[j]];
        seen := seen[ps[j].name := true];
      }
    }
    assert ps[..|ps|] == ps;
  }

  function TypeMap(ps: seq<Param>): map<string, string> {
    if ps == [] then map[]
    else TypeMap(ps[..|ps| - 1])[ps[|ps| - 1].name := ps[|ps| - 1].typ]
  }

  function SignatureOf(rs: Ruleset): Signature {
    Signature(rs.typ, TypeMap(Distinct(RulesOccurrences(rs.rules))))
  }

  method NewSignature(rs: Ruleset) returns (sig: Signature)
    ensures sig == SignatureOf(rs)
  {
    var pt: map<string, string> := map[];
    var ps := RulesetParams(rs);
    for i := 0 to |ps|
      invariant pt == TypeMap(ps[..i])
    {
      assert ps[..i + 1][..i] == ps[..i];
      pt := pt[ps[i].name := ps[i].typ];
    }
    assert ps[..|ps|] == ps;
    sig := Signature(rs.typ, pt);
  }

  /** Deduplication keeps each name once, invents nothing and loses no name. */
  lemma {:induction false} DistinctNames(ps: seq<Param>)
    ensures forall i, j | 0 <= i < j < |Distinct(ps)| :: Distinct(ps)[i].name != Distinct(ps)[j].name
    ensures forall p | p in Distinct(ps) :: p in ps
    ensures Names(Distinct(ps)) == Names(ps)
  {
    if ps != [] {
      var init, last := ps[..|ps| - 1], ps[|ps| - 1];
      assert ps == init + [last];
      NamesAppend(init, last);
      DistinctNames(init);
      if last.name !in Names(init) {
        NamesAppend(Distinct(init), last);
        assert forall i | 0 <= i < |Distinct(init)| :: Distinct(init)[i] in Distinct(init);
      }
    }
  }

  /** On a coherent ruleset the signature types every parameter occurrence, and nothing else. */
  lemma SignatureIsExact(rs: Ruleset)
    requires Consistent(RulesOccurrences(rs.rules))
    ensures Covers(SignatureOf(rs).paramTypes, RulesOccurrences(rs.rules))
  {
    var ps := RulesOccurrences(rs.rules);
    var ds := Distinct(ps);
    DistinctNames(ps);
    TypeMapOfDistinct(ds);
    forall p | p in ps
      ensures p.name in TypeMap(ds) && TypeMap(ds)[p.name] == p.typ
    {
      assert p.name in Names(ps);
      var q :| q in ds && q.name == p.name;
      assert q in ps;
    }
  }

  lemma {:induction false} TypeMapOfDistinct(ds: seq<Param>)
    requires forall i, j | 0 <= i < j < |ds| :: ds[i].name != ds[j].name
    ensures Covers(TypeMap(ds), ds)
  {
    if ds != [] {
      var init, last := ds[..|ds| - 1], ds[|ds| - 1];
      assert ds == init + [last];
      TypeMapOfDistinct(init);
      assert last.name !in Names(init);
      CoverOneMore(TypeMap(init), init, last);
    }
  }

  ghost predicate TypesAll(m: map<string, string>, ps: seq<Param>) {
    forall p | p in ps :: p.name in m && m[p.name] == p.typ
  }

  /** Occurrences are consistent exactly when some map from names to types covers all of them. */
  lemma ConsistentExact(ps: seq<Param>)
    ensures Consistent(ps) <==> exists m :: TypesAll(m, ps)
  {
    if m :| TypesAll(m, ps) {
      assert forall i | 0 <= i < |ps| :: ps[i] in ps;
    }
    if Consistent(ps) {
      var ds := Distinct(ps);
      DistinctNames(ps);
      TypeMapOfDistinct(ds);
      forall p | p in ps ensures p.name in TypeMap(ds) && TypeMap(ds)[p.name] == p.typ {
        assert p.name in Names(ps);
        var q :| q in ds && q.name == p.name;
      }
      assert TypesAll(TypeMap(ds), ps);
    }
  }

  /** ds lists, in order, elements of ps at these positions, each the first with its name. */
  ghost predicate AreFirst(ps: seq<Param>, ds: seq<Param>, at: seq<nat>) {
    && |at| == |ds|
    && (forall k | 0 <= k < |at| :: at[k] < |ps| && ds[k] == ps[at[k]] && ds[k].name !in Names(ps[..at[k]]))
    && (forall k, l | 0 <= k < l < |at| :: at[k] < at[l])
  }

  /** One more element behind the list. */
  lemma FirstKept(ps: seq<Param>, p: Param, ds: seq<Param>, at: seq<nat>)
    requires AreFirst(ps, ds, at)
    ensures AreFirst(ps + [p], ds, at)
  {
    assert forall k | 0 <= k < |at| :: (ps + [p])[..at[k]] == ps[..at[k]];
  }

  lemma FirstAdded(ps: seq<Param>, p: Param, ds: seq<Param>, at: seq<nat>)
    requires AreFirst(ps, ds, at) && p.name !in Names(ps)
    ensures AreFirst(ps + [p], ds + [p], at + [|ps|])
  {
    FirstKept(ps, p, ds, at);
    assert (ps + [p])[..|ps|] == ps;
  }

  /** The deduplicated list is the list of first appearances, in their order. */
  lemma {:induction false} FirstAppearances(ps: seq<Param>) returns (at: seq<nat>)
    ensures AreFirst(ps, Distinct(ps), at)
  {
    if ps == [] {
      at := [];
    } else {
      var init, last := ps[..|ps| - 1], ps[|ps| - 1];
      assert ps == init + [last];
      at := FirstAppearances(init);
      if last.name in Names(init) {
        FirstKept(init, last, Distinct(init), at);
      } else {
        FirstAdded(init, last, Distinct(init), at);
        at := at + [|init|];
      }
    }
  }

  /** All nodes of a tree, each before the nodes below it, operands from left to right. */
  function Preorder(e: Expr): seq<Expr>
    decreases e, 1
  {
    [e] + match e
      case Oper(_, _, ops) => PreorderAll(ops)
      case _ => []
  }

  function PreorderAll(ops: seq<Expr>): seq<Expr>
    decreases ops, 0
  {
    if ops == [] then [] else Preorder(ops[0]) + PreorderAll(ops[1..])
  }

  function ParamsAmong(es: seq<Expr>): seq<Param> {
    if es == [] then [] else (if es[0].Ref? then [es[0].param] else []) + ParamsAmong(es[1..])
  }

  lemma {:induction false} ParamsAmongConcat(x: seq<Expr>, y: seq<Expr>)
    ensures ParamsAmong(x + y) == ParamsAmong(x) + ParamsAmong(y)
  {
    if x == [] {
      assert x + y == y;
    } else {
      ParamsAmongConcat(x[1..], y);
      assert (x + y)[1..] == x[1..] + y;
    }
  }

  /** The collected parameters are those of the tree's nodes in preorder. */
  lemma {:induction false} OccurrencesArePreorder(e: Expr)
    ensures Occurrences(e) == ParamsAmong(Preorder(e))
    decreases e, 1
  {
    var below := if e.Oper? then PreorderAll(e.operands) else [];
    assert Preorder(e) == [e] + below && ([e] + below)[1..] == below;
    if e.Oper? { AllOccurrencesArePreorder(e.operands); }
  }

  lemma {:induction false} AllOccurrencesArePreorder(ops: seq<Expr>)
    ensures AllOccurrences(ops) == ParamsAmong(PreorderAll(ops))
    decreases ops, 0
  {
    if ops != [] {
      OccurrencesArePreorder(ops[0]);
      AllOccurrencesArePreorder(ops[1..]);
      ParamsAmongConcat(Preorder(ops[0]), PreorderAll(ops[1..]));
    }
  }
}
