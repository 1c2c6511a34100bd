/** What Put answers, in terms of the ruleset that is put and of the versions the path has: when it is
    accepted, and not only what accepting it guarantees. */
module Decision {
  import opened Prelude
  import opened Expr
  import opened Rulesets
  import opened Codec
  import opened Backends
  import opened Store
  import opened Ledger
  import opened Concurrent
  import opened Contract
  import opened Runs
  import N = Names

  // ---- Arguments ----

  /** A name that the parameter regex matches and that is none of the five words. */
  ghost predicate UsableName(name: string) {
    && N.Matches(N.NameRegex({'-'}), name)
    && name != "version" && name != "list" && name != "eval" && name != "watch" && name != "revision"
  }

  lemma NamesAreUsable(name: string)
    ensures ValidParamName(name) <==> UsableName(name)
  {
    assert '-' !in N.ALNUM;
    N.NameLanguage(name, N.PARAM_SEPARATORS);
    assert RESERVED[0] == "version" && RESERVED[1] == "list" && RESERVED[2] == "eval" && RESERVED[3] == "watch"
           && RESERVED[4] == "revision" && |RESERVED| == 5;
    if name in RESERVED { var i :| 0 <= i < 5 && RESERVED[i] == name; }
  }

  /** The arguments are accepted exactly when the regexes match and no parameter uses a reserved word. */
  lemma ArgumentsExact(ns: string, sum: Json -> string, path: string, rs: Ruleset)
    ensures ValidArgs(Regula(ns, sum), path, rs)
       <==> N.Matches(N.NameRegex({'-', '/'}), path) && forall p | p in RulesOccurrences(rs.rules) :: UsableName(p.name)
  {
    assert '-' !in N.ALNUM && '/' !in N.ALNUM;
    N.NameLanguage(path, N.RULESET_SEPARATORS);
    forall p | p in RulesOccurrences(rs.rules) ensures ValidParamName(p.name) <==> UsableName(p.name) {
      NamesAreUsable(p.name);
    }
  }

  // ---- Signatures ----

  /** The ruleset returns the signature's type and uses only parameters that the signature names, at
      its types. It may use fewer. */
  ghost predicate Fits(rs: Ruleset, sig: Signature) {
    rs.typ == sig.returnType && Known(RulesOccurrences(rs.rules), sig.paramTypes)
  }

  /** matchWith accepts exactly the coherent rulesets that fit. */
  lemma MatchIsExact(sig: Signature, rs: Ruleset)
    requires Consistent(RulesOccurrences(rs.rules))
    ensures MatchWith(sig, SignatureOf(rs)) <==> Fits(rs, sig)
  {
    SignatureIsExact(rs);
    var ps, m := RulesOccurrences(rs.rules), SignatureOf(rs).paramTypes;
    forall n | n in m ensures exists p :: p in ps && p.name == n {
      assert n in Rulesets.Names(ps);
    }
  }

  // ---- Put ----

  /** The right answer to a Put on these histories. */
  ghost predicate RightAnswer(b: Backend, repo: Repo, path: string, rs: Ruleset, version: string, r: PutResult)
    requires forall p | p in repo :: repo[p].versions != []
  {
    if !ValidArgs(b, path, rs) then r == Invalid
    else if path !in repo then r == Created(Entry(path, version, rs))
    else
      var last := repo[path].versions[|repo[path].versions| - 1];
      if b.sum(b.encode(last.ruleset)) == b.sum(b.encode(rs)) then r == NotModified(last)
      else if Fits(rs, repo[path].sig) then r == Created(Entry(path, version, rs))
      else r == Invalid
  }

  /** The histories after the answer. */
  ghost predicate RightHistories(repo: Repo, repo': Repo, rs: Ruleset, r: PutResult) {
    if !r.Created? then repo' == repo
    else
      var e := r.entry;
      var before := if e.path in repo then repo[e.path].versions else [];
      && repo'.Keys == repo.Keys + {e.path}
      && (forall q | q in repo && q != e.path :: repo'[q] == repo[q])
      && repo'[e.path].versions == before + [e]
      && repo'[e.path].sig == (if e.path in repo then repo[e.path].sig else SignatureOf(rs))
  }

  lemma AbsPutIsRight(b: Backend, repo: Repo, path: string, rs: Ruleset, version: string)
    requires (forall p | p in repo :: repo[p].versions != []) && Coherent(rs)
    ensures RightAnswer(b, repo, path, rs, version, AbsPut(b, repo, path, rs, version).1)
    ensures RightHistories(repo, AbsPut(b, repo, path, rs, version).0, rs, AbsPut(b, repo, path, rs, version).1)
  {
    if path in repo { MatchIsExact(repo[path].sig, rs); }
  }

  /** Put on the key/value store: a first version is always created; later, the same ruleset again is
      not modified, one that fits the signature is created, and any other is invalid. The new store
      encodes the histories with exactly that version appended. */
  lemma PutDecision(b: Backend, kv: KV, rev: nat, repo: Repo, path: string, rs: Ruleset, version: string)
    returns (repo': Repo)
    requires Represents(b, kv, repo) && Coherent(rs)
    requires Survives(b, rs) && b.isVersion(version) && Fresh(repo, path, version)
    ensures RightAnswer(b, repo, path, rs, version, SeqPut(b, kv, rev, path, rs, version).1)
    ensures RightHistories(repo, repo', rs, SeqPut(b, kv, rev, path, rs, version).1)
    ensures Represents(b, SeqPut(b, kv, rev, path, rs, version).0, repo')
  {
    repo' := AbsPut(b, repo, path, rs, version).0;
    PutRefines(b, kv, rev, repo, path, rs, version);
    AbsPutIsRight(b, repo, path, rs, version);
  }

  /** In every concurrent run, every answer is the right one to the client's own call, on the histories
      as of a revision between call and answer. */
  lemma RunDecision(b: Backend, states: seq<Sys>, steps: seq<Step>, c: nat)
    requires Good(b) && IsRun(b, states, steps) && LogSurvives(b, states[|steps|].log)
    requires c in states[|steps|].clients && states[|steps|].clients[c].Done?
    requires Survives(b, states[|steps|].clients[c].args.rs) && Coherent(states[|steps|].clients[c].args.rs)
    ensures AnsweredInOrder(b, states, steps, c)
    ensures var s := states[|steps|];
            var me := s.clients[c];
            RightAnswer(b, AbsReplay(b, s.log[..me.at]), me.args.path, me.args.rs, me.version, me.result)
  {
    var s := states[|steps|];
    var me := s.clients[c];
    Serializable(b, states, steps);
    RunRefinesLedger(b, states, steps, c);
    AbsPutIsRight(b, AbsReplay(b, s.log[..me.at]), me.args.path, me.args.rs, me.version);
  }
}
