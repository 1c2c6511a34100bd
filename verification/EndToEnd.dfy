/** The three layers together: a caller of the cached evaluator gets the server's answer, and keeps
    the promise of the first signature. */
module EndToEnd {
  import opened Expr
  import opened Codec
  import opened Backends
  import opened Store
  import opened Ledger
  import opened Concurrent
  import opened Contract
  import opened Runs
  import opened Cache
  import opened Remote
  import opened Paths
  import opened Names
  import opened KeyLayout
  import Engine

  // ---- Which paths a prefix watches ----

  /** Reading a string prefix of a name as a listing prefix gives a string prefix of the name's key part. */
  lemma PrefixOfName(prefix: string, p: string)
    requires IsRulesetName(p) && prefix <= p
    ensures NoDots(prefix) && Slashed(Kept(Split(prefix))) <= "/" + p
  {
    NoDotsInside(prefix, p);
    if prefix == "" {
      assert Kept([""]) == [] && Slashed([]) == "";
    } else if prefix[|prefix| - 1] == '/' {
      var q := prefix[..|prefix| - 1];
      assert prefix == q + "/" + "";
      SplitConcat(q, "");
      KeptLastEmpty(Split(q));
      InnerPrefix(q, p);
    } else {
      InnerPrefix(prefix, p);
    }
  }

  lemma NoDotsInside(prefix: string, p: string)
    requires IsRulesetName(p) && prefix <= p
    ensures NoDots(prefix)
  {
    NoDotChar(p);
    assert forall c | c in prefix :: c in p;
    assert "."[0] == '.' && ".."[0] == '.';
    if "." in Split(prefix) { SegmentChars(prefix, "."); }
    if ".." in Split(prefix) { SegmentChars(prefix, ".."); }
  }

  lemma InnerPrefix(q: string, p: string)
    requires IsRulesetName(p) && q <= p && q != "" && q[|q| - 1] != '/'
    ensures Slashed(Kept(Split(q))) == "/" + q && "/" + q <= "/" + p
  {
    NoDoubleSlash(q, p);
    NoEmptySegment(q);
    KeptPlain(Split(q));
    SlashedSplit(q);
  }

  lemma NoDoubleSlash(q: string, p: string)
    requires IsRulesetName(p) && q <= p && q != ""
    ensures q[0] != '/' && forall i | 0 <= i < |q| - 1 :: q[i] == '/' ==> q[i + 1] != '/'
  {
    assert q[0] == p[0] && '/' !in LETTERS && '/' in RULESET_SEPARATORS;
    forall i | 0 <= i < |q| - 1 && q[i] == '/' ensures q[i + 1] != '/' {
      assert q[i] == p[i] && q[i + 1] == p[i + 1];
    }
  }

  lemma LongerKey(r: string, x: string, p: string, v: string)
    requires x <= "/" + p
    ensures r + x <= r + ("/" + p + "/" + v)
  {
    assert "/" + p <= "/" + p + "/" + v;
  }

  /** A prefix of a ruleset name watches all versions of that ruleset. */
  lemma RegulaWatches(ns: string, sum: Json -> string, prefix: string, p: string)
    requires IsRulesetName(p) && prefix <= p
    ensures WhollyWatched(Regula(ns, sum), prefix, p)
  {
    PrefixOfName(prefix, p);
    PrefixBelow(ns, "rulesets", "entries", prefix);
    var r := Root(ns) + ("/" + "entries");
    forall v | IsPlain(v) ensures EntryKey(ns, prefix, "") <= EntryKey(ns, p, v) {
      Layout(ns, p, v);
      LongerKey(r, Slashed(Kept(Split(prefix))), p, v);
    }
  }

  // ---- Cached evaluation ----

  lemma {:induction false} LogsGrow(b: Backend, prefix: string, worlds: seq<World>, steps: seq<WStep>, i: nat)
    requires IsWatchRun(b, prefix, worlds, steps) && i < |worlds|
    ensures worlds[0].store.log <= worlds[i].store.log
  {
    if i > 0 {
      LogsGrow(b, prefix, worlds, steps, i - 1);
      assert WNext(b, prefix, worlds[i - 1], worlds[i], steps[i - 1]);
      StepGrowsLog(b, prefix, worlds[i - 1], worlds[i], steps[i - 1]);
    }
  }

  lemma StepGrowsLog(b: Backend, prefix: string, w: World, w': World, step: WStep)
    requires WNext(b, prefix, w, w', step)
    ensures w.store.log <= w'.store.log
  {
    if step.StoreStep? { NextGrowsLog(b, w.store, w'.store, step.step); }
  }

  /** A run of the store and a watching evaluator that has nothing left to add, and a ruleset that
      the prefix watches. */
  ghost predicate CaughtUp(b: Backend, prefix: string, worlds: seq<World>, steps: seq<WStep>, path: string) {
    && Good(b) && IsWatchRun(b, prefix, worlds, steps)
    && worlds[|steps|].rep.queue == []
    && LogSurvives(b, worlds[|steps|].store.log) && LogAscending(worlds[0].store.log)
    && b.isName(path) && WhollyWatched(b, prefix, path)
  }

  /** In Regula, a run that stores storable rulesets and a string prefix of the name are enough. */
  lemma RegulaCaughtUp(ns: string, sum: Json -> string, prefix: string, worlds: seq<World>, steps: seq<WStep>, path: string)
    requires IsWatchRun(Regula(ns, sum), prefix, worlds, steps) && worlds[|steps|].rep.queue == []
    requires AllStorable(worlds[|steps|].store.log) && LogAscending(worlds[0].store.log)
    requires IsRulesetName(path) && prefix <= path
    ensures CaughtUp(Regula(ns, sum), prefix, worlds, steps, path)
  {
    StorableSurvives(ns, sum, worlds[|steps|].store.log);
    RegulaWatches(ns, sum, prefix, path);
  }

  lemma StorableSurvives(ns: string, sum: Json -> string, log: seq<Commit>)
    requires AllStorable(log)
    ensures Good(Regula(ns, sum)) && LogSurvives(Regula(ns, sum), log)
  {
    RegulaIsGood(ns, sum);
    forall i | 0 <= i < |log| && log[i].PutCommit? ensures Survives(Regula(ns, sum), log[i].args.rs) {
      assert Storable(log[i].args.rs);
    }
  }

  lemma SurvivesBefore(b: Backend, x: seq<Commit>, y: seq<Commit>)
    requires LogSurvives(b, y) && x <= y
    ensures LogSurvives(b, x)
  {
    assert forall i | 0 <= i < |x| :: x[i] == y[i];
  }

  /** The buffer holds the history of the path that the store had at the watcher's revision. */
  ghost predicate Follows(b: Backend, w: World, path: string) {
    && 1 <= w.rep.revision <= |w.store.log| + 1 == |w.store.hist|
    && Represents(b, w.store.hist[w.rep.revision - 1], AbsReplay(b, w.store.log[..w.rep.revision - 1]))
    && Engine.VersionsOf(w.rep.buf, path) == HistoryOf(AbsReplay(b, w.store.log[..w.rep.revision - 1]), path)
  }

  /** A cache that has caught up holds the store's history as of the watcher's revision, and answers
      from it as that store does. */
  lemma CacheIsStore(b: Backend, prefix: string, worlds: seq<World>, steps: seq<WStep>, path: string, version: string)
    requires CaughtUp(b, prefix, worlds, steps, path)
    ensures var w := worlds[|steps|];
            && Follows(b, w, path)
            && var kv := w.store.hist[w.rep.revision - 1];
            && Engine.LatestIn(w.rep.buf, path) == Latest(b, kv, path)
            && (Proper(b, path, version) ==> Engine.VersionIn(w.rep.buf, path, version) == OneByVersion(b, kv, path, version))
  {
    var w := worlds[|steps|];
    LogsGrow(b, prefix, worlds, steps, |steps|);
    SurvivesBefore(b, worlds[0].store.log, w.store.log);
    CacheRefinesStore(b, prefix, worlds, steps, |steps|, path, version);
    RunEncodes(b, prefix, worlds, steps);
  }

  lemma RunEncodes(b: Backend, prefix: string, worlds: seq<World>, steps: seq<WStep>)
    requires Good(b) && IsWatchRun(b, prefix, worlds, steps) && LogSurvives(b, worlds[|steps|].store.log)
    requires LogSurvives(b, worlds[0].store.log) && LogAscending(worlds[0].store.log)
    ensures var w := worlds[|steps|];
            && 1 <= w.rep.revision <= |w.store.log| + 1 == |w.store.hist|
            && Represents(b, w.store.hist[w.rep.revision - 1], AbsReplay(b, w.store.log[..w.rep.revision - 1]))
  {
    RunInSync(b, prefix, worlds, steps, |steps|);
    RunRefinesAt(b, worlds[|steps|].store, worlds[|steps|].rep.revision - 1);
  }

  /** Along every run, evaluating in the cached evaluator is evaluating on the server at the revision
      the watcher has reached, for the latest version and for every version whose key can only hold
      that version of the path: same value and version or same error, unless the local parameters have
      the wrong type. */
  lemma CachedEvalIsServerEval(b: Backend, prefix: string, worlds: seq<World>, steps: seq<WStep>,
                               path: string, version: string, args: map<string, Arg>, fl: Floats)
    requires CaughtUp(b, prefix, worlds, steps, path) && Sendable(args)
    requires version != "" ==> Proper(b, path, version)
    ensures var w := worlds[|steps|];
            && 1 <= w.rep.revision <= |w.store.hist|
            && EvalsAgree(b, w.store.hist[w.rep.revision - 1], w.rep.buf, path, version, args, fl)
  {
    var w := worlds[|steps|];
    CacheIsStore(b, prefix, worlds, steps, path, version);
    WorldEvalsAgree(b, w, path, version, args, fl);
  }

  lemma WorldEvalsAgree(b: Backend, w: World, path: string, version: string, args: map<string, Arg>, fl: Floats)
    requires Follows(b, w, path) && b.isName(path) && Sendable(args)
    requires version != "" ==> Proper(b, path, version)
    ensures EvalsAgree(b, w.store.hist[w.rep.revision - 1], w.rep.buf, path, version, args, fl)
  {
    var n := w.rep.revision - 1;
    var repo := AbsReplay(b, w.store.log[..n]);
    HistoryAnswers(b, w.store.hist[n], repo, w.rep.buf, path, version);
    RemoteRefinesLocal(b, w.store.hist[n], repo, w.rep.buf, path, version, args, fl);
  }

  /** The server's reply is the local one, unless that is a type mismatch. */
  predicate EvalsAgree(b: Backend, kv: KV, m: Engine.Buffered, path: string, version: string, args: map<string, Arg>, fl: Floats) {
    var local := Engine.Evaluate(m, path, version, Env(Typed(args), fl));
    local != EvalFailed(ParamTypeMismatch) ==> ServerEval(b, kv, path, Received(args, version), fl) == local
  }

  /** Along every run, parameters that serve the first signature stored at a path, as of any revision
      up to the watcher's, keep serving the cached evaluator: no lookup fails, no other type is
      returned, whatever string is asked for as the version. */
  lemma CachedEvalKeepsContract(b: Backend, prefix: string, worlds: seq<World>, steps: seq<WStep>, i: nat,
                                path: string, version: string, env: Env)
    requires CaughtUp(b, prefix, worlds, steps, path)
    requires forall rs | Survives(b, rs) :: Storable(rs)
    requires i < worlds[|steps|].rep.revision && SignedAt(b, worlds[|steps|].store.log, i, path, env)
    ensures var w := worlds[|steps|];
            KeepsContract(Engine.Evaluate(w.rep.buf, path, version, env), AbsReplay(b, w.store.log[..i])[path].sig)
  {
    CacheIsStore(b, prefix, worlds, steps, path, version);
    WorldKeepsContract(b, worlds[|steps|], i, path, version, env);
  }

  lemma WorldKeepsContract(b: Backend, w: World, i: nat, path: string, version: string, env: Env)
    requires Follows(b, w, path) && forall rs | Survives(b, rs) :: Storable(rs)
    requires i < w.rep.revision && SignedAt(b, w.store.log, i, path, env)
    ensures KeepsContract(Engine.Evaluate(w.rep.buf, path, version, env), AbsReplay(b, w.store.log[..i])[path].sig)
  {
    var n := w.rep.revision - 1;
    HistoriesGrow(b, w.store.log, i, n, path);
    var repo := AbsReplay(b, w.store.log[..n]);
    assert HistoryOk(b, path, repo[path]);
    HistoryKeepsContract(b, w.rep.buf, path, repo[path], version, env);
  }

  lemma HistoryKeepsContract(b: Backend, m: Engine.Buffered, path: string, h: History, version: string, env: Env)
    requires HistoryOk(b, path, h) && Engine.VersionsOf(m, path) == h.versions
    requires (forall rs | Survives(b, rs) :: Storable(rs)) && Serves(env, h.sig.paramTypes)
    ensures KeepsContract(Engine.Evaluate(m, path, version, env), h.sig)
  {
    FindVersionFinds(h.versions, version);
    EvaluatesFound(m, path, version, env);
    var found := if version != "" then Engine.VersionIn(m, path, version) else Engine.LatestIn(m, path);
    if found.Ok? { EntryKeepsContract(b, path, h.sig, found.value, env); }
  }

  lemma EvaluatesFound(m: Engine.Buffered, path: string, asked: string, env: Env)
    ensures Engine.Evaluate(m, path, asked, env)
         == EvalEntry(if asked != "" then Engine.VersionIn(m, path, asked) else Engine.LatestIn(m, path), env)
  {
  }

  /** The path has a signature after i commits, and the parameters serve it. */
  ghost predicate SignedAt(b: Backend, log: seq<Commit>, i: nat, path: string, env: Env) {
    && i <= |log| && path in AbsReplay(b, log[..i])
    && Serves(env, AbsReplay(b, log[..i])[path].sig.paramTypes)
  }
}
