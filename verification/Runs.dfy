/** Whole runs of the concurrent store, seen through the histories they encode. */
module Runs {
  import opened Prelude
  import opened Expr
  import opened Rulesets
  import opened Codec
  import opened Backends
  import opened Store
  import opened Ledger
  import opened Concurrent
  import opened Contract

  function AbsRedo(b: Backend, repo: Repo, commit: Commit): (r: Repo)
    requires forall p | p in repo :: repo[p].versions != []
    ensures forall p | p in r :: r[p].versions != []
  {
    match commit
    case PutCommit(args, version) => AbsPut(b, repo, args.path, args.rs, version).0
    case Foreign(_) => repo
  }

  /** The histories after a log of commits. */
  function AbsReplay(b: Backend, log: seq<Commit>): (r: Repo)
    ensures forall p | p in r :: r[p].versions != []
  {
    if log == [] then map[] else AbsRedo(b, AbsReplay(b, log[..|log| - 1]), log[|log| - 1])
  }

  /** One more commit of the log. */
  lemma AbsReplayNext(b: Backend, log: seq<Commit>, i: nat)
    requires i < |log|
    ensures AbsReplay(b, log[..i + 1]) == AbsRedo(b, AbsReplay(b, log[..i]), log[i])
  {
    assert log[..i + 1][..i] == log[..i] && log[..i + 1][i] == log[i];
  }

  ghost predicate LogSurvives(b: Backend, log: seq<Commit>) {
    forall i | 0 <= i < |log| && log[i].PutCommit? :: Survives(b, log[i].args.rs)
  }

  ghost predicate Committed(log: seq<Commit>, n: nat, version: string)
    requires n <= |log|
  {
    exists i | 0 <= i < n :: log[i].PutCommit? && log[i].version == version
  }

  /** Every recorded version was committed under its name. */
  ghost predicate Recorded(repo: Repo, log: seq<Commit>, n: nat)
    requires n <= |log|
  {
    forall p, e | p in repo && e in repo[p].versions :: Committed(log, n, e.version)
  }

  lemma FreshFromLog(repo: Repo, log: seq<Commit>, n: nat, path: string, version: string)
    requires n <= |log| && Recorded(repo, log, n) && FreshAt(log, n, version)
    ensures Fresh(repo, path, version)
  {
    if path in repo {
      forall e | e in repo[path].versions ensures e.version != version {
        assert Committed(log, n, e.version);
      }
    }
  }

  lemma RecordedStep(b: Backend, repo: Repo, log: seq<Commit>, n: nat)
    requires n < |log| && Recorded(repo, log, n) && forall p | p in repo :: repo[p].versions != []
    ensures Recorded(AbsRedo(b, repo, log[n]), log, n + 1)
  {
    var repo' := AbsRedo(b, repo, log[n]);
    forall p, e | p in repo' && e in repo'[p].versions
      ensures Committed(log, n + 1, e.version)
    {
      if p in repo && e in repo[p].versions {
        assert Committed(log, n, e.version);
      } else {
        assert log[n].PutCommit? && log[n].version == e.version;
      }
    }
  }

  lemma ForeignKeepsPath(b: Backend, kv: KV, kv': KV, p: string, h: History)
    requires Good(b) && HistoryOk(b, p, h) && PathStored(b, kv, p, h)
    requires forall k | !Unrelated(b, k) :: Read(kv', k) == Read(kv, k)
    ensures PathStored(b, kv', p, h)
  {
    forall e | e in h.versions ensures Read(kv', b.entryKey(p, e.version)) == DocOf(b, e) {
      assert EntryOk(b, p, h.sig, e);
      Apart(b, p, e.version, p, e.version);
    }
  }

  lemma ForeignKeepsPaths(b: Backend, kv: KV, rev: nat, writes: map<string, Blob>, repo: Repo)
    requires Represents(b, kv, repo) && forall k | k in writes :: Unrelated(b, k)
    ensures Represents(b, Apply(kv, writes, rev), repo)
  {
    var kv' := Apply(kv, writes, rev);
    forall k | !Unrelated(b, k) ensures Read(kv', k) == Read(kv, k) && (k in kv' <==> k in kv) {
      assert k !in writes;
    }
    forall p | p in repo ensures PathStored(b, kv', p, repo[p]) {
      ForeignKeepsPath(b, kv, kv', p, repo[p]);
    }
    forall p | b.isName(p) && p !in repo ensures PathAbsent(b, kv', p) {
      assert PathAbsent(b, kv, p);
    }
    assert OnlyRecorded(b, kv', repo) by {
      assert forall k | k in kv' && b.isEntryKey(k) :: k in kv;
    }
  }

  lemma EmptyRepresents(b: Backend)
    requires Good(b)
    ensures Represents(b, map[], map[])
  {
  }

  /** At every revision the store is an exact encoding of the histories. */
  lemma {:induction false} RunRefinesAt(b: Backend, s: Sys, i: nat)
    requires Good(b) && Inv(b, s) && LogSurvives(b, s.log) && i <= |s.log|
    ensures Represents(b, s.hist[i], AbsReplay(b, s.log[..i]))
    ensures Recorded(AbsReplay(b, s.log[..i]), s.log, i)
  {
    if i == 0 {
      EmptyRepresents(b);
    } else {
      RunRefinesAt(b, s, i - 1);
      var repo := AbsReplay(b, s.log[..i - 1]);
      assert s.log[..i][..i - 1] == s.log[..i - 1] && s.log[..i][i - 1] == s.log[i - 1];
      RecordedStep(b, repo, s.log, i - 1);
      assert s.hist[i - 1 + 1] == Redo(b, s.hist[i - 1], i, s.log[i - 1]);
      assert CommitOk(b, s.log, s.used, i - 1);
      match s.log[i - 1] {
        case PutCommit(args, v) =>
          FreshFromLog(repo, s.log, i - 1, args.path, v);
          PutRefines(b, s.hist[i - 1], i, repo, args.path, args.rs, v);
        case Foreign(writes) => ForeignKeepsPaths(b, s.hist[i - 1], i, writes, repo);
      }
    }
  }

  /** Every run refines the simple store: the keys encode the histories, which satisfy the history
      invariant, and every answer is the one the simple store gives. */
  lemma RunRefinesLedger(b: Backend, states: seq<Sys>, steps: seq<Step>, c: nat)
    requires Good(b) && IsRun(b, states, steps)
    requires var s := states[|steps|]; LogSurvives(b, s.log)
    ensures var s := states[|steps|];
            && |s.hist| == |s.log| + 1
            && Represents(b, s.hist[|s.log|], AbsReplay(b, s.log))
            && (c in s.clients && s.clients[c].Done? && Survives(b, s.clients[c].args.rs) ==>
                  var me := s.clients[c];
                  && me.at <= |s.log|
                  && me.result == AbsPut(b, AbsReplay(b, s.log[..me.at]), me.args.path, me.args.rs, me.version).1)
  {
    var s := states[|steps|];
    RunsKeepInv(b, states, steps, |steps|);
    RunRefinesAt(b, s, |s.log|);
    assert s.log[..|s.log|] == s.log;
    if c in s.clients && s.clients[c].Done? && Survives(b, s.clients[c].args.rs) {
      var me := s.clients[c];
      assert ClientOk(b, s, me);
      RunRefinesAt(b, s, me.at);
      var repo := AbsReplay(b, s.log[..me.at]);
      FreshFromLog(repo, s.log, me.at, me.args.path, me.version);
      PutRefines(b, s.hist[me.at], me.at + 1, repo, me.args.path, me.args.rs, me.version);
    }
  }

  /** Along a run signatures never change and histories only grow. */
  lemma {:induction false} HistoriesGrow(b: Backend, log: seq<Commit>, i: nat, j: nat, p: string)
    requires i <= j <= |log| && p in AbsReplay(b, log[..i])
    ensures p in AbsReplay(b, log[..j])
    ensures AbsReplay(b, log[..j])[p].sig == AbsReplay(b, log[..i])[p].sig
    ensures AbsReplay(b, log[..i])[p].versions <= AbsReplay(b, log[..j])[p].versions
  {
    if i < j {
      HistoriesGrow(b, log, i, j - 1, p);
      assert log[..j][..j - 1] == log[..j - 1];
      var repo := AbsReplay(b, log[..j - 1]);
      match log[j - 1] {
        case PutCommit(args, v) => AbsPutGrows(b, repo, args.path, args.rs, v, p);
        case Foreign(_) =>
      }
    }
  }

  // ---- The invariant in terms of keys ----

  /** Latest, checksum and signature of a path are all there or all missing; if there, latest names
      an entry of this path, and the checksum is that entry's. */
  ghost predicate PathKeysOk(b: Backend, kv: KV, p: string) {
    var latest, sum, sig := Read(kv, b.latestKey(p)), Read(kv, b.checksumKey(p)), Read(kv, b.signatureKey(p));
    || (latest == sum == sig == Absent)
    || (sig.Sig? && exists e :: NamesLatest(b, kv, p, e))
  }

  ghost predicate NamesLatest(b: Backend, kv: KV, p: string, e: Entry) {
    && e.path == p && Read(kv, b.latestKey(p)) == Pointer(b.entryKey(p, e.version))
    && Read(kv, b.entryKey(p, e.version)) == DocOf(b, e)
    && Read(kv, b.checksumKey(p)) == Checksum(SumOf(b, e.ruleset))
  }

  /** At every revision of every run, the keys of every path fit together. */
  lemma StoreInvariant(b: Backend, states: seq<Sys>, steps: seq<Step>, i: nat, p: string)
    requires Good(b) && IsRun(b, states, steps) && b.isName(p)
    requires LogSurvives(b, states[|steps|].log) && i <= |states[|steps|].log|
    ensures |states[|steps|].hist| == |states[|steps|].log| + 1
    ensures PathKeysOk(b, states[|steps|].hist[i], p)
  {
    var s := states[|steps|];
    RunsKeepInv(b, states, steps, |steps|);
    RunRefinesAt(b, s, i);
    var kv, repo := s.hist[i], AbsReplay(b, s.log[..i]);
    if p in repo {
      assert PathStored(b, kv, p, repo[p]) && EntryOk(b, p, repo[p].sig, Last(repo[p]));
      assert NamesLatest(b, kv, p, Last(repo[p]));
    } else {
      assert PathAbsent(b, kv, p);
    }
  }

  /** A signature and whatever stands under a key of the entry family stay, once written, as they are
      at every later revision. */
  lemma NeverRewritten(b: Backend, states: seq<Sys>, steps: seq<Step>, i: nat, j: nat, p: string, k: string)
    requires Good(b) && IsRun(b, states, steps) && b.isName(p) && b.isEntryKey(k)
    requires LogSurvives(b, states[|steps|].log) && i <= j <= |states[|steps|].log|
    ensures |states[|steps|].hist| == |states[|steps|].log| + 1
    ensures var x, y := states[|steps|].hist[i], states[|steps|].hist[j];
            && (Read(x, b.signatureKey(p)) != Absent ==> Read(y, b.signatureKey(p)) == Read(x, b.signatureKey(p)))
            && (k in x ==> k in y && Read(y, k) == Read(x, k))
  {
    var s := states[|steps|];
    RunsKeepInv(b, states, steps, |steps|);
    SignatureStays(b, s, i, j, p);
    EntryStays(b, s, i, j, k);
  }

  lemma SignatureStays(b: Backend, s: Sys, i: nat, j: nat, p: string)
    requires Good(b) && Inv(b, s) && LogSurvives(b, s.log) && i <= j <= |s.log| && b.isName(p)
    ensures Read(s.hist[i], b.signatureKey(p)) != Absent ==> Read(s.hist[j], b.signatureKey(p)) == Read(s.hist[i], b.signatureKey(p))
  {
    RunRefinesAt(b, s, i);
    RunRefinesAt(b, s, j);
    var before, after := AbsReplay(b, s.log[..i]), AbsReplay(b, s.log[..j]);
    if p in before {
      HistoriesGrow(b, s.log, i, j, p);
      assert PathStored(b, s.hist[i], p, before[p]) && PathStored(b, s.hist[j], p, after[p]);
    } else {
      assert PathAbsent(b, s.hist[i], p);
    }
  }

  lemma EntryStays(b: Backend, s: Sys, i: nat, j: nat, k: string)
    requires Good(b) && Inv(b, s) && LogSurvives(b, s.log) && i <= j <= |s.log| && b.isEntryKey(k)
    ensures k in s.hist[i] ==> k in s.hist[j] && Read(s.hist[j], k) == Read(s.hist[i], k)
  {
    if k in s.hist[i] {
      RunRefinesAt(b, s, i);
      RunRefinesAt(b, s, j);
      var e := EntryAtKey(b, s.hist[i], AbsReplay(b, s.log[..i]), k);
      HistoriesGrow(b, s.log, i, j, e.path);
      RecordedReads(b, s.hist[j], AbsReplay(b, s.log[..j]), e);
    }
  }

  /** Latest reads the pointer and then the entry in a second request: whatever was committed in
      between, it answers the last version as of the first one. */
  lemma LatestAcross(b: Backend, s: Sys, i: nat, j: nat, p: string)
    requires Good(b) && Inv(b, s) && LogSurvives(b, s.log) && i <= j <= |s.log| && b.isName(p)
    ensures LatestFrom(b, s.hist[i], s.hist[j], p) == AbsLatest(AbsReplay(b, s.log[..i]), p)
  {
    RunRefinesAt(b, s, i);
    var repo := AbsReplay(b, s.log[..i]);
    if p in repo {
      var k := b.entryKey(p, Last(repo[p]).version);
      LatestPointer(b, s.hist[i], repo, p);
      EntryStays(b, s, i, j, k);
      PointedEntry(b, s.hist[i], s.hist[j], p, k, Last(repo[p]));
    } else {
      LatestRefines(b, s.hist[i], repo, p);
    }
  }

  /** The pointer of a path leads to the key that holds its last version. */
  lemma LatestPointer(b: Backend, kv: KV, repo: Repo, p: string)
    requires Represents(b, kv, repo) && p in repo
    ensures var last := Last(repo[p]);
            var k := b.entryKey(p, last.version);
            && Read(kv, b.latestKey(p)) == Pointer(k) && b.isEntryKey(k) && k in kv
            && Read(kv, k) == DocOf(b, last) && EntryAt(b, DocOf(b, last)) == Ok(last)
  {
    var last := Last(repo[p]);
    assert PathStored(b, kv, p, repo[p]) && HistoryOk(b, p, repo[p]);
    assert last in repo[p].versions && EntryOk(b, p, repo[p].sig, last);
    VersionIsProper(b, p, last.version);
    StoredReadsBack(b, last);
  }

  lemma PointedEntry(b: Backend, first: KV, second: KV, p: string, k: string, e: Entry)
    requires p != "" && Read(first, b.latestKey(p)) == Pointer(k) && k in second
    requires Read(second, k) == DocOf(b, e) && EntryAt(b, DocOf(b, e)) == Ok(e)
    ensures LatestFrom(b, first, second, p) == Ok(e)
  {
  }

  ghost predicate AllStorable(log: seq<Commit>) {
    forall i | 0 <= i < |log| && log[i].PutCommit? :: Storable(log[i].args.rs)
  }

  /** Every committed ruleset came in a document that spells each kind in one way. */
  ghost predicate ReceivedClearly(log: seq<Commit>) {
    forall i | 0 <= i < |log| && log[i].PutCommit? :: exists doc :: ClearlySays(doc, log[i].args.rs)
  }

  ghost predicate ClearlySays(doc: Json, rs: Ruleset) { DecodeRuleset(doc) == Ok(rs) && RulesetKindsAgree(doc) }

  /** What was received clearly can be stored: the hypothesis of the results on runs can be checked
      on the documents that come in. */
  lemma ReceivedIsStorable(log: seq<Commit>)
    requires ReceivedClearly(log)
    ensures AllStorable(log)
  {
    forall i | 0 <= i < |log| && log[i].PutCommit? ensures Storable(log[i].args.rs) {
      var doc :| ClearlySays(doc, log[i].args.rs);
      DecodedIsStorable(doc);
    }
  }

  /** The contract over whole runs. Take any run of concurrent Puts of storable rulesets, any
      revision of it, any path that has a signature then, and parameters that serve this
      signature. Evaluating the latest or any given version at the end of the run never fails a
      parameter lookup and never returns another type. */
  lemma ContractHolds(ns: string, sum: Json -> string, states: seq<Sys>, steps: seq<Step>, i: nat,
                      path: string, version: string, env: Env)
    requires IsRun(Regula(ns, sum), states, steps)
    requires var s := states[|steps|]; AllStorable(s.log) && i <= |s.log|
    requires var repo := AbsReplay(Regula(ns, sum), states[|steps|].log[..i]);
             path in repo && Serves(env, repo[path].sig.paramTypes)
    requires OwnPath(Regula(ns, sum), path, version)
    ensures var b := Regula(ns, sum);
            var s := states[|steps|];
            |s.hist| == |s.log| + 1 &&
            var kv := s.hist[|s.log|];
            var sig := AbsReplay(b, s.log[..i])[path].sig;
            && KeepsContract(EvalEntry(Latest(b, kv, path), env), sig)
            && EvalEntry(Latest(b, kv, path), env) != NoRuleset
            && KeepsContract(EvalEntry(OneByVersion(b, kv, path, version), env), sig)
  {
    var b := Regula(ns, sum);
    var s := states[|steps|];
    RunRefines(ns, sum, states, steps);
    HistoriesGrow(b, s.log, i, |s.log|, path);
    assert s.log[..|s.log|] == s.log;
    RegulaIsGood(ns, sum);
    StoreKeepsContract(b, s.hist[|s.log|], AbsReplay(b, s.log), path, version, env);
  }

  lemma RunRefines(ns: string, sum: Json -> string, states: seq<Sys>, steps: seq<Step>)
    requires IsRun(Regula(ns, sum), states, steps) && AllStorable(states[|steps|].log)
    ensures var s := states[|steps|];
            |s.hist| == |s.log| + 1 && Represents(Regula(ns, sum), s.hist[|s.log|], AbsReplay(Regula(ns, sum), s.log))
  {
    var b := Regula(ns, sum);
    var s := states[|steps|];
    RegulaIsGood(ns, sum);
    forall j | 0 <= j < |s.log| && s.log[j].PutCommit? ensures Survives(b, s.log[j].args.rs) {
      assert Storable(s.log[j].args.rs);
    }
    RunRefinesLedger(b, states, steps, 0);
  }

  /** The contract on one store that encodes some histories. */
  lemma StoreKeepsContract(b: Backend, kv: KV, repo: Repo, path: string, version: string, env: Env)
    requires Represents(b, kv, repo) && path in repo
    requires forall rs | Survives(b, rs) :: Storable(rs)
    requires OwnPath(b, path, version) && Serves(env, repo[path].sig.paramTypes)
    ensures KeepsContract(EvalEntry(Latest(b, kv, path), env), repo[path].sig)
    ensures EvalEntry(Latest(b, kv, path), env) != NoRuleset
    ensures KeepsContract(EvalEntry(OneByVersion(b, kv, path, version), env), repo[path].sig)
  {
    var h := repo[path];
    assert HistoryOk(b, path, h);
    LatestRefines(b, kv, repo, path);
    EntryKeepsContract(b, path, h.sig, Last(h), env);
    ReadsOwnPath(b, kv, repo, path, version);
    var found := OneByVersion(b, kv, path, version);
    if found.Ok? { EntryKeepsContract(b, path, h.sig, found.value, env); }
  }

  /** No failed lookup, no failed read, no foreign type. */
  predicate KeepsContract(r: EvalReply, sig: Signature) {
    && r != EvalFailed(ParamNotFound) && r != EvalFailed(ParamTypeMismatch) && r != StoreFailed
    && (r.Evaluated? ==> r.value.typ == sig.returnType)
  }

  lemma EntryKeepsContract(b: Backend, path: string, sig: Signature, e: Entry, env: Env)
    requires forall rs | Survives(b, rs) :: Storable(rs)
    requires EntryOk(b, path, sig, e) && Serves(env, sig.paramTypes)
    ensures KeepsContract(EvalEntry(Ok(e), env), sig)
    ensures EvalEntry(Ok(e), env) != NoRuleset
  {
    MatchingKeepsContract(e.ruleset, sig, env);
  }
}
