/** What keeps a Put from committing, and what does not: only a rival commit on the same path makes
    an attempt start over, and a call left alone is answered within two steps. */
module Progress {
  import opened Prelude
  import opened Rulesets
  import opened Backends
  import opened Store
  import opened Ledger
  import opened Concurrent
  import opened Runs
  import opened Resend

  /** The keys a transaction reads or writes. */
  function Touched(tx: Tx): set<string> { tx.rset + tx.wset.Keys }

  /** The commit test succeeds exactly when no key read or written has changed since the snapshot. */
  lemma TestIsExact(hist: seq<KV>, snap: nat, tx: Tx)
    requires Stable(hist) && snap < |hist|
    ensures Unconflicted(hist[|hist| - 1], hist[snap], snap, tx)
       <==> forall k | k in Touched(tx) :: Concurrent.Same(hist[snap], hist[|hist| - 1], k)
  {
    var now, was := hist[|hist| - 1], hist[snap];
    forall k ensures ModRev(was, k) <= snap { if k in was { assert ModRev(hist[snap], k) <= snap; } }
    if Unconflicted(now, was, snap, tx) {
      forall k | k in Touched(tx) ensures Concurrent.Same(was, now, k) {
        assert ModRev(hist[|hist| - 1], k) <= snap;
      }
    }
    if forall k | k in Touched(tx) :: Concurrent.Same(was, now, k) {
      forall k | k in Touched(tx) ensures ModRev(now, k) == ModRev(was, k) { assert Concurrent.Same(was, now, k); }
    }
  }

  // ---- Footprints ----

  /** A key of the given path. */
  ghost predicate OwnKey(b: Backend, p: string, k: string) {
    || k == b.checksumKey(p) || k == b.signatureKey(p) || k == b.latestKey(p)
    || exists v :: b.isVersion(v) && k == b.entryKey(p, v)
  }

  lemma OwnKeysDisjoint(b: Backend, p: string, q: string, k: string, v: string)
    requires Good(b) && b.isName(p) && b.isName(q) && b.isVersion(v) && OwnKey(b, p, k) && OwnKey(b, q, k)
    ensures p == q
  {
    var x := if w :| b.isVersion(w) && k == b.entryKey(p, w) then w else v;
    var y := if w :| b.isVersion(w) && k == b.entryKey(q, w) then w else v;
    assert KeysApart(b, p, x, q, y) && KeysApart(b, q, y, p, x);
  }

  /** A Put touches keys of its own path only. */
  lemma Footprint(b: Backend, kv: KV, repo: Repo, path: string, rs: Ruleset, version: string)
    requires Represents(b, kv, repo) && ValidArgs(b, path, rs) && b.isVersion(version)
    ensures forall k | k in Touched(RunTx(b, kv, path, rs, version)) :: OwnKey(b, path, k)
  {
    forall k | k in Touched(RunTx(b, kv, path, rs, version)) ensures OwnKey(b, path, k) {
      TouchedKeys(b, kv, path, rs, version, k);
      if Read(kv, b.latestKey(path)) == Pointer(k) { PointsToOwn(b, kv, repo, path, k); }
    }
  }

  lemma TouchedKeys(b: Backend, kv: KV, path: string, rs: Ruleset, version: string, k: string)
    requires k in Touched(RunTx(b, kv, path, rs, version))
    ensures k == b.checksumKey(path) || k == b.signatureKey(path) || k == b.latestKey(path) || k == b.entryKey(path, version)
            || Read(kv, b.latestKey(path)) == Pointer(k)
  {
  }

  lemma PointsToOwn(b: Backend, kv: KV, repo: Repo, path: string, k: string)
    requires Represents(b, kv, repo) && b.isName(path) && Read(kv, b.latestKey(path)) == Pointer(k)
    ensures OwnKey(b, path, k)
  {
    assert path in repo by { if path !in repo { NoPointer(b, kv, repo, path); } }
    LatestPointer(b, kv, repo, path);
    assert HistoryOk(b, path, repo[path]) && EntryOk(b, path, repo[path].sig, Last(repo[path]));
  }

  lemma NoPointer(b: Backend, kv: KV, repo: Repo, path: string)
    requires Represents(b, kv, repo) && b.isName(path) && path !in repo
    ensures Read(kv, b.latestKey(path)) == Absent
  {
    assert PathAbsent(b, kv, path);
  }

  /** A commit that is not on the path leaves the path's keys alone. */
  lemma OthersKeepKey(b: Backend, s: Sys, n: nat, p: string, k: string)
    requires Good(b) && Inv(b, s) && LogSurvives(b, s.log) && n < |s.log| && !CommitsTo(s.log, n, p)
    requires b.isName(p) && OwnKey(b, p, k)
    ensures n + 1 < |s.hist| && Concurrent.Same(s.hist[n], s.hist[n + 1], k)
  {
    assert s.hist[n + 1] == Redo(b, s.hist[n], n + 1, s.log[n]);
    assert CommitOk(b, s.log, s.used, n);
    RunRefinesAt(b, s, n);
    match s.log[n] {
      case PutCommit(args, v) =>
        Footprint(b, s.hist[n], AbsReplay(b, s.log[..n]), args.path, args.rs, v);
        var writes := RunTx(b, s.hist[n], args.path, args.rs, v).wset;
        if k in writes { OwnKeysDisjoint(b, p, args.path, k, v); }
        NotWritten(s.hist[n], writes, n + 1, k);
      case Foreign(writes) =>
        if k in writes { UnrelatedIsNotOwn(b, p, k); }
        NotWritten(s.hist[n], writes, n + 1, k);
    }
  }

  lemma NotWritten(kv: KV, writes: map<string, Blob>, rev: nat, k: string)
    requires k !in writes
    ensures Concurrent.Same(kv, Apply(kv, writes, rev), k)
  {
  }

  lemma UnrelatedIsNotOwn(b: Backend, p: string, k: string)
    requires Good(b) && b.isName(p) && Unrelated(b, k)
    ensures !OwnKey(b, p, k)
  {
    forall v | b.isVersion(v) ensures b.entryKey(p, v) != k { assert KeysApart(b, p, v, p, v); }
  }

  lemma {:induction false} QuietPath(b: Backend, s: Sys, n: nat, m: nat, p: string, k: string)
    requires Good(b) && Inv(b, s) && LogSurvives(b, s.log) && n <= m <= |s.log|
    requires b.isName(p) && OwnKey(b, p, k) && forall j | n <= j < m :: !CommitsTo(s.log, j, p)
    ensures |s.hist| == |s.log| + 1 && Concurrent.Same(s.hist[n], s.hist[m], k)
  {
    if n < m {
      QuietPath(b, s, n, m - 1, p, k);
      OthersKeepKey(b, s, m - 1, p, k);
    }
  }

  /** An attempt is thrown away only because another commit on the same path came in between: Puts on
      different paths, and other users of the etcd, never disturb each other. */
  lemma RetryMeansRival(b: Backend, s: Sys, s': Sys, c: nat, version: string)
    requires Good(b) && Inv(b, s) && LogSurvives(b, s.log) && Retry(b, s, s', c, version)
    ensures exists j :: s.clients[c].snap <= j && CommitsTo(s.log, j, s.clients[c].args.path)
  {
    var me := s.clients[c];
    assert ClientOk(b, s, me);
    var p, tx := me.args.path, Attempt(b, s, me);
    if forall j | me.snap <= j < |s.log| :: !CommitsTo(s.log, j, p) {
      RunRefinesAt(b, s, me.snap);
      Footprint(b, s.hist[me.snap], AbsReplay(b, s.log[..me.snap]), p, me.args.rs, me.version);
      forall k | k in Touched(tx) ensures Concurrent.Same(s.hist[me.snap], s.hist[Now(s)], k) {
        QuietPath(b, s, me.snap, |s.log|, p, k);
      }
      TestIsExact(s.hist, me.snap, tx);
    }
  }

  // ---- Left alone ----

  /** Any client that is not in a call can make any call, in every reachable state. */
  lemma CanCall(b: Backend, s: Sys, c: nat, args: PutArgs, version: string) returns (s': Sys)
    requires Inv(b, s) && !ClientOf(s, c).Running? && b.isVersion(version) && version !in s.used
    ensures Next(b, s, s', BeginStep(c, args, version))
    ensures ClientOf(s', c) == if ValidArgs(b, args.path, args.rs) then Running(args, version, Now(s)) else Done(args, version, Invalid, Now(s))
  {
    s' := s.(used := s.used + {version},
             clients := s.clients[c := if ValidArgs(b, args.path, args.rs) then Running(args, version, Now(s))
                                       else Done(args, version, Invalid, Now(s))]);
  }

  /** A snapshot of the current store cannot be in conflict. */
  lemma CurrentIsUnconflicted(b: Backend, s: Sys, tx: Tx)
    requires Inv(b, s)
    ensures Unconflicted(s.hist[Now(s)], s.hist[Now(s)], Now(s), tx)
  {
    forall k | k in tx.wset ensures ModRev(s.hist[Now(s)], k) <= Now(s) {
      if k in s.hist[Now(s)] { assert ModRev(s.hist[Now(s)], k) <= Now(s); }
    }
  }

  /** A running call with a current snapshot is answered by its next step. */
  lemma NextAnswers(b: Backend, s: Sys, c: nat) returns (s': Sys, step: Step)
    requires Inv(b, s) && ClientOf(s, c).Running? && ClientOf(s, c).snap == Now(s)
    ensures Next(b, s, s', step) && ClientOf(s', c).Done?
  {
    var me := s.clients[c];
    assert ClientOk(b, s, me);
    var tx := Attempt(b, s, me);
    if tx.result.Created? {
      CurrentIsUnconflicted(b, s, tx);
      s' := s.(hist := s.hist + [Apply(s.hist[Now(s)], tx.wset, |s.hist|)], log := s.log + [PutCommit(me.args, me.version)],
               clients := s.clients[c := Done(me.args, me.version, tx.result, Now(s))]);
      step := CommitsStep(c);
    } else {
      s' := s.(clients := s.clients[c := Done(me.args, me.version, tx.result, me.snap)]);
      step := AnswerStep(c);
    }
  }

  /** Client c's attempt starts over with a fresh version and a current snapshot. */
  function Restarted(s: Sys, c: nat, args: PutArgs, version: string): Sys
    requires s.hist != []
  {
    s.(used := s.used + {version}, clients := s.clients[c := Running(args, version, Now(s))])
  }

  /** A running call can answer, commit, or start over. */
  lemma NextOrRestart(b: Backend, s: Sys, c: nat, version: string) returns (s': Sys, step: Step)
    requires Inv(b, s) && ClientOf(s, c).Running? && b.isVersion(version) && version !in s.used
    ensures Next(b, s, s', step) && s'.hist != []
    ensures ClientOf(s', c).Done? || (ClientOf(s', c).Running? && ClientOf(s', c).snap == Now(s'))
  {
    var me := s.clients[c];
    assert ClientOk(b, s, me);
    var tx := Attempt(b, s, me);
    if !tx.result.Created? {
      s' := s.(clients := s.clients[c := Done(me.args, me.version, tx.result, me.snap)]);
      step := AnswerStep(c);
    } else if Unconflicted(s.hist[Now(s)], s.hist[me.snap], me.snap, tx) {
      s' := s.(hist := s.hist + [Apply(s.hist[Now(s)], tx.wset, |s.hist|)], log := s.log + [PutCommit(me.args, me.version)],
               clients := s.clients[c := Done(me.args, me.version, tx.result, Now(s))]);
      step := CommitsStep(c);
    } else {
      s' := Restarted(s, c, me.args, version);
      step := RetryStep(c, version);
    }
  }

  /** States joined by steps. */
  ghost predicate IsPath(b: Backend, states: seq<Sys>, steps: seq<Step>) {
    |states| == |steps| + 1 && forall i | 0 <= i < |steps| :: Next(b, states[i], states[i + 1], steps[i])
  }

  lemma PathOfOne(b: Backend, s: Sys, s1: Sys, first: Step)
    requires Next(b, s, s1, first)
    ensures IsPath(b, [s, s1], [first])
  {
  }

  lemma PathOfTwo(b: Backend, s: Sys, s1: Sys, s2: Sys, first: Step, second: Step)
    requires Next(b, s, s1, first) && Next(b, s1, s2, second)
    ensures IsPath(b, [s, s1, s2], [first, second])
  {
    var states, steps := [s, s1, s2], [first, second];
    forall i | 0 <= i < 2 ensures Next(b, states[i], states[i + 1], steps[i]) {
      if i == 0 { assert states[1] == s1; } else { assert i == 1 && states[2] == s2; }
    }
  }

  /** From every reachable state, a running call that is left alone is answered within two steps: at
      once, or after starting over. */
  lemma AloneFinishes(b: Backend, s: Sys, c: nat, version: string) returns (states: seq<Sys>, steps: seq<Step>)
    requires Inv(b, s) && ClientOf(s, c).Running? && b.isVersion(version) && version !in s.used
    ensures IsPath(b, states, steps) && 1 <= |steps| <= 2 && states[0] == s
    ensures ClientOf(states[|steps|], c).Done?
  {
    var s1, first := NextOrRestart(b, s, c, version);
    if ClientOf(s1, c).Done? {
      states, steps := [s, s1], [first];
      PathOfOne(b, s, s1, first);
    } else {
      NextKeepsInv(b, s, s1, first);
      var s2, second := NextAnswers(b, s1, c);
      states, steps := [s, s1, s2], [first, second];
      PathOfTwo(b, s, s1, s2, first, second);
    }
  }
}
