/** Any number of clients calling Put at the same time: snapshots, buffered writes, commits that
    succeed only without conflict, retries, and unrelated writers on the same etcd. */
module Concurrent {
  import opened Prelude
  import opened Rulesets
  import opened Backends
  import opened Store
  import opened Ledger

  datatype PutArgs = PutArgs(path: string, rs: Ruleset)

  /** A client between calls, in an attempt with its snapshot revision, or answered. `at` is the
      revision whose store the answer is about. */
  datatype Client =
    | Idle
    | Running(args: PutArgs, version: string, snap: nat)
    | Done(args: PutArgs, version: string, result: PutResult, at: nat)

  datatype Commit =
    | PutCommit(args: PutArgs, version: string)
    | Foreign(writes: map<string, Blob>)

  /** hist[r] is the store at revision r; log[r] led from hist[r] to hist[r + 1]. */
  datatype Sys = Sys(hist: seq<KV>, log: seq<Commit>, clients: map<nat, Client>, used: set<string>)

  const INIT: Sys := Sys([map[]], [], map[], {})

  function Now(s: Sys): nat
    requires s.hist != []
  {
    |s.hist| - 1
  }

  function ClientOf(s: Sys, c: nat): Client {
    if c in s.clients then s.clients[c] else Idle
  }

  /** A key that belongs to someone else. */
  ghost predicate Unrelated(b: Backend, k: string) {
    !b.isEntryKey(k) && forall p | b.isName(p) :: k != b.checksumKey(p) && k != b.signatureKey(p) && k != b.latestKey(p)
  }

  ghost predicate Unconflicted(now: KV, snapshot: KV, snapRev: nat, tx: Tx) {
    && (forall k | k in tx.rset :: ModRev(now, k) == ModRev(snapshot, k))
    && (forall k | k in tx.wset :: ModRev(now, k) <= snapRev)
  }

  /** Put is called: bad arguments are answered at once, others take a snapshot. */
  ghost predicate Begin(b: Backend, s: Sys, s': Sys, c: nat, args: PutArgs, version: string) {
    && s.hist != [] && !ClientOf(s, c).Running?
    && version !in s.used && b.isVersion(version)
    && s' == s.(used := s.used + {version},
                clients := s.clients[c :=
                  if ValidArgs(b, args.path, args.rs) then Running(args, version, Now(s))
                  else Done(args, version, Invalid, Now(s))])
  }

  ghost function Attempt(b: Backend, s: Sys, c: Client): Tx
    requires c.Running? && c.snap < |s.hist|
  {
    RunTx(b, s.hist[c.snap], c.args.path, c.args.rs, c.version)
  }

  /** The closure returned an error: the attempt ends without a commit. */
  ghost predicate Answer(b: Backend, s: Sys, s': Sys, c: nat) {
    var me := ClientOf(s, c);
    && me.Running? && me.snap < |s.hist| && !Attempt(b, s, me).result.Created?
    && s' == s.(clients := s.clients[c := Done(me.args, me.version, Attempt(b, s, me).result, me.snap)])
  }

  /** The commit test succeeds: all buffered writes appear at once, at the next revision. */
  ghost predicate CommitStep(b: Backend, s: Sys, s': Sys, c: nat) {
    var me := ClientOf(s, c);
    && me.Running? && me.snap < |s.hist| && Attempt(b, s, me).result.Created?
    && Unconflicted(s.hist[Now(s)], s.hist[me.snap], me.snap, Attempt(b, s, me))
    && s' == s.(hist := s.hist + [Apply(s.hist[Now(s)], Attempt(b, s, me).wset, |s.hist|)],
                log := s.log + [PutCommit(me.args, me.version)],
                clients := s.clients[c := Done(me.args, me.version, Attempt(b, s, me).result, Now(s))])
  }

  /** The commit test fails: a new attempt with a new snapshot and a new version. */
  ghost predicate Retry(b: Backend, s: Sys, s': Sys, c: nat, version: string) {
    var me := ClientOf(s, c);
    && me.Running? && me.snap < |s.hist| && Attempt(b, s, me).result.Created?
    && !Unconflicted(s.hist[Now(s)], s.hist[me.snap], me.snap, Attempt(b, s, me))
    && version !in s.used && b.isVersion(version)
    && s' == s.(used := s.used + {version}, clients := s.clients[c := Running(me.args, version, Now(s))])
  }

  ghost predicate ForeignStep(b: Backend, s: Sys, s': Sys, writes: map<string, Blob>) {
    && s.hist != [] && (forall k | k in writes :: Unrelated(b, k))
    && s' == s.(hist := s.hist + [Apply(s.hist[Now(s)], writes, |s.hist|)], log := s.log + [Foreign(writes)])
  }

  datatype Step =
    | BeginStep(c: nat, args: PutArgs, version: string)
    | AnswerStep(c: nat)
    | CommitsStep(c: nat)
    | RetryStep(c: nat, version: string)
    | OtherStep(writes: map<string, Blob>)

  ghost predicate Next(b: Backend, s: Sys, s': Sys, step: Step) {
    match step
    case BeginStep(c, args, version) => Begin(b, s, s', c, args, version)
    case AnswerStep(c) => Answer(b, s, s', c)
    case CommitsStep(c) => CommitStep(b, s, s', c)
    case RetryStep(c, version) => Retry(b, s, s', c, version)
    case OtherStep(writes) => ForeignStep(b, s, s', writes)
  }

  /** A run: states joined by steps, from the empty store. */
  ghost predicate IsRun(b: Backend, states: seq<Sys>, steps: seq<Step>) {
    && |states| == |steps| + 1 && states[0] == INIT
    && forall i | 0 <= i < |steps| :: Next(b, states[i], states[i + 1], steps[i])
  }

  // ---- One at a time ----

  /** What one commit does when it has the store to itself. */
  function Redo(b: Backend, kv: KV, rev: nat, commit: Commit): KV {
    match commit
    case PutCommit(args, version) => SeqPut(b, kv, rev, args.path, args.rs, version).0
    case Foreign(writes) => Apply(kv, writes, rev)
  }

  /** Running the committed calls one after the other, in commit order. */
  function Replay(b: Backend, log: seq<Commit>): KV {
    if log == [] then map[] else Redo(b, Replay(b, log[..|log| - 1]), |log|, log[|log| - 1])
  }

  // ---- The invariant ----

  ghost predicate Same(a: KV, c: KV, k: string) {
    (k in a <==> k in c) && (k in a ==> a[k] == c[k])
  }

  /** A key whose modification revision is not newer than i has not changed since i. */
  ghost predicate Stable(hist: seq<KV>) {
    && (forall i, k | 0 <= i < |hist| && k in hist[i] :: ModRev(hist[i], k) <= i)
    && (forall i, j, k | 0 <= i <= j < |hist| && ModRev(hist[j], k) <= i :: Same(hist[i], hist[j], k))
  }

  ghost predicate Replayed(b: Backend, s: Sys) {
    && |s.hist| == |s.log| + 1 && s.hist[0] == map[]
    && forall i | 0 <= i < |s.log| :: s.hist[i + 1] == Redo(b, s.hist[i], i + 1, s.log[i])
  }

  /** A logged Put is one that created its version. */
  ghost predicate Creates(b: Backend, kv: KV, rev: nat, commit: Commit) {
    commit.PutCommit? ==>
      SeqPut(b, kv, rev, commit.args.path, commit.args.rs, commit.version).1
      == Created(Entry(commit.args.path, commit.version, commit.args.rs))
  }

  ghost predicate AllCreate(b: Backend, hist: seq<KV>, log: seq<Commit>)
    requires |hist| == |log| + 1
  {
    forall i | 0 <= i < |log| :: Creates(b, hist[i], i + 1, log[i])
  }

  ghost predicate FreshAt(log: seq<Commit>, n: nat, version: string)
    requires n <= |log|
  {
    forall i | 0 <= i < n && log[i].PutCommit? :: log[i].version != version
  }

  ghost predicate CommitOk(b: Backend, log: seq<Commit>, used: set<string>, i: nat)
    requires i < |log|
  {
    match log[i]
    case PutCommit(args, v) => b.isVersion(v) && v in used && FreshAt(log, i, v) && ValidArgs(b, args.path, args.rs)
    case Foreign(writes) => forall k | k in writes :: Unrelated(b, k)
  }

  ghost predicate LogOk(b: Backend, s: Sys) {
    forall i | 0 <= i < |s.log| :: CommitOk(b, s.log, s.used, i)
  }

  /** An answer is the one sequential Put gives at the stated revision; a created version is the
      commit that follows that revision. */
  ghost predicate ClientOk(b: Backend, s: Sys, c: Client) {
    match c
    case Idle => true
    case Running(args, v, snap) =>
      && snap < |s.hist| && |s.hist| == |s.log| + 1 && v in s.used && b.isVersion(v)
      && FreshAt(s.log, |s.log|, v) && ValidArgs(b, args.path, args.rs)
    case Done(args, v, result, at) =>
      && at < |s.hist| && |s.hist| == |s.log| + 1 && FreshAt(s.log, at, v) && b.isVersion(v)
      && result == SeqPut(b, s.hist[at], at + 1, args.path, args.rs, v).1
      && (result.Created? ==> at < |s.log| && s.log[at] == PutCommit(args, v))
  }

  ghost predicate Inv(b: Backend, s: Sys) {
    && Replayed(b, s)
    && AllCreate(b, s.hist, s.log)
    && Stable(s.hist)
    && LogOk(b, s)
    && (forall c | c in s.clients :: ClientOk(b, s, s.clients[c]))
    && (forall c, d | c in s.clients && d in s.clients && c != d && s.clients[c].Running? && s.clients[d].Running? ::
          s.clients[c].version != s.clients[d].version)
  }

  /** A transaction only sees the keys it reads. */
  lemma Locality(b: Backend, kv: KV, kv': KV, path: string, rs: Ruleset, version: string)
    requires forall k | k in RunTx(b, kv, path, rs, version).rset :: Read(kv, k) == Read(kv', k)
    ensures RunTx(b, kv', path, rs, version) == RunTx(b, kv, path, rs, version)
  {
    var ks := KeysOf(b, path, version);
    assert ks.checksum in RunTx(b, kv, path, rs, version).rset;
    assert Read(kv, ks.checksum) == Checksum(SumOf(b, rs)) ==> ks.latest in RunTx(b, kv, path, rs, version).rset;
    assert Read(kv, ks.checksum) != Checksum(SumOf(b, rs)) ==> ks.signature in RunTx(b, kv, path, rs, version).rset;
  }

  /** A commit that passes the test does what it would have done on the store it commits to. */
  lemma UnconflictedIsCurrent(b: Backend, hist: seq<KV>, snap: nat, path: string, rs: Ruleset, version: string)
    requires Stable(hist) && snap < |hist|
    requires Unconflicted(hist[|hist| - 1], hist[snap], snap, RunTx(b, hist[snap], path, rs, version))
    ensures RunTx(b, hist[|hist| - 1], path, rs, version) == RunTx(b, hist[snap], path, rs, version)
  {
    var now, then' := hist[|hist| - 1], hist[snap];
    forall k | k in RunTx(b, then', path, rs, version).rset ensures Read(then', k) == Read(now, k) {
      assert ModRev(then', k) <= snap;
      assert Same(hist[snap], hist[|hist| - 1], k);
    }
    Locality(b, then', now, path, rs, version);
  }

  lemma StableGrows(hist: seq<KV>, writes: map<string, Blob>)
    requires hist != [] && Stable(hist)
    ensures Stable(hist + [Apply(hist[|hist| - 1], writes, |hist|)])
  {
    var n := |hist|;
    var next := Apply(hist[n - 1], writes, n);
    var hist' := hist + [next];
    forall i, k | 0 <= i < |hist'| && k in hist'[i] ensures ModRev(hist'[i], k) <= i {
      if i == n && k !in writes { assert ModRev(hist[n - 1], k) <= n - 1; }
    }
    forall i, j, k | 0 <= i <= j < |hist'| && ModRev(hist'[j], k) <= i ensures Same(hist'[i], hist'[j], k) {
      if i < n && j == n {
        assert k !in writes;
        assert ModRev(next, k) == ModRev(hist[n - 1], k);
        assert Same(hist[i], hist[n - 1], k);
      } else if j < n {
        assert Same(hist[i], hist[j], k);
      }
    }
  }

  lemma InitInv(b: Backend)
    ensures Inv(b, INIT)
  {
  }

  /** The other clients' promises survive a longer log. */
  lemma ClientsAfterCommit(b: Backend, s: Sys, s': Sys, c: Client)
    requires ClientOk(b, s, c) && Replayed(b, s)
    requires |s'.log| == |s.log| + 1 && s'.log[..|s.log|] == s.log
    requires |s'.hist| == |s.hist| + 1 && s'.hist[..|s.hist|] == s.hist
    requires s.used <= s'.used
    requires c.Running? && s'.log[|s.log|].PutCommit? ==> s'.log[|s.log|].version != c.version
    ensures ClientOk(b, s', c)
  {
    assert forall i | 0 <= i < |s.log| :: s'.log[i] == s'.log[..|s.log|][i] == s.log[i];
    assert forall i | 0 <= i < |s.hist| :: s'.hist[i] == s'.hist[..|s.hist|][i] == s.hist[i];
  }

  /** One more commit, on the current store, whoever made it. */
  lemma CommitExtends(b: Backend, s: Sys, s': Sys, commit: Commit, writes: map<string, Blob>)
    requires Inv(b, s)
    requires s'.hist == s.hist + [Apply(s.hist[Now(s)], writes, |s.hist|)] && s'.log == s.log + [commit]
    requires s'.used == s.used
    requires Redo(b, s.hist[Now(s)], |s.hist|, commit) == Apply(s.hist[Now(s)], writes, |s.hist|)
    requires Creates(b, s.hist[Now(s)], |s.hist|, commit)
    requires CommitOk(b, s'.log, s'.used, |s.log|)
    ensures Replayed(b, s') && AllCreate(b, s'.hist, s'.log) && Stable(s'.hist) && LogOk(b, s')
    ensures s'.log[..|s.log|] == s.log && s'.hist[..|s.hist|] == s.hist
  {
    Prefixes(s.hist, s.log, s'.hist[|s.hist|], commit);
    ReplayedGrows(b, s, s', commit);
    StableGrows(s.hist, writes);
    LogGrows(b, s, s');
    AllCreateGrows(b, s.hist, s.log, s'.hist[|s.hist|], commit);
  }

  lemma Prefixes(hist: seq<KV>, log: seq<Commit>, next: KV, commit: Commit)
    ensures (hist + [next])[..|hist|] == hist && (log + [commit])[..|log|] == log
  {
  }

  lemma ReplayedGrows(b: Backend, s: Sys, s': Sys, commit: Commit)
    requires Replayed(b, s) && s'.hist == s.hist + [Redo(b, s.hist[Now(s)], |s.hist|, commit)] && s'.log == s.log + [commit]
    ensures Replayed(b, s')
  {
    forall i | 0 <= i < |s'.log| ensures s'.hist[i + 1] == Redo(b, s'.hist[i], i + 1, s'.log[i]) {
      if i < |s.log| { assert s.hist[i + 1] == Redo(b, s.hist[i], i + 1, s.log[i]); }
    }
  }

  lemma AllCreateGrows(b: Backend, hist: seq<KV>, log: seq<Commit>, next: KV, commit: Commit)
    requires |hist| == |log| + 1 && AllCreate(b, hist, log) && Creates(b, hist[|log|], |log| + 1, commit)
    ensures AllCreate(b, hist + [next], log + [commit])
  {
    var hist', log' := hist + [next], log + [commit];
    forall i | 0 <= i < |log'| ensures Creates(b, hist'[i], i + 1, log'[i]) {
      assert log'[i] == (if i < |log| then log[i] else commit) && hist'[i] == hist[i];
      if i < |log| { assert Creates(b, hist[i], i + 1, log[i]); }
    }
  }

  /** The commit of a running client: what it writes, and its answer, are those of sequential Put. */
  lemma CommitIsSequential(b: Backend, s: Sys, s': Sys, c: nat)
    requires Inv(b, s) && CommitStep(b, s, s', c)
    ensures var me := s.clients[c];
            var seqPut := SeqPut(b, s.hist[Now(s)], |s.hist|, me.args.path, me.args.rs, me.version);
            && s'.hist == s.hist + [seqPut.0]
            && seqPut.0 == Apply(s.hist[Now(s)], Attempt(b, s, me).wset, |s.hist|)
            && seqPut.1 == Attempt(b, s, me).result
    ensures Creates(b, s.hist[Now(s)], |s.hist|, PutCommit(s.clients[c].args, s.clients[c].version))
  {
    var me := s.clients[c];
    assert ClientOk(b, s, me);
    CommitOnCurrent(b, s.hist, me.snap, me.args, me.version);
  }

  lemma CommitOnCurrent(b: Backend, hist: seq<KV>, snap: nat, args: PutArgs, version: string)
    requires Stable(hist) && snap < |hist| && ValidArgs(b, args.path, args.rs)
    requires RunTx(b, hist[snap], args.path, args.rs, version).result.Created?
    requires Unconflicted(hist[|hist| - 1], hist[snap], snap, RunTx(b, hist[snap], args.path, args.rs, version))
    ensures var tx := RunTx(b, hist[snap], args.path, args.rs, version);
            SeqPut(b, hist[|hist| - 1], |hist|, args.path, args.rs, version) == (Apply(hist[|hist| - 1], tx.wset, |hist|), tx.result)
    ensures Creates(b, hist[|hist| - 1], |hist|, PutCommit(args, version))
  {
    UnconflictedIsCurrent(b, hist, snap, args.path, args.rs, version);
    CreatesOwn(b, hist[|hist| - 1], |hist|, args, version);
  }

  /** A transaction that creates, run on the store it saw, creates the version it was given. */
  lemma CreatesOwn(b: Backend, kv: KV, rev: nat, args: PutArgs, version: string)
    requires ValidArgs(b, args.path, args.rs) && RunTx(b, kv, args.path, args.rs, version).result.Created?
    ensures SeqPut(b, kv, rev, args.path, args.rs, version).0 == Apply(kv, RunTx(b, kv, args.path, args.rs, version).wset, rev)
    ensures SeqPut(b, kv, rev, args.path, args.rs, version).1 == RunTx(b, kv, args.path, args.rs, version).result
    ensures Creates(b, kv, rev, PutCommit(args, version))
  {
  }

  lemma CommitKeepsInv(b: Backend, s: Sys, s': Sys, c: nat)
    requires Inv(b, s) && CommitStep(b, s, s', c)
    ensures Inv(b, s')
  {
    var me := s.clients[c];
    assert ClientOk(b, s, me);
    CommitIsSequential(b, s, s', c);
    NewCommitOk(b, s, s', me.args, me.version);
    CommitExtends(b, s, s', PutCommit(me.args, me.version), Attempt(b, s, me).wset);
    forall d | d in s'.clients ensures ClientOk(b, s', s'.clients[d]) {
      if d != c {
        assert ClientOk(b, s, s.clients[d]);
        ClientsAfterCommit(b, s, s', s.clients[d]);
      }
    }
  }

  lemma NewCommitOk(b: Backend, s: Sys, s': Sys, args: PutArgs, version: string)
    requires s'.log == s.log + [PutCommit(args, version)] && s'.used == s.used
    requires b.isVersion(version) && version in s.used && FreshAt(s.log, |s.log|, version) && ValidArgs(b, args.path, args.rs)
    ensures CommitOk(b, s'.log, s'.used, |s.log|)
  {
    assert forall i | 0 <= i < |s.log| :: s'.log[i] == s.log[i];
  }

  lemma LogGrows(b: Backend, s: Sys, s': Sys)
    requires LogOk(b, s) && |s'.log| == |s.log| + 1 && s'.log[..|s.log|] == s.log && s.used <= s'.used
    requires CommitOk(b, s'.log, s'.used, |s.log|)
    ensures LogOk(b, s')
  {
    assert forall i | 0 <= i < |s.log| :: s'.log[i] == s'.log[..|s.log|][i] == s.log[i];
    forall i | 0 <= i < |s.log| ensures CommitOk(b, s'.log, s'.used, i) {
      assert CommitOk(b, s.log, s.used, i);
    }
  }

  lemma ForeignKeepsInv(b: Backend, s: Sys, s': Sys, writes: map<string, Blob>)
    requires Inv(b, s) && ForeignStep(b, s, s', writes)
    ensures Inv(b, s')
  {
    CommitExtends(b, s, s', Foreign(writes), writes);
    forall d | d in s'.clients ensures ClientOk(b, s', s'.clients[d]) {
      assert ClientOk(b, s, s.clients[d]);
      ClientsAfterCommit(b, s, s', s.clients[d]);
    }
  }

  /** Steps that leave the store alone. */
  lemma LocalKeepsInv(b: Backend, s: Sys, s': Sys, c: nat, me: Client)
    requires Inv(b, s) && s.used <= s'.used
    requires s' == s.(used := s'.used, clients := s.clients[c := me])
    requires ClientOk(b, s', me)
    requires me.Running? ==> me.version !in s.used
    ensures Inv(b, s')
  {
    forall i | 0 <= i < |s.log| ensures CommitOk(b, s'.log, s'.used, i) {
      assert CommitOk(b, s.log, s.used, i);
    }
    forall d | d in s'.clients ensures ClientOk(b, s', s'.clients[d]) {
      if d != c { assert ClientOk(b, s, s.clients[d]); }
    }
    forall d, e | d in s'.clients && e in s'.clients && d != e && s'.clients[d].Running? && s'.clients[e].Running?
      ensures s'.clients[d].version != s'.clients[e].version
    {
      if d != c { assert ClientOk(b, s, s.clients[d]); }
      if e != c { assert ClientOk(b, s, s.clients[e]); }
    }
  }

  lemma UnusedIsFresh(b: Backend, s: Sys, version: string)
    requires LogOk(b, s) && version !in s.used
    ensures FreshAt(s.log, |s.log|, version)
  {
    forall i | 0 <= i < |s.log| && s.log[i].PutCommit? ensures s.log[i].version != version {
      assert CommitOk(b, s.log, s.used, i);
    }
  }

  lemma NextKeepsInv(b: Backend, s: Sys, s': Sys, step: Step)
    requires Inv(b, s) && Next(b, s, s', step)
    ensures Inv(b, s')
  {
    match step {
      case BeginStep(c, args, version) =>
        UnusedIsFresh(b, s, version);
        LocalKeepsInv(b, s, s', c, s'.clients[c]);
      case AnswerStep(c) =>
        assert ClientOk(b, s, s.clients[c]);
        ApplyNothing(s.hist[s.clients[c].snap], s.clients[c].snap + 1);
        LocalKeepsInv(b, s, s', c, s'.clients[c]);
      case CommitsStep(c) => CommitKeepsInv(b, s, s', c);
      case RetryStep(c, version) =>
        assert ClientOk(b, s, s.clients[c]);
        UnusedIsFresh(b, s, version);
        LocalKeepsInv(b, s, s', c, s'.clients[c]);
      case OtherStep(writes) => ForeignKeepsInv(b, s, s', writes);
    }
  }

  lemma {:induction false} RunsKeepInv(b: Backend, states: seq<Sys>, steps: seq<Step>, i: nat)
    requires IsRun(b, states, steps) && i < |states|
    ensures Inv(b, states[i])
  {
    if i == 0 {
      InitInv(b);
    } else {
      RunsKeepInv(b, states, steps, i - 1);
      assert Next(b, states[i - 1], states[i], steps[i - 1]);
      NextKeepsInv(b, states[i - 1], states[i], steps[i - 1]);
    }
  }

  lemma {:induction false} HistoryIsReplay(b: Backend, s: Sys, i: nat)
    requires Replayed(b, s) && i <= |s.log|
    ensures s.hist[i] == Replay(b, s.log[..i])
  {
    if i > 0 {
      HistoryIsReplay(b, s, i - 1);
      assert s.log[..i][..i - 1] == s.log[..i - 1];
      assert s.hist[i - 1 + 1] == Redo(b, s.hist[i - 1], i, s.log[i - 1]);
    }
  }

  // ---- Calls, answers and commits ----

  /** The step at which client c made its last call before step i. */
  function LastCall(steps: seq<Step>, i: nat, c: nat): Option<nat>
    requires i <= |steps|
  {
    if i == 0 then None
    else if steps[i - 1].BeginStep? && steps[i - 1].c == c then Some(i - 1)
    else LastCall(steps, i - 1, c)
  }

  lemma {:induction false} LastCallIs(steps: seq<Step>, i: nat, c: nat)
    requires i <= |steps|
    ensures LastCall(steps, i, c).Some? ==>
              var j := LastCall(steps, i, c).value; j < i && steps[j].BeginStep? && steps[j].c == c
    ensures forall k | (if LastCall(steps, i, c).Some? then LastCall(steps, i, c).value + 1 else 0) <= k < i ::
              steps[k].BeginStep? ==> steps[k].c != c
  {
    if i > 0 { LastCallIs(steps, i - 1, c); }
  }

  /** What a client carries is what it called with, and its snapshot or answer is about a revision
      that was current at some time since the call. */
  ghost predicate Traced(states: seq<Sys>, steps: seq<Step>, i: nat, c: nat)
    requires i <= |steps| && |states| == |steps| + 1
  {
    var me, call := ClientOf(states[i], c), LastCall(steps, i, c);
    if me.Idle? then call == None
    else
      && call.Some? && call.value < i && steps[call.value].BeginStep?
      && me.args == steps[call.value].args
      && |states[call.value].hist| <= (if me.Running? then me.snap else me.at) + 1 <= |states[i].hist|
  }

  lemma {:induction false} CallsAreTraced(b: Backend, states: seq<Sys>, steps: seq<Step>, i: nat, c: nat)
    requires IsRun(b, states, steps) && i <= |steps|
    ensures Traced(states, steps, i, c)
  {
    if i > 0 {
      CallsAreTraced(b, states, steps, i - 1, c);
      RunsKeepInv(b, states, steps, i - 1);
      assert Next(b, states[i - 1], states[i], steps[i - 1]);
      StepKeepsTrace(b, states, steps, i, c);
    }
  }

  lemma StepKeepsTrace(b: Backend, states: seq<Sys>, steps: seq<Step>, i: nat, c: nat)
    requires 0 < i <= |steps| && |states| == |steps| + 1
    requires states[i - 1].hist != [] && Next(b, states[i - 1], states[i], steps[i - 1])
    requires Traced(states, steps, i - 1, c)
    ensures Traced(states, steps, i, c)
  {
    var s, s', step := states[i - 1], states[i], steps[i - 1];
    assert |s.hist| <= |s'.hist|;
    assert LastCall(steps, i, c) == if step.BeginStep? && step.c == c then Some(i - 1) else LastCall(steps, i - 1, c);
    if !step.OtherStep? && step.c == c {
      assert ClientOf(s', c) == s'.clients[c];
    } else {
      assert ClientOf(s', c) == ClientOf(s, c);
    }
  }

  /** Commit n was made at step l, by a client that had called with these arguments. */
  ghost predicate CommittedAt(states: seq<Sys>, steps: seq<Step>, l: nat, n: nat, args: PutArgs)
    requires l < |steps| && |states| == |steps| + 1
  {
    && steps[l].CommitsStep? && |states[l].log| == n
    && var call := LastCall(steps, l, steps[l].c);
       call.Some? && call.value < l && steps[call.value].BeginStep? && steps[call.value].args == args
  }

  lemma {:induction false} CommitsAreTraced(b: Backend, states: seq<Sys>, steps: seq<Step>, i: nat, n: nat)
    requires IsRun(b, states, steps) && i <= |steps| && n < |states[i].log| && states[i].log[n].PutCommit?
    ensures exists l :: 0 <= l < i && CommittedAt(states, steps, l, n, states[i].log[n].args)
  {
    if i == 0 {
      assert false;
    } else {
      var s, s', step := states[i - 1], states[i], steps[i - 1];
      assert Next(b, s, s', step);
      if n < |s.log| {
        CommitsAreTraced(b, states, steps, i - 1, n);
      } else {
        CallsAreTraced(b, states, steps, i - 1, step.c);
        assert CommittedAt(states, steps, i - 1, n, s'.log[n].args);
      }
    }
  }

  /** Serializability: whatever the interleaving, the store is the one that running the committed
      calls one at a time in commit order gives. Every answer is about the arguments of the client's
      own last call, and is what sequential Put answers on the store at a place in that order that
      lies between the call and the answer. Every commit is that of a call some client made. */
  lemma Serializable(b: Backend, states: seq<Sys>, steps: seq<Step>)
    requires IsRun(b, states, steps)
    ensures var s := states[|steps|];
            && |s.hist| == |s.log| + 1
            && s.hist[|s.log|] == Replay(b, s.log)
    ensures forall c | c in states[|steps|].clients && states[|steps|].clients[c].Done? ::
              AnsweredInOrder(b, states, steps, c)
    ensures forall n | 0 <= n < |states[|steps|].log| && states[|steps|].log[n].PutCommit? ::
              exists l :: 0 <= l < |steps| && CommittedAt(states, steps, l, n, states[|steps|].log[n].args)
  {
    var s := states[|steps|];
    RunsKeepInv(b, states, steps, |steps|);
    HistoryIsReplay(b, s, |s.log|);
    assert s.log[..|s.log|] == s.log;
    forall c | c in s.clients && s.clients[c].Done? ensures AnsweredInOrder(b, states, steps, c) {
      assert ClientOk(b, s, s.clients[c]);
      HistoryIsReplay(b, s, s.clients[c].at);
      CallsAreTraced(b, states, steps, |steps|, c);
      RunsKeepInv(b, states, steps, LastCall(steps, |steps|, c).value);
    }
    forall n | 0 <= n < |s.log| && s.log[n].PutCommit?
      ensures exists l :: 0 <= l < |steps| && CommittedAt(states, steps, l, n, s.log[n].args)
    {
      CommitsAreTraced(b, states, steps, |steps|, n);
    }
  }

  /** Client c's answer at the end of the run: for its own call, at its place in the commit order. */
  ghost predicate AnsweredInOrder(b: Backend, states: seq<Sys>, steps: seq<Step>, c: nat)
    requires |states| == |steps| + 1
  {
    var s := states[|steps|];
    var me, call := ClientOf(s, c), LastCall(steps, |steps|, c);
    && me.Done? && call.Some? && call.value < |steps| && steps[call.value].BeginStep?
    && me.args == steps[call.value].args
    && |states[call.value].log| <= me.at <= |s.log|
    && me.result == SeqPut(b, Replay(b, s.log[..me.at]), me.at + 1, me.args.path, me.args.rs, me.version).1
    && (me.result.Created? ==> me.at < |s.log| && s.log[me.at] == PutCommit(me.args, me.version))
  }
}
