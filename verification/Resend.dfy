/** Copies of one Put running at the same time, among any other calls: what the retry loop relies on
    when the server works on several of its requests at once. */
module Resend {
  import opened Rulesets
  import opened Backends
  import opened Store
  import opened Ledger
  import opened Concurrent
  import opened Runs
  import opened Replica
  import opened Cache

  predicate CommitsTo(log: seq<Commit>, k: nat, p: string) {
    k < |log| && log[k].PutCommit? && log[k].args.path == p
  }

  /** From revision i on, everyone who puts on path p puts rs. */
  ghost predicate OnlyPuts(log: seq<Commit>, i: nat, p: string, rs: Ruleset) {
    forall k | i <= k && CommitsTo(log, k, p) :: log[k].args.rs == rs
  }

  /** The latest version of p after n commits has the checksum of rs. */
  ghost predicate Settled(b: Backend, log: seq<Commit>, n: nat, p: string, rs: Ruleset)
    requires n <= |log|
  {
    var repo := AbsReplay(b, log[..n]);
    p in repo && SumOf(b, Last(repo[p]).ruleset) == SumOf(b, rs)
  }

  /** Nothing is committed on a settled path. */
  lemma NoCommitWhenSettled(b: Backend, s: Sys, k: nat, p: string, rs: Ruleset)
    requires Good(b) && Inv(b, s) && LogSurvives(b, s.log) && k < |s.log|
    requires Settled(b, s.log, k, p, rs) && OnlyPuts(s.log, k, p, rs)
    ensures !CommitsTo(s.log, k, p)
  {
    if s.log[k].PutCommit? { AbsCreates(b, s, k); }
  }

  lemma OthersKeepPath(b: Backend, log: seq<Commit>, k: nat, p: string)
    requires k < |log| && !CommitsTo(log, k, p) && p in AbsReplay(b, log[..k])
    ensures p in AbsReplay(b, log[..k + 1]) && AbsReplay(b, log[..k + 1])[p] == AbsReplay(b, log[..k])[p]
  {
    AbsReplayNext(b, log, k);
  }

  /** The path has the same history after n and after k commits. */
  ghost predicate SameHistory(b: Backend, log: seq<Commit>, n: nat, k: nat, p: string)
    requires n <= |log| && k <= |log|
  {
    p in AbsReplay(b, log[..n]) && p in AbsReplay(b, log[..k]) && AbsReplay(b, log[..k])[p] == AbsReplay(b, log[..n])[p]
  }

  /** No commit comes while the path is settled. */
  ghost predicate QuietWhenSettled(b: Backend, log: seq<Commit>, n: nat, p: string, rs: Ruleset) {
    forall k | n <= k < |log| :: Settled(b, log, k, p, rs) ==> !CommitsTo(log, k, p)
  }

  lemma {:induction false} QuietStays(b: Backend, log: seq<Commit>, n: nat, k: nat, p: string, rs: Ruleset)
    requires n <= k <= |log| && QuietWhenSettled(b, log, n, p, rs) && Settled(b, log, n, p, rs)
    ensures SameHistory(b, log, n, k, p) && Settled(b, log, k, p, rs)
  {
    if n < k {
      QuietStays(b, log, n, k - 1, p, rs);
      OthersKeepPath(b, log, k - 1, p);
    }
  }

  /** Once the ruleset is the latest, the path's history does not change any more. */
  lemma SettledStays(b: Backend, s: Sys, n: nat, k: nat, p: string, rs: Ruleset)
    requires Good(b) && Inv(b, s) && LogSurvives(b, s.log) && n <= k <= |s.log|
    requires OnlyPuts(s.log, n, p, rs) && Settled(b, s.log, n, p, rs)
    ensures SameHistory(b, s.log, n, k, p) && Settled(b, s.log, k, p, rs) && OnlyPuts(s.log, k, p, rs)
  {
    forall m | n <= m < |s.log| && Settled(b, s.log, m, p, rs) ensures !CommitsTo(s.log, m, p) {
      NoCommitWhenSettled(b, s, m, p, rs);
    }
    QuietStays(b, s.log, n, k, p, rs);
  }

  /** A commit on the path settles it. */
  lemma CommitSettles(b: Backend, s: Sys, j: nat, p: string)
    requires Good(b) && Inv(b, s) && LogSurvives(b, s.log) && CommitsTo(s.log, j, p)
    ensures Settled(b, s.log, j + 1, p, s.log[j].args.rs)
    ensures Last(AbsReplay(b, s.log[..j + 1])[p]) == EntryOf(s.log[j])
  {
    AbsReplayNext(b, s.log, j);
    AbsCreates(b, s, j);
    CreatedIsLast(b, AbsReplay(b, s.log[..j]), s.log[j]);
  }

  lemma CreatedIsLast(b: Backend, repo: Repo, c: Commit)
    requires (forall q | q in repo :: repo[q].versions != []) && c.PutCommit?
    requires AbsPut(b, repo, c.args.path, c.args.rs, c.version).1 == Created(EntryOf(c))
    ensures c.args.path in AbsRedo(b, repo, c) && Last(AbsRedo(b, repo, c)[c.args.path]) == EntryOf(c)
  {
  }

  lemma OneCommit(b: Backend, s: Sys, i: nat, j: nat, k: nat, p: string, rs: Ruleset)
    requires Good(b) && Inv(b, s) && LogSurvives(b, s.log) && OnlyPuts(s.log, i, p, rs)
    requires i <= j && CommitsTo(s.log, j, p) && CommitsTo(s.log, k, p)
    ensures k <= j
  {
    if j < k {
      CommitSettles(b, s, j, p);
      SettledStays(b, s, j + 1, k, p, rs);
      NoCommitWhenSettled(b, s, k, p, rs);
    }
  }

  /** Exactly once, with any concurrency: if from some revision on all calls on a path carry the same
      ruleset, they commit at most one version, however many run at the same time, conflict, retry or
      answer late; and every success answers the version that is still the latest at the end. */
  lemma CopiesCommitOnce(b: Backend, states: seq<Sys>, steps: seq<Step>, i: nat, p: string, rs: Ruleset, c: nat)
    requires Good(b) && IsRun(b, states, steps) && LogSurvives(b, states[|steps|].log) && Survives(b, rs)
    requires OnlyPuts(states[|steps|].log, i, p, rs)
    ensures var s := states[|steps|];
            && (forall j, k | i <= j && i <= k && CommitsTo(s.log, j, p) && CommitsTo(s.log, k, p) :: j == k)
            && (c in s.clients && SucceededSince(s.clients[c], i, PutArgs(p, rs)) ==>
                  && p in AbsReplay(b, s.log)
                  && s.clients[c].result.entry == Last(AbsReplay(b, s.log)[p])
                  && SumOf(b, s.clients[c].result.entry.ruleset) == SumOf(b, rs))
  {
    var s := states[|steps|];
    RunsKeepInv(b, states, steps, |steps|);
    forall j, k | i <= j && i <= k && CommitsTo(s.log, j, p) && CommitsTo(s.log, k, p) ensures j == k {
      OneCommit(b, s, i, j, k, p, rs);
      OneCommit(b, s, i, k, j, p, rs);
    }
    if c in s.clients && SucceededSince(s.clients[c], i, PutArgs(p, rs)) {
      RunRefinesLedger(b, states, steps, c);
      assert ClientOk(b, s, s.clients[c]);
      AnswerStays(b, s, s.clients[c], p, rs);
    }
  }

  /** The call has been answered with an entry, about a revision from i on. */
  predicate SucceededSince(c: Client, i: nat, args: PutArgs) {
    c.Done? && c.args == args && c.at >= i && (c.result.Created? || c.result.NotModified?)
  }

  lemma AnswerStays(b: Backend, s: Sys, c: Client, p: string, rs: Ruleset)
    requires Good(b) && Inv(b, s) && LogSurvives(b, s.log) && ClientOk(b, s, c)
    requires c.Done? && c.args == PutArgs(p, rs) && c.at <= |s.log| && OnlyPuts(s.log, c.at, p, rs)
    requires c.result == AbsPut(b, AbsReplay(b, s.log[..c.at]), p, rs, c.version).1
    requires c.result.Created? || c.result.NotModified?
    ensures p in AbsReplay(b, s.log) && c.result.entry == Last(AbsReplay(b, s.log)[p])
    ensures SumOf(b, c.result.entry.ruleset) == SumOf(b, rs)
  {
    assert s.log[..|s.log|] == s.log;
    if c.result.Created? {
      CommitSettles(b, s, c.at, p);
      SettledStays(b, s, c.at + 1, |s.log|, p, rs);
    } else {
      SettledStays(b, s, c.at, |s.log|, p, rs);
    }
  }
}
