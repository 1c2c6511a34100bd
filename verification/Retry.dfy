/** The client's retry loop around Put, over a network that loses answers and delays requests. */
module Retry {
  import opened Prelude
  import opened Rulesets
  import opened Backends
  import opened Store
  import opened Ledger

  datatype ClientError = NetError | ApiError(status: int) | OtherError

  function IsRetriable(e: ClientError): bool {
    match e
    case NetError => true
    case ApiError(status) => status == 500 || status == 408
    case OtherError => false
  }

  /** Network errors and the statuses 500 and 408. */
  predicate WorthRetrying(e: ClientError) { e == NetError || e == ApiError(500) || e == ApiError(408) }

  /** One attempt as the network and the server treat it: `early` delayed copies of earlier requests
      execute first, then this one does or does not, then `late` more copies do; the answer arrives
      or an error does. */
  datatype Attempt = Attempt(early: nat, executes: bool, late: nat, answer: Delivery)
  datatype Delivery = Delivered | Lost(error: ClientError)

  type Versions = nat -> string

  function PutOnce(b: Backend, repo: Repo, path: string, rs: Ruleset, version: string): (r: Repo)
    requires forall p | p in repo :: repo[p].versions != []
    ensures forall p | p in r :: r[p].versions != []
  {
    AbsPut(b, repo, path, rs, version).0
  }

  /** The store after n executions of the same Put, each with its own version. */
  function Executed(b: Backend, repo: Repo, path: string, rs: Ruleset, names: Versions, n: nat): (r: Repo)
    requires forall p | p in repo :: repo[p].versions != []
    ensures forall p | p in r :: r[p].versions != []
  {
    if n == 0 then repo else PutOnce(b, Executed(b, repo, path, rs, names, n - 1), path, rs, names(n - 1))
  }

  /** Once a Put has been executed, executing it again changes nothing and answers with the same entry. */
  lemma PutAgain(b: Backend, repo: Repo, path: string, rs: Ruleset, v: string, w: string)
    requires forall p | p in repo :: repo[p].versions != []
    ensures var (repo', r) := AbsPut(b, repo, path, rs, v);
            var (repo'', r') := AbsPut(b, repo', path, rs, w);
            && repo'' == repo'
            && (r.Created? || r.NotModified? ==>
                  r' == NotModified(r.entry) && path in repo' && r.entry == Last(repo'[path]))
            && (r == Invalid ==> r' == Invalid)
            && r != Broken
  {
  }

  /** However often a Put is executed, the store is as after the first time. */
  lemma {:induction false} ExecutedOnce(b: Backend, repo: Repo, path: string, rs: Ruleset, names: Versions, n: nat)
    requires forall p | p in repo :: repo[p].versions != []
    ensures Executed(b, repo, path, rs, names, n) == if n == 0 then repo else PutOnce(b, repo, path, rs, names(0))
  {
    if n > 1 {
      ExecutedOnce(b, repo, path, rs, names, n - 1);
      PutAgain(b, repo, path, rs, names(0), names(n - 1));
    } else if n == 1 {
      assert Executed(b, repo, path, rs, names, 0) == repo;
    }
  }

  lemma ExecutedNext(b: Backend, repo: Repo, path: string, rs: Ruleset, names: Versions, n: nat)
    requires forall p | p in repo :: repo[p].versions != []
    ensures Executed(b, repo, path, rs, names, n + 1) == PutOnce(b, Executed(b, repo, path, rs, names, n), path, rs, names(n))
  {
  }

  /** The number of versions a path has. */
  function VersionCount(repo: Repo, path: string): nat {
    if path in repo then |repo[path].versions| else 0
  }

  /** What the client may rely on after any number of executions. */
  ghost predicate AtMostOneMore(repo: Repo, repo': Repo, path: string) {
    && (forall q | q != path :: (q in repo' <==> q in repo) && (q in repo ==> repo'[q] == repo[q]))
    && VersionCount(repo, path) <= VersionCount(repo', path) <= VersionCount(repo, path) + 1
  }

  lemma ExecutedAtMostOneMore(b: Backend, repo: Repo, path: string, rs: Ruleset, names: Versions, n: nat)
    requires forall p | p in repo :: repo[p].versions != []
    ensures AtMostOneMore(repo, Executed(b, repo, path, rs, names, n), path)
  {
    ExecutedOnce(b, repo, path, rs, names, n);
    if n > 0 { OnceAtMostOneMore(b, repo, path, rs, names(0)); }
  }

  lemma OnceAtMostOneMore(b: Backend, repo: Repo, path: string, rs: Ruleset, v: string)
    requires forall p | p in repo :: repo[p].versions != []
    ensures AtMostOneMore(repo, PutOnce(b, repo, path, rs, v), path)
  {
  }

  /** The version count a successful Put leaves: one more, unless the latest version is the same. */
  function CountAfter(b: Backend, repo: Repo, path: string, rs: Ruleset): nat
    requires forall p | p in repo :: repo[p].versions != []
  {
    VersionCount(repo, path) + (if path in repo && SumOf(b, Last(repo[path]).ruleset) == SumOf(b, rs) then 0 else 1)
  }

  /** A success: the entry is the latest of its path, it has the checksum of what was sent, and
      exactly the version that was missing has been created. */
  ghost predicate Succeeded(b: Backend, repo: Repo, final: Repo, path: string, rs: Ruleset, e: Entry)
    requires forall p | p in repo :: repo[p].versions != []
    requires forall p | p in final :: final[p].versions != []
  {
    && path in final && e == Last(final[path])
    && SumOf(b, e.ruleset) == SumOf(b, rs)
    && VersionCount(final, path) == CountAfter(b, repo, path, rs)
  }

  /** The n-th execution's answer is a success for every later state of the store. */
  lemma AnswerIsLatest(b: Backend, repo: Repo, path: string, rs: Ruleset, names: Versions, n: nat, m: nat)
    requires (forall p | p in repo :: repo[p].versions != []) && n < m
    ensures var r := AbsPut(b, Executed(b, repo, path, rs, names, n), path, rs, names(n)).1;
            && r != Broken
            && (r.Created? || r.NotModified? ==> Succeeded(b, repo, Executed(b, repo, path, rs, names, m), path, rs, r.entry))
  {
    ExecutedOnce(b, repo, path, rs, names, n);
    ExecutedOnce(b, repo, path, rs, names, m);
    PutAgain(b, repo, path, rs, names(0), names(n));
  }

  /** With a checksum that tells the two rulesets apart, the answer carries the ruleset that was sent. */
  predicate NoCollision(b: Backend, x: Ruleset, y: Ruleset) {
    SumOf(b, x) == SumOf(b, y) ==> x == y
  }

  /** tryN: resend while the error is retriable and attempts are left. Whatever the network does, at
      most one version is created, and a successful answer carries the latest version of the path. */
  method TryPut(b: Backend, repo: Repo, path: string, rs: Ruleset, names: Versions, script: seq<Attempt>, times: int)
    returns (result: Result<Entry, ClientError>, final: Repo, sent: nat, executed: nat)
    requires forall p | p in repo :: repo[p].versions != []
    requires |script| >= times && |script| >= 1
    ensures final == Executed(b, repo, path, rs, names, executed)
    ensures AtMostOneMore(repo, final, path)
    ensures result.Ok? ==> Succeeded(b, repo, final, path, rs, result.value)
    ensures result.Ok? && NoCollision(b, result.value.ruleset, rs) ==> result.value.ruleset == rs
    ensures 1 <= sent && (sent <= times || sent == 1)
    ensures sent < times ==> result.Ok? || !WorthRetrying(result.error)
    ensures sent <= |script| && forall k | 0 <= k < sent - 1 ::
              if script[k].answer.Lost? then WorthRetrying(script[k].answer.error) else !script[k].executes
  {
    var i := 0;
    final, executed := repo, 0;
    while true
      invariant 0 <= i && (i < times || i == 0)
      invariant forall k | 0 <= k < i ::
                  if script[k].answer.Lost? then WorthRetrying(script[k].answer.error) else !script[k].executes
      invariant final == Executed(b, repo, path, rs, names, executed)
      decreases |script| - i
    {
      result, final, executed := Send(b, repo, final, path, rs, names, script[i], executed);
      sent := i + 1;
      if result.Ok? || !IsRetriable(result.error) { break; }
      i := i + 1;
      if i >= times { break; }
    }
    ExecutedAtMostOneMore(b, repo, path, rs, names, executed);
  }

  /** One request and its answer. */
  method Send(b: Backend, ghost start: Repo, repo: Repo, path: string, rs: Ruleset, names: Versions, a: Attempt, done: nat)
    returns (result: Result<Entry, ClientError>, final: Repo, executed: nat)
    requires forall p | p in start :: start[p].versions != []
    requires repo == Executed(b, start, path, rs, names, done)
    ensures executed >= done && final == Executed(b, start, path, rs, names, executed)
    ensures result.Ok? ==> Succeeded(b, start, final, path, rs, result.value)
    ensures a.answer.Lost? ==> result == Err(a.answer.error)
    ensures a.answer.Delivered? && a.executes ==> result.Ok? || result == Err(ApiError(400))
    ensures a.answer.Delivered? && !a.executes ==> result == Err(NetError)
  {
    final, executed := Copies(b, start, repo, path, rs, names, a.early, done);
    result := Err(NetError);
    if a.executes {
      var at := executed;
      var put := AbsPut(b, final, path, rs, names(at));
      ExecutedNext(b, start, path, rs, names, at);
      final, executed := Copies(b, start, put.0, path, rs, names, a.late, at + 1);
      AnswerIsLatest(b, start, path, rs, names, at, executed);
      match put.1 {
        case Created(e) => result := Ok(e);
        case NotModified(e) => result := Ok(e);
        case Invalid => result := Err(ApiError(400));
        case Broken => result := Err(ApiError(500));
      }
    }
    if a.answer.Lost? { result := Err(a.answer.error); }
  }

  /** Delayed copies of the request reach the server. */
  method Copies(b: Backend, ghost start: Repo, repo: Repo, path: string, rs: Ruleset, names: Versions, n: nat, done: nat)
    returns (final: Repo, executed: nat)
    requires forall p | p in start :: start[p].versions != []
    requires repo == Executed(b, start, path, rs, names, done)
    ensures executed == done + n && final == Executed(b, start, path, rs, names, executed)
  {
    final, executed := repo, done;
    for k := 0 to n
      invariant executed == done + k && final == Executed(b, start, path, rs, names, executed)
    {
      ExecutedNext(b, start, path, rs, names, executed);
      final := PutOnce(b, final, path, rs, names(executed));
      executed := executed + 1;
    }
  }
}
