/** Runs of the store together with a watching evaluator: the cache is the store, a little late. */
module Cache {
  import opened Prelude
  import opened Backends
  import opened Store
  import opened Ledger
  import opened Concurrent
  import opened Runs
  import opened Paging
  import opened Engine
  import opened Replica
  import Bytes
  import Codec
  import KeyLayout
  import Paths

  // ---- The log and the histories ----

  /** All created entries, in commit order. */
  function Puts(log: seq<Commit>): seq<Entry> {
    if log == [] then []
    else
      var rest := Puts(log[..|log| - 1]);
      if log[|log| - 1].PutCommit? then rest + [EntryOf(log[|log| - 1])] else rest
  }

  function HistoryOf(repo: Repo, p: string): seq<Entry> {
    if p in repo then repo[p].versions else []
  }

  lemma {:induction false} OfPathMembers(es: seq<Entry>, p: string)
    ensures forall e :: e in OfPath(es, p) <==> e in es && e.path == p
  {
    if es != [] {
      OfPathMembers(es[..|es| - 1], p);
      assert es == es[..|es| - 1] + [es[|es| - 1]];
    }
  }

  lemma {:induction false} EventsMembers(b: Backend, prefix: string, log: seq<Commit>)
    ensures forall e :: e in Events(b, prefix, log) <==> e in Puts(log) && Watched(b, prefix, e)
  {
    if log != [] { EventsMembers(b, prefix, log[..|log| - 1]); }
  }

  lemma {:induction false} PutsMembers(log: seq<Commit>)
    ensures forall e | e in Puts(log) :: exists i | 0 <= i < |log| :: log[i].PutCommit? && EntryOf(log[i]) == e
  {
    if log != [] {
      var init := log[..|log| - 1];
      PutsMembers(init);
      forall e | e in Puts(log) ensures exists i | 0 <= i < |log| :: log[i].PutCommit? && EntryOf(log[i]) == e {
        if e in Puts(init) {
          var i :| 0 <= i < |init| && init[i].PutCommit? && EntryOf(init[i]) == e;
          assert log[i] == init[i];
        } else {
          assert log[|log| - 1].PutCommit? && EntryOf(log[|log| - 1]) == e;
        }
      }
    }
  }

  /** A path's history is the list of its commits. */
  lemma {:induction false} HistoryIsLog(b: Backend, s: Sys, i: nat, p: string)
    requires Good(b) && Inv(b, s) && LogSurvives(b, s.log) && i <= |s.log|
    ensures HistoryOf(AbsReplay(b, s.log[..i]), p) == OfPath(Puts(s.log[..i]), p)
  {
    if i > 0 {
      var init, c := s.log[..i - 1], s.log[i - 1];
      assert s.log[..i][..i - 1] == init && s.log[..i][i - 1] == c;
      HistoryIsLog(b, s, i - 1, p);
      if c.PutCommit? {
        CommitExtendsHistory(b, s, i - 1, p);
        LastOfPath(Puts(init), EntryOf(c), p);
      }
    }
  }

  /** A logged Put appends its entry to its path's history and leaves the other paths alone. */
  lemma CommitExtendsHistory(b: Backend, s: Sys, i: nat, p: string)
    requires Good(b) && Inv(b, s) && LogSurvives(b, s.log) && i < |s.log| && s.log[i].PutCommit?
    ensures var e := EntryOf(s.log[i]);
            var repo, repo' := AbsReplay(b, s.log[..i]), AbsReplay(b, s.log[..i + 1]);
            HistoryOf(repo', p) == if p == e.path then HistoryOf(repo, p) + [e] else HistoryOf(repo, p)
  {
    AbsReplayNext(b, s.log, i);
    AbsCreates(b, s, i);
    CreatedHistory(b, AbsReplay(b, s.log[..i]), s.log[i], p);
  }

  lemma CreatedHistory(b: Backend, repo: Repo, c: Commit, p: string)
    requires (forall q | q in repo :: repo[q].versions != []) && c.PutCommit?
    requires AbsPut(b, repo, c.args.path, c.args.rs, c.version).1 == Created(EntryOf(c))
    ensures HistoryOf(AbsRedo(b, repo, c), p)
         == if p == c.args.path then HistoryOf(repo, p) + [EntryOf(c)] else HistoryOf(repo, p)
  {
  }

  lemma AbsCreates(b: Backend, s: Sys, i: nat)
    requires Good(b) && Inv(b, s) && LogSurvives(b, s.log) && i < |s.log| && s.log[i].PutCommit?
    ensures var c := s.log[i];
            AbsPut(b, AbsReplay(b, s.log[..i]), c.args.path, c.args.rs, c.version).1 == Created(EntryOf(c))
  {
    var c := s.log[i];
    var repo := AbsReplay(b, s.log[..i]);
    RunRefinesAt(b, s, i);
    assert CommitOk(b, s.log, s.used, i);
    FreshFromLog(repo, s.log, i, c.args.path, c.version);
    PutRefines(b, s.hist[i], i + 1, repo, c.args.path, c.args.rs, c.version);
    assert Creates(b, s.hist[i], i + 1, c);
  }

  // ---- Two ascending lists with the same members ----

  ghost predicate AscVersions(es: seq<Entry>) {
    forall i, j | 0 <= i < j < |es| :: Bytes.Less(es[i].version, es[j].version)
  }

  lemma {:induction false} AscUnique(x: seq<Entry>, y: seq<Entry>)
    requires AscVersions(x) && AscVersions(y) && forall e :: e in x <==> e in y
    ensures x == y
  {
    SomeMember(x);
    SomeMember(y);
    if x != [] {
      assert x[0] in x && y[0] in y;
      var i :| 0 <= i < |y| && y[i] == x[0];
      var j :| 0 <= j < |x| && x[j] == y[0];
      Bytes.LessTotal(x[0].version, y[0].version);
      Bytes.LessIrreflexive(x[0].version);
      assert x[0] == y[0];
      var xs, ys := x[1..], y[1..];
      forall e ensures e in xs <==> e in ys {
        AscTail(x, e);
        AscTail(y, e);
      }
      AscUnique(xs, ys);
    }
  }

  lemma SomeMember(x: seq<Entry>)
    ensures x != [] ==> exists e :: e in x
  {
    if x != [] { assert x[0] in x; }
  }

  lemma AscTail(x: seq<Entry>, e: Entry)
    requires AscVersions(x) && x != []
    ensures e in x[1..] <==> e in x && e != x[0]
  {
    assert x == [x[0]] + x[1..];
    if e in x[1..] {
      var i :| 0 <= i < |x[1..]| && x[1..][i] == e;
      assert x[i + 1] == e;
      Bytes.LessIrreflexive(e.version);
    }
  }

  /** Later entries of one path have larger versions. */
  ghost predicate PathAscending(es: seq<Entry>) {
    forall i, j | 0 <= i < j < |es| && es[i].path == es[j].path :: Bytes.Less(es[i].version, es[j].version)
  }

  lemma {:induction false} OfPathAscends(es: seq<Entry>, p: string)
    requires PathAscending(es)
    ensures AscVersions(OfPath(es, p))
  {
    if es != [] {
      var init, last := es[..|es| - 1], es[|es| - 1];
      OfPathAscends(init, p);
      OfPathMembers(init, p);
      var l := OfPath(es, p);
      forall i, j | 0 <= i < j < |l| ensures Bytes.Less(l[i].version, l[j].version) {
        if j == |OfPath(init, p)| {
          assert l[i] in OfPath(init, p);
          var k :| 0 <= k < |init| && init[k] == l[i];
          assert es[k] == l[i];
        }
      }
    }
  }

  /** Version names follow the commit order within each path. */
  ghost predicate LogAscending(log: seq<Commit>) {
    forall i, j | 0 <= i < j < |log| && log[i].PutCommit? && log[j].PutCommit? && log[i].args.path == log[j].args.path ::
      Bytes.Less(log[i].version, log[j].version)
  }

  lemma {:induction false} EventsAscend(b: Backend, prefix: string, log: seq<Commit>)
    requires LogAscending(log)
    ensures PathAscending(Events(b, prefix, log))
  {
    if log != [] {
      var init := log[..|log| - 1];
      assert forall i | 0 <= i < |init| :: init[i] == log[i];
      EventsAscend(b, prefix, init);
      PutsMembers(init);
      EventsMembers(b, prefix, init);
      var l, rest := Events(b, prefix, log), Events(b, prefix, init);
      forall i, j | 0 <= i < j < |l| && l[i].path == l[j].path ensures Bytes.Less(l[i].version, l[j].version) {
        if j == |rest| {
          assert l[i] in rest;
          var k :| 0 <= k < |init| && init[k].PutCommit? && EntryOf(init[k]) == l[i];
          assert log[k] == init[k];
        }
      }
    }
  }

  // ---- The load agrees with the log ----

  /** The prefix can be listed and selects keys of the entry family only. */
  ghost predicate Loadable(b: Backend, kv: KV, prefix: string) {
    Listable(b, kv, prefix) && forall k | k in kv && b.entryKey(prefix, "") <= k :: b.isEntryKey(k)
  }

  lemma ListedAscend(b: Backend, kv: KV, repo: Repo, prefix: string)
    requires Represents(b, kv, repo) && Loadable(b, kv, prefix)
    ensures PathAscending(AllUnder(b, kv, prefix))
  {
    var es, s := AllUnder(b, kv, prefix), Under(b, kv, prefix);
    SortKeysSorts(set k | k in kv && b.entryKey(prefix, "") <= k);
    forall i, j | 0 <= i < j < |es| && es[i].path == es[j].path ensures Bytes.Less(es[i].version, es[j].version) {
      assert EntryKeyed(b, kv, s[i], es[i]) && EntryKeyed(b, kv, s[j], es[j]);
      ListedIsRecorded(b, kv, repo, prefix, i);
      ListedIsRecorded(b, kv, repo, prefix, j);
      OrderOfVersions(b, repo, es[i], es[j]);
    }
  }

  lemma OrderOfVersions(b: Backend, repo: Repo, e: Entry, f: Entry)
    requires Good(b) && RepoOk(b, repo) && IsEntryOf(repo, e) && IsEntryOf(repo, f) && e.path == f.path
    requires Bytes.Less(b.entryKey(e.path, e.version), b.entryKey(f.path, f.version))
    ensures Bytes.Less(e.version, f.version)
  {
    assert EntryOk(b, e.path, repo[e.path].sig, e) && EntryOk(b, e.path, repo[e.path].sig, f);
    assert KeysInOrder(b, e.path, e.version, f.version);
  }

  /** What a listing returns is recorded. */
  lemma ListedIsRecorded(b: Backend, kv: KV, repo: Repo, prefix: string, i: nat)
    requires Represents(b, kv, repo) && Loadable(b, kv, prefix) && i < |Under(b, kv, prefix)|
    ensures var e := AllUnder(b, kv, prefix)[i]; IsEntryOf(repo, e) && Watched(b, prefix, e)
  {
    var es, s := AllUnder(b, kv, prefix), Under(b, kv, prefix);
    SortKeysSorts(set k | k in kv && b.entryKey(prefix, "") <= k);
    assert EntryKeyed(b, kv, s[i], es[i]) && s[i] in s;
    var f :| IsEntryOf(repo, f) && s[i] == b.entryKey(f.path, f.version);
    RecordedIsKeyed(b, kv, repo, f);
  }

  /** What is recorded under the prefix is listed. */
  lemma RecordedIsListed(b: Backend, kv: KV, repo: Repo, prefix: string, e: Entry)
    requires Represents(b, kv, repo) && Loadable(b, kv, prefix)
    requires IsEntryOf(repo, e) && Watched(b, prefix, e)
    ensures e in AllUnder(b, kv, prefix)
  {
    var es, s := AllUnder(b, kv, prefix), Under(b, kv, prefix);
    var k := b.entryKey(e.path, e.version);
    RecordedIsKeyed(b, kv, repo, e);
    SortKeysSorts(set k | k in kv && b.entryKey(prefix, "") <= k);
    assert k in s;
    var i :| 0 <= i < |s| && s[i] == k;
    assert EntryKeyed(b, kv, s[i], es[i]);
  }

  /** Path by path, the listing of the current store is the watched part of the log. */
  lemma LoadIsLog(b: Backend, s: Sys, prefix: string, p: string)
    requires Good(b) && Inv(b, s) && LogSurvives(b, s.log) && LogAscending(s.log)
    requires Loadable(b, s.hist[|s.log|], prefix)
    ensures OfPath(AllUnder(b, s.hist[|s.log|], prefix), p) == OfPath(Events(b, prefix, s.log), p)
  {
    var kv, repo := s.hist[|s.log|], AbsReplay(b, s.log);
    RunRefinesAt(b, s, |s.log|);
    assert s.log[..|s.log|] == s.log;
    var x, y := OfPath(AllUnder(b, kv, prefix), p), OfPath(Events(b, prefix, s.log), p);
    ListedAscend(b, kv, repo, prefix);
    OfPathAscends(AllUnder(b, kv, prefix), p);
    EventsAscend(b, prefix, s.log);
    OfPathAscends(Events(b, prefix, s.log), p);
    forall e ensures e in x <==> e in y { SameMembers(b, s, kv, repo, prefix, p, e); }
    AscUnique(x, y);
  }

  lemma RecordedIsPut(b: Backend, s: Sys, e: Entry)
    requires Good(b) && Inv(b, s) && LogSurvives(b, s.log)
    ensures IsEntryOf(AbsReplay(b, s.log), e) <==> e in Puts(s.log)
  {
    HistoryIsLog(b, s, |s.log|, e.path);
    assert s.log[..|s.log|] == s.log;
    OfPathMembers(Puts(s.log), e.path);
  }

  lemma ListedMembers(b: Backend, kv: KV, repo: Repo, prefix: string, e: Entry)
    requires Represents(b, kv, repo) && Loadable(b, kv, prefix)
    ensures e in AllUnder(b, kv, prefix) <==> IsEntryOf(repo, e) && Watched(b, prefix, e)
  {
    if IsEntryOf(repo, e) && Watched(b, prefix, e) { RecordedIsListed(b, kv, repo, prefix, e); }
    if e in AllUnder(b, kv, prefix) {
      var i := IndexOf(AllUnder(b, kv, prefix), e);
      ListedIsRecorded(b, kv, repo, prefix, i);
    }
  }

  lemma IndexOf(es: seq<Entry>, e: Entry) returns (i: nat)
    requires e in es
    ensures i < |es| && es[i] == e
  {
    i :| 0 <= i < |es| && es[i] == e;
  }

  lemma SameMembers(b: Backend, s: Sys, kv: KV, repo: Repo, prefix: string, p: string, e: Entry)
    requires Good(b) && Inv(b, s) && LogSurvives(b, s.log)
    requires kv == s.hist[|s.log|] && repo == AbsReplay(b, s.log)
    requires Represents(b, kv, repo) && Loadable(b, kv, prefix)
    ensures e in OfPath(AllUnder(b, kv, prefix), p) <==> e in OfPath(Events(b, prefix, s.log), p)
  {
    ListedMembers(b, kv, repo, prefix, e);
    RecordedIsPut(b, s, e);
    EventsMembers(b, prefix, s.log);
    OfPathMembers(AllUnder(b, kv, prefix), p);
    OfPathMembers(Events(b, prefix, s.log), p);
  }

  // ---- Store and evaluator together ----

  /** The evaluator: its buffer, the rest of the batch it is adding, the batch the watch loop has
      received but not handed over yet, and the watch loop's revision. */
  datatype Rep = Rep(buf: Buffered, queue: seq<Entry>, ready: Option<Batch>, revision: nat)

  datatype World = World(store: Sys, rep: Rep)

  datatype WStep =
    | StoreStep(step: Step)
    | WatchFails
    | WatchAnswers(upto: nat)
    | HandOver
    | AddOne

  function Added(m: Buffered, e: Entry): Buffered {
    m[e.path := VersionsOf(m, e.path) + [e]]
  }

  ghost predicate WNext(b: Backend, prefix: string, w: World, w': World, step: WStep) {
    match step
    case StoreStep(st) => Next(b, w.store, w'.store, st) && w'.rep == w.rep
    case WatchFails => w' == w && w.rep.ready == None
    case WatchAnswers(upto) =>
      && w.rep.ready == None && 1 <= w.rep.revision <= upto + 1 && upto <= |w.store.log|
      && var events := Events(b, prefix, w.store.log[w.rep.revision - 1..upto]);
      && events != []
      && w' == w.(rep := w.rep.(ready := Some(Batch(events, upto + 1))))
    case HandOver =>
      && w.rep.ready.Some? && w.rep.queue == []
      && w' == w.(rep := w.rep.(queue := w.rep.ready.value.events, revision := w.rep.ready.value.revision, ready := None))
    case AddOne =>
      && w.rep.queue != []
      && w' == w.(rep := w.rep.(buf := Added(w.rep.buf, w.rep.queue[0]), queue := w.rep.queue[1..]))
  }

  /** Right after the paged load: the listed store, and the revision of the listing. */
  ghost predicate Loaded(b: Backend, prefix: string, w: World) {
    && Inv(b, w.store) && Loadable(b, w.store.hist[|w.store.log|], prefix)
    && Holds(w.rep.buf, AllUnder(b, w.store.hist[|w.store.log|], prefix))
    && w.rep.queue == [] && w.rep.ready == None && w.rep.revision == |w.store.log| + 1
  }

  ghost predicate IsWatchRun(b: Backend, prefix: string, worlds: seq<World>, steps: seq<WStep>) {
    && |worlds| == |steps| + 1 && Loaded(b, prefix, worlds[0])
    && forall i | 0 <= i < |steps| :: WNext(b, prefix, worlds[i], worlds[i + 1], steps[i])
  }

  /** The buffer together with the batch being added is the watched log up to the revision. */
  ghost predicate Synced(b: Backend, prefix: string, log: seq<Commit>, rep: Rep) {
    && 1 <= rep.revision <= |log| + 1
    && (forall p :: VersionsOf(rep.buf, p) + OfPath(rep.queue, p) == OfPath(Events(b, prefix, log[..rep.revision - 1]), p))
    && (rep.ready.Some? ==> NextBatch(b, prefix, log, rep.revision, rep.ready.value))
  }

  /** The batch holds the watched events from the revision on, up to its own revision. */
  ghost predicate NextBatch(b: Backend, prefix: string, log: seq<Commit>, revision: nat, batch: Batch) {
    && 1 <= revision <= batch.revision <= |log| + 1
    && batch.events == Events(b, prefix, log[revision - 1..batch.revision - 1])
  }

  ghost predicate InSync(b: Backend, prefix: string, w: World) {
    Synced(b, prefix, w.store.log, w.rep)
  }

  lemma LoadedInSync(b: Backend, prefix: string, w: World)
    requires Good(b) && Loaded(b, prefix, w) && LogSurvives(b, w.store.log) && LogAscending(w.store.log)
    ensures InSync(b, prefix, w)
  {
    assert w.store.log[..|w.store.log|] == w.store.log;
    forall p ensures VersionsOf(w.rep.buf, p) + OfPath(w.rep.queue, p) == OfPath(Events(b, prefix, w.store.log), p) {
      LoadIsLog(b, w.store, prefix, p);
    }
  }

  lemma StoreKeepsSync(b: Backend, prefix: string, w: World, w': World, st: Step)
    requires InSync(b, prefix, w) && Next(b, w.store, w'.store, st) && w'.rep == w.rep
    ensures InSync(b, prefix, w')
  {
    NextGrowsLog(b, w.store, w'.store, st);
    LongerLog(b, prefix, w.store.log, w'.store.log, w.rep);
  }

  lemma LongerLog(b: Backend, prefix: string, log: seq<Commit>, log': seq<Commit>, rep: Rep)
    requires Synced(b, prefix, log, rep) && log <= log'
    ensures Synced(b, prefix, log', rep)
  {
    var r := rep.revision;
    assert log'[..r - 1] == log[..r - 1];
    if rep.ready.Some? { SamePart(log, log', r - 1, rep.ready.value.revision - 1); }
  }

  lemma NextGrowsLog(b: Backend, s: Sys, s': Sys, st: Step)
    requires Next(b, s, s', st)
    ensures s.log <= s'.log
  {
  }

  lemma SamePart(x: seq<Commit>, y: seq<Commit>, i: nat, j: nat)
    requires x <= y && i <= j <= |x|
    ensures x[i..j] == y[i..j]
  {
  }

  lemma HandOverKeepsSync(b: Backend, prefix: string, w: World, w': World)
    requires InSync(b, prefix, w) && WNext(b, prefix, w, w', HandOver)
    ensures InSync(b, prefix, w')
  {
    TakeBatch(b, prefix, w.store.log, w.rep);
  }

  lemma TakeBatch(b: Backend, prefix: string, log: seq<Commit>, rep: Rep)
    requires Synced(b, prefix, log, rep) && rep.ready.Some? && rep.queue == []
    ensures var batch := rep.ready.value;
            Synced(b, prefix, log, Rep(rep.buf, batch.events, None, batch.revision))
  {
    var n, u := rep.revision - 1, rep.ready.value.revision - 1;
    forall p ensures VersionsOf(rep.buf, p) + OfPath(rep.ready.value.events, p) == OfPath(Events(b, prefix, log[..u]), p) {
      EmptyQueue(rep.buf, rep.queue, p);
      BatchExtends(b, prefix, log, n, u, p);
    }
  }

  lemma EmptyQueue(m: Buffered, q: seq<Entry>, p: string)
    requires q == []
    ensures VersionsOf(m, p) + OfPath(q, p) == VersionsOf(m, p)
  {
  }

  lemma BatchExtends(b: Backend, prefix: string, log: seq<Commit>, n: nat, u: nat, p: string)
    requires n <= u <= |log|
    ensures OfPath(Events(b, prefix, log[..u]), p)
         == OfPath(Events(b, prefix, log[..n]), p) + OfPath(Events(b, prefix, log[n..u]), p)
  {
    assert log[..n] + log[n..u] == log[..u];
    EventsConcat(b, prefix, log[..n], log[n..u]);
    OfPathConcat(Events(b, prefix, log[..n]), Events(b, prefix, log[n..u]), p);
  }

  lemma AddKeepsSync(b: Backend, prefix: string, w: World, w': World)
    requires InSync(b, prefix, w) && WNext(b, prefix, w, w', AddOne)
    ensures InSync(b, prefix, w')
  {
    forall p ensures VersionsOf(w'.rep.buf, p) + OfPath(w'.rep.queue, p) == VersionsOf(w.rep.buf, p) + OfPath(w.rep.queue, p) {
      AddPath(w.rep.buf, w.rep.queue, p);
    }
  }

  lemma AddPath(m: Buffered, q: seq<Entry>, p: string)
    requires q != []
    ensures VersionsOf(Added(m, q[0]), p) + OfPath(q[1..], p) == VersionsOf(m, p) + OfPath(q, p)
  {
    FirstOfPath(q, p);
    AddedVersions(m, q[0], p);
    Assoc(VersionsOf(m, p), if q[0].path == p then [q[0]] else [], OfPath(q[1..], p));
  }

  lemma AddedVersions(m: Buffered, e: Entry, p: string)
    ensures VersionsOf(Added(m, e), p) == VersionsOf(m, p) + if e.path == p then [e] else []
  {
  }

  lemma FirstOfPath(q: seq<Entry>, p: string)
    requires q != []
    ensures OfPath(q, p) == (if q[0].path == p then [q[0]] else []) + OfPath(q[1..], p)
  {
    assert [q[0]] + q[1..] == q;
    OfPathConcat([q[0]], q[1..], p);
    assert [q[0]][..0] == [] && OfPath([], p) == [];
    assert OfPath([q[0]], p) == if q[0].path == p then [q[0]] else [];
  }

  lemma StepKeepsSync(b: Backend, prefix: string, w: World, w': World, step: WStep)
    requires InSync(b, prefix, w) && WNext(b, prefix, w, w', step)
    ensures InSync(b, prefix, w')
  {
    match step {
      case StoreStep(st) => StoreKeepsSync(b, prefix, w, w', st);
      case WatchFails =>
      case WatchAnswers(upto) =>
      case HandOver => HandOverKeepsSync(b, prefix, w, w');
      case AddOne => AddKeepsSync(b, prefix, w, w');
    }
  }

  lemma {:induction false} RunInSync(b: Backend, prefix: string, worlds: seq<World>, steps: seq<WStep>, i: nat)
    requires Good(b) && IsWatchRun(b, prefix, worlds, steps) && i < |worlds|
    requires LogSurvives(b, worlds[0].store.log) && LogAscending(worlds[0].store.log)
    ensures InSync(b, prefix, worlds[i]) && Inv(b, worlds[i].store)
  {
    if i == 0 {
      LoadedInSync(b, prefix, worlds[0]);
    } else {
      RunInSync(b, prefix, worlds, steps, i - 1);
      StepAt(b, prefix, worlds, steps, i - 1);
      StepKeepsBoth(b, prefix, worlds[i - 1], worlds[i], steps[i - 1]);
    }
  }

  lemma StepAt(b: Backend, prefix: string, worlds: seq<World>, steps: seq<WStep>, i: nat)
    requires IsWatchRun(b, prefix, worlds, steps) && i < |steps|
    ensures WNext(b, prefix, worlds[i], worlds[i + 1], steps[i])
  {
  }

  lemma StepKeepsBoth(b: Backend, prefix: string, w: World, w': World, step: WStep)
    requires InSync(b, prefix, w) && Inv(b, w.store) && WNext(b, prefix, w, w', step)
    ensures InSync(b, prefix, w') && Inv(b, w'.store)
  {
    StepKeepsSync(b, prefix, w, w', step);
    StepKeepsStore(b, prefix, w, w', step);
  }

  lemma StepKeepsStore(b: Backend, prefix: string, w: World, w': World, step: WStep)
    requires Inv(b, w.store) && WNext(b, prefix, w, w', step)
    ensures Inv(b, w'.store)
  {
    if step.StoreStep? { NextKeepsInv(b, w.store, w'.store, step.step); }
  }

  // ---- The evaluator catches up ----

  /** Steps of the evaluator alone. */
  ghost predicate WatcherPath(b: Backend, prefix: string, worlds: seq<World>, steps: seq<WStep>) {
    && |worlds| == |steps| + 1
    && forall i | 0 <= i < |steps| :: !steps[i].StoreStep? && WNext(b, prefix, worlds[i], worlds[i + 1], steps[i])
  }

  lemma PathsJoin(b: Backend, prefix: string, xs: seq<World>, s: seq<WStep>, ys: seq<World>, t: seq<WStep>)
    requires WatcherPath(b, prefix, xs, s) && WatcherPath(b, prefix, ys, t) && xs[|s|] == ys[0]
    ensures WatcherPath(b, prefix, xs + ys[1..], s + t) && (xs + ys[1..])[|s + t|] == ys[|t|]
  {
    var zs, u := xs + ys[1..], s + t;
    forall i | 0 <= i < |u| ensures !u[i].StoreStep? && WNext(b, prefix, zs[i], zs[i + 1], u[i]) {
      if i < |s| {
        assert WNext(b, prefix, xs[i], xs[i + 1], s[i]);
      } else {
        var j := i - |s|;
        assert WNext(b, prefix, ys[j], ys[j + 1], t[j]);
      }
    }
  }

  lemma {:induction false} Drain(b: Backend, prefix: string, w: World) returns (worlds: seq<World>, steps: seq<WStep>)
    ensures WatcherPath(b, prefix, worlds, steps) && worlds[0] == w
    ensures var w' := worlds[|steps|];
            w'.store == w.store && w'.rep.queue == [] && w'.rep.ready == w.rep.ready && w'.rep.revision == w.rep.revision
    decreases |w.rep.queue|
  {
    if w.rep.queue == [] {
      worlds, steps := [w], [];
    } else {
      var w1 := w.(rep := w.rep.(buf := Added(w.rep.buf, w.rep.queue[0]), queue := w.rep.queue[1..]));
      var ys, t := Drain(b, prefix, w1);
      assert WatcherPath(b, prefix, [w, w1], [AddOne]);
      PathsJoin(b, prefix, [w, w1], [AddOne], ys, t);
      worlds, steps := [w, w1] + ys[1..], [AddOne] + t;
    }
  }

  /** Take the batch that is ready, and add all of it. */
  lemma TakeAndDrain(b: Backend, prefix: string, w: World) returns (worlds: seq<World>, steps: seq<WStep>)
    requires w.rep.queue == [] && w.rep.ready.Some?
    ensures WatcherPath(b, prefix, worlds, steps) && worlds[0] == w
    ensures var w' := worlds[|steps|];
            w'.store == w.store && w'.rep.queue == [] && w'.rep.ready == None && w'.rep.revision == w.rep.ready.value.revision
  {
    var w1 := w.(rep := w.rep.(queue := w.rep.ready.value.events, revision := w.rep.ready.value.revision, ready := None));
    var ys, t := Drain(b, prefix, w1);
    assert WatcherPath(b, prefix, [w, w1], [HandOver]);
    PathsJoin(b, prefix, [w, w1], [HandOver], ys, t);
    worlds, steps := [w, w1] + ys[1..], [HandOver] + t;
  }

  /** The evaluator has nothing left to do: everything watched has been added. */
  ghost predicate UpToDate(b: Backend, prefix: string, w: World) {
    && w.rep.queue == [] && w.rep.ready == None
    && 1 <= w.rep.revision <= |w.store.log| + 1
    && Events(b, prefix, w.store.log[w.rep.revision - 1..]) == []
  }

  lemma AskAndDrain(b: Backend, prefix: string, w: World) returns (worlds: seq<World>, steps: seq<WStep>)
    requires w.rep.queue == [] && w.rep.ready == None && 1 <= w.rep.revision <= |w.store.log| + 1
    ensures WatcherPath(b, prefix, worlds, steps) && worlds[0] == w
    ensures worlds[|steps|].store == w.store && UpToDate(b, prefix, worlds[|steps|])
  {
    var log := w.store.log;
    var events := Events(b, prefix, log[w.rep.revision - 1..]);
    if events == [] {
      worlds, steps := [w], [];
    } else {
      assert log[w.rep.revision - 1..|log|] == log[w.rep.revision - 1..];
      var w1 := w.(rep := w.rep.(ready := Some(Batch(events, |log| + 1))));
      var ys, t := TakeAndDrain(b, prefix, w1);
      assert WatcherPath(b, prefix, [w, w1], [WatchAnswers(|log|)]);
      PathsJoin(b, prefix, [w, w1], [WatchAnswers(|log|)], ys, t);
      worlds, steps := [w, w1] + ys[1..], [WatchAnswers(|log|)] + t;
      assert log[|log|..] == [];
    }
  }

  /** From every synchronised state the evaluator can catch up on its own, and then its buffer holds
      every watched commit of the log, path by path. */
  lemma CatchesUp(b: Backend, prefix: string, w: World) returns (worlds: seq<World>, steps: seq<WStep>)
    requires InSync(b, prefix, w)
    ensures WatcherPath(b, prefix, worlds, steps) && worlds[0] == w
    ensures var w' := worlds[|steps|];
            && w'.store == w.store && UpToDate(b, prefix, w')
            && forall p :: VersionsOf(w'.rep.buf, p) == OfPath(Events(b, prefix, w.store.log), p)
  {
    worlds, steps := Drain(b, prefix, w);
    if w.rep.ready.Some? {
      var ys, t := TakeAndDrain(b, prefix, worlds[|steps|]);
      PathsJoin(b, prefix, worlds, steps, ys, t);
      worlds, steps := worlds + ys[1..], steps + t;
    }
    PathInSync(b, prefix, worlds, steps, |steps|);
    var ys, t := AskAndDrain(b, prefix, worlds[|steps|]);
    PathsJoin(b, prefix, worlds, steps, ys, t);
    worlds, steps := worlds + ys[1..], steps + t;
    PathInSync(b, prefix, worlds, steps, |steps|);
    UpToDateHoldsAll(b, prefix, worlds[|steps|]);
  }

  lemma {:induction false} PathInSync(b: Backend, prefix: string, worlds: seq<World>, steps: seq<WStep>, i: nat)
    requires WatcherPath(b, prefix, worlds, steps) && i <= |steps| && InSync(b, prefix, worlds[0])
    ensures InSync(b, prefix, worlds[i])
  {
    if i > 0 {
      PathInSync(b, prefix, worlds, steps, i - 1);
      assert WNext(b, prefix, worlds[i - 1], worlds[i], steps[i - 1]);
      StepKeepsSync(b, prefix, worlds[i - 1], worlds[i], steps[i - 1]);
    }
  }

  lemma UpToDateHoldsAll(b: Backend, prefix: string, w: World)
    requires InSync(b, prefix, w) && UpToDate(b, prefix, w)
    ensures forall p :: VersionsOf(w.rep.buf, p) == OfPath(Events(b, prefix, w.store.log), p)
  {
    var log, n := w.store.log, w.rep.revision - 1;
    EventsConcat(b, prefix, log[..n], log[n..]);
    assert log[..n] + log[n..] == log;
    assert Events(b, prefix, log[..n]) + [] == Events(b, prefix, log[..n]);
    forall p ensures VersionsOf(w.rep.buf, p) == OfPath(Events(b, prefix, log), p) {
      EmptyQueue(w.rep.buf, w.rep.queue, p);
    }
  }

  /** All versions of the path lie under the prefix. */
  ghost predicate WhollyWatched(b: Backend, prefix: string, p: string) {
    forall v | b.isVersion(v) :: b.entryKey(prefix, "") <= b.entryKey(p, v)
  }

  /** The cache refines the store. Along every run, with whatever failures and delays, once the
      current batch has been added the buffer holds, for a watched path, exactly the history that the
      store had at the watcher's revision, and answers for it as the store did. */
  lemma CacheRefinesStore(b: Backend, prefix: string, worlds: seq<World>, steps: seq<WStep>, i: nat, p: string, version: string)
    requires Good(b) && IsWatchRun(b, prefix, worlds, steps) && i < |worlds|
    requires LogSurvives(b, worlds[i].store.log) && LogSurvives(b, worlds[0].store.log) && LogAscending(worlds[0].store.log)
    requires worlds[i].rep.queue == []
    requires b.isName(p) && WhollyWatched(b, prefix, p)
    ensures var w := worlds[i];
            && 1 <= w.rep.revision <= |w.store.log| + 1 == |w.store.hist|
            && var kv := w.store.hist[w.rep.revision - 1];
            && VersionsOf(w.rep.buf, p) == HistoryOf(AbsReplay(b, w.store.log[..w.rep.revision - 1]), p)
            && LatestIn(w.rep.buf, p) == Latest(b, kv, p)
            && (Proper(b, p, version) ==> VersionIn(w.rep.buf, p, version) == OneByVersion(b, kv, p, version))
  {
    var w := worlds[i];
    RunInSync(b, prefix, worlds, steps, i);
    var n := w.rep.revision - 1;
    RunRefinesAt(b, w.store, n);
    HistoryIsLog(b, w.store, n, p);
    AllWatched(b, prefix, w.store, n, p);
    EmptyQueue(w.rep.buf, w.rep.queue, p);
    HistoryAnswers(b, w.store.hist[n], AbsReplay(b, w.store.log[..n]), w.rep.buf, p, version);
  }

  /** A buffer that holds a path's history answers like the store that encodes it. */
  lemma HistoryAnswers(b: Backend, kv: KV, repo: Repo, m: Buffered, p: string, version: string)
    requires Represents(b, kv, repo) && b.isName(p) && VersionsOf(m, p) == HistoryOf(repo, p)
    ensures LatestIn(m, p) == Latest(b, kv, p)
    ensures Proper(b, p, version) ==> VersionIn(m, p, version) == OneByVersion(b, kv, p, version)
  {
    LatestRefines(b, kv, repo, p);
    if p in repo { assert HistoryOk(b, p, repo[p]); }
    if Proper(b, p, version) { OneByVersionRefines(b, kv, repo, p, version); }
  }

  lemma {:induction false} AllWatched(b: Backend, prefix: string, s: Sys, n: nat, p: string)
    requires Inv(b, s) && n <= |s.log| && WhollyWatched(b, prefix, p)
    ensures OfPath(Events(b, prefix, s.log[..n]), p) == OfPath(Puts(s.log[..n]), p)
  {
    if n > 0 {
      AllWatched(b, prefix, s, n - 1, p);
      assert s.log[..n] == s.log[..n - 1] + [s.log[n - 1]];
      assert CommitOk(b, s.log, s.used, n - 1);
      OneMoreWatched(b, prefix, s.log[..n - 1], s.log[n - 1], p);
    }
  }

  lemma OneMoreWatched(b: Backend, prefix: string, init: seq<Commit>, c: Commit, p: string)
    requires OfPath(Events(b, prefix, init), p) == OfPath(Puts(init), p) && WhollyWatched(b, prefix, p)
    requires c.PutCommit? ==> b.isVersion(c.version)
    ensures OfPath(Events(b, prefix, init + [c]), p) == OfPath(Puts(init + [c]), p)
  {
    assert (init + [c])[..|init|] == init;
    if c.PutCommit? {
      LastOfPath(Events(b, prefix, init), EntryOf(c), p);
      LastOfPath(Puts(init), EntryOf(c), p);
    }
  }

  lemma LastOfPath(es: seq<Entry>, e: Entry, p: string)
    ensures OfPath(es + [e], p) == if e.path == p then OfPath(es, p) + [e] else OfPath(es, p)
  {
    assert (es + [e])[..|es|] == es;
  }

  // ---- When the load already agrees on the latest version ----

  /** Without any assumption on version names: right after the load, the latest version of the buffer
      is that of the store exactly when the store's latest version has the largest name. */
  lemma LoadedLatestExact(b: Backend, s: Sys, prefix: string, m: Buffered, p: string)
    requires Good(b) && Inv(b, s) && LogSurvives(b, s.log)
    requires Loadable(b, s.hist[|s.log|], prefix) && Holds(m, AllUnder(b, s.hist[|s.log|], prefix))
    requires b.isName(p) && WhollyWatched(b, prefix, p) && p in AbsReplay(b, s.log)
    ensures var h := AbsReplay(b, s.log)[p];
            LatestIn(m, p) == Latest(b, s.hist[|s.log|], p)
            <==> forall e | e in h.versions && e != Last(h) :: Bytes.Less(e.version, Last(h).version)
  {
    var kv, repo := s.hist[|s.log|], AbsReplay(b, s.log);
    RunRefinesAt(b, s, |s.log|);
    assert s.log[..|s.log|] == s.log;
    LatestRefines(b, kv, repo, p);
    var h, l := repo[p], OfPath(AllUnder(b, kv, prefix), p);
    ListedAscend(b, kv, repo, prefix);
    OfPathAscends(AllUnder(b, kv, prefix), p);
    OfPathMembers(AllUnder(b, kv, prefix), p);
    forall e ensures e in l <==> e in h.versions {
      ListedMembers(b, kv, repo, prefix, e);
      if e in h.versions { assert EntryOk(b, p, h.sig, e); }
    }
    assert VersionsOf(m, p) == l;
    LastIsGreatest(l, h.versions, Last(h));
  }

  lemma LastIsGreatest(l: seq<Entry>, es: seq<Entry>, top: Entry)
    requires AscVersions(l) && top in es && forall e :: e in l <==> e in es
    ensures l != [] && (l[|l| - 1] == top <==> forall e | e in es && e != top :: Bytes.Less(e.version, top.version))
  {
    assert top in l;
    var last := l[|l| - 1];
    assert last in es;
    if last == top {
      forall e | e in es && e != top ensures Bytes.Less(e.version, top.version) {
        var i := IndexOf(l, e);
      }
    } else {
      var i := IndexOf(l, top);
      Bytes.LessTotal(top.version, last.version);
    }
  }

  /** Every prefix without dot segments can be loaded from Regula's store. */
  lemma RegulaIsLoadable(ns: string, sum: Codec.Json -> string, kv: KV, repo: Repo, prefix: string)
    requires Represents(Regula(ns, sum), kv, repo)
    requires Bytes.IsBytes(ns) && Bytes.IsBytes(prefix) && Paths.NoDots(prefix) && forall k | k in kv :: Bytes.IsBytes(k)
    ensures Loadable(Regula(ns, sum), kv, prefix)
  {
    RegulaSelectsEntries(ns, sum, prefix);
    var dir := KeyLayout.Root(ns) + ("/" + "entries");
    SelectedIsListable(Regula(ns, sum), kv, repo, prefix, dir);
    SelectedAreEntries(Regula(ns, sum), prefix, dir);
  }

  lemma SelectedAreEntries(b: Backend, prefix: string, dir: string)
    requires SelectsEntries(b, prefix, dir)
    ensures forall k | b.entryKey(prefix, "") <= k :: b.isEntryKey(k)
  {
    forall k | b.entryKey(prefix, "") <= k ensures b.isEntryKey(k) {
      PrefixTransitive(dir, b.entryKey(prefix, ""), k);
    }
  }
}
