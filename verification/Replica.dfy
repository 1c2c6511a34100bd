/** The evaluator's cache: loaded page by page, then kept up to date by watching the store. */
module Replica {
  import opened Prelude
  import opened Backends
  import opened Store
  import opened Concurrent
  import opened Paging
  import opened Engine

  // ---- Events ----

  function EntryOf(c: Commit): Entry
    requires c.PutCommit?
  {
    Entry(c.args.path, c.version, c.args.rs)
  }

  /** The entry's key starts with the watched prefix. */
  predicate Watched(b: Backend, prefix: string, e: Entry) {
    b.entryKey(prefix, "") <= b.entryKey(e.path, e.version)
  }

  /** The watched entries of a log, in commit order. */
  function Events(b: Backend, prefix: string, log: seq<Commit>): seq<Entry> {
    if log == [] then []
    else
      var rest := Events(b, prefix, log[..|log| - 1]);
      var c := log[|log| - 1];
      if c.PutCommit? && Watched(b, prefix, EntryOf(c)) then rest + [EntryOf(c)] else rest
  }

  function OfPath(es: seq<Entry>, p: string): seq<Entry> {
    if es == [] then []
    else
      var rest := OfPath(es[..|es| - 1], p);
      if es[|es| - 1].path == p then rest + [es[|es| - 1]] else rest
  }

  lemma {:induction false} OfPathConcat(a: seq<Entry>, c: seq<Entry>, p: string)
    ensures OfPath(a + c, p) == OfPath(a, p) + OfPath(c, p)
  {
    if c == [] {
      assert a + c == a;
    } else {
      var init := c[..|c| - 1];
      assert (a + c)[..|a + c| - 1] == a + init;
      OfPathConcat(a, init, p);
      assert OfPath(a, p) + (OfPath(init, p) + [c[|c| - 1]]) == OfPath(a, p) + OfPath(init, p) + [c[|c| - 1]];
    }
  }

  lemma {:induction false} EventsConcat(b: Backend, prefix: string, x: seq<Commit>, y: seq<Commit>)
    ensures Events(b, prefix, x + y) == Events(b, prefix, x) + Events(b, prefix, y)
  {
    if y == [] {
      assert x + y == x;
    } else {
      var init := y[..|y| - 1];
      assert (x + y)[..|x + y| - 1] == x + init;
      EventsConcat(b, prefix, x, init);
    }
  }

  // ---- store/etcd Watch ----

  /** The documents a watch from log position `from` delivers, up to position `upto`. */
  function Delivered(b: Backend, prefix: string, log: seq<Commit>, from: nat, upto: nat): seq<Blob>
    requires from <= upto <= |log|
  {
    var es := Events(b, prefix, log[from..upto]);
    seq(|es|, i requires 0 <= i < |es| => DocOf(b, es[i]))
  }

  /** RulesetService.Watch: decode every delivered document. */
  method DecodeEvents(b: Backend, docs: seq<Blob>, ghost es: seq<Entry>) returns (r: Result<seq<Entry>, ReadError>)
    requires |docs| == |es| && forall i | 0 <= i < |es| :: docs[i] == DocOf(b, es[i])
    ensures (forall i | 0 <= i < |es| :: Survives(b, es[i].ruleset)) ==> r == Ok(es)
    ensures r.Err? <==> exists i :: 0 <= i < |docs| && EntryAt(b, docs[i]).Err?
    ensures r.Ok? ==> |r.value| == |docs| && forall i | 0 <= i < |docs| :: EntryAt(b, docs[i]) == Ok(r.value[i])
  {
    var events: seq<Entry> := [];
    for i := 0 to |docs|
      invariant (forall k | 0 <= k < |es| :: Survives(b, es[k].ruleset)) ==> events == es[..i]
      invariant |events| == i && forall k | 0 <= k < i :: EntryAt(b, docs[k]) == Ok(events[k])
    {
      var e := EntryAt(b, docs[i]);
      if e.Err? { return Err(e.error); }
      events := events + [e.value];
    }
    assert es[..|es|] == es;
    return Ok(events);
  }

  // ---- api/client Watch ----

  datatype Batch = Batch(events: seq<Entry>, revision: nat)

  datatype WatchReply = TimedOut | Failed | Gone | Got(batch: Batch)

  /** The watch loop: ask from the current revision, send what comes, move the revision on; stay put
      on timeouts and failures, stop when the prefix is gone. */
  method WatchLoop(script: seq<nat -> WatchReply>, from: nat) returns (sent: seq<Entry>, revision: nat)
    ensures (sent, revision) == Sent(script, from)
  {
    sent, revision := [], from;
    assert script[0..] == script && [] + Sent(script, from).0 == Sent(script, from).0;
    for i := 0 to |script|
      invariant Sent(script, from) == (sent + Sent(script[i..], revision).0, Sent(script[i..], revision).1)
    {
      assert script[i..][0] == script[i] && script[i..][1..] == script[i + 1..];
      var reply := script[i](revision);
      match reply {
        case TimedOut =>
        case Failed =>
        case Gone => assert sent + [] == sent; return;
        case Got(batch) =>
          assert sent + (batch.events + Sent(script[i + 1..], batch.revision).0)
              == sent + batch.events + Sent(script[i + 1..], batch.revision).0;
          sent := sent + batch.events;
          revision := batch.revision;
      }
    }
    assert sent + [] == sent;
  }

  function Sent(script: seq<nat -> WatchReply>, revision: nat): (seq<Entry>, nat) {
    if script == [] then ([], revision)
    else match script[0](revision)
      case TimedOut => Sent(script[1..], revision)
      case Failed => Sent(script[1..], revision)
      case Gone => ([], revision)
      case Got(batch) => (batch.events + Sent(script[1..], batch.revision).0, Sent(script[1..], batch.revision).1)
  }

  /** A server answer to a watch from a revision: all watched events up to some later revision. */
  ghost predicate Honest(b: Backend, prefix: string, log: seq<Commit>, revision: nat, reply: WatchReply) {
    reply.Got? ==>
      && 1 <= revision <= reply.batch.revision <= |log| + 1
      && reply.batch.events == Events(b, prefix, log[revision - 1..reply.batch.revision - 1])
  }

  lemma NoEvents(b: Backend, prefix: string, log: seq<Commit>, i: nat)
    requires i <= |log|
    ensures Events(b, prefix, log[i..i]) == []
  {
  }

  lemma EventsJoin(b: Backend, prefix: string, log: seq<Commit>, i: nat, j: nat, k: nat)
    requires i <= j <= k <= |log|
    ensures Events(b, prefix, log[i..k]) == Events(b, prefix, log[i..j]) + Events(b, prefix, log[j..k])
  {
    EventsConcat(b, prefix, log[i..j], log[j..k]);
    assert log[i..j] + log[j..k] == log[i..k];
  }

  ghost predicate AllHonest(b: Backend, prefix: string, log: seq<Commit>, script: seq<nat -> WatchReply>) {
    forall i, r | 0 <= i < |script| :: Honest(b, prefix, log, r, script[i](r))
  }

  lemma HonestTail(b: Backend, prefix: string, log: seq<Commit>, script: seq<nat -> WatchReply>, from: nat)
    requires script != [] && AllHonest(b, prefix, log, script)
    ensures Honest(b, prefix, log, from, script[0](from)) && AllHonest(b, prefix, log, script[1..])
  {
    forall i, r | 0 <= i < |script[1..]| ensures Honest(b, prefix, log, r, script[1..][i](r)) {
      assert Honest(b, prefix, log, r, script[i + 1](r));
    }
  }

  /** One answered batch in front of a lossless rest. */
  lemma GotIsLossless(b: Backend, prefix: string, log: seq<Commit>, from: nat, batch: Batch, rest: (seq<Entry>, nat))
    requires Honest(b, prefix, log, from, Got(batch))
    requires Lossless(b, prefix, log, batch.revision, rest)
    ensures Lossless(b, prefix, log, from, (batch.events + rest.0, rest.1))
  {
    EventsJoin(b, prefix, log, from - 1, batch.revision - 1, rest.1 - 1);
  }

  /** What was sent from revision `from` on is exactly the watched events up to the last revision. */
  ghost predicate Lossless(b: Backend, prefix: string, log: seq<Commit>, from: nat, sent: (seq<Entry>, nat)) {
    && 1 <= from <= sent.1 <= |log| + 1
    && sent.0 == Events(b, prefix, log[from - 1..sent.1 - 1])
  }

  /** Whatever times out or fails in between, the loop sends every watched event between its first
      and its last revision exactly once, in commit order. */
  lemma {:induction false} WatchIsLossless(b: Backend, prefix: string, log: seq<Commit>, script: seq<nat -> WatchReply>, from: nat)
    requires 1 <= from <= |log| + 1
    requires AllHonest(b, prefix, log, script)
    ensures Lossless(b, prefix, log, from, Sent(script, from))
  {
    NoEvents(b, prefix, log, from - 1);
    if script != [] {
      HonestTail(b, prefix, log, script, from);
      var reply := script[0](from);
      var next := if reply.Got? then reply.batch.revision else from;
      WatchIsLossless(b, prefix, log, script[1..], next);
      if reply.Got? { GotIsLossless(b, prefix, log, from, reply.batch, Sent(script[1..], next)); }
    }
  }

  // ---- The watch does not give up ----

  ghost predicate NeverGone(script: seq<nat -> WatchReply>) {
    forall i, r | 0 <= i < |script| :: !script[i](r).Gone?
  }

  /** A loop that is never told that the prefix is gone goes on where it was. */
  lemma {:induction false} WatchGoesOn(x: seq<nat -> WatchReply>, y: seq<nat -> WatchReply>, from: nat)
    requires NeverGone(x)
    ensures var (sent, revision) := Sent(x, from);
            Sent(x + y, from) == (sent + Sent(y, revision).0, Sent(y, revision).1)
  {
    if x == [] {
      assert x + y == y && [] + Sent(y, from).0 == Sent(y, from).0;
    } else {
      assert (x + y)[0] == x[0] && (x + y)[1..] == x[1..] + y;
      assert !x[0](from).Gone?;
      assert forall i, r | 0 <= i < |x[1..]| :: x[1..][i](r) == x[i + 1](r);
      WatchGoesOn(x[1..], y, NextFrom(x[0](from), from));
      var rest := Sent(x[1..], NextFrom(x[0](from), from));
      if x[0](from).Got? { Assoc(x[0](from).batch.events, rest.0, Sent(y, rest.1).0); }
    }
  }

  function NextFrom(reply: WatchReply, from: nat): nat { if reply.Got? then reply.batch.revision else from }

  /** What one reply makes the loop do: a timeout and a failure are passed over, a batch is sent. */
  lemma OneReply(reply: WatchReply, from: nat)
    ensures var (sent, revision) := Sent([r => reply], from);
            match reply
            case Got(batch) => sent == batch.events && revision == batch.revision
            case _ => sent == [] && revision == from
  {
    var script: seq<nat -> WatchReply> := [r => reply];
    assert script[1..] == [];
    if reply.Got? { assert reply.batch.events + [] == reply.batch.events; }
  }

  /** Replies that carry nothing leave the loop where it is. */
  lemma {:induction false} NothingComes(script: seq<nat -> WatchReply>, from: nat)
    requires forall i, r | 0 <= i < |script| :: script[i](r).TimedOut? || script[i](r).Failed?
    ensures Sent(script, from) == ([], from)
  {
    if script != [] {
      assert script[0](from).TimedOut? || script[0](from).Failed?;
      assert forall i, r | 0 <= i < |script[1..]| :: script[1..][i](r) == script[i + 1](r);
      NothingComes(script[1..], from);
    }
  }

  /** After the prefix is gone nothing is asked any more. */
  lemma GoneEnds(x: seq<nat -> WatchReply>, gone: nat -> WatchReply, y: seq<nat -> WatchReply>, from: nat)
    requires NeverGone(x) && forall r :: gone(r).Gone?
    ensures Sent(x + [gone] + y, from) == Sent(x, from)
  {
    assert x + [gone] + y == x + ([gone] + y);
    WatchGoesOn(x, [gone] + y, from);
    assert ([gone] + y)[0] == gone && gone(Sent(x, from).1).Gone?;
    assert Sent(x, from).0 + [] == Sent(x, from).0;
  }

  /** Progress: whatever comes before, if the n-th request is answered with everything up to a
      revision and the requests after it bring nothing, the loop stands at that revision. */
  lemma LastBatchDecides(script: seq<nat -> WatchReply>, n: nat, upto: nat, from: nat)
    requires n < |script| && NeverGone(script)
    requires forall r :: script[n](r).Got? && script[n](r).batch.revision == upto
    requires forall i, r | n < i < |script| :: !script[i](r).Got?
    ensures Sent(script, from).1 == upto
  {
    var x, y := script[..n], script[n + 1..];
    assert script == x + ([script[n]] + y);
    assert forall i, r | 0 <= i < |x| :: x[i](r) == script[i](r);
    WatchGoesOn(x, [script[n]] + y, from);
    var at := Sent(x, from).1;
    assert ([script[n]] + y)[0] == script[n] && ([script[n]] + y)[1..] == y && script[n](at).Got?;
    forall i, r | 0 <= i < |y| ensures y[i](r).TimedOut? || y[i](r).Failed? {
      assert y[i](r) == script[n + 1 + i](r) && !script[n + 1 + i](r).Gone? && !script[n + 1 + i](r).Got?;
    }
    NothingComes(y, upto);
  }

  /** With honest answers: once a request has been answered up to the end of the log, everything
      watched from the first revision on has been sent, exactly once and in order. */
  lemma WatchIsComplete(b: Backend, prefix: string, log: seq<Commit>, script: seq<nat -> WatchReply>, n: nat, from: nat)
    requires 1 <= from <= |log| + 1 && AllHonest(b, prefix, log, script)
    requires n < |script| && NeverGone(script)
    requires forall r :: script[n](r).Got? && script[n](r).batch.revision == |log| + 1
    requires forall i, r | n < i < |script| :: !script[i](r).Got?
    ensures Sent(script, from) == (Events(b, prefix, log[from - 1..]), |log| + 1)
  {
    LastBatchDecides(script, n, |log| + 1, from);
    WatchIsLossless(b, prefix, log, script, from);
    assert log[from - 1..|log|] == log[from - 1..];
  }

  /** One watch request on the server: an honest reply. */
  method AnswerWatch(b: Backend, prefix: string, log: seq<Commit>, revision: nat, upto: nat) returns (r: Result<Batch, ReadError>)
    requires 1 <= revision <= upto <= |log| + 1
    ensures r.Ok? ==> r.value.revision == upto
    ensures (forall i | 0 <= i < |log| && log[i].PutCommit? :: Survives(b, log[i].args.rs)) ==>
              r.Ok? && Honest(b, prefix, log, revision, Got(r.value))
  {
    var docs := Delivered(b, prefix, log, revision - 1, upto - 1);
    ghost var es := Events(b, prefix, log[revision - 1..upto - 1]);
    if forall i | 0 <= i < |log| && log[i].PutCommit? :: Survives(b, log[i].args.rs) {
      EventsSurvive(b, prefix, log[revision - 1..upto - 1]);
    }
    var events :- DecodeEvents(b, docs, es);
    return Ok(Batch(events, upto));
  }

  lemma {:induction false} EventsSurvive(b: Backend, prefix: string, log: seq<Commit>)
    requires forall i | 0 <= i < |log| && log[i].PutCommit? :: Survives(b, log[i].args.rs)
    ensures forall i | 0 <= i < |Events(b, prefix, log)| :: Survives(b, Events(b, prefix, log)[i].ruleset)
  {
    if log != [] {
      var init := log[..|log| - 1];
      assert forall i | 0 <= i < |init| :: init[i] == log[i];
      EventsSurvive(b, prefix, init);
    }
  }

  // ---- NewEvaluator ----

  /** buf holds, path by path, the listed entries in their order. */
  ghost predicate Holds(m: Buffered, es: seq<Entry>) {
    forall p :: VersionsOf(m, p) == OfPath(es, p)
  }

  lemma OneMoreOfPath(front: seq<Entry>, es: seq<Entry>, i: nat, p: string)
    requires i < |es|
    ensures Entry(es[i].path, es[i].version, es[i].ruleset) == es[i]
    ensures front + OfPath(es[..i + 1], p)
         == if es[i].path == p then front + OfPath(es[..i], p) + [es[i]] else front + OfPath(es[..i], p)
  {
    assert es[..i + 1][..i] == es[..i];
    if es[i].path == p { assert front + (OfPath(es[..i], p) + [es[i]]) == front + OfPath(es[..i], p) + [es[i]]; }
  }

  method AddAll(buf: RulesetBuffer, es: seq<Entry>)
    modifies buf
    ensures forall p :: VersionsOf(buf.rulesets, p) == VersionsOf(old(buf.rulesets), p) + OfPath(es, p)
  {
    for i := 0 to |es|
      invariant forall p :: VersionsOf(buf.rulesets, p) == VersionsOf(old(buf.rulesets), p) + OfPath(es[..i], p)
    {
      ghost var before := buf.rulesets;
      buf.Add(es[i].path, es[i].version, es[i].ruleset);
      forall p ensures VersionsOf(buf.rulesets, p) == VersionsOf(old(buf.rulesets), p) + OfPath(es[..i + 1], p) {
        OneMoreOfPath(VersionsOf(old(buf.rulesets), p), es, i, p);
        assert VersionsOf(before, p) == VersionsOf(old(buf.rulesets), p) + OfPath(es[..i], p);
      }
    }
    assert es[..|es|] == es;
  }

  /** One page goes into the buffer behind the pages before it. */
  method AddPage(buf: RulesetBuffer, page: Page, ghost all: seq<Entry>)
    requires Holds(buf.rulesets, all)
    modifies buf
    ensures Holds(buf.rulesets, all + page.entries)
  {
    AddAll(buf, page.entries);
    forall p ensures OfPath(all + page.entries, p) == OfPath(all, p) + OfPath(page.entries, p) {
      OfPathConcat(all, page.entries, p);
    }
  }

  /** The paged load: on an unchanged store the buffer ends up with everything under the prefix. */
  method NewEvaluator(b: Backend, kv: KV, prefix: string) returns (r: Result<RulesetBuffer, ListError>)
    requires Listable(b, kv, prefix)
    ensures r.Ok? ==> fresh(r.value) && Holds(r.value.rulesets, AllUnder(b, kv, prefix))
    ensures r.Err? <==> Under(b, kv, prefix) == [] && prefix != ""
  {
    var ls, j := FirstPage(b, kv, prefix, 100);
    if ls.Err? { return Err(ls.error); }
    var buf := new RulesetBuffer();
    AddPage(buf, ls.value, []);
    assert [] + ls.value.entries == ls.value.entries;
    LoadRest(b, kv, prefix, buf, ls.value.next, ls.value.entries, j);
    return Ok(buf);
  }

  /** The loop over the Continue tokens. */
  method LoadRest(b: Backend, kv: KV, prefix: string, buf: RulesetBuffer, first: Option<Token>, ghost some: seq<Entry>, ghost i: nat)
    requires Listable(b, kv, prefix) && Collected(b, kv, prefix, some, i, first)
    requires Holds(buf.rulesets, some)
    modifies buf
    ensures Holds(buf.rulesets, AllUnder(b, kv, prefix))
  {
    ghost var all, j := some, i;
    var next := first;
    while next.Some?
      invariant Collected(b, kv, prefix, all, j, next)
      invariant Holds(buf.rulesets, all)
      decreases |Under(b, kv, prefix)| - j
    {
      var ls;
      ls, j := NextPage(b, kv, prefix, 100, next.value, all, j);
      AddPage(buf, ls.value, all);
      all := all + ls.value.entries;
      next := ls.value.next;
    }
    assert all == AllUnder(b, kv, prefix);
  }
}
