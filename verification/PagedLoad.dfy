/** Loading page by page while others commit: exactly which versions the load misses. */
module PagedLoad {
  import opened Prelude
  import opened Backends
  import opened Store
  import opened Ledger
  import opened Concurrent
  import opened Runs
  import opened Paging
  import opened Replica
  import opened Cache
  import opened Bytes

  /** One page, and the revision at which the store answered it. */
  datatype Fetch = Fetch(rev: nat, page: Page)

  function KeyOf(b: Backend, e: Entry): string { b.entryKey(e.path, e.version) }

  /** The last key of a page that has a next one. */
  function Cut(b: Backend, page: Page): string {
    if page.entries == [] then "" else KeyOf(b, page.entries[|page.entries| - 1])
  }

  /** The lower end of page k: nothing for the first page, then the last key of the page before. */
  function From(b: Backend, fs: seq<Fetch>, k: nat): Option<string>
    requires k < |fs|
  {
    if k == 0 then None else Some(Cut(b, fs[k - 1].page))
  }

  function TokenOf(fs: seq<Fetch>, k: nat): Option<Token>
    requires k < |fs|
  {
    if k == 0 then Some(Start) else fs[k - 1].page.next
  }

  /** The load as the client makes it: every page with the token of the page before, each answered at
      some revision not before that of the page before, until no token comes back. */
  ghost predicate IsLoad(b: Backend, s: Sys, prefix: string, limit: int, fs: seq<Fetch>) {
    && fs != [] && |s.hist| == |s.log| + 1
    && (forall k | 0 <= k < |fs| :: IsFetch(b, s, prefix, limit, fs, k))
    && (forall k, l | 0 <= k <= l < |fs| :: fs[k].rev <= fs[l].rev)
    && fs[|fs| - 1].page.next == None
  }

  ghost predicate IsFetch(b: Backend, s: Sys, prefix: string, limit: int, fs: seq<Fetch>, k: nat)
    requires k < |fs| && |s.hist| == |s.log| + 1
  {
    && fs[k].rev <= |s.log| && TokenOf(fs, k).Some?
    && ListPage(b, s.hist[fs[k].rev], prefix, limit, TokenOf(fs, k).value) == Ok(fs[k].page)
  }

  ghost predicate AlwaysLoadable(b: Backend, s: Sys, prefix: string) {
    forall n | 0 <= n < |s.hist| :: Loadable(b, s.hist[n], prefix)
  }

  /** Everything the load has put into the buffer. */
  ghost predicate IsLoaded(fs: seq<Fetch>, e: Entry) {
    exists k :: 0 <= k < |fs| && e in fs[k].page.entries
  }

  // ---- One page ----

  ghost predicate Above(from: Option<string>, k: string) { from.Some? ==> Less(from.value, k) }

  /** What a page from a lower end on contains: the recorded watched entries above it, up to the
      page's last key if there is a next page. */
  ghost predicate Covers(b: Backend, repo: Repo, prefix: string, from: Option<string>, page: Page) {
    && (page.next.Some? ==> page.entries != [])
    && (forall e :: e in page.entries <==>
         (IsEntryOf(repo, e) && Watched(b, prefix, e) && Above(from, KeyOf(b, e))
          && (page.next.Some? ==> AtMost(KeyOf(b, e), Cut(b, page)))))
  }

  /** The token that stands right behind a key. */
  ghost predicate Behind(b: Backend, from: Option<string>, token: Token) {
    match from
    case None => token == Start
    case Some(k) => token.After? && b.entryKey(token.cursor, "") == k + ZERO
  }

  ghost predicate Stands(b: Backend, kv: KV, prefix: string, from: Option<string>) {
    from.Some? ==> from.value in kv && b.entryKey(prefix, "") <= from.value
  }

  /** A page that starts behind a key of the store. */
  lemma PageCovers(b: Backend, kv: KV, repo: Repo, prefix: string, limit: int, from: Option<string>, token: Token, page: Page)
    requires Represents(b, kv, repo) && Loadable(b, kv, prefix)
    requires Stands(b, kv, prefix, from) && Behind(b, from, token) && ListPage(b, kv, prefix, limit, token) == Ok(page)
    ensures Covers(b, repo, prefix, from, page)
    ensures page.next.Some? ==> Behind(b, Some(Cut(b, page)), page.next.value) && Stands(b, kv, prefix, Some(Cut(b, page)))
  {
    var s, all := Under(b, kv, prefix), AllUnder(b, kv, prefix);
    var i := Position(b, kv, prefix, from, token);
    NotRefused(b, kv, prefix, limit, i, token);
    PageAt(b, kv, prefix, limit, i, token);
    var j := PageEnd(|s|, i, EffectiveLimit(limit));
    assert page.entries == all[i..j];
    SliceCovers(b, kv, repo, prefix, from, i, j, page);
  }

  lemma Position(b: Backend, kv: KV, prefix: string, from: Option<string>, token: Token) returns (i: nat)
    requires Listable(b, kv, prefix) && Stands(b, kv, prefix, from) && Behind(b, from, token)
    ensures i <= |Under(b, kv, prefix)| && TokenAt(b, kv, prefix, i, token)
    ensures if from.None? then i == 0 else i > 0 && Under(b, kv, prefix)[i - 1] == from.value
  {
    var s := Under(b, kv, prefix);
    SortKeysSorts(set k | k in kv && b.entryKey(prefix, "") <= k);
    if from.None? {
      i := 0;
    } else {
      assert from.value in s;
      var n :| 0 <= n < |s| && s[n] == from.value;
      i := n + 1;
    }
  }

  lemma NotRefused(b: Backend, kv: KV, prefix: string, limit: int, i: nat, token: Token)
    requires Listable(b, kv, prefix) && i <= |Under(b, kv, prefix)| && TokenAt(b, kv, prefix, i, token)
    requires ListPage(b, kv, prefix, limit, token).Ok?
    ensures i == |Under(b, kv, prefix)| ==> prefix == ""
  {
    ReadFrom(b, kv, prefix, i, token);
  }

  /** The page holds the entries from position i to j. */
  ghost predicate IsSlice(b: Backend, kv: KV, prefix: string, from: Option<string>, i: nat, j: nat, page: Page)
    requires Listable(b, kv, prefix)
  {
    var s := Under(b, kv, prefix);
    && i <= j <= |s| && page.entries == AllUnder(b, kv, prefix)[i..j]
    && (if from.None? then i == 0 else i > 0 && s[i - 1] == from.value)
    && (page.next == None <==> j == |s|)
    && (j < |s| ==> j > i && TokenAt(b, kv, prefix, j, page.next.value))
  }

  lemma SliceCovers(b: Backend, kv: KV, repo: Repo, prefix: string, from: Option<string>, i: nat, j: nat, page: Page)
    requires Represents(b, kv, repo) && Loadable(b, kv, prefix) && IsSlice(b, kv, prefix, from, i, j, page)
    ensures Covers(b, repo, prefix, from, page)
    ensures page.next.Some? ==> Behind(b, Some(Cut(b, page)), page.next.value) && Stands(b, kv, prefix, Some(Cut(b, page)))
  {
    if page.next.Some? { SliceEnds(b, kv, prefix, from, i, j, page); }
    forall e ensures e in page.entries <==>
         (IsEntryOf(repo, e) && Watched(b, prefix, e) && Above(from, KeyOf(b, e))
          && (page.next.Some? ==> AtMost(KeyOf(b, e), Cut(b, page))))
    {
      ListedMembers(b, kv, repo, prefix, e);
      SliceMember(b, kv, prefix, from, i, j, page, e);
    }
  }

  /** A page that is not the last one ends with a key of the store, and its token stands behind it. */
  lemma SliceEnds(b: Backend, kv: KV, prefix: string, from: Option<string>, i: nat, j: nat, page: Page)
    requires Listable(b, kv, prefix) && IsSlice(b, kv, prefix, from, i, j, page) && page.next.Some?
    ensures j > 0 && page.entries != [] && Cut(b, page) == Under(b, kv, prefix)[j - 1]
    ensures Behind(b, Some(Cut(b, page)), page.next.value) && Stands(b, kv, prefix, Some(Cut(b, page)))
  {
    var s, all := Under(b, kv, prefix), AllUnder(b, kv, prefix);
    SortKeysSorts(set k | k in kv && b.entryKey(prefix, "") <= k);
    assert page.entries[|page.entries| - 1] == all[j - 1];
    assert EntryKeyed(b, kv, s[j - 1], all[j - 1]) && s[j - 1] in s;
  }

  lemma SliceMember(b: Backend, kv: KV, prefix: string, from: Option<string>, i: nat, j: nat, page: Page, e: Entry)
    requires Listable(b, kv, prefix) && IsSlice(b, kv, prefix, from, i, j, page)
    ensures e in page.entries <==>
              e in AllUnder(b, kv, prefix) && Above(from, KeyOf(b, e))
              && (page.next.Some? ==> AtMost(KeyOf(b, e), Cut(b, page)))
  {
    var s, all := Under(b, kv, prefix), AllUnder(b, kv, prefix);
    if e in all {
      var n := IndexOf(all, e);
      SortKeysSorts(set k | k in kv && b.entryKey(prefix, "") <= k);
      assert EntryKeyed(b, kv, s[n], all[n]);
      InSlice(b, kv, prefix, i, j, n, e);
      AboveIsBehind(s, i, n);
      if page.next.Some? {
        SliceEnds(b, kv, prefix, from, i, j, page);
        AtMostIsBefore(s, j, n);
      }
    }
  }

  /** No two listed entries share a key, so an entry is in a slice exactly by its position. */
  lemma InSlice(b: Backend, kv: KV, prefix: string, i: nat, j: nat, n: nat, e: Entry)
    requires Listable(b, kv, prefix) && i <= j <= |Under(b, kv, prefix)| && n < |Under(b, kv, prefix)|
    requires AllUnder(b, kv, prefix)[n] == e
    ensures e in AllUnder(b, kv, prefix)[i..j] <==> i <= n < j
  {
    var s, all := Under(b, kv, prefix), AllUnder(b, kv, prefix);
    SortKeysSorts(set k | k in kv && b.entryKey(prefix, "") <= k);
    assert EntryKeyed(b, kv, s[n], all[n]);
    if i <= n < j { assert all[i..j][n - i] == e; }
    if e in all[i..j] {
      var m := IndexOf(all[i..j], e);
      assert all[i + m] == e && EntryKeyed(b, kv, s[i + m], all[i + m]);
      LessIrreflexive(s[n]);
    }
  }

  lemma AboveIsBehind(s: seq<string>, i: nat, n: nat)
    requires Ascending(s) && i <= |s| && n < |s|
    ensures i > 0 ==> (Less(s[i - 1], s[n]) <==> i <= n)
  {
    if i > 0 {
      LessIrreflexive(s[n]);
      LessTotal(s[i - 1], s[n]);
    }
  }

  lemma AtMostIsBefore(s: seq<string>, j: nat, n: nat)
    requires Ascending(s) && 0 < j <= |s| && n < |s|
    ensures AtMost(s[n], s[j - 1]) <==> n < j
  {
    LessIrreflexive(s[n]);
    LessTotal(s[n], s[j - 1]);
  }

  // ---- All pages ----

  ghost predicate PageOk(b: Backend, s: Sys, prefix: string, fs: seq<Fetch>, k: nat)
    requires k < |fs| && |s.hist| == |s.log| + 1
  {
    && fs[k].rev <= |s.log|
    && Covers(b, AbsReplay(b, s.log[..fs[k].rev]), prefix, From(b, fs, k), fs[k].page)
    && (fs[k].page.next.Some? ==>
          Behind(b, Some(Cut(b, fs[k].page)), fs[k].page.next.value)
          && Stands(b, s.hist[fs[k].rev], prefix, Some(Cut(b, fs[k].page))))
  }

  lemma {:induction false} PagesCover(b: Backend, s: Sys, prefix: string, limit: int, fs: seq<Fetch>, k: nat)
    requires Good(b) && Inv(b, s) && LogSurvives(b, s.log) && AlwaysLoadable(b, s, prefix)
    requires IsLoad(b, s, prefix, limit, fs) && k < |fs|
    ensures PageOk(b, s, prefix, fs, k)
  {
    assert IsFetch(b, s, prefix, limit, fs, k);
    var r := fs[k].rev;
    if k > 0 {
      PagesCover(b, s, prefix, limit, fs, k - 1);
      CutStays(b, s, prefix, fs[k - 1].rev, r, Cut(b, fs[k - 1].page));
    }
    RunRefinesAt(b, s, r);
    PageCovers(b, s.hist[r], AbsReplay(b, s.log[..r]), prefix, limit, From(b, fs, k), TokenOf(fs, k).value, fs[k].page);
  }

  lemma CutStays(b: Backend, s: Sys, prefix: string, i: nat, j: nat, k: string)
    requires Good(b) && Inv(b, s) && LogSurvives(b, s.log) && AlwaysLoadable(b, s, prefix) && i <= j <= |s.log|
    requires Stands(b, s.hist[i], prefix, Some(k))
    ensures Stands(b, s.hist[j], prefix, Some(k))
  {
    assert Loadable(b, s.hist[i], prefix);
    EntryStays(b, s, i, j, k);
  }

  /** Later pages end behind earlier ones. */
  lemma {:induction false} CutsAscend(b: Backend, s: Sys, prefix: string, fs: seq<Fetch>, k: nat, l: nat)
    requires |s.hist| == |s.log| + 1 && k < l < |fs| && fs[l].page.next.Some?
    requires forall m | 0 <= m < |fs| :: PageOk(b, s, prefix, fs, m)
    requires forall m | 0 <= m < l :: fs[m].page.next.Some?
    ensures Less(Cut(b, fs[k].page), Cut(b, fs[l].page))
  {
    assert PageOk(b, s, prefix, fs, l);
    var last := fs[l].page.entries[|fs[l].page.entries| - 1];
    assert last in fs[l].page.entries;
    assert Less(Cut(b, fs[l - 1].page), Cut(b, fs[l].page));
    if k < l - 1 {
      CutsAscend(b, s, prefix, fs, k, l - 1);
      LessTransitive(Cut(b, fs[k].page), Cut(b, fs[l - 1].page), Cut(b, fs[l].page));
    }
  }

  /** The first page that reaches a key. */
  lemma {:induction false} ReachingPage(b: Backend, fs: seq<Fetch>, key: string, n: nat) returns (k: nat)
    requires n < |fs| && forall m | 0 <= m < n :: fs[m].page.next.Some?
    requires fs[n].page.next.None? || AtMost(key, Cut(b, fs[n].page))
    ensures k <= n && (fs[k].page.next.None? || AtMost(key, Cut(b, fs[k].page)))
    ensures forall m | 0 <= m < k :: Less(Cut(b, fs[m].page), key)
  {
    if m :| 0 <= m < n && AtMost(key, Cut(b, fs[m].page)) {
      k := ReachingPage(b, fs, key, m);
    } else {
      k := n;
      forall m | 0 <= m < k ensures Less(Cut(b, fs[m].page), key) { LessTotal(Cut(b, fs[m].page), key); }
    }
  }

  /** When commit n was made, the load had already passed its key. */
  ghost predicate Passed(b: Backend, fs: seq<Fetch>, n: nat, key: string) {
    exists k :: 0 <= k < |fs| - 1 && fs[k].rev <= n && AtMost(key, Cut(b, fs[k].page))
  }

  /** A commit is in the histories after r commits exactly when it is one of them. */
  lemma CommitRecorded(b: Backend, s: Sys, n: nat, r: nat)
    requires Good(b) && Inv(b, s) && LogSurvives(b, s.log) && n < |s.log| && s.log[n].PutCommit? && r <= |s.log|
    ensures IsEntryOf(AbsReplay(b, s.log[..r]), EntryOf(s.log[n])) <==> n < r
  {
    var e := EntryOf(s.log[n]);
    HistoryIsLog(b, s, r, e.path);
    OfPathMembers(Puts(s.log[..r]), e.path);
    if n < r { PutIsMember(s.log[..r], n); }
    if e in Puts(s.log[..r]) {
      PutsMembers(s.log[..r]);
      var m :| 0 <= m < r && s.log[..r][m].PutCommit? && EntryOf(s.log[..r][m]) == e;
      assert CommitOk(b, s.log, s.used, n) && CommitOk(b, s.log, s.used, m);
    }
  }

  lemma {:induction false} PutIsMember(log: seq<Commit>, n: nat)
    requires n < |log| && log[n].PutCommit?
    ensures EntryOf(log[n]) in Puts(log)
  {
    if n < |log| - 1 {
      assert log[..|log| - 1][n] == log[n];
      PutIsMember(log[..|log| - 1], n);
    }
  }

  /** Exactly what a paged load misses while others commit. Of the watched versions committed before
      the last page was answered, which the following watch does not deliver, the load has precisely
      those whose key it had not passed yet when they were committed. */
  lemma LoadMissesPassed(b: Backend, s: Sys, prefix: string, limit: int, fs: seq<Fetch>, n: nat)
    requires Good(b) && Inv(b, s) && LogSurvives(b, s.log) && AlwaysLoadable(b, s, prefix)
    requires IsLoad(b, s, prefix, limit, fs)
    requires n < fs[|fs| - 1].rev && n < |s.log| && s.log[n].PutCommit? && Watched(b, prefix, EntryOf(s.log[n]))
    ensures IsLoaded(fs, EntryOf(s.log[n])) <==> !Passed(b, fs, n, KeyOf(b, EntryOf(s.log[n])))
  {
    var e := EntryOf(s.log[n]);
    var key, last := KeyOf(b, e), |fs| - 1;
    forall m | 0 <= m < |fs| ensures PageOk(b, s, prefix, fs, m) && CommitIn(b, s, fs, n, m) {
      PagesCover(b, s, prefix, limit, fs, m);
      CommitRecorded(b, s, n, fs[m].rev);
    }
    forall m | 0 <= m < last ensures fs[m].page.next.Some? {
      assert IsFetch(b, s, prefix, limit, fs, m + 1);
    }
    var k := ReachingPage(b, fs, key, last);
    OnlyReachingPage(b, s, prefix, fs, n, k);
  }

  ghost predicate CommitIn(b: Backend, s: Sys, fs: seq<Fetch>, n: nat, m: nat)
    requires m < |fs| && n < |s.log| && s.log[n].PutCommit?
  {
    fs[m].rev <= |s.log| && (IsEntryOf(AbsReplay(b, s.log[..fs[m].rev]), EntryOf(s.log[n])) <==> n < fs[m].rev)
  }

  /** An entry can only be on the first page that reaches its key, and is there exactly if it had been
      committed when that page was answered. */
  lemma OnlyReachingPage(b: Backend, s: Sys, prefix: string, fs: seq<Fetch>, n: nat, k: nat)
    requires |s.hist| == |s.log| + 1 && k < |fs| && n < |s.log| && s.log[n].PutCommit? && n < fs[|fs| - 1].rev
    requires Watched(b, prefix, EntryOf(s.log[n]))
    requires forall m | 0 <= m < |fs| :: PageOk(b, s, prefix, fs, m) && CommitIn(b, s, fs, n, m)
    requires forall m | 0 <= m < |fs| - 1 :: fs[m].page.next.Some?
    requires fs[|fs| - 1].page.next.None?
    requires forall m, l | 0 <= m <= l < |fs| :: fs[m].rev <= fs[l].rev
    requires var key := KeyOf(b, EntryOf(s.log[n]));
             && (fs[k].page.next.None? || AtMost(key, Cut(b, fs[k].page)))
             && forall m | 0 <= m < k :: Less(Cut(b, fs[m].page), key)
    ensures IsLoaded(fs, EntryOf(s.log[n])) <==> n < fs[k].rev
    ensures Passed(b, fs, n, KeyOf(b, EntryOf(s.log[n]))) <==> fs[k].rev <= n
  {
    var e := EntryOf(s.log[n]);
    var key, last := KeyOf(b, e), |fs| - 1;
    assert PageOk(b, s, prefix, fs, k) && CommitIn(b, s, fs, n, k);
    assert Above(From(b, fs, k), key);
    assert e in fs[k].page.entries <==> n < fs[k].rev;
    if m :| 0 <= m < |fs| && e in fs[m].page.entries {
      assert PageOk(b, s, prefix, fs, m) && CommitIn(b, s, fs, n, m);
      if m < k {
        NotBoth(Cut(b, fs[m].page), key);
      } else if m > k {
        PastCut(b, s, prefix, fs, k, m, key);
        NotBoth(Cut(b, fs[k].page), key);
      }
    }
    if m :| 0 <= m < last && fs[m].rev <= n && AtMost(key, Cut(b, fs[m].page)) {
      if m < k { NotBoth(Cut(b, fs[m].page), key); }
    }
  }

  lemma NotBoth(x: string, y: string)
    ensures !(Less(x, y) && AtMost(y, x))
  {
    LessTotal(x, y);
    LessIrreflexive(x);
  }

  /** What is on a later page lies above the cut of an earlier one. */
  lemma PastCut(b: Backend, s: Sys, prefix: string, fs: seq<Fetch>, k: nat, m: nat, key: string)
    requires |s.hist| == |s.log| + 1 && k < m < |fs|
    requires forall l | 0 <= l < |fs| :: PageOk(b, s, prefix, fs, l)
    requires forall l | 0 <= l < |fs| - 1 :: fs[l].page.next.Some?
    requires Above(From(b, fs, m), key)
    ensures Less(Cut(b, fs[k].page), key)
  {
    if k < m - 1 {
      CutsAscend(b, s, prefix, fs, k, m - 1);
      LessTransitive(Cut(b, fs[k].page), Cut(b, fs[m - 1].page), key);
    }
  }
}
