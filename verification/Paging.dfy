/** List: byte-ordered range reads with a limit and a cursor, and following the cursor to the end. */
module Paging {
  import opened Prelude
  import opened Bytes
  import opened Backends
  import opened Store
  import opened Ledger
  import opened Codec
  import KeyLayout
  import Paths

  // ---- Sorting keys ----

  ghost predicate Ascending(s: seq<string>) {
    forall i, j | 0 <= i < j < |s| :: Less(s[i], s[j])
  }

  predicate IsLeast(m: string, keys: set<string>) {
    m in keys && forall k | k in keys :: AtMost(m, k)
  }

  lemma {:induction false} LeastExists(keys: set<string>)
    requires keys != {}
    ensures exists m :: IsLeast(m, keys)
  {
    var x :| x in keys;
    var rest := keys - {x};
    if rest == {} {
      assert keys == {x};
      assert IsLeast(x, keys);
    } else {
      LeastExists(rest);
      var m :| IsLeast(m, rest);
      LessTotal(x, m);
      var least := if Less(x, m) then x else m;
      forall k | k in keys ensures AtMost(least, k) {
        if k != x {
          assert k in rest;
          if Less(x, m) && m != k { LessTransitive(x, m, k); }
        }
      }
      assert IsLeast(least, keys);
    }
  }

  lemma LeastUnique(keys: set<string>)
    ensures forall m, n | IsLeast(m, keys) && IsLeast(n, keys) :: m == n
  {
    forall m, n | IsLeast(m, keys) && IsLeast(n, keys) ensures m == n { LessTotal(m, n); }
  }

  /** The keys in byte order. */
  function SortKeys(keys: set<string>): seq<string> {
    if keys == {} then []
    else
      LeastExists(keys);
      LeastUnique(keys);
      var m :| IsLeast(m, keys);
      [m] + SortKeys(keys - {m})
  }

  lemma {:induction false} SortKeysSorts(keys: set<string>)
    ensures Ascending(SortKeys(keys))
    ensures forall k :: k in SortKeys(keys) <==> k in keys
  {
    if keys != {} {
      LeastExists(keys);
      LeastUnique(keys);
      var m :| IsLeast(m, keys);
      var rest := SortKeys(keys - {m});
      SortKeysSorts(keys - {m});
      var s := SortKeys(keys);
      assert s == [m] + rest;
      forall i, j | 0 <= i < j < |s| ensures Less(s[i], s[j]) {
        assert s[j] in rest;
      }
    }
  }

  /** An ascending sequence is the sorted form of its elements. */
  lemma {:induction false} SortIsUnique(s: seq<string>, keys: set<string>)
    requires Ascending(s) && forall k :: k in s <==> k in keys
    ensures SortKeys(keys) == s
  {
    if s == [] {
      assert keys == {};
    } else {
      assert s[0] in keys;
      forall k | k in keys ensures AtMost(s[0], k) {
        var i :| 0 <= i < |s| && s[i] == k;
      }
      assert IsLeast(s[0], keys);
      LeastUnique(keys);
      var rest := s[1..];
      assert s == [s[0]] + rest;
      LessIrreflexive(s[0]);
      forall k ensures k in rest <==> k in keys - {s[0]} {
        if k in rest {
          var i :| 0 <= i < |rest| && rest[i] == k;
          assert s[i + 1] == k && k in s;
        }
      }
      SortIsUnique(rest, keys - {s[0]});
    }
  }

  // ---- etcd's range read ----

  function KeysIn(kv: KV, lo: string, end: Option<string>): set<string> {
    set k | k in kv && AtMost(lo, k) && Before(k, end)
  }

  datatype RangeResponse = RangeResponse(keys: seq<string>, count: nat, more: bool)

  /** At most `limit` keys from lo on, in byte order; a limit of 0 asks for all of them. */
  function RangeGet(kv: KV, lo: string, end: Option<string>, limit: nat): RangeResponse {
    var keys := SortKeys(KeysIn(kv, lo, end));
    var n := if limit == 0 || |keys| <= limit then |keys| else limit;
    RangeResponse(keys[..n], |keys|, n < |keys|)
  }

  // ---- List ----

  datatype Token = Start | After(cursor: string) | Garbage

  datatype Page = Page(entries: seq<Entry>, next: Option<Token>)

  datatype ListError = NoSuchPrefix | BadToken | BadEntry

  function EffectiveLimit(limit: int): nat {
    if limit < 0 || limit > 100 then 50 else limit
  }

  /** Decoding the values of the keys, in order. */
  function EntriesOf(b: Backend, kv: KV, keys: seq<string>): Result<seq<Entry>, ListError> {
    if keys == [] then Ok([])
    else match EntryAt(b, Read(kv, keys[0]))
      case Err(_) => Err(BadEntry)
      case Ok(e) =>
        var rest :- EntriesOf(b, kv, keys[1..]);
        Ok([e] + rest)
  }

  /** The etcd request behind a List request. */
  function ListRange(b: Backend, kv: KV, prefix: string, limit: int, token: Token): RangeResponse {
    var key := if token.After? then token.cursor else prefix;
    RangeGet(kv, b.entryKey(key, ""), RangeEnd(b.entryKey(prefix, "")), EffectiveLimit(limit))
  }

  /** The page made of an etcd response. */
  function PageOf(b: Backend, kv: KV, prefix: string, n: nat, resp: RangeResponse): Result<Page, ListError> {
    if resp.count == 0 && prefix != "" then Err(NoSuchPrefix)
    else
      var entries :- EntriesOf(b, kv, resp.keys);
      if |entries| < n || !resp.more || entries == [] then Ok(Page(entries, None))
      else
        var last := entries[|entries| - 1];
        Ok(Page(entries, Some(After(b.cursorOf(last.path, last.version)))))
  }

  /** What a List request answers on a store that does not change meanwhile. */
  function ListPage(b: Backend, kv: KV, prefix: string, limit: int, token: Token): Result<Page, ListError> {
    if token.Garbage? then Err(BadToken)
    else PageOf(b, kv, prefix, EffectiveLimit(limit), ListRange(b, kv, prefix, limit, token))
  }

  method List(b: Backend, kv: KV, prefix: string, limit: int, token: Token) returns (r: Result<Page, ListError>)
    ensures r == ListPage(b, kv, prefix, limit, token)
  {
    if token.Garbage? { return Err(BadToken); }
    var n := if limit < 0 || limit > 100 then 50 else limit;
    var key := prefix;
    if token.After? { key := token.cursor; }
    var resp := RangeGet(kv, b.entryKey(key, ""), RangeEnd(b.entryKey(prefix, "")), n);
    r := FillPage(b, kv, prefix, n, resp);
  }

  method FillPage(b: Backend, kv: KV, prefix: string, n: nat, resp: RangeResponse) returns (r: Result<Page, ListError>)
    ensures r == PageOf(b, kv, prefix, n, resp)
  {
    if resp.count == 0 && prefix != "" { return Err(NoSuchPrefix); }
    var entries: seq<Entry> := [];
    assert resp.keys[0..] == resp.keys;
    PrependNothing(EntriesOf(b, kv, resp.keys));
    for i := 0 to |resp.keys|
      invariant EntriesOf(b, kv, resp.keys) == Prepend(entries, EntriesOf(b, kv, resp.keys[i..]))
    {
      assert resp.keys[i..][1..] == resp.keys[i + 1..];
      var e := EntryAt(b, Read(kv, resp.keys[i]));
      if e.Err? { return Err(BadEntry); }
      EntriesNext(b, kv, resp.keys, i, e.value);
      PrependTwice(entries, [e.value], EntriesOf(b, kv, resp.keys[i + 1..]));
      entries := entries + [e.value];
    }
    assert entries + [] == entries;
    if |entries| < n || !resp.more || entries == [] { return Ok(Page(entries, None)); }
    var last := entries[|entries| - 1];
    return Ok(Page(entries, Some(After(b.cursorOf(last.path, last.version)))));
  }

  lemma EntriesNext(b: Backend, kv: KV, keys: seq<string>, i: nat, e: Entry)
    requires i < |keys| && EntryAt(b, Read(kv, keys[i])) == Ok(e)
    ensures EntriesOf(b, kv, keys[i..]) == Prepend([e], EntriesOf(b, kv, keys[i + 1..]))
  {
    assert keys[i..][1..] == keys[i + 1..];
  }

  // ---- Following the cursor ----

  ghost predicate EntryKeyed(b: Backend, kv: KV, k: string, e: Entry) {
    k == b.entryKey(e.path, e.version) && CursorFollows(b, e.path, e.version) && EntryAt(b, Read(kv, k)) == Ok(e)
  }

  /** Below the prefix there are only byte strings, each the key of the entry stored there. */
  ghost predicate Listable(b: Backend, kv: KV, prefix: string) {
    var p := b.entryKey(prefix, "");
    && IsBytes(p)
    && (forall k | k in kv :: IsBytes(k))
    && (forall k | k in kv && p <= k :: HasEntry(b, kv, k))
  }

  ghost predicate HasEntry(b: Backend, kv: KV, k: string) {
    exists e :: EntryKeyed(b, kv, k, e)
  }

  /** A store that encodes histories can be listed under every prefix that selects entries only. */
  lemma RepresentsIsListable(b: Backend, kv: KV, repo: Repo, prefix: string)
    requires Represents(b, kv, repo)
    requires IsBytes(b.entryKey(prefix, "")) && forall k | k in kv :: IsBytes(k)
    requires forall k | k in kv && b.entryKey(prefix, "") <= k :: b.isEntryKey(k)
    ensures Listable(b, kv, prefix)
  {
    forall k | k in kv && b.entryKey(prefix, "") <= k ensures HasEntry(b, kv, k) {
      var e :| IsEntryOf(repo, e) && k == b.entryKey(e.path, e.version);
      RecordedIsKeyed(b, kv, repo, e);
    }
  }

  lemma RecordedIsKeyed(b: Backend, kv: KV, repo: Repo, e: Entry)
    requires Represents(b, kv, repo) && IsEntryOf(repo, e)
    ensures EntryKeyed(b, kv, b.entryKey(e.path, e.version), e)
  {
    assert PathStored(b, kv, e.path, repo[e.path]);
    assert EntryOk(b, e.path, repo[e.path].sig, e);
    assert b.isName(e.path);
    StoredReadsBack(b, e);
    assert CursorFollows(b, e.path, e.version);
  }

  /** The keys under the prefix, in order. */
  function Under(b: Backend, kv: KV, prefix: string): seq<string> {
    SortKeys(set k | k in kv && b.entryKey(prefix, "") <= k)
  }

  lemma RangeOfPrefix(b: Backend, kv: KV, prefix: string)
    requires Listable(b, kv, prefix)
    ensures var p := b.entryKey(prefix, "");
            KeysIn(kv, p, RangeEnd(p)) == set k | k in kv && p <= k
  {
    var p := b.entryKey(prefix, "");
    forall k | k in kv ensures p <= k <==> AtMost(p, k) && Before(k, RangeEnd(p)) { RangeIsPrefix(k, p); }
  }

  /** Reading on from right behind key i gives the keys from i + 1 on. */
  lemma RangeAfter(b: Backend, kv: KV, prefix: string, i: nat)
    requires Listable(b, kv, prefix) && i < |Under(b, kv, prefix)|
    ensures var s := Under(b, kv, prefix);
            SortKeys(KeysIn(kv, s[i] + ZERO, RangeEnd(b.entryKey(prefix, "")))) == s[i + 1..]
  {
    var p := b.entryKey(prefix, "");
    var s := Under(b, kv, prefix);
    var all := set k | k in kv && p <= k;
    SortKeysSorts(all);
    var rest := s[i + 1..];
    var keys := KeysIn(kv, s[i] + ZERO, RangeEnd(p));
    forall k ensures k in rest <==> k in keys {
      ZeroByteIsSuccessor(s[i], k);
      if k in rest {
        var j :| 0 <= j < |rest| && rest[j] == k;
        assert s[i + 1 + j] == k && k in s;
        RangeIsPrefix(k, p);
      }
      if k in keys {
        assert s[i] in s;
        RangeIsPrefix(s[i], p);
        RangeIsPrefix(k, p);
        if p != s[i] { LessTransitive(p, s[i], k); }
        assert k in s;
        var j :| 0 <= j < |s| && s[j] == k;
        LessIrreflexive(k);
        if j < i { LessTotal(s[j], s[i]); }
        assert j > i;
        assert rest[j - i - 1] == k;
      }
    }
    SortIsUnique(rest, keys);
  }

  ghost predicate AllKeyed(b: Backend, kv: KV, keys: seq<string>, es: seq<Entry>) {
    |es| == |keys| && forall i | 0 <= i < |keys| :: EntryKeyed(b, kv, keys[i], es[i])
  }

  lemma {:induction false} EntriesDecode(b: Backend, kv: KV, keys: seq<string>)
    requires forall i | 0 <= i < |keys| :: HasEntry(b, kv, keys[i])
    ensures EntriesOf(b, kv, keys).Ok? && AllKeyed(b, kv, keys, EntriesOf(b, kv, keys).value)
  {
    if keys != [] {
      var e :| EntryKeyed(b, kv, keys[0], e);
      EntriesDecode(b, kv, keys[1..]);
    }
  }

  /** All entries under the prefix, in key order. */
  ghost function AllUnder(b: Backend, kv: KV, prefix: string): (es: seq<Entry>)
    requires Listable(b, kv, prefix)
    ensures AllKeyed(b, kv, Under(b, kv, prefix), es)
    ensures EntriesOf(b, kv, Under(b, kv, prefix)) == Ok(es)
  {
    UnderKeyed(b, kv, prefix);
    EntriesDecode(b, kv, Under(b, kv, prefix));
    EntriesOf(b, kv, Under(b, kv, prefix)).value
  }

  lemma UnderKeyed(b: Backend, kv: KV, prefix: string)
    requires Listable(b, kv, prefix)
    ensures forall i | 0 <= i < |Under(b, kv, prefix)| :: HasEntry(b, kv, Under(b, kv, prefix)[i])
  {
    var keys := set k | k in kv && b.entryKey(prefix, "") <= k;
    SortKeysSorts(keys);
    forall i | 0 <= i < |Under(b, kv, prefix)| ensures HasEntry(b, kv, Under(b, kv, prefix)[i]) {
      assert Under(b, kv, prefix)[i] in keys;
    }
  }

  lemma SliceDecodes(b: Backend, kv: KV, prefix: string, i: nat, j: nat)
    requires Listable(b, kv, prefix) && i <= j <= |Under(b, kv, prefix)|
    ensures EntriesOf(b, kv, Under(b, kv, prefix)[i..j]) == Ok(AllUnder(b, kv, prefix)[i..j])
  {
    var s, all := Under(b, kv, prefix), AllUnder(b, kv, prefix);
    UnderKeyed(b, kv, prefix);
    EntriesDecode(b, kv, s[i..j]);
    var es := EntriesOf(b, kv, s[i..j]).value;
    forall n | 0 <= n < |es| ensures es[n] == all[i + n] {
      assert EntryKeyed(b, kv, s[i..j][n], es[n]);
      assert EntryKeyed(b, kv, s[i + n], all[i + n]);
    }
    assert es == all[i..j];
  }

  /** The token under which the listing goes on at key i. */
  ghost predicate TokenAt(b: Backend, kv: KV, prefix: string, i: nat, token: Token)
    requires i <= |Under(b, kv, prefix)|
  {
    match token
    case Start => i == 0
    case After(cursor) => i > 0 && b.entryKey(cursor, "") == Under(b, kv, prefix)[i - 1] + ZERO
    case Garbage => false
  }

  /** Where the page that starts at key i ends. */
  function PageEnd(total: nat, i: nat, n: nat): nat
    requires i <= total
  {
    if n == 0 || total - i <= n then total else i + n
  }

  /** r is the page from key i on: exactly the next entries up to PageEnd, and a token for the
      position behind them exactly when something is left. */
  ghost predicate IsPageAt(b: Backend, kv: KV, prefix: string, n: nat, i: nat, r: Result<Page, ListError>)
    requires Listable(b, kv, prefix) && i <= |Under(b, kv, prefix)|
  {
    var total := |Under(b, kv, prefix)|;
    var j := PageEnd(total, i, n);
    && r.Ok? && r.value.entries == AllUnder(b, kv, prefix)[i..j]
    && (r.value.next == None <==> j == total)
    && (j < total ==> j > i && TokenAt(b, kv, prefix, j, r.value.next.value))
  }

  lemma PageAt(b: Backend, kv: KV, prefix: string, limit: int, i: nat, token: Token)
    requires Listable(b, kv, prefix)
    requires i <= |Under(b, kv, prefix)| && TokenAt(b, kv, prefix, i, token)
    requires i == |Under(b, kv, prefix)| ==> prefix == ""
    ensures IsPageAt(b, kv, prefix, EffectiveLimit(limit), i, ListPage(b, kv, prefix, limit, token))
  {
    var s := Under(b, kv, prefix);
    var n := EffectiveLimit(limit);
    var j := PageEnd(|s|, i, n);
    RangeIsSlice(b, kv, prefix, limit, i, token);
    SliceDecodes(b, kv, prefix, i, j);
    PageOfSlice(b, kv, prefix, n, s, AllUnder(b, kv, prefix), i);
    SliceIsPage(b, kv, prefix, n, i);
  }

  lemma RangeIsSlice(b: Backend, kv: KV, prefix: string, limit: int, i: nat, token: Token)
    requires Listable(b, kv, prefix)
    requires i <= |Under(b, kv, prefix)| && TokenAt(b, kv, prefix, i, token)
    ensures var s := Under(b, kv, prefix);
            var j := PageEnd(|s|, i, EffectiveLimit(limit));
            ListRange(b, kv, prefix, limit, token) == RangeResponse(s[i..j], |s| - i, j < |s|)
  {
    var s := Under(b, kv, prefix);
    var j := PageEnd(|s|, i, EffectiveLimit(limit));
    var n := EffectiveLimit(limit);
    var lo := b.entryKey(if token.After? then token.cursor else prefix, "");
    ReadFrom(b, kv, prefix, i, token);
    CutRange(kv, lo, RangeEnd(b.entryKey(prefix, "")), n, s, i);
  }

  lemma CutRange(kv: KV, lo: string, end: Option<string>, n: nat, s: seq<string>, i: nat)
    requires i <= |s| && SortKeys(KeysIn(kv, lo, end)) == s[i..]
    ensures RangeGet(kv, lo, end, n) == RangeResponse(s[i..PageEnd(|s|, i, n)], |s| - i, PageEnd(|s|, i, n) < |s|)
  {
    assert s[i..][..PageEnd(|s|, i, n) - i] == s[i..PageEnd(|s|, i, n)];
  }

  lemma SliceIsPage(b: Backend, kv: KV, prefix: string, n: nat, i: nat)
    requires Listable(b, kv, prefix) && i <= |Under(b, kv, prefix)|
    ensures IsPageAt(b, kv, prefix, n, i, Ok(SlicePage(b, AllUnder(b, kv, prefix), i, PageEnd(|Under(b, kv, prefix)|, i, n))))
  {
    var s, all := Under(b, kv, prefix), AllUnder(b, kv, prefix);
    var j := PageEnd(|s|, i, n);
    if j < |s| { assert EntryKeyed(b, kv, s[j - 1], all[j - 1]); }
  }

  /** How many entries a page has: the limit, or all for 0, or 50 for a limit outside 0 to 100, and
      never more than are left. */
  lemma PageSize(b: Backend, kv: KV, prefix: string, limit: int, i: nat, token: Token)
    requires Listable(b, kv, prefix)
    requires i <= |Under(b, kv, prefix)| && TokenAt(b, kv, prefix, i, token)
    requires i == |Under(b, kv, prefix)| ==> prefix == ""
    ensures var left := |Under(b, kv, prefix)| - i;
            var r := ListPage(b, kv, prefix, limit, token);
            && r.Ok?
            && (limit == 0 ==> |r.value.entries| == left)
            && (1 <= limit <= 100 ==> |r.value.entries| == if left < limit then left else limit)
            && (limit < 0 || limit > 100 ==> |r.value.entries| == if left < 50 then left else 50)
  {
    PageAt(b, kv, prefix, limit, i, token);
  }

  function SlicePage(b: Backend, all: seq<Entry>, i: nat, j: nat): Page
    requires i <= j <= |all|
  {
    var next := if j == |all| || j == 0 then None else Some(After(b.cursorOf(all[j - 1].path, all[j - 1].version)));
    Page(all[i..j], next)
  }

  lemma PageOfSlice(b: Backend, kv: KV, prefix: string, n: nat, s: seq<string>, all: seq<Entry>, i: nat)
    requires |s| == |all| && i <= |s| && (i == |s| ==> prefix == "")
    requires EntriesOf(b, kv, s[i..PageEnd(|s|, i, n)]) == Ok(all[i..PageEnd(|s|, i, n)])
    ensures PageOf(b, kv, prefix, n, RangeResponse(s[i..PageEnd(|s|, i, n)], |s| - i, PageEnd(|s|, i, n) < |s|))
         == Ok(SlicePage(b, all, i, PageEnd(|s|, i, n)))
  {
    var j := PageEnd(|s|, i, n);
    assert j > i ==> all[i..j][|all[i..j]| - 1] == all[j - 1];
  }

  lemma ReadFrom(b: Backend, kv: KV, prefix: string, i: nat, token: Token)
    requires Listable(b, kv, prefix)
    requires i <= |Under(b, kv, prefix)| && TokenAt(b, kv, prefix, i, token)
    ensures var lo := b.entryKey(if token.After? then token.cursor else prefix, "");
            SortKeys(KeysIn(kv, lo, RangeEnd(b.entryKey(prefix, "")))) == Under(b, kv, prefix)[i..]
  {
    if i > 0 { RangeAfter(b, kv, prefix, i - 1); } else { RangeOfPrefix(b, kv, prefix); }
  }

  /** A first page is refused exactly when the prefix is not empty and selects nothing. */
  lemma FirstPageRefused(b: Backend, kv: KV, prefix: string, limit: int)
    requires Listable(b, kv, prefix)
    ensures ListPage(b, kv, prefix, limit, Start).Err? <==> Under(b, kv, prefix) == [] && prefix != ""
  {
    if Under(b, kv, prefix) == [] && prefix != "" {
      ReadFrom(b, kv, prefix, 0, Start);
    } else {
      PageAt(b, kv, prefix, limit, 0, Start);
    }
  }

  /** The pages so far hold the first j entries, and the next token stands at j. */
  ghost predicate Collected(b: Backend, kv: KV, prefix: string, all: seq<Entry>, j: nat, next: Option<Token>)
    requires Listable(b, kv, prefix)
  {
    var total := |Under(b, kv, prefix)|;
    && j <= total && all == AllUnder(b, kv, prefix)[..j]
    && (next == None <==> j == total)
    && (j < total ==> j > 0 && TokenAt(b, kv, prefix, j, next.value))
  }

  lemma CollectPage(b: Backend, kv: KV, prefix: string, n: nat, all: seq<Entry>, i: nat, page: Page)
    requires Listable(b, kv, prefix) && i <= |Under(b, kv, prefix)| && all == AllUnder(b, kv, prefix)[..i]
    requires IsPageAt(b, kv, prefix, n, i, Ok(page))
    ensures Collected(b, kv, prefix, all + page.entries, PageEnd(|Under(b, kv, prefix)|, i, n), page.next)
  {
    var full := AllUnder(b, kv, prefix);
    var j := PageEnd(|full|, i, n);
    assert full[..i] + full[i..j] == full[..j];
  }

  /** The first request of a listing. */
  method FirstPage(b: Backend, kv: KV, prefix: string, limit: int)
    returns (r: Result<Page, ListError>, ghost j: nat)
    requires Listable(b, kv, prefix)
    ensures r == ListPage(b, kv, prefix, limit, Start)
    ensures r.Ok? ==> Collected(b, kv, prefix, r.value.entries, j, r.value.next)
    ensures r.Err? <==> Under(b, kv, prefix) == [] && prefix != ""
  {
    FirstPageRefused(b, kv, prefix, limit);
    r := List(b, kv, prefix, limit, Start);
    j := PageEnd(|Under(b, kv, prefix)|, 0, EffectiveLimit(limit));
    if r.Ok? {
      PageAt(b, kv, prefix, limit, 0, Start);
      CollectPage(b, kv, prefix, EffectiveLimit(limit), [], 0, r.value);
      assert [] + r.value.entries == r.value.entries;
    }
  }

  /** A request with the token of the page before. */
  method NextPage(b: Backend, kv: KV, prefix: string, limit: int, token: Token, ghost all: seq<Entry>, ghost i: nat)
    returns (r: Result<Page, ListError>, ghost j: nat)
    requires Listable(b, kv, prefix) && Collected(b, kv, prefix, all, i, Some(token))
    ensures r == ListPage(b, kv, prefix, limit, token)
    ensures r.Ok? && i < j && Collected(b, kv, prefix, all + r.value.entries, j, r.value.next)
  {
    PageAt(b, kv, prefix, limit, i, token);
    r := List(b, kv, prefix, limit, token);
    j := PageEnd(|Under(b, kv, prefix)|, i, EffectiveLimit(limit));
    CollectPage(b, kv, prefix, EffectiveLimit(limit), all, i, r.value);
  }

  /** Following Continue tokens: it ends, and the pages put together are the unlimited listing. */
  method FetchAll(b: Backend, kv: KV, prefix: string, limit: int)
    returns (r: Result<seq<Entry>, ListError>)
    requires Listable(b, kv, prefix) && 1 <= limit <= 100
    ensures r.Ok? ==> r.value == AllUnder(b, kv, prefix)
    ensures r.Err? <==> Under(b, kv, prefix) == [] && prefix != ""
  {
    var page, j := FirstPage(b, kv, prefix, limit);
    if page.Err? { return Err(page.error); }
    var all := page.value.entries;
    var next := page.value.next;
    while next.Some?
      invariant Collected(b, kv, prefix, all, j, next)
      decreases |Under(b, kv, prefix)| - j
    {
      page, j := NextPage(b, kv, prefix, limit, next.value, all, j);
      all := all + page.value.entries;
      next := page.value.next;
    }
    return Ok(all);
  }

  /** The unlimited listing is all entries under the prefix. */
  lemma UnlimitedListsAll(b: Backend, kv: KV, prefix: string)
    requires Listable(b, kv, prefix)
    ensures Under(b, kv, prefix) != [] || prefix == "" ==>
              ListPage(b, kv, prefix, 0, Start) == Ok(Page(AllUnder(b, kv, prefix), None))
  {
    if Under(b, kv, prefix) != [] || prefix == "" {
      PageAt(b, kv, prefix, 0, 0, Start);
      assert AllUnder(b, kv, prefix)[0..|Under(b, kv, prefix)|] == AllUnder(b, kv, prefix);
    }
  }

  /** A directory below which every key is an entry key, and which the prefix lies in. */
  ghost predicate SelectsEntries(b: Backend, prefix: string, dir: string) {
    dir <= b.entryKey(prefix, "") && forall k | dir <= k :: b.isEntryKey(k)
  }

  lemma SelectedIsListable(b: Backend, kv: KV, repo: Repo, prefix: string, dir: string)
    requires Represents(b, kv, repo) && SelectsEntries(b, prefix, dir)
    requires IsBytes(b.entryKey(prefix, "")) && forall k | k in kv :: IsBytes(k)
    ensures Listable(b, kv, prefix)
  {
    forall k | k in kv && b.entryKey(prefix, "") <= k ensures b.isEntryKey(k) {
      PrefixTransitive(dir, b.entryKey(prefix, ""), k);
    }
    RepresentsIsListable(b, kv, repo, prefix);
  }

  lemma PrefixTransitive(a: string, b: string, c: string)
    requires a <= b && b <= c
    ensures a <= c
  {
  }

  lemma RegulaSelectsEntries(ns: string, sum: Json -> string, prefix: string)
    requires IsBytes(ns) && IsBytes(prefix) && Paths.NoDots(prefix)
    ensures SelectsEntries(Regula(ns, sum), prefix, KeyLayout.Root(ns) + ("/" + "entries"))
    ensures IsBytes(Regula(ns, sum).entryKey(prefix, ""))
  {
    KeyLayout.ListPrefix(ns, prefix);
    RegulaPrefixBytes(ns, prefix);
  }

  lemma RegulaPrefixBytes(ns: string, prefix: string)
    requires IsBytes(ns) && IsBytes(prefix)
    ensures IsBytes(KeyLayout.EntryKey(ns, prefix, ""))
  {
    PrefixBytes(ns, prefix, "rulesets", "entries", "");
  }

  lemma PrefixBytes(ns: string, prefix: string, top: string, family: string, last: string)
    requires IsBytes(ns) && IsBytes(prefix) && IsBytes(top) && IsBytes(family) && IsBytes(last)
    ensures IsBytes(Paths.Join([ns, top, family, prefix, last]))
  {
    Paths.JoinBytes([ns, top, family, prefix, last]);
  }

  /** Regula's store can be listed under every prefix without dot segments. */
  lemma RegulaIsListable(ns: string, sum: Json -> string, kv: KV, repo: Repo, prefix: string)
    requires Represents(Regula(ns, sum), kv, repo)
    requires IsBytes(ns) && IsBytes(prefix) && Paths.NoDots(prefix) && forall k | k in kv :: IsBytes(k)
    ensures Listable(Regula(ns, sum), kv, prefix)
  {
    RegulaSelectsEntries(ns, sum, prefix);
    SelectedIsListable(Regula(ns, sum), kv, repo, prefix, KeyLayout.Root(ns) + ("/" + "entries"));
  }
}
