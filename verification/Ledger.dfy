/** The simple form of the store: per path, a fixed signature and a growing list of versions.
    The key/value store is proved to be an exact encoding of it. */
module Ledger {
  import opened Prelude
  import opened Rulesets
  import opened Backends
  import opened Store

  datatype History = History(sig: Signature, versions: seq<Entry>)

  type Repo = map<string, History>

  function Last(h: History): Entry
    requires h.versions != []
  {
    h.versions[|h.versions| - 1]
  }

  /** What Put promises, with no keys, no JSON and no transactions. */
  function AbsPut(b: Backend, repo: Repo, path: string, rs: Ruleset, version: string): (r: (Repo, PutResult))
    requires forall p | p in repo :: repo[p].versions != []
    ensures forall p | p in r.0 :: r.0[p].versions != []
  {
    var entry := Entry(path, version, rs);
    if !ValidArgs(b, path, rs) then (repo, Invalid)
    else if path !in repo then (repo[path := History(SignatureOf(rs), [entry])], Created(entry))
    else
      var h := repo[path];
      if SumOf(b, Last(h).ruleset) == SumOf(b, rs) then (repo, NotModified(Last(h)))
      else if !MatchWith(h.sig, SignatureOf(rs)) then (repo, Invalid)
      else (repo[path := History(h.sig, h.versions + [entry])], Created(entry))
  }

  ghost predicate EntryOk(b: Backend, path: string, sig: Signature, e: Entry) {
    && e.path == path && b.isVersion(e.version) && ValidArgs(b, path, e.ruleset)
    && Survives(b, e.ruleset) && MatchWith(sig, SignatureOf(e.ruleset))
  }

  ghost predicate VersionsDiffer(es: seq<Entry>) {
    forall i, j | 0 <= i < j < |es| :: es[i].version != es[j].version
  }

  /** Two consecutive versions never have the same checksum. */
  ghost predicate SumsChange(b: Backend, es: seq<Entry>) {
    forall i | 0 < i < |es| :: SumOf(b, es[i - 1].ruleset) != SumOf(b, es[i].ruleset)
  }

  /** What every path's history satisfies. */
  ghost predicate HistoryOk(b: Backend, path: string, h: History) {
    && b.isName(path)
    && h.versions != []
    && h.sig == SignatureOf(h.versions[0].ruleset)
    && (forall e | e in h.versions :: EntryOk(b, path, h.sig, e))
    && VersionsDiffer(h.versions)
    && SumsChange(b, h.versions)
  }

  lemma AppendOk(b: Backend, path: string, h: History, e: Entry)
    requires HistoryOk(b, path, h) && EntryOk(b, path, h.sig, e)
    requires forall f | f in h.versions :: f.version != e.version
    requires SumOf(b, Last(h).ruleset) != SumOf(b, e.ruleset)
    ensures HistoryOk(b, path, History(h.sig, h.versions + [e]))
  {
    var es := h.versions + [e];
    forall i, j | 0 <= i < j < |es| ensures es[i].version != es[j].version {
      assert h.versions[i] in h.versions;
    }
    forall i | 0 < i < |es| ensures SumOf(b, es[i - 1].ruleset) != SumOf(b, es[i].ruleset) {
      if i == |h.versions| { assert es[i - 1] == Last(h); }
    }
  }

  lemma FirstOk(b: Backend, e: Entry)
    requires b.isVersion(e.version) && ValidArgs(b, e.path, e.ruleset) && Survives(b, e.ruleset)
    ensures HistoryOk(b, e.path, History(SignatureOf(e.ruleset), [e]))
  {
  }

  ghost predicate RepoOk(b: Backend, repo: Repo) {
    forall p | p in repo :: HistoryOk(b, p, repo[p])
  }

  /** The version has not been given to an entry of this path. */
  ghost predicate Fresh(repo: Repo, path: string, version: string) {
    path in repo ==> forall e | e in repo[path].versions :: e.version != version
  }

  lemma AbsPutKeepsOk(b: Backend, repo: Repo, path: string, rs: Ruleset, version: string)
    requires RepoOk(b, repo) && Survives(b, rs) && b.isVersion(version) && Fresh(repo, path, version)
    ensures RepoOk(b, AbsPut(b, repo, path, rs, version).0)
  {
    var e := Entry(path, version, rs);
    if AbsPut(b, repo, path, rs, version).1.Created? {
      if path in repo { AppendOk(b, path, repo[path], e); } else { FirstOk(b, e); }
    }
  }

  /** Put only ever appends: signatures stay, entries stay, other paths stay. */
  lemma AbsPutGrows(b: Backend, repo: Repo, path: string, rs: Ruleset, version: string, q: string)
    requires (forall p | p in repo :: repo[p].versions != []) && q in repo
    ensures var repo' := AbsPut(b, repo, path, rs, version).0;
            && q in repo' && repo'[q].sig == repo[q].sig
            && repo[q].versions <= repo'[q].versions
            && (q != path ==> repo'[q] == repo[q])
  {
  }

  // ---- The encoding ----

  /** The keys of one path hold exactly its history. */
  ghost predicate PathStored(b: Backend, kv: KV, path: string, h: History)
    requires h.versions != []
  {
    var last := Last(h);
    && Read(kv, b.checksumKey(path)) == Checksum(SumOf(b, last.ruleset))
    && Read(kv, b.signatureKey(path)) == Sig(h.sig)
    && Read(kv, b.latestKey(path)) == Pointer(b.entryKey(path, last.version))
    && forall e | e in h.versions :: Read(kv, b.entryKey(path, e.version)) == DocOf(b, e)
  }

  ghost predicate PathAbsent(b: Backend, kv: KV, path: string) {
    && Read(kv, b.checksumKey(path)) == Absent
    && Read(kv, b.signatureKey(path)) == Absent
    && Read(kv, b.latestKey(path)) == Absent
  }

  ghost predicate IsEntryOf(repo: Repo, e: Entry) {
    e.path in repo && e in repo[e.path].versions
  }

  /** Every key of the entry family belongs to some recorded version. */
  ghost predicate OnlyRecorded(b: Backend, kv: KV, repo: Repo) {
    forall k | k in kv && b.isEntryKey(k) ::
      exists e :: IsEntryOf(repo, e) && k == b.entryKey(e.path, e.version)
  }

  ghost predicate Represents(b: Backend, kv: KV, repo: Repo) {
    && Good(b)
    && RepoOk(b, repo)
    && (forall p | p in repo :: PathStored(b, kv, p, repo[p]))
    && (forall p | b.isName(p) && p !in repo :: PathAbsent(b, kv, p))
    && OnlyRecorded(b, kv, repo)
  }

  lemma Apart(b: Backend, p: string, v: string, q: string, w: string)
    requires Good(b) && b.isName(p) && b.isVersion(v) && b.isName(q) && b.isVersion(w)
    ensures KeysApart(b, p, v, q, w)
  {
  }

  /** kv' is kv with the writes of a created version e; sigBase is the signature write, if any. */
  ghost predicate Written(b: Backend, kv: KV, kv': KV, sigBase: map<string, Blob>, e: Entry) {
    var ks := KeysOf(b, e.path, e.version);
    && kv'.Keys == kv.Keys + sigBase.Keys + {ks.checksum, ks.entry, ks.latest}
    && Read(kv', ks.latest) == Pointer(ks.entry)
    && Read(kv', ks.entry) == DocOf(b, e)
    && Read(kv', ks.checksum) == Checksum(SumOf(b, e.ruleset))
    && forall k | k !in {ks.latest, ks.entry, ks.checksum} ::
         Read(kv', k) == if k in sigBase then sigBase[k] else Read(kv, k)
  }

  function SigBase(b: Backend, repo: Repo, e: Entry): map<string, Blob> {
    if e.path in repo then map[] else map[b.signatureKey(e.path) := Sig(SignatureOf(e.ruleset))]
  }

  lemma ApplyWrites(b: Backend, kv: KV, rev: nat, sigBase: map<string, Blob>, e: Entry)
    requires Good(b) && b.isName(e.path) && b.isVersion(e.version)
    ensures Written(b, kv, Apply(kv, NewVersion(b, KeysOf(b, e.path, e.version), SumOf(b, e.ruleset), sigBase, e), rev), sigBase, e)
  {
    Apart(b, e.path, e.version, e.path, e.version);
  }

  /** Writing nothing changes nothing. */
  lemma ApplyNothing(kv: KV, rev: nat)
    ensures Apply(kv, map[], rev) == kv
  {
  }

  /** Sequential Put on the key/value store is AbsPut on the histories: same result, and the new
      store encodes the new histories. */
  lemma PutRefines(b: Backend, kv: KV, rev: nat, repo: Repo, path: string, rs: Ruleset, version: string)
    requires Represents(b, kv, repo)
    requires Survives(b, rs) && b.isVersion(version) && Fresh(repo, path, version)
    ensures SeqPut(b, kv, rev, path, rs, version).1 == AbsPut(b, repo, path, rs, version).1
    ensures Represents(b, SeqPut(b, kv, rev, path, rs, version).0, AbsPut(b, repo, path, rs, version).0)
  {
    if ValidArgs(b, path, rs) {
      var e := Entry(path, version, rs);
      SeqPutIs(b, kv, rev, repo, path, rs, version);
      AbsPutIs(b, repo, path, rs, version);
      if AbsPut(b, repo, path, rs, version).1.Created? {
        AbsPutKeepsOk(b, repo, path, rs, version);
        WritesRepresent(b, kv, rev, repo, e);
      }
    }
  }

  lemma SeqPutIs(b: Backend, kv: KV, rev: nat, repo: Repo, path: string, rs: Ruleset, version: string)
    requires Represents(b, kv, repo) && ValidArgs(b, path, rs)
    ensures SeqPut(b, kv, rev, path, rs, version).1 == AbsPut(b, repo, path, rs, version).1
    ensures SeqPut(b, kv, rev, path, rs, version).0
         == if AbsPut(b, repo, path, rs, version).1.Created?
            then Apply(kv, WritesOf(b, repo, Entry(path, version, rs)), rev)
            else kv
  {
    TxRefines(b, kv, repo, path, rs, version);
    ApplyNothing(kv, rev);
  }

  lemma AbsPutIs(b: Backend, repo: Repo, path: string, rs: Ruleset, version: string)
    requires forall p | p in repo :: repo[p].versions != []
    ensures var (repo', result) := AbsPut(b, repo, path, rs, version);
            repo' == if result.Created? then Extend(repo, Entry(path, version, rs)) else repo
  {
  }

  /** The writes that create version e of its path. */
  function WritesOf(b: Backend, repo: Repo, e: Entry): map<string, Blob> {
    NewVersion(b, KeysOf(b, e.path, e.version), SumOf(b, e.ruleset), SigBase(b, repo, e), e)
  }

  lemma WritesRepresent(b: Backend, kv: KV, rev: nat, repo: Repo, e: Entry)
    requires Represents(b, kv, repo) && RepoOk(b, Extend(repo, e))
    requires b.isName(e.path) && b.isVersion(e.version) && Fresh(repo, e.path, e.version)
    ensures Represents(b, Apply(kv, WritesOf(b, repo, e), rev), Extend(repo, e))
  {
    ApplyWrites(b, kv, rev, SigBase(b, repo, e), e);
    CreatedRepresents(b, kv, Apply(kv, WritesOf(b, repo, e), rev), repo, e);
  }

  /** The transaction decides as AbsPut does, and writes exactly what a new version needs. */
  lemma TxRefines(b: Backend, kv: KV, repo: Repo, path: string, rs: Ruleset, version: string)
    requires Represents(b, kv, repo) && ValidArgs(b, path, rs)
    ensures RunTx(b, kv, path, rs, version).result == AbsPut(b, repo, path, rs, version).1
    ensures var tx := RunTx(b, kv, path, rs, version);
            var e := Entry(path, version, rs);
            tx.wset == if tx.result.Created? then WritesOf(b, repo, e) else map[]
  {
    if path in repo {
      assert PathStored(b, kv, path, repo[path]);
      assert EntryOk(b, path, repo[path].sig, Last(repo[path]));
      TxOnHistory(b, kv, path, repo[path], rs, version);
    } else {
      assert PathAbsent(b, kv, path);
    }
  }

  lemma TxOnHistory(b: Backend, kv: KV, path: string, h: History, rs: Ruleset, version: string)
    requires h.versions != [] && PathStored(b, kv, path, h) && EntryOk(b, path, h.sig, Last(h))
    ensures var tx := RunTx(b, kv, path, rs, version);
            var e := Entry(path, version, rs);
            if SumOf(b, Last(h).ruleset) == SumOf(b, rs) then tx.result == NotModified(Last(h)) && tx.wset == map[]
            else if !MatchWith(h.sig, SignatureOf(rs)) then tx.result == Invalid && tx.wset == map[]
            else tx.result == Created(e) && tx.wset == NewVersion(b, KeysOf(b, path, version), SumOf(b, rs), map[], e)
  {
    var last := Last(h);
    assert last in h.versions;
    assert Read(kv, b.entryKey(path, last.version)) == DocOf(b, last);
    assert DecodeEntry(b, DocOf(b, last)) == NotModified(last);
  }

  /** The history map after version e of its path has been created. */
  function Extend(repo: Repo, e: Entry): Repo {
    if e.path in repo then repo[e.path := History(repo[e.path].sig, repo[e.path].versions + [e])]
    else repo[e.path := History(SignatureOf(e.ruleset), [e])]
  }

  lemma CreatedRepresents(b: Backend, kv: KV, kv': KV, repo: Repo, e: Entry)
    requires Represents(b, kv, repo) && RepoOk(b, Extend(repo, e))
    requires b.isName(e.path) && b.isVersion(e.version) && Fresh(repo, e.path, e.version)
    requires Written(b, kv, kv', SigBase(b, repo, e), e)
    ensures Represents(b, kv', Extend(repo, e))
  {
    var repo' := Extend(repo, e);
    forall p | p in repo' ensures PathStored(b, kv', p, repo'[p]) {
      if p == e.path { OwnPathStored(b, kv, kv', repo, e); } else { OtherPath(b, kv, kv', repo, e, p); }
    }
    forall p | b.isName(p) && p !in repo' ensures PathAbsent(b, kv', p) {
      OtherPath(b, kv, kv', repo, e, p);
    }
    NothingElse(b, kv, kv', repo, e);
  }

  lemma NothingElse(b: Backend, kv: KV, kv': KV, repo: Repo, e: Entry)
    requires Good(b) && OnlyRecorded(b, kv, repo)
    requires b.isName(e.path) && b.isVersion(e.version)
    requires Written(b, kv, kv', SigBase(b, repo, e), e)
    ensures OnlyRecorded(b, kv', Extend(repo, e))
  {
    var repo' := Extend(repo, e);
    Apart(b, e.path, e.version, e.path, e.version);
    forall k | k in kv' && b.isEntryKey(k)
      ensures exists f :: IsEntryOf(repo', f) && k == b.entryKey(f.path, f.version)
    {
      if k == b.entryKey(e.path, e.version) {
        assert IsEntryOf(repo', e);
      } else {
        assert k in kv;
        var f :| IsEntryOf(repo, f) && k == b.entryKey(f.path, f.version);
        assert IsEntryOf(repo', f);
      }
    }
  }

  lemma OwnPathStored(b: Backend, kv: KV, kv': KV, repo: Repo, e: Entry)
    requires Represents(b, kv, repo)
    requires b.isName(e.path) && b.isVersion(e.version) && Fresh(repo, e.path, e.version)
    requires Written(b, kv, kv', SigBase(b, repo, e), e)
    ensures PathStored(b, kv', e.path, Extend(repo, e)[e.path])
  {
    if e.path in repo {
      assert PathStored(b, kv, e.path, repo[e.path]);
      OwnPathGrows(b, kv, kv', repo[e.path], e);
    } else {
      OwnPathStarts(b, kv, kv', e);
    }
  }

  lemma OwnPathStarts(b: Backend, kv: KV, kv': KV, e: Entry)
    requires Good(b) && b.isName(e.path) && b.isVersion(e.version)
    requires Written(b, kv, kv', map[b.signatureKey(e.path) := Sig(SignatureOf(e.ruleset))], e)
    ensures PathStored(b, kv', e.path, History(SignatureOf(e.ruleset), [e]))
  {
    Apart(b, e.path, e.version, e.path, e.version);
  }

  lemma OwnPathGrows(b: Backend, kv: KV, kv': KV, h: History, e: Entry)
    requires Good(b) && HistoryOk(b, e.path, h) && PathStored(b, kv, e.path, h)
    requires b.isVersion(e.version) && forall f | f in h.versions :: f.version != e.version
    requires Written(b, kv, kv', map[], e)
    ensures PathStored(b, kv', e.path, History(h.sig, h.versions + [e]))
  {
    Apart(b, e.path, e.version, e.path, e.version);
    forall f | f in h.versions + [e] ensures Read(kv', b.entryKey(e.path, f.version)) == DocOf(b, f) {
      if f in h.versions {
        assert EntryOk(b, e.path, h.sig, f);
        OtherEntry(b, kv, kv', map[], e, e.path, f);
      }
    }
  }

  /** The document of another entry is still there. */
  lemma OtherEntry(b: Backend, kv: KV, kv': KV, sigBase: map<string, Blob>, e: Entry, q: string, f: Entry)
    requires Good(b) && b.isName(e.path) && b.isVersion(e.version) && b.isName(q) && b.isVersion(f.version)
    requires (q, f.version) != (e.path, e.version)
    requires Written(b, kv, kv', sigBase, e) && sigBase.Keys <= {b.signatureKey(e.path)}
    requires Read(kv, b.entryKey(q, f.version)) == DocOf(b, f)
    ensures Read(kv', b.entryKey(q, f.version)) == DocOf(b, f)
  {
    Apart(b, e.path, e.version, q, f.version);
  }

  lemma OtherPointers(b: Backend, kv: KV, kv': KV, sigBase: map<string, Blob>, e: Entry, q: string)
    requires Good(b) && b.isName(e.path) && b.isVersion(e.version) && b.isName(q) && q != e.path
    requires Written(b, kv, kv', sigBase, e) && sigBase.Keys <= {b.signatureKey(e.path)}
    ensures Read(kv', b.checksumKey(q)) == Read(kv, b.checksumKey(q))
    ensures Read(kv', b.signatureKey(q)) == Read(kv, b.signatureKey(q))
    ensures Read(kv', b.latestKey(q)) == Read(kv, b.latestKey(q))
  {
    Apart(b, e.path, e.version, q, e.version);
    Apart(b, q, e.version, e.path, e.version);
  }

  lemma OtherPath(b: Backend, kv: KV, kv': KV, repo: Repo, e: Entry, q: string)
    requires Represents(b, kv, repo)
    requires b.isName(e.path) && b.isVersion(e.version) && b.isName(q) && q != e.path
    requires Written(b, kv, kv', SigBase(b, repo, e), e)
    ensures if q in repo then PathStored(b, kv', q, repo[q]) else PathAbsent(b, kv', q)
  {
    OtherPointers(b, kv, kv', SigBase(b, repo, e), e, q);
    if q in repo {
      var h := repo[q];
      assert PathStored(b, kv, q, h);
      forall f | f in h.versions ensures Read(kv', b.entryKey(q, f.version)) == DocOf(b, f) {
        assert EntryOk(b, q, h.sig, f);
        OtherEntry(b, kv, kv', SigBase(b, repo, e), e, q, f);
      }
    } else {
      assert PathAbsent(b, kv, q);
    }
  }

  // ---- Reads ----

  function AbsLatest(repo: Repo, path: string): Result<Entry, ReadError>
    requires forall p | p in repo :: repo[p].versions != []
  {
    if path in repo then Ok(Last(repo[path])) else Err(NotFound)
  }

  function FindVersion(es: seq<Entry>, version: string): Result<Entry, ReadError> {
    if es == [] then Err(NotFound)
    else if es[0].version == version then Ok(es[0])
    else FindVersion(es[1..], version)
  }

  function AbsOneByVersion(repo: Repo, path: string, version: string): Result<Entry, ReadError> {
    if path in repo then FindVersion(repo[path].versions, version) else Err(NotFound)
  }

  /** The first entry with the version is found; nothing is, exactly when there is none. */
  lemma {:induction false} FindVersionFinds(es: seq<Entry>, version: string)
    ensures var r := FindVersion(es, version);
            && (r.Ok? ==> r.value in es && r.value.version == version)
            && (r == Err(NotFound) <==> forall e | e in es :: e.version != version)
            && (r.Err? ==> r == Err(NotFound))
  {
    if es != [] { FindVersionFinds(es[1..], version); assert es == [es[0]] + es[1..]; }
  }

  lemma {:induction false} FindVersionFirst(es: seq<Entry>, i: nat, version: string)
    requires i < |es| && es[i].version == version && forall j | 0 <= j < i :: es[j].version != version
    ensures FindVersion(es, version) == Ok(es[i])
  {
    if i > 0 { FindVersionFirst(es[1..], i - 1, version); }
  }

  lemma StoredReadsBack(b: Backend, e: Entry)
    requires Survives(b, e.ruleset)
    ensures EntryAt(b, DocOf(b, e)) == Ok(e)
  {
  }

  lemma LatestRefines(b: Backend, kv: KV, repo: Repo, path: string)
    requires Represents(b, kv, repo) && b.isName(path)
    ensures Latest(b, kv, path) == AbsLatest(repo, path)
  {
    assert path != "";
    if path in repo {
      assert PathStored(b, kv, path, repo[path]);
      LatestOfHistory(b, kv, path, repo[path]);
    } else {
      assert PathAbsent(b, kv, path);
    }
  }

  lemma LatestOfHistory(b: Backend, kv: KV, path: string, h: History)
    requires path != "" && HistoryOk(b, path, h) && PathStored(b, kv, path, h)
    ensures Latest(b, kv, path) == Ok(Last(h))
  {
    var last := Last(h);
    assert last in h.versions;
    assert EntryOk(b, path, h.sig, last) && Read(kv, b.entryKey(path, last.version)) == DocOf(b, last);
    StoredReadsBack(b, last);
  }

  /** Whatever path and version are asked for: if their key can only hold that version of that path,
      the read is the search in the path's history. */
  lemma OneByVersionRefines(b: Backend, kv: KV, repo: Repo, path: string, version: string)
    requires Represents(b, kv, repo) && path != "" && Proper(b, path, version)
    ensures OneByVersion(b, kv, path, version) == AbsOneByVersion(repo, path, version)
  {
    if path in repo { FindVersionFinds(repo[path].versions, version); }
    if AbsOneByVersion(repo, path, version).Ok? {
      RecordedReads(b, kv, repo, AbsOneByVersion(repo, path, version).value);
    } else if b.entryKey(path, version) in kv {
      var e := EntryAtKey(b, kv, repo, b.entryKey(path, version));
    }
  }

  /** A recorded entry is what its key holds. */
  lemma RecordedReads(b: Backend, kv: KV, repo: Repo, e: Entry)
    requires Represents(b, kv, repo) && IsEntryOf(repo, e)
    ensures b.isName(e.path) && b.isVersion(e.version)
    ensures Read(kv, b.entryKey(e.path, e.version)) == DocOf(b, e) && EntryAt(b, DocOf(b, e)) == Ok(e)
  {
    assert PathStored(b, kv, e.path, repo[e.path]);
    assert EntryOk(b, e.path, repo[e.path].sig, e);
    StoredReadsBack(b, e);
  }

  /** A key of the entry family holds the recorded entry it belongs to, or nothing. */
  lemma EntryAtKey(b: Backend, kv: KV, repo: Repo, k: string) returns (e: Entry)
    requires Represents(b, kv, repo) && b.isEntryKey(k) && k in kv
    ensures IsEntryOf(repo, e) && b.isName(e.path) && b.isVersion(e.version)
    ensures k == b.entryKey(e.path, e.version) && Read(kv, k) == DocOf(b, e) && EntryAt(b, Read(kv, k)) == Ok(e)
  {
    e :| IsEntryOf(repo, e) && k == b.entryKey(e.path, e.version);
    RecordedReads(b, kv, repo, e);
  }

  /** If the key can only hold versions of that path, so can the answer. */
  lemma ReadsOwnPath(b: Backend, kv: KV, repo: Repo, path: string, version: string)
    requires Represents(b, kv, repo) && path != "" && OwnPath(b, path, version)
    ensures var r := OneByVersion(b, kv, path, version);
            r == Err(NotFound) || (r.Ok? && IsEntryOf(repo, r.value) && r.value.path == path)
  {
    if b.entryKey(path, version) in kv {
      var e := EntryAtKey(b, kv, repo, b.entryKey(path, version));
    }
  }
}
