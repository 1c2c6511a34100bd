/** Reading with whatever path and version a request carries: nothing checks them before they become
    part of a key, so this says exactly which requests are answered as their caller expects. */
module Requests {
  import opened Prelude
  import opened Expr
  import opened Rulesets
  import opened Codec
  import opened Backends
  import opened Store
  import opened Ledger
  import opened Concurrent
  import opened Contract
  import opened Runs
  import opened Names
  import opened Paths
  import opened KeyLayout

  // ---- Stores that hold something under a given key ----

  /** A key of the entry family that belongs to no version of no path: it is never written. */
  ghost predicate Dead(b: Backend, k: string) {
    b.isEntryKey(k) && forall q, w | b.isName(q) && b.isVersion(w) :: b.entryKey(q, w) != k
  }

  /** A ruleset that anyone may put anywhere. */
  ghost predicate Harmless(b: Backend, rs: Ruleset) {
    Survives(b, rs) && RulesOccurrences(rs.rules) == []
  }

  lemma HarmlessSignature(b: Backend, rs: Ruleset)
    requires Harmless(b, rs)
    ensures SignatureOf(rs) == Signature(rs.typ, map[])
  {
    assert Distinct([]) == [] && TypeMap([]) == map[];
  }

  /** The first Put on a path. */
  lemma PutFirst(b: Backend, kv: KV, repo: Repo, q: string, w: string, rs: Ruleset) returns (kv': KV)
    requires Represents(b, kv, repo) && b.isName(q) && b.isVersion(w) && q !in repo && Harmless(b, rs)
    ensures Represents(b, kv', repo[q := History(SignatureOf(rs), [Entry(q, w, rs)])])
  {
    kv' := SeqPut(b, kv, 0, q, rs, w).0;
    PutRefines(b, kv, 0, repo, q, rs, w);
  }

  ghost predicate Extends(repo: Repo, repo': Repo) {
    forall q | q in repo :: q in repo' && repo'[q] == repo[q]
  }

  /** A key outside the entry family can hold something that is no entry, beside whatever is stored
      already. */
  lemma FillKey(b: Backend, kv: KV, repo: Repo, k: string, rs: Ruleset, w: string) returns (kv': KV, repo': Repo)
    requires Represents(b, kv, repo) && !b.isEntryKey(k) && Harmless(b, rs) && b.isVersion(w)
    ensures Represents(b, kv', repo') && Extends(repo, repo')
    ensures Read(kv', k).Checksum? || Read(kv', k).Sig? || exists q :: q in repo' && k == b.latestKey(q) && b.isName(q)
    ensures EntryAt(b, Read(kv', k)) == Err(Undecodable)
  {
    if Unrelated(b, k) {
      kv', repo' := Apply(kv, map[k := Checksum("")], 0), repo;
      ForeignKeepsPaths(b, kv, 0, map[k := Checksum("")], repo);
    } else {
      var q :| b.isName(q) && (k == b.checksumKey(q) || k == b.signatureKey(q) || k == b.latestKey(q));
      kv', repo' := Occupy(b, kv, repo, q, rs, w);
      PointersHeld(b, kv', repo', q);
    }
  }

  lemma Occupy(b: Backend, kv: KV, repo: Repo, q: string, rs: Ruleset, w: string) returns (kv': KV, repo': Repo)
    requires Represents(b, kv, repo) && b.isName(q) && Harmless(b, rs) && b.isVersion(w)
    ensures Represents(b, kv', repo') && Extends(repo, repo') && q in repo'
  {
    if q in repo {
      kv', repo' := kv, repo;
    } else {
      kv' := PutFirst(b, kv, repo, q, w, rs);
      repo' := repo[q := History(SignatureOf(rs), [Entry(q, w, rs)])];
    }
  }

  lemma PointersHeld(b: Backend, kv: KV, repo: Repo, q: string)
    requires Represents(b, kv, repo) && q in repo
    ensures Read(kv, b.checksumKey(q)).Checksum? && Read(kv, b.signatureKey(q)).Sig? && Read(kv, b.latestKey(q)).Pointer?
  {
    assert PathStored(b, kv, q, repo[q]);
  }

  // ---- Exact conditions ----

  /** Two rulesets without parameters, of different types, the second one returning a value. */
  ghost predicate Distinguish(b: Backend, mine: Ruleset, other: Ruleset, env: Env) {
    && Harmless(b, mine) && Harmless(b, other) && mine.typ != other.typ && !env.params.Nil?
    && EvalRuleset(other, env).Ok? && EvalRuleset(other, env).value.typ == other.typ
  }

  /** What the counterexamples below are made of. */
  ghost predicate Equipped(b: Backend) {
    && Good(b) && (forall rs | Survives(b, rs) :: Storable(rs))
    && exists mine, other, env, w :: Distinguish(b, mine, other, env) && b.isVersion(w)
  }

  ghost predicate ReadsRight(b: Backend, kv: KV, repo: Repo, p: string, v: string) {
    Represents(b, kv, repo) ==> OneByVersion(b, kv, p, v) == AbsOneByVersion(repo, p, v)
  }

  ghost predicate AlwaysReadsRight(b: Backend, p: string, v: string) {
    forall kv: KV, repo: Repo :: ReadsRight(b, kv, repo, p, v)
  }

  /** On every store, asking for (p, v) gives version v of path p or nothing, if and only if the key
      asked for can hold nothing else. Any strings p and v. */
  lemma ProperIsExact(b: Backend, p: string, v: string)
    requires Equipped(b) && p != ""
    ensures AlwaysReadsRight(b, p, v) <==> Proper(b, p, v)
  {
    if Proper(b, p, v) {
      forall kv: KV, repo: Repo ensures ReadsRight(b, kv, repo, p, v) {
        if Represents(b, kv, repo) { OneByVersionRefines(b, kv, repo, p, v); }
      }
    } else {
      var rs, other, env, w :| Distinguish(b, rs, other, env) && b.isVersion(w);
      var kv, repo := ReadsWrong(b, p, v, rs, w);
      assert !ReadsRight(b, kv, repo, p, v);
    }
  }

  /** A store on which an improper request goes wrong. */
  lemma ReadsWrong(b: Backend, p: string, v: string, rs: Ruleset, w: string) returns (kv: KV, repo: Repo)
    requires Good(b) && p != "" && Harmless(b, rs) && b.isVersion(w) && !Proper(b, p, v)
    ensures Represents(b, kv, repo) && OneByVersion(b, kv, p, v) != AbsOneByVersion(repo, p, v)
  {
    EmptyRepresents(b);
    if !b.isEntryKey(b.entryKey(p, v)) {
      kv, repo := FillKey(b, map[], map[], b.entryKey(p, v), rs, w);
      if p in repo { FindVersionFinds(repo[p].versions, v); }
    } else {
      var q, u :| b.isName(q) && b.isVersion(u) && b.entryKey(q, u) == b.entryKey(p, v) && (q != p || u != v);
      kv := PutFirst(b, map[], map[], q, u, rs);
      repo := map[q := History(SignatureOf(rs), [Entry(q, u, rs)])];
      assert map[][q := History(SignatureOf(rs), [Entry(q, u, rs)])] == repo;
      assert IsEntryOf(repo, Entry(q, u, rs));
      RecordedReads(b, kv, repo, Entry(q, u, rs));
      if p in repo { FindVersionFinds(repo[p].versions, v); }
    }
  }

  ghost predicate ContractKept(b: Backend, kv: KV, repo: Repo, p: string, v: string, env: Env) {
    Represents(b, kv, repo) && p in repo && Serves(env, repo[p].sig.paramTypes) ==>
      KeepsContract(EvalEntry(OneByVersion(b, kv, p, v), env), repo[p].sig)
  }

  ghost predicate AlwaysKeepsContract(b: Backend, p: string, v: string) {
    forall kv: KV, repo: Repo, e: Env :: ContractKept(b, kv, repo, p, v, e)
  }

  /** On every store and for all parameters that serve the signature of p, evaluating what (p, v) asks
      for keeps the contract, if and only if the key asked for can hold no entry of another path. */
  lemma OwnPathIsExact(b: Backend, p: string, v: string)
    requires Equipped(b) && b.isName(p)
    ensures AlwaysKeepsContract(b, p, v) <==> OwnPath(b, p, v)
  {
    if OwnPath(b, p, v) {
      forall kv: KV, repo: Repo, e: Env ensures ContractKept(b, kv, repo, p, v, e) {
        if Represents(b, kv, repo) && p in repo && Serves(e, repo[p].sig.paramTypes) {
          StoreKeepsContract(b, kv, repo, p, v, e);
        }
      }
    } else {
      var mine, other, env, w :| Distinguish(b, mine, other, env) && b.isVersion(w);
      var kv, repo := BreaksContract(b, p, v, mine, other, env, w);
      assert !ContractKept(b, kv, repo, p, v, env);
    }
  }

  lemma BreaksContract(b: Backend, p: string, v: string, mine: Ruleset, other: Ruleset, env: Env, w: string)
    returns (kv: KV, repo: Repo)
    requires Good(b) && b.isName(p) && Distinguish(b, mine, other, env) && b.isVersion(w) && !OwnPath(b, p, v)
    ensures Represents(b, kv, repo) && p in repo && Serves(env, repo[p].sig.paramTypes)
    ensures !KeepsContract(EvalEntry(OneByVersion(b, kv, p, v), env), repo[p].sig)
  {
    EmptyRepresents(b);
    HarmlessSignature(b, mine);
    kv := PutFirst(b, map[], map[], p, w, mine);
    repo := map[][p := History(SignatureOf(mine), [Entry(p, w, mine)])];
    if !b.isEntryKey(b.entryKey(p, v)) {
      kv, repo := FillKey(b, kv, repo, b.entryKey(p, v), mine, w);
    } else {
      var q, u :| b.isName(q) && b.isVersion(u) && b.entryKey(q, u) == b.entryKey(p, v) && q != p;
      kv := PutFirst(b, kv, repo, q, u, other);
      repo := repo[q := History(SignatureOf(other), [Entry(q, u, other)])];
      ReadsOther(b, kv, repo, p, v, Entry(q, u, other), env);
    }
  }

  /** Reading the entry of a ruleset of another type. */
  lemma ReadsOther(b: Backend, kv: KV, repo: Repo, p: string, v: string, e: Entry, env: Env)
    requires Represents(b, kv, repo) && IsEntryOf(repo, e) && p != "" && p in repo && b.entryKey(e.path, e.version) == b.entryKey(p, v)
    requires EvalRuleset(e.ruleset, env).Ok? && EvalRuleset(e.ruleset, env).value.typ != repo[p].sig.returnType
    ensures !KeepsContract(EvalEntry(OneByVersion(b, kv, p, v), env), repo[p].sig)
  {
    RecordedReads(b, kv, repo, e);
  }

  ghost predicate LatestRight(b: Backend, kv: KV, repo: Repo, p: string) {
    Represents(b, kv, repo) ==> Latest(b, kv, p) == AbsLatest(repo, p)
  }

  ghost predicate LatestAlwaysRight(b: Backend, p: string) {
    forall kv: KV, repo: Repo :: LatestRight(b, kv, repo, p)
  }

  /** On every store, asking for the latest version of any string p gives that of the path p or
      nothing, if and only if p is a name or its pointer key is never written. */
  lemma LatestIsExact(b: Backend, p: string)
    requires Equipped(b) && p != ""
    ensures LatestAlwaysRight(b, p) <==> b.isName(p) || Dead(b, b.latestKey(p))
  {
    if b.isName(p) || Dead(b, b.latestKey(p)) {
      forall kv: KV, repo: Repo ensures LatestRight(b, kv, repo, p) {
        if Represents(b, kv, repo) { LatestOfLegal(b, kv, repo, p); }
      }
    } else {
      var rs, other, env, w :| Distinguish(b, rs, other, env) && b.isVersion(w);
      var kv, repo := LatestWrong(b, p, rs, w);
      assert !LatestRight(b, kv, repo, p);
    }
  }

  lemma LatestOfLegal(b: Backend, kv: KV, repo: Repo, p: string)
    requires Represents(b, kv, repo) && p != "" && (b.isName(p) || Dead(b, b.latestKey(p)))
    ensures Latest(b, kv, p) == AbsLatest(repo, p)
  {
    if b.isName(p) {
      LatestRefines(b, kv, repo, p);
    } else {
      OnlyNames(b, repo, p);
      if b.latestKey(p) in kv { var e := EntryAtKey(b, kv, repo, b.latestKey(p)); }
    }
  }

  lemma OnlyNames(b: Backend, repo: Repo, p: string)
    requires RepoOk(b, repo) && !b.isName(p)
    ensures p !in repo
  {
  }

  lemma LatestWrong(b: Backend, p: string, rs: Ruleset, w: string) returns (kv: KV, repo: Repo)
    requires Good(b) && p != "" && Harmless(b, rs) && b.isVersion(w) && !b.isName(p) && !Dead(b, b.latestKey(p))
    ensures Represents(b, kv, repo) && Latest(b, kv, p) != AbsLatest(repo, p)
  {
    var k := b.latestKey(p);
    EmptyRepresents(b);
    if b.isEntryKey(k) {
      var q, u :| b.isName(q) && b.isVersion(u) && b.entryKey(q, u) == k;
      kv := PutFirst(b, map[], map[], q, u, rs);
      repo := map[][q := History(SignatureOf(rs), [Entry(q, u, rs)])];
      RecordedReads(b, kv, repo, Entry(q, u, rs));
    } else {
      kv, repo := FillKey(b, map[], map[], k, rs, w);
      FilledPointer(b, kv, repo, p);
    }
    OnlyNames(b, repo, p);
  }

  lemma FilledPointer(b: Backend, kv: KV, repo: Repo, p: string)
    requires Represents(b, kv, repo) && p != ""
    requires var k := b.latestKey(p);
             Read(kv, k).Checksum? || Read(kv, k).Sig? || exists q :: q in repo && k == b.latestKey(q) && b.isName(q)
    ensures Latest(b, kv, p) != Err(NotFound)
  {
    if !Read(kv, b.latestKey(p)).Checksum? && !Read(kv, b.latestKey(p)).Sig? {
      var q :| q in repo && b.latestKey(p) == b.latestKey(q) && b.isName(q);
      SamePointer(b, kv, p, q);
      LatestRefines(b, kv, repo, q);
    }
  }

  lemma SamePointer(b: Backend, kv: KV, p: string, q: string)
    requires p != "" && q != "" && b.latestKey(p) == b.latestKey(q)
    ensures Latest(b, kv, p) == Latest(b, kv, q)
  {
  }

  // ---- Regula ----

  /** The string before the last slash and the one behind it. */
  function SplitLast(s: string): Option<(string, string)> {
    if s == "" then None
    else
      var init, c := s[..|s| - 1], s[|s| - 1];
      if c == '/' then Some((init, ""))
      else match SplitLast(init)
        case Some(parts) => Some((parts.0, parts.1 + [c]))
        case None => None
  }

  lemma {:induction false} SplitLastExact(s: string, d: string, f: string)
    ensures SplitLast(s) == Some((d, f)) <==> s == d + "/" + f && '/' !in f
    decreases |s|
  {
    if s != "" {
      var init, c := s[..|s| - 1], s[|s| - 1];
      if c != '/' {
        if f != "" { SplitLastExact(init, d, f[..|f| - 1]); }
        var r := SplitLast(init);
        if r.Some? { SplitLastExact(init, r.value.0, r.value.1); }
        if s == d + "/" + f && f != "" {
          assert init == d + "/" + f[..|f| - 1] && f == f[..|f| - 1] + [c];
        }
        if SplitLast(s) == Some((d, f)) {
          assert f[..|f| - 1] == r.value.1;
          assert s == init + [c];
        }
      } else {
        if s == d + "/" + f && f != "" { assert f[|f| - 1] == c; }
        if s == d + "/" + "" { assert init == d; }
      }
    }
  }

  /** The version that a key belongs to, read off its text. */
  function Addressee(ns: string, k: string): Option<(string, string)> {
    var dir := Root(ns) + ("/" + "entries") + "/";
    if !(dir <= k) then None
    else match SplitLast(k[|dir|..])
      case Some(parts) => if IsRulesetName(parts.0) && IsPlain(parts.1) then Some(parts) else None
      case None => None
  }

  lemma AddresseeExact(ns: string, k: string, q: string, w: string)
    ensures Addressee(ns, k) == Some((q, w)) <==> IsRulesetName(q) && IsPlain(w) && EntryKey(ns, q, w) == k
  {
    if IsRulesetName(q) && IsPlain(w) {
      Layout(ns, q, w);
      AddresseeOf(Root(ns) + ("/" + "entries"), k, q, w);
    }
  }

  lemma AddresseeOf(r: string, k: string, q: string, w: string)
    requires '/' !in w
    ensures r + "/" <= k && SplitLast(k[|r + "/"|..]) == Some((q, w)) <==> k == r + ("/" + q + "/" + w)
  {
    var dir := r + "/";
    if dir <= k {
      var rest := k[|dir|..];
      assert k == dir + rest;
      SplitLastExact(rest, q, w);
      assert r + ("/" + q + "/" + w) == dir + (q + "/" + w);
    } else {
      assert r + ("/" + q + "/" + w) == dir + (q + "/" + w);
    }
  }

  predicate InEntries(ns: string, k: string) { Root(ns) + ("/" + "entries") <= k }

  /** A caller can tell from the key alone whether a request is proper. */
  lemma RegulaProper(ns: string, sum: Json -> string, p: string, v: string)
    ensures var k := EntryKey(ns, p, v);
            && (Proper(Regula(ns, sum), p, v) <==>
                  InEntries(ns, k) && (Addressee(ns, k) == None || Addressee(ns, k) == Some((p, v))))
            && (OwnPath(Regula(ns, sum), p, v) <==>
                  InEntries(ns, k) && (Addressee(ns, k) == None || Addressee(ns, k).value.0 == p))
  {
    var b, k := Regula(ns, sum), EntryKey(ns, p, v);
    forall q, w | IsRulesetName(q) && IsPlain(w)
      ensures b.entryKey(q, w) == k <==> Addressee(ns, k) == Some((q, w))
    {
      AddresseeExact(ns, k, q, w);
    }
    if Addressee(ns, k).Some? {
      var a := Addressee(ns, k).value;
      AddresseeExact(ns, k, a.0, a.1);
      assert b.isName(a.0) && b.isVersion(a.1) && b.entryKey(a.0, a.1) == b.entryKey(p, v);
    }
  }

  function Always(v: Value): Ruleset { Ruleset([Rule(Lit(TRUE), v)], v.typ) }

  lemma AlwaysIsHarmless(ns: string, sum: Json -> string, v: Value, env: Env)
    requires KnownType(v.typ)
    ensures Harmless(Regula(ns, sum), Always(v)) && EvalRuleset(Always(v), env) == Ok(v)
  {
    RegulaIsGood(ns, sum);
    var rules := Always(v).rules;
    assert rules[1..] == [] && RulesOccurrences([]) == [];
    assert RulesOccurrences(rules) == [];
    assert Storable(Always(v));
    assert TRUE.data == "true";
    assert EvalRule(rules[0], env) == Ok(v);
  }

  lemma Distinguished(ns: string, sum: Json -> string, x: Value, y: Value, env: Env)
    requires KnownType(x.typ) && KnownType(y.typ) && x.typ != y.typ && !env.params.Nil?
    ensures Distinguish(Regula(ns, sum), Always(x), Always(y), env)
  {
    AlwaysIsHarmless(ns, sum, x, env);
    AlwaysIsHarmless(ns, sum, y, env);
  }

  lemma Equip(b: Backend, mine: Ruleset, other: Ruleset, env: Env, w: string)
    requires Good(b) && (forall rs | Survives(b, rs) :: Storable(rs)) && Distinguish(b, mine, other, env) && b.isVersion(w)
    ensures Equipped(b)
  {
  }

  lemma RegulaIsEquipped(ns: string, sum: Json -> string)
    ensures Equipped(Regula(ns, sum))
  {
    var env := Env(Typed(map[]), Floats((x, y) => Unreadable, x => None));
    var x, y := MakeValue("string", ""), MakeValue("bool", "");
    RegulaIsGood(ns, sum);
    assert |x.typ| != |y.typ|;
    Distinguished(ns, sum, x, y, env);
    Equip(Regula(ns, sum), Always(x), Always(y), env, "0");
  }

  /** Exactly which requests for a version are answered with that version of that path or nothing. */
  lemma RegulaReadsExact(ns: string, sum: Json -> string, p: string, v: string)
    requires p != ""
    ensures var k := EntryKey(ns, p, v);
            AlwaysReadsRight(Regula(ns, sum), p, v) <==>
              InEntries(ns, k) && (Addressee(ns, k) == None || Addressee(ns, k) == Some((p, v)))
  {
    RegulaIsEquipped(ns, sum);
    RegulaProper(ns, sum, p, v);
    ProperIsExact(Regula(ns, sum), p, v);
  }

  /** Exactly which requests for a version keep the contract of the path they name. */
  lemma RegulaContractExact(ns: string, sum: Json -> string, p: string, v: string)
    requires IsRulesetName(p)
    ensures var k := EntryKey(ns, p, v);
            AlwaysKeepsContract(Regula(ns, sum), p, v) <==>
              InEntries(ns, k) && (Addressee(ns, k) == None || Addressee(ns, k).value.0 == p)
  {
    RegulaIsEquipped(ns, sum);
    RegulaProper(ns, sum, p, v);
    OwnPathIsExact(Regula(ns, sum), p, v);
  }

  /** Exactly which requests for the latest version are answered with that of the path or nothing. */
  lemma RegulaLatestExact(ns: string, sum: Json -> string, p: string)
    requires p != ""
    ensures var k := LatestKey(ns, p);
            LatestAlwaysRight(Regula(ns, sum), p) <==>
              IsRulesetName(p) || (InEntries(ns, k) && Addressee(ns, k) == None)
  {
    RegulaIsEquipped(ns, sum);
    RegulaDead(ns, sum, LatestKey(ns, p));
    LatestIsExact(Regula(ns, sum), p);
  }

  lemma RegulaDead(ns: string, sum: Json -> string, k: string)
    ensures Dead(Regula(ns, sum), k) <==> InEntries(ns, k) && Addressee(ns, k) == None
  {
    var b := Regula(ns, sum);
    forall q, w | IsRulesetName(q) && IsPlain(w)
      ensures b.entryKey(q, w) == k <==> Addressee(ns, k) == Some((q, w))
    {
      AddresseeExact(ns, k, q, w);
    }
    if Addressee(ns, k).Some? {
      var a := Addressee(ns, k).value;
      AddresseeExact(ns, k, a.0, a.1);
      assert b.isName(a.0) && b.isVersion(a.1) && b.entryKey(a.0, a.1) == k;
    }
  }

  /** A request can find the version it names if and only if the version name is plain. */
  lemma FindsOwnVersion(ns: string, p: string, v: string)
    requires IsRulesetName(p)
    ensures Addressee(ns, EntryKey(ns, p, v)) == Some((p, v)) <==> IsPlain(v)
  {
    AddresseeExact(ns, EntryKey(ns, p, v), p, v);
  }

  /** A plain version name is always proper. */
  lemma PlainIsProper(ns: string, sum: Json -> string, p: string, v: string)
    requires IsRulesetName(p) && IsPlain(v)
    ensures Proper(Regula(ns, sum), p, v) && OwnPath(Regula(ns, sum), p, v)
  {
    RegulaIsGood(ns, sum);
    VersionIsProper(Regula(ns, sum), p, v);
  }

  /** A version with a slash is read from another path: asking path p for version x/w reads version w
      of path p/x, or nothing when p/x is no name. */
  lemma SlashVersion(ns: string, sum: Json -> string, p: string, x: string, w: string)
    requires IsRulesetName(p) && AllPlain(Split(x)) && IsPlain(w)
    ensures var k := EntryKey(ns, p, x + "/" + w);
            && InEntries(ns, k)
            && Addressee(ns, k) == (if IsRulesetName(p + "/" + x) then Some((p + "/" + x, w)) else None)
    ensures Proper(Regula(ns, sum), p, x + "/" + w) <==> !IsRulesetName(p + "/" + x)
  {
    NameSegments(p);
    SlashKey(ns, "rulesets", "entries", p, x, w);
    AddresseeOf(Root(ns) + ("/" + "entries"), EntryKey(ns, p, x + "/" + w), p + "/" + x, w);
    RegulaProper(ns, sum, p, x + "/" + w);
  }

  lemma SlashKey(ns: string, mid: string, family: string, p: string, x: string, w: string)
    requires IsPlain(mid) && IsPlain(family) && IsPlain(w) && AllPlain(Split(p)) && AllPlain(Split(x))
    ensures Join([ns, mid, family, p, x + "/" + w]) == Join([ns, mid]) + ("/" + family) + ("/" + (p + "/" + x) + "/" + w)
    ensures Join([ns, mid, family, p, x + "/" + w]) == Join([ns, mid, family, p + "/" + x, w])
  {
    SplitPlain(w);
    SplitConcat(x, w);
    SplitConcat(p, x);
    SplitThree(family, p, x + "/" + w);
    SplitThree(family, p + "/" + x, w);
    SplitPlain(family);
    Assoc([family] + Split(p), Split(x), [w]);
    Assoc([family], Split(p), Split(x));
    JoinPlain(ns, mid, [family, p, x + "/" + w]);
    JoinPlain(ns, mid, [family, p + "/" + x, w]);
    assert [ns, mid] + [family, p, x + "/" + w] == [ns, mid, family, p, x + "/" + w];
    assert [ns, mid] + [family, p + "/" + x, w] == [ns, mid, family, p + "/" + x, w];
    EntryBelow(ns, mid, family, p + "/" + x, w);
  }
}
