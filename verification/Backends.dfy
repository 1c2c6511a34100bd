/** The pure ingredients of the store: names, key layout, JSON codec and checksum. */
module Backends {
  import opened Prelude
  import opened Rulesets
  import opened Codec
  import Bytes
  import KeyLayout
  import Names
  import Paths

  datatype Backend = Backend(
    isName: string -> bool,
    isVersion: string -> bool,
    checksumKey: string -> string,
    signatureKey: string -> string,
    latestKey: string -> string,
    entryKey: (string, string) -> string,
    isEntryKey: string -> bool,
    cursorOf: (string, string) -> string,
    encode: Ruleset -> Json,
    decode: Json -> Decoded<Ruleset>,
    sum: Json -> string)

  /** Keys of two paths and versions meet only where they have to, and only entry keys look like
      entry keys. */
  ghost predicate KeysApart(b: Backend, p: string, v: string, q: string, w: string) {
    && b.isEntryKey(b.entryKey(q, w))
    && !b.isEntryKey(b.checksumKey(p)) && !b.isEntryKey(b.signatureKey(p)) && !b.isEntryKey(b.latestKey(p))
    && b.checksumKey(q) != b.signatureKey(p)
    && b.checksumKey(q) != b.latestKey(p)
    && b.signatureKey(q) != b.latestKey(p)
    && b.signatureKey(q) != b.checksumKey(p)
    && b.latestKey(q) != b.checksumKey(p)
    && b.latestKey(q) != b.signatureKey(p)
    && (p != q ==> b.checksumKey(p) != b.checksumKey(q) && b.signatureKey(p) != b.signatureKey(q)
                   && b.latestKey(p) != b.latestKey(q))
    && (b.entryKey(p, v) == b.entryKey(q, w) ==> p == q && v == w)
  }

  /** The cursor behind an entry is the successor of its key. */
  ghost predicate CursorFollows(b: Backend, p: string, v: string) {
    b.entryKey(b.cursorOf(p, v), "") == b.entryKey(p, v) + Bytes.ZERO
  }

  /** Among the versions of one path, key order is version order. */
  ghost predicate KeysInOrder(b: Backend, p: string, v: string, w: string) {
    Bytes.Less(b.entryKey(p, v), b.entryKey(p, w)) <==> Bytes.Less(v, w)
  }

  /** What the store relies on. */
  ghost predicate Good(b: Backend) {
    && (forall p, v, q, w | b.isName(p) && b.isVersion(v) && b.isName(q) && b.isVersion(w) :: KeysApart(b, p, v, q, w))
    && (forall p, v | b.isName(p) && b.isVersion(v) :: CursorFollows(b, p, v))
    && (forall p, v, w | b.isName(p) && b.isVersion(v) && b.isVersion(w) :: KeysInOrder(b, p, v, w))
    && !b.isName("")
  }

  /** The key asked for with (p, v) can hold no entry but version v of path p. */
  ghost predicate Proper(b: Backend, p: string, v: string) {
    && b.isEntryKey(b.entryKey(p, v))
    && forall q, w | b.isName(q) && b.isVersion(w) :: b.entryKey(q, w) == b.entryKey(p, v) ==> q == p && w == v
  }

  /** The key asked for with (p, v) can hold no entry of another path. */
  ghost predicate OwnPath(b: Backend, p: string, v: string) {
    && b.isEntryKey(b.entryKey(p, v))
    && forall q, w | b.isName(q) && b.isVersion(w) :: b.entryKey(q, w) == b.entryKey(p, v) ==> q == p
  }

  lemma VersionIsProper(b: Backend, p: string, v: string)
    requires Good(b) && b.isName(p) && b.isVersion(v)
    ensures Proper(b, p, v) && OwnPath(b, p, v)
  {
    assert KeysApart(b, p, v, p, v);
    forall q, w | b.isName(q) && b.isVersion(w) ensures b.entryKey(q, w) == b.entryKey(p, v) ==> q == p && w == v {
      assert KeysApart(b, p, v, q, w);
    }
  }

  /** Writing a ruleset and reading it back gives the same ruleset. */
  predicate Survives(b: Backend, rs: Ruleset) {
    b.decode(b.encode(rs)) == Ok(rs)
  }

  /** The ingredients Regula uses, for any namespace and any checksum function. */
  function Regula(ns: string, sum: Json -> string): Backend {
    Backend(
      Names.IsRulesetName,
      Paths.IsPlain,
      p => KeyLayout.ChecksumKey(ns, p),
      p => KeyLayout.SignatureKey(ns, p),
      p => KeyLayout.LatestKey(ns, p),
      (p, v) => KeyLayout.EntryKey(ns, p, v),
      k => KeyLayout.Root(ns) + ("/" + "entries") <= k,
      (p, v) => Paths.Join([p, v + Bytes.ZERO]),
      EncodeRuleset,
      DecodeRuleset,
      sum)
  }

  /** For every namespace and checksum function the ingredients are good, and a ruleset survives
      storage exactly when it is storable. */
  lemma RegulaIsGood(ns: string, sum: Json -> string)
    ensures Good(Regula(ns, sum))
    ensures forall rs :: Survives(Regula(ns, sum), rs) <==> Storable(rs)
  {
    var b := Regula(ns, sum);
    forall p, v, q, w | b.isName(p) && b.isVersion(v) && b.isName(q) && b.isVersion(w)
      ensures KeysApart(b, p, v, q, w)
    {
      RegulaKeysApart(ns, sum, p, v, q, w);
    }
    forall p, v | b.isName(p) && b.isVersion(v)
      ensures CursorFollows(b, p, v)
    {
      KeyLayout.CursorKey(ns, p, v);
    }
    forall p, v, w | b.isName(p) && b.isVersion(v) && b.isVersion(w)
      ensures KeysInOrder(b, p, v, w)
    {
      KeyLayout.VersionOrder(ns, p, v, w);
    }
    forall rs
      ensures Survives(b, rs) <==> Storable(rs)
    {
      RulesetRoundTrip(rs);
    }
  }

  lemma RegulaKeysApart(ns: string, sum: Json -> string, p: string, v: string, q: string, w: string)
    requires Names.IsRulesetName(p) && Names.IsRulesetName(q) && Paths.IsPlain(v) && Paths.IsPlain(w)
    ensures KeysApart(Regula(ns, sum), p, v, q, w)
  {
    var b := Regula(ns, sum);
    KeyLayout.FamiliesDisjoint(ns, p, v);
    KeyLayout.FamiliesDisjoint(ns, q, w);
    KeyLayout.PointerKeysInjective(ns, p, q);
    KeyLayout.EntryPrefix(ns, q, w);
    KeyLayout.NotEntries(ns, b.checksumKey(p));
    KeyLayout.NotEntries(ns, b.signatureKey(p));
    KeyLayout.NotEntries(ns, b.latestKey(p));
    if b.entryKey(p, v) == b.entryKey(q, w) { KeyLayout.EntryKeysInjective(ns, p, v, q, w); }
  }
}
