/** The etcd-backed store: keys, the Put transaction and the reads, for one client at a time. */
module Store {
  import opened Prelude
  import opened Expr
  import opened Rulesets
  import opened Codec
  import opened Backends
  import N = Names

  datatype Entry = Entry(path: string, version: string, ruleset: Ruleset)

  /** What a key holds; reading a missing key gives Absent, as stm.Get gives "". */
  datatype Blob =
    | Absent
    | Checksum(sum: string)
    | Sig(sig: Signature)
    | Pointer(key: string)
    | Doc(path: string, version: string, ruleset: Json)

  datatype Cell = Cell(val: Blob, modRev: nat)

  type KV = map<string, Cell>

  function Read(kv: KV, k: string): Blob {
    if k in kv then kv[k].val else Absent
  }

  /** etcd's modification revision, 0 for a missing key. */
  function ModRev(kv: KV, k: string): nat {
    if k in kv then kv[k].modRev else 0
  }

  function SumOf(b: Backend, rs: Ruleset): string { b.sum(b.encode(rs)) }

  datatype PutResult =
    | Created(entry: Entry)
    | NotModified(entry: Entry)
    | Invalid
    | Broken

  datatype Tx = Tx(rset: set<string>, wset: map<string, Blob>, result: PutResult)

  // ---- Validation ----

  const RESERVED: seq<string> := ["version", "list", "eval", "watch", "revision"]

  predicate ValidParamName(name: string) {
    N.IsName(name, N.PARAM_SEPARATORS) && name !in RESERVED
  }

  predicate ValidArgs(b: Backend, path: string, rs: Ruleset) {
    b.isName(path) && forall p | p in RulesOccurrences(rs.rules) :: ValidParamName(p.name)
  }

  method ValidateParamNames(params: seq<Param>) returns (ok: bool)
    ensures ok <==> forall p | p in params :: ValidParamName(p.name)
  {
    for i := 0 to |params|
      invariant forall k | 0 <= k < i :: ValidParamName(params[k].name)
    {
      if !N.IsName(params[i].name, N.PARAM_SEPARATORS) { return false; }
      for w := 0 to |RESERVED|
        invariant forall k | 0 <= k < w :: RESERVED[k] != params[i].name
      {
        if params[i].name == RESERVED[w] { return false; }
      }
    }
    return true;
  }

  /** validateRuleset: the name, then the parameter names of every rule. */
  method ValidateRuleset(b: Backend, path: string, rs: Ruleset) returns (sig: Option<Signature>)
    ensures sig == if ValidArgs(b, path, rs) then Some(SignatureOf(rs)) else None
  {
    if !b.isName(path) { return None; }
    var s := NewSignature(rs);
    for i := 0 to |rs.rules|
      invariant forall p | p in RulesOccurrences(rs.rules[..i]) :: ValidParamName(p.name)
    {
      var params := RuleParams(rs.rules[i]);
      var ok := ValidateParamNames(params);
      assert rs.rules[..i + 1] == rs.rules[..i] + [rs.rules[i]];
      OccurrencesAppend(rs.rules[..i], rs.rules[i]);
      if !ok {
        OccurrencesSplit(rs.rules, i + 1);
        return None;
      }
    }
    assert rs.rules[..|rs.rules|] == rs.rules;
    return Some(s);
  }

  /** Every parameter of `other` is known to s with the same type, and the return types agree. */
  predicate MatchWith(s: Signature, other: Signature) {
    && s.returnType == other.returnType
    && forall n | n in other.paramTypes :: n in s.paramTypes && s.paramTypes[n] == other.paramTypes[n]
  }

  /** signature.matchWith: a loop over the map, in whatever order it comes. */
  method CheckSignature(s: Signature, other: Signature) returns (ok: bool)
    ensures ok <==> MatchWith(s, other)
  {
    if s.returnType != other.returnType { return false; }
    var todo := other.paramTypes.Keys;
    while todo != {}
      invariant todo <= other.paramTypes.Keys
      invariant forall n | n in other.paramTypes.Keys - todo :: n in s.paramTypes && s.paramTypes[n] == other.paramTypes[n]
      decreases |todo|
    {
      var name :| name in todo;
      if name !in s.paramTypes { return false; }
      if other.paramTypes[name] != s.paramTypes[name] { return false; }
      todo := todo - {name};
    }
    return true;
  }

  // ---- The transaction ----

  /** The four keys one Put may touch. */
  datatype Keys = Keys(checksum: string, signature: string, latest: string, entry: string)

  function KeysOf(b: Backend, path: string, version: string): Keys {
    Keys(b.checksumKey(path), b.signatureKey(path), b.latestKey(path), b.entryKey(path, version))
  }

  /** The closure of Put against one snapshot: the keys it reads, the writes it buffers, its result. */
  function RunTx(b: Backend, kv: KV, path: string, rs: Ruleset, version: string): Tx {
    RunOn(b, KeysOf(b, path, version), SumOf(b, rs), kv, path, rs, version)
  }

  function RunOn(b: Backend, ks: Keys, sum: string, kv: KV, path: string, rs: Ruleset, version: string): Tx {
    if Read(kv, ks.checksum) == Checksum(sum) then
      match Read(kv, ks.latest)
      case Pointer(k) => Tx({ks.checksum, ks.latest, k}, map[], DecodeEntry(b, Read(kv, k)))
      case _ => Tx({ks.checksum, ks.latest}, map[], Broken)
    else
      var seen := {ks.checksum, ks.signature};
      var entry := Entry(path, version, rs);
      match Read(kv, ks.signature)
      case Sig(cur) =>
        if MatchWith(cur, SignatureOf(rs))
        then Tx(seen, NewVersion(b, ks, sum, map[], entry), Created(entry))
        else Tx(seen, map[], Invalid)
      case Absent =>
        Tx(seen, NewVersion(b, ks, sum, map[ks.signature := Sig(SignatureOf(rs))], entry), Created(entry))
      case _ => Tx(seen, map[], Broken)
  }

  function DecodeEntry(b: Backend, raw: Blob): PutResult {
    match raw
    case Doc(p, v, j) => (match b.decode(j) case Ok(r) => NotModified(Entry(p, v, r)) case Err(_) => Broken)
    case _ => Broken
  }

  function DocOf(b: Backend, e: Entry): Blob { Doc(e.path, e.version, b.encode(e.ruleset)) }

  /** The three writes every new version makes, on top of those made before. */
  function NewVersion(b: Backend, ks: Keys, sum: string, base: map<string, Blob>, e: Entry): map<string, Blob> {
    base[ks.checksum := Checksum(sum)][ks.entry := DocOf(b, e)][ks.latest := Pointer(ks.entry)]
  }

  /** etcd's software transaction: reads come from one snapshot (or the own writes), writes wait. */
  class Stm {
    const snapshot: KV
    var rset: set<string>
    var wset: map<string, Blob>

    constructor (kv: KV)
      ensures snapshot == kv && rset == {} && wset == map[]
    {
      snapshot := kv;
      rset := {};
      wset := map[];
    }

    method Get(k: string) returns (v: Blob)
      modifies this
      ensures wset == old(wset)
      ensures k in wset ==> v == wset[k] && rset == old(rset)
      ensures k !in wset ==> v == Read(snapshot, k) && rset == old(rset) + {k}
    {
      if k in wset { return wset[k]; }
      rset := rset + {k};
      return Read(snapshot, k);
    }

    method Put(k: string, v: Blob)
      modifies this
      ensures wset == old(wset)[k := v] && rset == old(rset)
    {
      wset := wset[k := v];
    }
  }

  /** The variable that Put's closure captures. */
  class PutCall {
    var entry: Option<Entry>

    constructor ()
      ensures entry == None
    {
      entry := None;
    }

    /** One run of the closure: it reads and writes through stm and leaves its entry in the capture. */
    method Attempt(b: Backend, stm: Stm, path: string, rs: Ruleset, sig: Signature, version: string)
      returns (result: PutResult)
      requires stm.rset == {} && stm.wset == map[] && sig == SignatureOf(rs)
      modifies this, stm
      ensures Tx(stm.rset, stm.wset, result) == RunTx(b, stm.snapshot, path, rs, version)
      ensures entry == match result
                case Created(e) => Some(e)
                case NotModified(e) => Some(e)
                case _ => old(entry)
    {
      var ks := KeysOf(b, path, version);
      var checksum := SumOf(b, rs);
      var known := stm.Get(ks.checksum);
      if known == Checksum(checksum) {
        var latest := stm.Get(ks.latest);
        if !latest.Pointer? { return Broken; }
        var raw := stm.Get(latest.key);
        result := DecodeEntry(b, raw);
        if result.NotModified? { entry := Some(result.entry); }
        return;
      }
      var rawSig := stm.Get(ks.signature);
      if rawSig != Absent {
        if !rawSig.Sig? { return Broken; }
        var ok := CheckSignature(rawSig.sig, sig);
        if !ok { return Invalid; }
      }
      if rawSig == Absent {
        stm.Put(ks.signature, Sig(sig));
      }
      var re := Entry(path, version, rs);
      stm.Put(ks.checksum, Checksum(checksum));
      stm.Put(ks.entry, DocOf(b, re));
      stm.Put(ks.latest, Pointer(ks.entry));
      entry := Some(re);
      return Created(re);
    }
  }

  function Apply(kv: KV, writes: map<string, Blob>, rev: nat): KV {
    kv + map k | k in writes :: Cell(writes[k], rev)
  }

  /** Put with the store to itself: the store after it, and its result. */
  function SeqPut(b: Backend, kv: KV, rev: nat, path: string, rs: Ruleset, version: string): (KV, PutResult) {
    if !ValidArgs(b, path, rs) then (kv, Invalid)
    else
      var tx := RunTx(b, kv, path, rs, version);
      (Apply(kv, tx.wset, rev), tx.result)
  }

  // ---- Reads ----

  datatype ReadError = NotFound | Undecodable

  function EntryAt(b: Backend, raw: Blob): Result<Entry, ReadError> {
    match raw
    case Absent => Err(NotFound)
    case Doc(p, v, j) => (match b.decode(j) case Ok(r) => Ok(Entry(p, v, r)) case Err(_) => Err(Undecodable))
    case _ => Err(Undecodable)
  }

  /** Latest makes two requests: the pointer is read from `first`, the entry from `second`. */
  function LatestFrom(b: Backend, first: KV, second: KV, path: string): Result<Entry, ReadError> {
    if path == "" then Err(NotFound)
    else match Read(first, b.latestKey(path))
      case Absent => Err(NotFound)
      case Pointer(k) => if k in second then EntryAt(b, second[k].val) else Err(Undecodable)
      case _ => Err(Undecodable)
  }

  /** Latest on a store that does not change in between. */
  function Latest(b: Backend, kv: KV, path: string): Result<Entry, ReadError> { LatestFrom(b, kv, kv, path) }

  function OneByVersion(b: Backend, kv: KV, path: string, version: string): Result<Entry, ReadError> {
    if path == "" then Err(NotFound) else EntryAt(b, Read(kv, b.entryKey(path, version)))
  }

  datatype EvalReply = Evaluated(value: Value, version: string) | NoRuleset | EvalFailed(error: EvalError) | StoreFailed

  function EvalEntry(found: Result<Entry, ReadError>, env: Env): EvalReply {
    match found
    case Err(NotFound) => NoRuleset
    case Err(Undecodable) => StoreFailed
    case Ok(e) =>
      match EvalRuleset(e.ruleset, env)
      case Ok(v) => Evaluated(v, e.version)
      case Err(x) => EvalFailed(x)
  }
}
