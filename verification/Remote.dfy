/** Evaluating on the server with query-encoded parameters, compared with evaluating locally. */
module Remote {
  import opened Prelude
  import opened Strconv
  import opened Expr
  import opened Rulesets
  import opened Backends
  import opened Store
  import opened Ledger
  import Engine

  // ---- The query string ----

  /** A query string: every key with its values, in the order in which they were added. */
  type QueryString = map<string, seq<string>>

  function AddTo(q: QueryString, k: string, v: string): QueryString {
    q[k := (if k in q then q[k] else []) + [v]]
  }

  /** Params.EncodeValue */
  function EncodeArg(a: Arg): Option<string> {
    match a
    case StrArg(s) => Some(s)
    case IntArg(i) => Some(FormatInt(i))
    case FloatArg(t) => Some(t)
    case BoolArg(b) => Some(FormatBool(b))
    case OtherArg => None
  }

  predicate Simple(a: Arg) { a.StrArg? || a.BoolArg? || a.IntArg? }

  /** Parameters that the query string can carry: simple values under unreserved names. */
  ghost predicate Sendable(args: map<string, Arg>) {
    forall n | n in args :: Simple(args[n]) && n !in RESERVED
  }

  /** What the server reads from the query: the marker, the parameters, and the version if given. */
  function Received(args: map<string, Arg>, version: string): map<string, string> {
    if version != "" then Marked(args)["version" := version] else Marked(args)
  }

  function Marked(args: map<string, Arg>): map<string, string> {
    (map n | n in args && EncodeArg(args[n]).Some? :: EncodeArg(args[n]).value)["eval" := ""]
  }

  ghost predicate Enumerates(keys: seq<string>, args: map<string, Arg>) {
    && (forall k :: k in keys <==> k in args)
    && forall i, j | 0 <= i < j < |keys| :: keys[i] != keys[j]
  }

  /** The query with the marker and the parameters of these keys; None when one has no text. */
  function Encoded(args: map<string, Arg>, keys: seq<string>): Option<QueryString>
    requires forall k | k in keys :: k in args
  {
    if keys == [] then Some(AddTo(map[], "eval", ""))
    else
      var last := keys[|keys| - 1];
      match (Encoded(args, keys[..|keys| - 1]), EncodeArg(args[last]))
      case (Some(q), Some(v)) => Some(AddTo(q, last, v))
      case _ => None
  }

  function WithVersion(q: QueryString, version: string): QueryString {
    if version != "" then AddTo(q, "version", version) else q
  }

  /** EvalVersion on the client: the query is built key by key, in whatever order Keys returns. */
  method BuildQuery(args: map<string, Arg>, keys: seq<string>, version: string) returns (q: Option<QueryString>)
    requires Enumerates(keys, args)
    ensures q == match Encoded(args, keys)
      case Some(m) => Some(WithVersion(m, version))
      case None => None
  {
    var query := AddTo(map[], "eval", "");
    for i := 0 to |keys|
      invariant Encoded(args, keys[..i]) == Some(query)
    {
      assert keys[i] in keys && keys[..i + 1][..i] == keys[..i];
      var v := EncodeArg(args[keys[i]]);
      if v.None? {
        EncodedFails(args, keys, i);
        return None;
      }
      query := AddTo(query, keys[i], v.value);
    }
    assert keys[..|keys|] == keys;
    if version != "" { query := AddTo(query, "version", version); }
    return Some(query);
  }

  lemma {:induction false} EncodedFails(args: map<string, Arg>, keys: seq<string>, i: nat)
    requires (forall k | k in keys :: k in args) && i < |keys| && EncodeArg(args[keys[i]]).None?
    ensures Encoded(args, keys).None?
  {
    if i < |keys| - 1 { EncodedFails(args, keys[..|keys| - 1], i); }
  }

  /** What the server keeps: the first value of every key. */
  function FirstValues(q: QueryString): map<string, string> {
    map k | k in q && q[k] != [] :: q[k][0]
  }

  lemma {:induction false} EncodedHolds(args: map<string, Arg>, keys: seq<string>)
    requires Sendable(args) && (forall k | k in keys :: k in args)
    requires forall i, j | 0 <= i < j < |keys| :: keys[i] != keys[j]
    ensures Encoded(args, keys).Some?
    ensures var q := Encoded(args, keys).value;
            && (forall k :: k in q <==> k == "eval" || k in keys)
            && q["eval"] == [""]
            && forall k | k in keys :: EncodeArg(args[k]).Some? && q[k] == [EncodeArg(args[k]).value]
  {
    if keys != [] {
      var init, last := keys[..|keys| - 1], keys[|keys| - 1];
      assert keys == init + [last];
      EncodedHolds(args, init);
      assert last !in init && last in args && last != "eval";
    }
  }

  datatype Request = WatchRequest | ListRequest | EvalRequest | NoSuchRequest

  /** ServeHTTP: which kind of GET request a query string makes. */
  function RequestOf(q: QueryString): Request {
    if "watch" in q then WatchRequest
    else if "list" in q then ListRequest
    else if "eval" in q then EvalRequest
    else NoSuchRequest
  }

  /** Whatever the parameters are called, the query asks for an evaluation exactly when none of them is
      called like one of the other two requests. */
  lemma RequestExact(args: map<string, Arg>, keys: seq<string>, version: string)
    requires Enumerates(keys, args) && Encoded(args, keys).Some?
    ensures RequestOf(WithVersion(Encoded(args, keys).value, version)) == EvalRequest <==> "watch" !in args && "list" !in args
  {
    EncodedKeys(args, keys);
    DifferentLengths("watch", "eval");
    DifferentLengths("version", "eval");
    DifferentLengths("watch", "version");
    DifferentLengths("list", "version");
    assert "list"[0] != "eval"[0];
  }

  lemma {:induction false} EncodedKeys(args: map<string, Arg>, keys: seq<string>)
    requires (forall k | k in keys :: k in args) && Encoded(args, keys).Some?
    ensures forall k :: k in Encoded(args, keys).value <==> k == "eval" || k in keys
  {
    if keys != [] {
      EncodedKeys(args, keys[..|keys| - 1]);
      assert keys == keys[..|keys| - 1] + [keys[|keys| - 1]];
    }
  }

  /** The text sent for an argument is the text of the value that evaluating the parameter gives. */
  lemma SentIsValueText(p: Param, args: map<string, Arg>, fl: Floats)
    ensures var r := EvalParam(p, Env(Typed(args), fl));
            r.Ok? ==> p.name in args && EncodeArg(args[p.name]) == Some(r.value.data)
    ensures p.name in args ==> (EncodeArg(args[p.name]) == None <==> args[p.name].OtherArg?)
  {
  }

  /** Sendable parameters arrive: the server reads the marker, every parameter's text and the version,
      and neither of the other request kinds is asked for. */
  lemma QueryArrives(args: map<string, Arg>, keys: seq<string>, version: string)
    requires Sendable(args) && Enumerates(keys, args)
    ensures Encoded(args, keys).Some?
    ensures var q := WithVersion(Encoded(args, keys).value, version);
            FirstValues(q) == Received(args, version) && RequestOf(q) == EvalRequest
  {
    EncodedHolds(args, keys);
    ValuesArrive(args, keys, version);
    ReservedNames(args);
    RequestExact(args, keys, version);
  }

  lemma ValuesArrive(args: map<string, Arg>, keys: seq<string>, version: string)
    requires Sendable(args) && Enumerates(keys, args) && Encoded(args, keys).Some?
    ensures FirstValues(WithVersion(Encoded(args, keys).value, version)) == Received(args, version)
  {
    EncodedHolds(args, keys);
    ReservedNames(args);
    FirstOfEncoded(args, keys, Encoded(args, keys).value);
    if version != "" { FirstOfAdded(Encoded(args, keys).value, "version", version); }
  }

  lemma FirstOfEncoded(args: map<string, Arg>, keys: seq<string>, q: QueryString)
    requires Enumerates(keys, args) && "eval" !in args
    requires (forall k :: k in q <==> k == "eval" || k in keys) && q["eval"] == [""]
    requires forall k | k in keys :: EncodeArg(args[k]).Some? && q[k] == [EncodeArg(args[k]).value]
    ensures FirstValues(q) == Marked(args)
  {
    var m, n := FirstValues(q), Marked(args);
    forall k ensures (k in m <==> k in n) && (k in m ==> m[k] == n[k]) {
      if k in keys { assert k in args; }
    }
    assert m.Keys == n.Keys;
  }

  lemma FirstOfAdded(q: QueryString, k: string, v: string)
    requires k !in q
    ensures FirstValues(AddTo(q, k, v)) == FirstValues(q)[k := v]
  {
  }

  lemma ReservedNames(args: map<string, Arg>)
    requires Sendable(args)
    ensures "watch" !in args && "list" !in args && "version" !in args && "eval" !in args
    ensures "watch" != "eval" && "version" != "eval" && "list" != "eval" && "watch" != "version" && "list" != "version"
  {
    assert RESERVED[0] == "version" && RESERVED[1] == "list" && RESERVED[2] == "eval" && RESERVED[3] == "watch";
    DifferentLengths("watch", "eval");
    DifferentLengths("version", "eval");
    DifferentLengths("watch", "version");
    DifferentLengths("list", "version");
    assert "list"[0] != "eval"[0];
  }

  lemma DifferentLengths(a: string, b: string)
    ensures |a| != |b| ==> a != b
  {
  }

  // ---- Evaluation under the two parameter sets ----

  /** The received texts say the same as the local arguments, for one parameter. */
  lemma ParamAgrees(p: Param, args: map<string, Arg>, version: string, fl: Floats)
    requires Sendable(args) && p.name !in RESERVED
    ensures var local := EvalParam(p, Env(Typed(args), fl));
            local != Err(ParamTypeMismatch) ==> EvalParam(p, Env(Query(Received(args, version)), fl)) == local
  {
    var texts := Received(args, version);
    assert p.name in texts <==> p.name in args;
    if p.name in args {
      assert texts[p.name] == EncodeArg(args[p.name]).value;
      match args[p.name] {
        case StrArg(_) =>
        case BoolArg(x) => BoolRoundTrip(x);
        case IntArg(i) => IntRoundTrip(i);
      }
    }
  }

  ghost predicate Unreserved(ps: seq<Param>) {
    forall p | p in ps :: p.name !in RESERVED
  }

  lemma UnreservedParts(a: seq<Param>, c: seq<Param>)
    requires Unreserved(a + c)
    ensures Unreserved(a) && Unreserved(c)
  {
    assert forall p | p in a :: p in a + c;
    assert forall p | p in c :: p in a + c;
  }

  /** Unless local evaluation ends in a type mismatch, the outcomes are the same. */
  predicate Refines<T(==)>(remote: Outcome<T>, local: Outcome<T>) {
    local != Err(ParamTypeMismatch) ==> remote == local
  }

  lemma {:induction false} ExprAgrees(e: Expr, args: map<string, Arg>, version: string, fl: Floats)
    requires Sendable(args) && Unreserved(Occurrences(e))
    ensures Refines(Eval(e, Env(Query(Received(args, version)), fl)), Eval(e, Env(Typed(args), fl)))
    decreases e, 1
  {
    match e {
      case Lit(_) =>
      case Ref(p) => assert p in Occurrences(e); ParamAgrees(p, args, version, fl);
      case Oper(op, _, ops) =>
        if op == Or || op == And {
          ConnectiveAgrees(op, ops, args, version, fl);
        } else if ops != [] {
          FirstAgrees(op, ops, args, version, fl);
        }
    }
  }

  /** The operators that evaluate their first operand before anything else. */
  lemma {:induction false} FirstAgrees(op: Op, ops: seq<Expr>, args: map<string, Arg>, version: string, fl: Floats)
    requires ops != [] && op != Or && op != And
    requires Sendable(args) && Unreserved(AllOccurrences(ops))
    ensures forall kind :: Refines(Eval(Oper(op, kind, ops), Env(Query(Received(args, version)), fl)),
                                   Eval(Oper(op, kind, ops), Env(Typed(args), fl)))
    decreases ops, 0
  {
    UnreservedParts(Occurrences(ops[0]), AllOccurrences(ops[1..]));
    ExprAgrees(ops[0], args, version, fl);
    if op == Percentile {
      if |ops| == 2 {
        UnreservedParts(Occurrences(ops[1]), AllOccurrences(ops[1..][1..]));
        ExprAgrees(ops[1], args, version, fl);
      }
    } else if op != Not && op != FNV {
      var first := Eval(ops[0], Env(Typed(args), fl));
      if first.Ok? { AgainstAgrees(op, first.value, ops[1..], args, version, fl); }
    }
  }

  lemma {:induction false} ConnectiveAgrees(op: Op, ops: seq<Expr>, args: map<string, Arg>, version: string, fl: Floats)
    requires Sendable(args) && Unreserved(AllOccurrences(ops))
    ensures Refines(EvalConnective(op, ops, Env(Query(Received(args, version)), fl)), EvalConnective(op, ops, Env(Typed(args), fl)))
    decreases ops, 0
  {
    if ops != [] {
      UnreservedParts(Occurrences(ops[0]), AllOccurrences(ops[1..]));
      ExprAgrees(ops[0], args, version, fl);
      ConnectiveAgrees(op, ops[1..], args, version, fl);
    }
  }

  lemma {:induction false} AgainstAgrees(op: Op, a: Value, ops: seq<Expr>, args: map<string, Arg>, version: string, fl: Floats)
    requires Sendable(args) && Unreserved(AllOccurrences(ops))
    ensures Refines(EvalAgainst(op, a, ops, Env(Query(Received(args, version)), fl)), EvalAgainst(op, a, ops, Env(Typed(args), fl)))
    decreases ops, 0
  {
    if ops != [] {
      UnreservedParts(Occurrences(ops[0]), AllOccurrences(ops[1..]));
      ExprAgrees(ops[0], args, version, fl);
      AgainstAgrees(op, a, ops[1..], args, version, fl);
    }
  }

  lemma {:induction false} RulesAgree(rules: seq<Rule>, args: map<string, Arg>, version: string, fl: Floats)
    requires Sendable(args) && Unreserved(RulesOccurrences(rules))
    ensures Refines(EvalRules(rules, Env(Query(Received(args, version)), fl)), EvalRules(rules, Env(Typed(args), fl)))
  {
    if rules != [] {
      UnreservedParts(Occurrences(rules[0].expr), RulesOccurrences(rules[1..]));
      ExprAgrees(rules[0].expr, args, version, fl);
      RulesAgree(rules[1..], args, version, fl);
    }
  }

  // ---- End to end ----

  /** The server's eval handler: the version in the query decides which ruleset is evaluated, and the
      whole query serves as parameters. */
  function ServerEval(b: Backend, kv: KV, path: string, query: map<string, string>, fl: Floats): EvalReply {
    var found := if "version" in query then OneByVersion(b, kv, path, query["version"]) else Latest(b, kv, path);
    EvalEntry(found, Env(Query(query), fl))
  }

  /** A version in the query counts even if it is empty; only a query without one asks for the latest. */
  lemma AskedVersion(b: Backend, kv: KV, path: string, query: map<string, string>, fl: Floats)
    ensures "version" in query ==>
              ServerEval(b, kv, path, query, fl) == EvalEntry(OneByVersion(b, kv, path, query["version"]), Env(Query(query), fl))
    ensures "version" !in query ==> ServerEval(b, kv, path, query, fl) == EvalEntry(Latest(b, kv, path), Env(Query(query), fl))
  {
  }

  /** On a store that encodes some histories, with a buffer that agrees with it on the path, remote
      and local evaluation give the same reply unless the local one is a type mismatch. */
  lemma RemoteRefinesLocal(b: Backend, kv: KV, repo: Repo, m: Engine.Buffered, path: string, version: string,
                           args: map<string, Arg>, fl: Floats)
    requires Represents(b, kv, repo) && b.isName(path) && (version != "" ==> Proper(b, path, version))
    requires Engine.LatestIn(m, path) == Latest(b, kv, path)
    requires version != "" ==> Engine.VersionIn(m, path, version) == OneByVersion(b, kv, path, version)
    requires Sendable(args)
    ensures var local := Engine.Evaluate(m, path, version, Env(Typed(args), fl));
            var remote := ServerEval(b, kv, path, Received(args, version), fl);
            local != EvalFailed(ParamTypeMismatch) ==> remote == local
  {
    var query := Received(args, version);
    VersionArrives(args, version);
    var found := if version != "" then OneByVersion(b, kv, path, version) else Latest(b, kv, path);
    LatestRefines(b, kv, repo, path);
    if version != "" { OneByVersionRefines(b, kv, repo, path, version); }
    assert ServerEval(b, kv, path, query, fl) == EvalEntry(found, Env(Query(query), fl));
    assert Engine.Evaluate(m, path, version, Env(Typed(args), fl)) == EvalEntry(found, Env(Typed(args), fl));
    if found.Ok? {
      SelectedIsRecorded(b, repo, path, version, found.value);
      ReplyAgrees(found.value, args, version, fl);
    }
  }

  lemma ReplyAgrees(e: Entry, args: map<string, Arg>, version: string, fl: Floats)
    requires Sendable(args) && Unreserved(RulesOccurrences(e.ruleset.rules))
    ensures var local := EvalEntry(Ok(e), Env(Typed(args), fl));
            local != EvalFailed(ParamTypeMismatch) ==> EvalEntry(Ok(e), Env(Query(Received(args, version)), fl)) == local
  {
    RulesAgree(e.ruleset.rules, args, version, fl);
  }

  lemma VersionArrives(args: map<string, Arg>, version: string)
    requires Sendable(args)
    ensures "version" in Received(args, version) <==> version != ""
    ensures version != "" ==> Received(args, version)["version"] == version
  {
    assert RESERVED[0] == "version";
    assert "version" !in args;
    DifferentLengths("version", "eval");
  }

  lemma SelectedIsRecorded(b: Backend, repo: Repo, path: string, version: string, e: Entry)
    requires RepoOk(b, repo)
    requires (if version != "" then AbsOneByVersion(repo, path, version) else AbsLatest(repo, path)) == Ok(e)
    ensures Unreserved(RulesOccurrences(e.ruleset.rules))
  {
    var h := repo[path];
    assert HistoryOk(b, path, h);
    FindVersionFinds(h.versions, version);
    assert EntryOk(b, path, h.sig, e);
  }
}
