# Regula, modelled and proved

Regula is a versioned rules engine: rulesets are stored in etcd under a path, every change makes a
new version, and callers evaluate them remotely or through a cache that follows the store. This
project models its three layers and proves that they meet in one promise: whoever edits a ruleset
cannot break the signature its callers rely on.

* **The store.** `Store` has the closure of `Put` as the code runs it, through a transaction object
  with read and write sets. `Concurrent` is the state machine of any number of clients calling
  `Put` at the same time, with snapshots, commit tests, retries and unrelated writers. `Ledger` is
  the simple form: per path, one signature and a growing list of versions. `Runs` proves that every
  run refines it. `Paging` has `List` and its cursor, `Names`, `Paths` and `KeyLayout` the name
  regexes and the four key families, for every namespace.
* **The cache and the client.** `Replica` has the paged load and the watch loop, `Cache` the machine
  of store, watcher and buffer, `Retry` the retry loop around `Put`, `Engine` the buffer and the
  typed getters, `Remote` the query encoding and the server's evaluation.
* **The language.** `Expr` and `Interpreter` evaluate string-encoded values, `Typing` gives them a
  typed meaning, `Laws` has the algebra, `Rulesets` the rules, parameters, validation and signature,
  `Codec` the JSON form by kind, `Contract` what a matching signature guarantees.
* `Decision`, `Progress`, `Operators` and `Documents` say what the parts do on every input, not only
  what they guarantee when they succeed: what Put accepts, what makes an attempt start over, where an
  operator stops, and what received JSON text means.
* `EndToEnd` joins the three. `Requests` says which requests the results cover, `PagedLoad` what a
  load misses while others commit, `Resend` what concurrent copies of a Put do, `Ambiguity` how the
  contract can be broken.

`Backends` collects what the store needs from names, keys, codec and checksum in one record; the
store proofs hold for every good record, and `RegulaIsGood` shows that Regula's is one, for every
namespace and every checksum function. Strings are Go strings: one char is one byte. Version names
and the checksum are parameters; a version name handed out is one not used before.

## Where code and documentation differ

The model follows the code.

* The comments on `GT`, `GTE`, `LT` and `LTE` (for example rule/expr.go:247-249) describe a comparison of
  neighbours; the code compares every operand with the first. `DocumentedOnlyForTwo` and
  `ChainImpliesComputed` give the exact relation.
* A boolean literal such as "1" equals neither `BoolValue`, so one of De Morgan's laws fails on it;
  `DeMorganExact` has the exact condition on the literals, `NotAndLaw` the one for given operands and
  parameters, `OddLiteralBreaksDeMorgan` the inputs.
* A JSON node may spell its kind twice in different letter case; encoding/json and gjson then read
  different kinds and the decoded tags do not match. `DecodedTags`, `ExprRoundTrip` and
  `RulesetRoundTrip` have the exact conditions, `AmbiguousKindBreaksContract` puts such a document
  and evaluates it. The results about whole runs are therefore stated for storable rulesets: matching
  tags, known type, coherent. `DecodedIsStorable` says which received documents give them.
* Nothing checks the version, or on reads the path, that a request asks for; both go through
  path.Join into a key. Version "b/v" of path "a" is version v of path "a/b" (`SlashVersion`), whose
  ruleset owes nothing to the signature of "a". `RegulaReadsExact`, `RegulaContractExact` and
  `RegulaLatestExact` say exactly which requests are answered as their caller expects; all results on
  requests hold under these conditions, which every plain version name meets.
* A listing returns the versions of a path in the order of their names, which is the order of the
  commits only if names follow it. `LoadedLatestExact` says exactly when the loaded latest version
  is right without that assumption; the results on the cache assume it for the versions that exist
  before the load, and for no others.
* `LTE` on int64 answers false where the other comparisons report an unreadable number.

## Model

| member | source | states |
|---|---|---|
| `Concurrent.Serializable` | store/etcd/rulesets.go:152-244 | For every run of any number of concurrent Puts, retries and foreign writers from the empty store: the store equals running the committed calls one at a time in commit order; every answer is about the arguments of the client's own last call and is what sequential Put answers at a place in that order between call and answer, a created version being the very commit there; every commit carries the arguments of a call that its client had made. |
| `Concurrent.CallsAreTraced` | store/etcd/rulesets.go:152-244 | At every state of every run a client carries the arguments of its last call, and its snapshot or answer is about a revision that was current at some time since that call. |
| `Concurrent.CommitsAreTraced` | store/etcd/rulesets.go:238 | Every commit in the log was made at a commit step of a client whose last call had exactly the committed arguments. |
| `Progress.TestIsExact` | store/etcd/rulesets.go:238 | The commit test succeeds if and only if no key the attempt read or writes has changed since its snapshot. |
| `Progress.Footprint` | store/etcd/rulesets.go:168-235 | A Put reads and writes keys of its own path only. |
| `Progress.RetryMeansRival` | store/etcd/rulesets.go:238 | An attempt starts over only if another commit on the same path came after its snapshot; Puts on other paths and other users of the etcd never disturb it. |
| `Progress.AloneFinishes` | store/etcd/rulesets.go:160-243 | From every reachable state a running call that is left alone is answered within two steps. |
| `Progress.CanCall` | store/etcd/rulesets.go:152-158 | In every reachable state any client that is not in a call can make any call; bad arguments are answered at once. |
| `Decision.PutDecision` | store/etcd/rulesets.go:152-244 | Put, decided on the ruleset itself: a first version is created; later the same checksum as the latest version is not modified, a coherent ruleset that returns the signature's type and uses only known parameters at their types is created, any other is invalid; the new store encodes the histories with exactly that version appended. |
| `Decision.RunDecision` | store/etcd/rulesets.go:152-244 | In every concurrent run every answer is that right answer to the client's own call. |
| `Decision.MatchIsExact` | store/etcd/rulesets.go:263-292 | For a coherent ruleset matchWith succeeds if and only if the type is the signature's and every occurrence is known at its type; using fewer parameters is fine. |
| `Decision.ArgumentsExact` | store/etcd/rulesets.go:294-362 | Arguments are accepted if and only if the two regexes match and no parameter is called version, list, eval, watch or revision. |
| `Concurrent.RunsKeepInv` | store/etcd/rulesets.go:160-243 | Every reachable state satisfies the invariant: each revision is the redo of its commit, logged Puts created their version, unchanged modification revisions mean unchanged keys, versions in use are pairwise different. |
| `Concurrent.NextKeepsInv` | store/etcd/rulesets.go:160-243 | Every step (begin, answer, commit, retry, foreign write) keeps that invariant. |
| `Concurrent.UnconflictedIsCurrent` | store/etcd/rulesets.go:160-238 | A commit that passes the conflict test would have read, decided and written the same on the store it commits to. |
| `Concurrent.Locality` | store/etcd/rulesets.go:168-235 | The closure depends on the keys it reads and on nothing else. |
| `Concurrent.CommitIsSequential` | store/etcd/rulesets.go:160-238 | A commit step appends exactly the store that sequential Put yields on the current store, with the same answer. |
| `Concurrent.StableGrows` | store/etcd/rulesets.go:238 | Applying writes at the next revision keeps: a key not newer than revision i is as it was at i. |
| `Concurrent.ForeignKeepsInv` | store/etcd/rulesets.go:463-477 | Writers of unrelated keys on the same etcd cannot break the invariant. |
| `Store.PutCall.Attempt` | store/etcd/rulesets.go:160-236 | One run of the closure through the transaction object reads, buffers and answers exactly as the specification RunTx says, and leaves its entry in the captured variable. |
| `Store.Stm.Get` | store/etcd/rulesets.go:170-183 | A read gives the own write if there is one, else the snapshot value, and only then joins the read set. |
| `Store.Stm.Put` | store/etcd/rulesets.go:205-232 | A write is buffered and touches nothing else. |
| `Store.ValidateRuleset` | store/etcd/rulesets.go:294-311 | Gives the signature exactly when the path is a name and every parameter occurrence anywhere has a valid, unreserved name. |
| `Store.ValidateParamNames` | store/etcd/rulesets.go:340-362 | Succeeds exactly when every name is in the name language and not reserved. |
| `Store.CheckSignature` | store/etcd/rulesets.go:263-292 | The map loop, in any order, succeeds exactly when matchWith as specified holds; Decision.MatchIsExact says what that means for the ruleset. |
| `Ledger.PutRefines` | store/etcd/rulesets.go:152-244 | Sequential Put on keys and JSON gives the same answer as Put on plain version lists, and the keys afterwards encode exactly the new lists. |
| `Ledger.TxRefines` | store/etcd/rulesets.go:168-235 | The transaction decides as the simple store and writes exactly what one new version needs, or nothing. |
| `Ledger.AbsPutKeepsOk` | store/etcd/rulesets.go:168-235 | Put keeps every history sound: first signature fixed, all entries match it and survive storage, versions distinct, consecutive checksums different. |
| `Ledger.AbsPutGrows` | store/etcd/rulesets.go:182-232 | Put only appends: no signature and no entry changes, other paths stay. |
| `Ledger.CreatedRepresents` | store/etcd/rulesets.go:198-232 | The four writes of a new version turn an encoding of the old histories into one of the new histories, other paths included. |
| `Ledger.LatestRefines` | store/etcd/rulesets.go:94-122 | For every ruleset name, Latest through the pointer key, the entry key and JSON is the last element of the history; not found exactly when there is none. |
| `Runs.LatestAcross` | store/etcd/rulesets.go:99-112 | The two requests of Latest may be answered at different revisions: whatever is committed in between, the answer is the last version as of the first one. |
| `Ledger.OneByVersionRefines` | store/etcd/rulesets.go:126-149 | For any path and version strings whose key can only hold that version of that path, OneByVersion is the search by version in the history of the path, not found included. |
| `Ledger.ReadsOwnPath` | store/etcd/rulesets.go:126-149 | For any version string whose key can only hold versions of the path, OneByVersion answers a recorded entry of the path or not found. |
| `Ledger.FindVersionFinds` | engine.go:233-246 | The search finds an entry with that version, and fails exactly when no entry has it. |
| `Ledger.FindVersionFirst` | engine.go:233-246 | Of several entries with the version the first one is found. |
| `Runs.RunRefinesLedger` | store/etcd/rulesets.go:152-244 | Every concurrent run refines the simple store: the final keys encode the histories of its commit log, and every answer is the simple store's. |
| `Runs.StoreInvariant` | store/etcd/rulesets.go:168-235 | At every revision of every run, latest, checksum and signature of a path are all there or all missing; latest names a stored entry of that path, whose checksum is the stored one. |
| `Runs.NeverRewritten` | store/etcd/rulesets.go:183-226 | At every later revision of every run a written signature and whatever was written under a key of the entry family are still what they were. |
| `Runs.HistoriesGrow` | store/etcd/rulesets.go:182-232 | Along the log, signatures never change and each path's history only grows at its end. |
| `Runs.ContractHolds` | store/etcd/rulesets.go:182-206 | Over whole runs: parameters that serve the signature a path had at any revision never fail a lookup, and the value has the signature's return type, in the latest version at the end of the run and in whatever is asked for by a version string whose key can only hold versions of the path. |
| `Runs.StoreKeepsContract` | store/etcd/rulesets.go:420-461 | The same for one store that encodes histories, through Latest and OneByVersion. |
| `Requests.RegulaContractExact` | api/server/api.go:113-117 | For any version string: evaluating what is asked for keeps the contract of the path on every store and for all serving parameters if and only if the key asked for lies in the entry family and belongs to no version of another path. |
| `Requests.RegulaReadsExact` | store/etcd/rulesets.go:126-149 | For any path and version strings: on every store the read gives that version of that path or nothing if and only if the key lies in the entry family and belongs to no other version or path. |
| `Requests.RegulaLatestExact` | store/etcd/rulesets.go:94-122 | For any path string: on every store Latest gives the latest version of that path or nothing if and only if it is a ruleset name or its pointer key is one that is never written. |
| `Requests.ProperIsExact` | store/etcd/rulesets.go:126-149 | The exact condition of the reads for every store with good keys, codec and checksum. |
| `Requests.OwnPathIsExact` | store/etcd/rulesets.go:420-461 | The exact condition of the contract for every such store. |
| `Requests.AddresseeExact` | store/etcd/rulesets.go:463-465 | The version a key belongs to can be read off its text. |
| `Requests.FindsOwnVersion` | store/etcd/rulesets.go:126-149 | A request can find the version it names if and only if the version name is plain: not empty, no slash, no dot segment. |
| `Requests.PlainIsProper` | store/etcd/rulesets.go:126-149 | Every plain version name meets the conditions of all results on requests. |
| `Requests.SlashVersion` | store/etcd/rulesets.go:126-149 | Asking path p for version x/w reads version w of path p/x, or nothing if p/x is no ruleset name; the request is answered rightly exactly in the second case. |
| `Contract.MatchingKeepsContract` | store/etcd/rulesets.go:263-292 | A coherent ruleset that passes matchWith looks up only what the signature names, at its types, and returns its type. |
| `Contract.ExprLooksUpKnown` | rule/expr.go:544-577 | An expression whose occurrences are all in a type map never fails a lookup under parameters serving the map, through every short circuit. |
| `Ambiguity.AmbiguousKindBreaksContract` | rule/json.go:64-75 | A ruleset document with one kind written twice in different letter case decodes and validates; put on any new path it is created with a signature without parameters, and evaluating the latest version there fails with a parameter not found. |
| `EndToEnd.CachedEvalIsServerEval` | api/client/rulesets.go:67-100 | Along every run of store and watching evaluator, a drained cache answers like the server with query-encoded parameters at the watcher's revision, for the latest version and every version whose key can only hold that version of the path: same value and version or same error, unless local evaluation is a type mismatch. |
| `EndToEnd.CachedEvalKeepsContract` | api/client/evaluator.go:24-81 | Along every run, parameters that serve the signature as of any revision the watcher has reached never fail a lookup in the cache and get the signature's return type, whatever string is asked for as the version. |
| `EndToEnd.CacheIsStore` | api/client/evaluator.go:24-81 | The drained cache holds the history of the path in the store at the watcher's revision, which encodes the log up to there, and answers from it as that store does. |
| `EndToEnd.RegulaCaughtUp` | api/client/evaluator.go:24-81 | For Regula's keys and codec these results need only storable rulesets, a name that starts with the prefix, and version names in commit order before the load. |
| `EndToEnd.RegulaWatches` | store/etcd/rulesets.go:374 | A string prefix of a ruleset name watches every version of that ruleset, whether or not the prefix ends with a slash. |
| `Cache.CacheRefinesStore` | api/client/evaluator.go:54-77 | Along every run of paged load and watch, with arbitrary failures and delays, once the current batch is added the buffer holds for a watched path exactly the history of the store at the watcher's revision; Latest agrees, and so does every version whose key can only hold that version of the path. |
| `Cache.RunInSync` | api/client/evaluator.go:54-77 | Along every run the buffered list of every path plus the batch in flight is the store's commit-ordered versions under the prefix up to the revision: no gap, no duplicate. |
| `Cache.StepKeepsSync` | api/client/evaluator.go:63-77 | Every step keeps that relation. |
| `Cache.LoadIsLog` | api/client/evaluator.go:25-52 | Path by path, what a listing of the current store returns is the watched part of the commit log, when version names follow commit order. |
| `Cache.LoadedLatestExact` | api/client/evaluator.go:25-52 | With no assumption on version names, the loaded buffer's latest version is the store's exactly when the store's latest has the largest name. |
| `PagedLoad.LoadMissesPassed` | api/client/evaluator.go:25-63 | Loading page by page while others commit: of the watched versions committed before the last page was answered, the load has exactly those whose key it had not passed yet when they were committed. |
| `PagedLoad.PageCovers` | store/etcd/rulesets.go:32-90 | A page read behind a key, even one remembered from an earlier revision, holds exactly the recorded watched entries above it up to its own last key. |
| `Cache.HistoryIsLog` | store/etcd/rulesets.go:208-234 | The history of a path is the list of its commits in commit order. |
| `Cache.RegulaIsLoadable` | api/client/evaluator.go:25-28 | Regula's store can be loaded under every prefix without dot segments. |
| `Replica.NewEvaluator` | api/client/evaluator.go:24-56 | The paged load fills the buffer, path by path, with everything under the prefix in key order, and fails exactly when a non-empty prefix selects nothing. |
| `Replica.LoadRest` | api/client/evaluator.go:37-52 | The loop over Continue tokens ends with everything under the prefix in the buffer. |
| `Replica.AddAll` | api/client/evaluator.go:71-76 | Adding a batch appends to every path exactly its entries of the batch, in order. |
| `Replica.WatchIsLossless` | api/client/rulesets.go:126-193 | Whatever times out or fails in between, the watch loop sends every watched event between its first and its last revision exactly once, in commit order. |
| `Replica.WatchLoop` | api/client/rulesets.go:131-189 | The loop sends and ends as specified for every script of replies; the rows below say what that is. |
| `Replica.WatchGoesOn` | api/client/rulesets.go:131-189 | A loop that is never told that the prefix is gone goes on from where it stood, with whatever comes next. |
| `Replica.OneReply` | api/client/rulesets.go:147-188 | A timeout and a failure change nothing, a batch is sent and moves the revision. |
| `Replica.LastBatchDecides` | api/client/rulesets.go:131-189 | Whatever comes before, if a request is answered with everything up to a revision and the later ones bring nothing, the loop stands at that revision. |
| `Replica.WatchIsComplete` | api/client/rulesets.go:131-189 | With honest replies, one of which reaches the end of the log, everything watched from the first revision on has been sent, once and in order, and the revision is that of the end. |
| `Replica.GoneEnds` | api/client/rulesets.go:151-153 | Once the prefix is gone nothing more is asked or sent. |
| `Replica.AnswerWatch` | store/etcd/rulesets.go:365-415 | One watch request on the server gives an honest reply: all watched events since the revision asked from. |
| `Cache.CatchesUp` | api/client/evaluator.go:54-77 | From every synchronised state the evaluator can catch up by its own steps, and then the buffer holds every watched commit of the log, path by path. |
| `Replica.DecodeEvents` | store/etcd/rulesets.go:389-411 | Every delivered document is decoded into its entry, in order; the answer is an error exactly when some document does not decode. |
| `Remote.RemoteRefinesLocal` | api/client/rulesets.go:67-100 | On a store that encodes histories, with a buffer that agrees on the path: evaluating on the server with the query-encoded parameters gives the local reply unless that is a type mismatch. |
| `Remote.QueryArrives` | api/server/api.go:26-59 | Sendable parameters survive the query string in any key order: the request is taken as an evaluation, and the server reads exactly the marker, every parameter's text and the version. |
| `Remote.RequestExact` | api/server/api.go:26-59 | Whatever the parameters are called, the query is taken as an evaluation exactly when none is called watch or list. |
| `Remote.SentIsValueText` | param.go:84-102 | The text sent for an argument is the text of the value that the parameter evaluates to. |
| `Remote.BuildQuery` | api/client/rulesets.go:73-86 | The client loop builds the specified query, or fails exactly when a parameter has no text. |
| `Remote.ParamAgrees` | api/server/param.go:14-51 | For one parameter, reading the sent text gives the local value or error, unless the local one is a type mismatch. |
| `Remote.ExprAgrees` | rule/expr.go:43-490 | The same for every expression, by induction through every operator and short circuit. |
| `Remote.RulesAgree` | ruleset.go:56-65 | The same for first-match rulesets. |
| `Retry.TryPut` | api/client/client.go:118-183 | Whatever is lost, delayed or repeated, with executions one at a time, one retried Put changes only its path, creates at most one version there, and a success carries the version that is latest at the end, with the sent checksum; it is resent only after network errors and the statuses 500 and 408, and given up before the attempts are used only after another answer. |
| `Resend.CopiesCommitOnce` | api/client/client.go:139-183 | With any concurrency: in every run in which from some revision on all calls on a path carry the same ruleset, they commit at most one version, and every success answers the version that is latest at the end. |
| `Resend.SettledStays` | store/etcd/rulesets.go:170-180 | Once the latest version has the checksum that everyone puts, the history of the path does not change any more. |
| `Retry.ExecutedOnce` | store/etcd/rulesets.go:170-180 | However often the same Put is executed, the store is as after the first time. |
| `Retry.PutAgain` | store/etcd/rulesets.go:170-180 | Putting again what has just been put changes nothing and answers not-modified with the same, latest entry; a refused Put is refused again. |
| `Retry.AnswerIsLatest` | api/server/api.go:180-191 | The answer of any execution is still the latest entry after any number of later executions. |
| `Paging.FetchAll` | store/etcd/rulesets.go:32-90 | For every limit from 1 to 100, following Continue tokens ends and the pages put together are the unlimited listing: nothing skipped, nothing repeated. |
| `Paging.PageAt` | store/etcd/rulesets.go:32-90 | A page from any valid position holds exactly the next entries in key order, and a token for the position behind them exactly when something is left. |
| `Paging.RangeAfter` | store/etcd/rulesets.go:41-51 | The range read from the cursor gives exactly the keys behind the last one of the page. |
| `Paging.UnlimitedListsAll` | store/etcd/rulesets.go:32-90 | With limit 0 the listing is everything under the prefix. |
| `Paging.FirstPageRefused` | store/etcd/rulesets.go:65-69 | A first page is refused exactly when a non-empty prefix selects nothing. |
| `Paging.PageSize` | store/etcd/rulesets.go:37-39 | A page has as many entries as the limit, all for 0, 50 for a limit outside 0 to 100, and never more than are left. |
| `Paging.List` | store/etcd/rulesets.go:32-90 | The method computes the specified page for every prefix, limit and token, malformed tokens included. |
| `Paging.RegulaIsListable` | store/etcd/rulesets.go:463-465 | Regula's store can be listed under every prefix without dot segments. |
| `Bytes.ZeroByteIsSuccessor` | store/etcd/rulesets.go:86-87 | Appending a zero byte gives the immediate successor of a key. |
| `Bytes.RangeIsPrefix` | store/etcd/rulesets.go:49-54 | The half-open range up to the prefix range end holds exactly the keys with that prefix. |
| `Names.NameLanguage` | store/etcd/rulesets.go:313-338 | The name regexes accept exactly the strings that start with a letter, use only letters, digits and separators, have no two adjacent separators and no trailing one. |
| `KeyLayout.Layout` | store/etcd/rulesets.go:463-477 | For every namespace, dots and slashes included, path.Join only appends the family, the name and the version below one root. |
| `KeyLayout.KeysSpelledOut` | store/etcd/rulesets.go:463-477 | Under a namespace of plain segments the four keys are namespace, rulesets, family, name and version with slashes between them. |
| `KeyLayout.EntryKeysInjective` | store/etcd/rulesets.go:463-465 | Two entries share a key only if they are the same version of the same path. |
| `KeyLayout.PointerKeysInjective` | store/etcd/rulesets.go:467-477 | The other three families are injective in the path. |
| `KeyLayout.FamiliesDisjoint` | store/etcd/rulesets.go:463-477 | The four families never meet. |
| `KeyLayout.CursorKey` | store/etcd/rulesets.go:86-87 | The Continue cursor, joined and cleaned twice, is the last key of the page plus a zero byte. |
| `KeyLayout.VersionOrder` | store/etcd/rulesets.go:463-465 | Keys of one path are ordered as their versions. |
| `Paths.JoinBelow` | store/etcd/rulesets.go:463-477 | Joining dot-free elements below a fixed segment appends their segments whatever the head is. |
| `Paths.JoinUp` | store/etcd/rulesets.go:463-477 | Joining resolves a segment followed by "..", so that such a path reads the key of the path without both. |
| `Backends.RegulaIsGood` | store/etcd/rulesets.go:463-477 | Regula's names, keys and codec have every property the store proofs rest on, for every namespace and checksum function; a ruleset survives storage exactly when it is storable. |
| `Typing.EvalIsDenote` | rule/expr.go:43-577 | Type soundness: a well-typed expression under conforming parameters never errors, and its value is the canonical text of a meaning defined without texts, errors or evaluation order. |
| `Typing.OperatorIsMeaning` | rule/expr.go:43-490 | Every operator on encoded operands computes the encoding of its meaning: quantifiers over all operands for the n-ary ones. |
| `Typing.RelateIsRelated` | rule/expr.go:624-813 | Comparing canonical texts is comparing the data they stand for. |
| `Typing.DecodeEncode` | rule/expr.go:600-617 | The value constructors are injective: what was encoded can be read back. |
| `Interpreter.Evaluate` | rule/expr.go:43-611 | The interpreter with its index loops and early returns computes the specified outcome for every expression and every parameter set. |
| `Interpreter.EvaluateConnective` | rule/expr.go:80-163 | Or and And stop at the operand that decides. |
| `Interpreter.EvaluateAgainstFirst` | rule/expr.go:179-421 | Eq, In, GT, GTE, LT and LTE relate every operand to the first one. |
| `Interpreter.HashBytes` | rule/expr.go:449 | The byte loop of the hash computes the 32-bit FNV-1 recursion. |
| `Interpreter.EvaluatePercentile` | rule/expr.go:472-490 | Percentile hashes, formats, reparses and compares as specified, arity and error order included. |
| `Interpreter.HashedOperand` | rule/expr.go:864-874 | The operand's hash comes back unchanged through its decimal text; the only error is the operand's own. |
| `Expr.HashOf` | rule/expr.go:438-454 | The hash survives the trip through its decimal text and is never negative. |
| `Laws.OrderTheory` | rule/expr.go:638-813 | On canonical values of one type: GT is the negation of LTE, LT that of GTE, LT is GT flipped, GTE is a total order and its antisymmetry gives equal values. |
| `Laws.ChainImpliesComputed` | rule/expr.go:259-421 | The documented chain of neighbours always implies the computed answer. |
| `Laws.DocumentedOnlyForTwo` | rule/expr.go:259-421 | Documented chain and computed answer agree on all operands of an arity if and only if the arity is two. |
| `Laws.NotOrLaw` | rule/expr.go:80-113 | Not(Or(es)) and And of the negations agree on value and error and look at the same operands, for every operand list. |
| `Laws.NotAndLaw` | rule/expr.go:130-163 | For one operand list under given parameters: Not(And(es)) and Or of the negations agree if and only if no odd boolean is met before the end or the And is false anyway. |
| `Laws.DeMorgan` | rule/expr.go:43-163 | Both laws on whole expressions of any arity whose operands are no odd boolean literals, with the same stopping index. |
| `Laws.OddIsLiteral` | rule/expr.go:591-630 | Only a literal can be a boolean that equals neither true nor false. |
| `Laws.OddLiteralBreaksDeMorgan` | rule/expr.go:624-630 | Every odd boolean literal, twice under an And, breaks the law. |
| `Laws.DeMorganExact` | rule/expr.go:43-163 | For any set of literals that operands may be: the And law holds for all operand lists and all parameters if and only if no literal of the set is an odd boolean. |
| `Laws.Cohorts` | rule/expr.go:472-490 | For every evaluable operand, membership is decided by one residue: groups grow with p, are empty below 0 and total from 99 on. |
| `Laws.CohortSize` | rule/expr.go:472-490 | Percentile p in 0..99 selects exactly p + 1 of the 100 residues. |
| `Strconv.IntRoundTrip` | rule/expr.go:609-611 | Every int64, the smallest included, survives its decimal text. |
| `Strconv.IntTexts` | rule/expr.go:823-829 | The texts that read as an int64 are exactly a fitting sign, any number of zeros and the decimal form. |
| `Strconv.BoolTexts` | rule/expr.go:815-821 | The texts that read as a bool are exactly six spellings each. |
| `Operators.ConnectiveStops` | rule/expr.go:80-163 | Or and And answer what the first deciding operand says, value or error, whatever stands behind it; without one Or is false and And is true; fewer than two operands are an error. |
| `Operators.RelationStops` | rule/expr.go:179-421 | Eq, In and the orders answer what the first deciding operand says, value or error, whatever stands behind it, failing operands included; without one In is false and the others are true. |
| `Operators.MembershipStops` | rule/expr.go:218-241 | An In is true at the first operand equal to the one looked for, even if a later operand would fail. |
| `Operators.RelationFails` | rule/expr.go:179-421 | Without a second operand, or when the first one fails, these operators fail at once with that error. |
| `Operators.NotOutcome` | rule/expr.go:43-63 | Not looks at its first operand only, passes its error on, refuses other types, and is true for every bool text but "true". |
| `Operators.HashArity` | rule/expr.go:438-490 | FNV takes exactly one operand and Percentile exactly two. |
| `Operators.PercentileFails` | rule/expr.go:472-490 | The errors of a Percentile come in operand order, an unreadable bound last. |
| `Operators.CompareOutcome` | rule/expr.go:638-829 | For any two values the type of the first one decides how both texts are read; what cannot be read is an error, but false for LTE on int64. |
| `Operators.IntOrders` | rule/expr.go:638-813 | On readable int64 texts the four orders are those of the numbers. |
| `Operators.FloatOutcome` | rule/expr.go:638-813 | float64 texts compare by the numbers they read as; a pair without an order answers true to all four comparisons. |
| `Operators.LookupOutcome` | rule/expr.go:544-577 | A lookup fails as not found exactly when the name is missing, as a mismatch exactly when it is there but cannot be had at the type. |
| `Operators.RuleOutcome` | rule/rule.go:72-92 | A rule matches on the spellings of true, is false on those of false, and is an error on anything else. |
| `Rulesets.FirstMatch` | ruleset.go:56-65 | The outcome is that of the one rule whose predecessors are all false, and no-match exactly when there is none. |
| `Rulesets.AppendIsInvisible` | ruleset.go:56-65 | Rules behind a matching or erroring rule change nothing. |
| `Rulesets.DeleteFalseRule` | ruleset.go:56-65 | Deleting a rule that is false under the parameters keeps the outcome. |
| `Rulesets.EvaluateRuleset` | ruleset.go:56-65 | The loop computes the specified outcome. |
| `Rulesets.Validate` | ruleset.go:99-121 | Succeeds if and only if every result has the ruleset type and one name-to-type function covers every parameter occurrence anywhere in the trees. |
| `Rulesets.ParamList.Walk` | rule/expr.go:843-860 | The walk appends all occurrences of the tree in visiting order. |
| `Rulesets.RulesetParams` | ruleset.go:82-97 | The loop returns the occurrences deduplicated by first appearance. |
| `Rulesets.DistinctNames` | ruleset.go:82-97 | Deduplication keeps each name once, invents nothing and loses no name. |
| `Rulesets.FirstAppearances` | ruleset.go:82-97 | The deduplicated list consists of the first appearances of the names, in their order. |
| `Rulesets.ConsistentExact` | ruleset.go:99-121 | Occurrences pass exactly when some map from names to types covers all of them. |
| `Rulesets.OccurrencesArePreorder` | rule/expr.go:843-860 | The collected parameters are those of the tree's nodes in preorder. |
| `Rulesets.NewSignature` | store/etcd/rulesets.go:251-261 | The loop builds the specified signature. |
| `Rulesets.SignatureIsExact` | store/etcd/rulesets.go:251-261 | On a coherent ruleset the signature types every occurrence and names nothing else. |
| `Codec.ExprRoundTrip` | rule/json.go:32-137 | An expression decodes back to itself if and only if every kind tag matches its node. |
| `Codec.DecodedTags` | rule/json.go:56-137 | A decoded tree has matching tags if and only if no node spells its kind so that the two JSON readers differ. |
| `Codec.RulesetRoundTrip` | ruleset.go:68-79 | A ruleset decodes back to itself, validation included, if and only if its tags match, its type is known and it is coherent. |
| `Codec.DecodedIsStorable` | ruleset.go:68-79 | A decoded ruleset can be stored if and only if the deciding expression of every rule of the document spells its kinds so that the two JSON readers agree. |
| `Runs.ReceivedIsStorable` | api/server/api.go:171-180 | If every committed ruleset came in such a document, all are storable: the hypothesis of the results on runs can be checked on what the server receives. |
| `Codec.UnmarshalExpr` | rule/json.go:75-137 | The dispatch with its loops decodes as specified for every document. |
| `Codec.UnmarshalOperands` | rule/json.go:56-73 | The operand loop decodes each item by its kind, in order, and stops at the first error. |
| `Codec.UnmarshalRuleset` | ruleset.go:68-79 | Decoding a ruleset refuses unknown types and incoherent rulesets. |
| `Documents.TextIsTruth` | rule/json.go:56-137 | From received text to meaning: for whole trees of documents written with the wire names of kinds, types and members, reading and evaluating gives what the formula says under the parameters, for all eleven operators. |
| `Documents.IntComparisons` | rule/json.go:108-131 | The documents of kind gt, gte, lt and lte over two int64 constants read and evaluate to the four orders of the numbers. |
| `Documents.OtherKindsAreRefused` | rule/json.go:132-134 | A document that is read has one of the thirteen kinds. |
| `Documents.RulesetIsAccepted` | ruleset.go:68-79 | A ruleset document whose variables are used at one type each is accepted exactly when its type is one of the four and all results have it; what is read are its rules. |
| `Documents.RulesetTextIsTruth` | ruleset.go:56-65 | Evaluating what was read gives the result of the first rule whose condition is true, and no match when all are false. |
| `Documents.LastMemberCounts` | rule/json.go:15-29 | Of repeated members of a field the last one counts, null changes nothing, anything but a string is an error. |
| `Documents.OperandMembersAppend` | rule/json.go:56-73 | The operands of repeated members are put one behind the other. |
| `Documents.LastResultCounts` | rule/rule.go:43-67 | Of repeated results the last one counts, null takes the result away, an object is read into what is there. |
| `Documents.LastExpressionCounts` | rule/rule.go:43-60 | Of repeated expressions of a rule the last one counts. |
| `Documents.LastRulesCount` | ruleset.go:68-79 | Of repeated rule lists the last one counts, and null empties it. |
| `Engine.RulesetBuffer.Add` | engine.go:179-183 | Appends one version to its path and leaves the other paths alone. |
| `Engine.RulesetBuffer.Latest` | engine.go:186-196 | Returns the last added version, not found exactly when there is none. |
| `Engine.RulesetBuffer.GetVersion` | engine.go:199-246 | Returns the first entry with that version, not found when no entry has it. |
| `Engine.RulesetBuffer.Eval` | engine.go:212-231 | Evaluates the last added version and reports its version name. |
| `Engine.RulesetBuffer.EvalVersion` | engine.go:249-267 | Evaluates the selected version and reports its version name. |
| `Engine.GetterReturnsArgument` | engine.go:30-90 | For a version built from constructor arguments of one type, the matching getter never fails on a type or a text and returns the argument of the deciding rule, that rule's error, or no match exactly when no rule decides. |
| `Engine.GetterOutcome` | engine.go:30-90 | How a getter ends for every reply: each failure has its own error, a value of another type is a mismatch, a value of the type is what its text stands for in any spelling. |
| `Engine.NotBuffered` | engine.go:30-58 | A getter reports that the ruleset is not found exactly when the buffer holds no version of the path, or not the one asked for. |
| `Engine.TypedGetterIsMeaning` | engine.go:30-90 | With well-typed conditions and conforming parameters the getter returns the constructor argument of the first rule whose condition means true, and no match exactly when none does; nothing else can happen. |
| `Engine.RuleIsDenoted` | rule/rule.go:72-92 | A well-typed rule matches exactly when its condition means true and never fails. |

## Left out

- HTTP transport, routing, status codes other than those the retry loop looks at, logging, sleeps, configuration and the command line.
- etcd and its STM library: modelled by their contract (reads from one snapshot, commit if no key read or written has changed, a watch delivers all events up to the revision it reports).
- JSON text, base64 and URL escaping: documents are trees with ordered, repeatable members, tokens are an injective encoding, query strings are maps. Letter case of member names is folded for ASCII only, and strings are assumed to be valid UTF-8.
- MD5 and ksuid internals: any checksum function and any unused plain name.
- float64: comparison and formatting are functions of the environment and all results hold for every choice of them; `GetFloat64` of the engine and the typed meaning of float64 values are not modelled.
- LoadStruct: reflection over struct tags.
- A watch answered with an error that ends the channel: the evaluator has no state transition for it, so the runs have none after it.
- List and Watch prefixes with "." or ".." segments, which path.Join would resolve.
- The decimal text of revisions: they are numbers; revision r stands for the store after r - 1 commits.
- The value of the captured entry beside a validation error: `Attempt` says what the variable holds, the answers of `Put` in the other modules carry an entry only when it is created or not modified.
- Nil expressions, nil results and nil parameters inside rules built in memory: Go would panic on them.
- Locks of the buffer: its methods are atomic steps.
- Store.PutCall.Attempt: the commit and the retry are not part of this method; they are steps of the machine in `Concurrent`.
- Replica.NewEvaluator: the goroutine that adds watch events is not started here; it is the AddOne and HandOver steps of the machine in `Cache`.
- Cache.CacheRefinesStore: the load reads one unchanged store; commits between the pages can be missed for good, because the watch starts at the revision of the last page; `PagedLoad.LoadMissesPassed` says which.
- Retry.TryPut: executions of the Put are one at a time and no other Put goes to the path meanwhile; `Resend.CopiesCommitOnce` has the concurrent form, without the loop.
- Ledger.LatestRefines: for ruleset names only; `Requests.RegulaLatestExact` covers every other path string.
