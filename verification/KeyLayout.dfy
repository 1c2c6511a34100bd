/** The four families of etcd keys and why they never collide. */
module KeyLayout {
  import opened Prelude
  import opened Bytes
  import opened Names
  import opened Paths

  function EntryKey(ns: string, p: string, v: string): string {
    Join([ns, "rulesets", "entries", p, v])
  }

  function ChecksumKey(ns: string, p: string): string {
    Join([ns, "rulesets", "checksums", p])
  }

  function SignatureKey(ns: string, p: string): string {
    Join([ns, "rulesets", "signatures", p])
  }

  function LatestKey(ns: string, p: string): string {
    Join([ns, "rulesets", "latest", p])
  }

  /** The directory below which the store keeps everything. */
  function Root(ns: string): string {
    Join([ns, "rulesets"])
  }

  predicate Owned(ns: string, key: string) { Root(ns) + "/" <= key }

  /** Whatever the namespace is, cleaning a key only cleans the namespace. */
  lemma Layout(ns: string, p: string, v: string)
    requires IsRulesetName(p) && IsPlain(v)
    ensures EntryKey(ns, p, v) == Root(ns) + ("/" + "entries") + ("/" + p + "/" + v)
    ensures ChecksumKey(ns, p) == Root(ns) + ("/" + "checksums") + ("/" + p)
    ensures SignatureKey(ns, p) == Root(ns) + ("/" + "signatures") + ("/" + p)
    ensures LatestKey(ns, p) == Root(ns) + ("/" + "latest") + ("/" + p)
  {
    NameSegments(p);
    assert EntryKey(ns, p, v) == Root(ns) + ("/" + "entries") + ("/" + p + "/" + v) by {
      EntryBelow(ns, "rulesets", "entries", p, v);
    }
    assert ChecksumKey(ns, p) == Root(ns) + ("/" + "checksums") + ("/" + p) by {
      PointerBelow(ns, "rulesets", "checksums", p);
    }
    assert SignatureKey(ns, p) == Root(ns) + ("/" + "signatures") + ("/" + p) by {
      PointerBelow(ns, "rulesets", "signatures", p);
    }
    assert LatestKey(ns, p) == Root(ns) + ("/" + "latest") + ("/" + p) by {
      PointerBelow(ns, "rulesets", "latest", p);
    }
  }

  /** Segments that cleaning keeps, one after the other. */
  ghost predicate AllPlain(segs: seq<string>) {
    forall seg | seg in segs :: IsPlain(seg)
  }

  lemma JoinPlain(ns: string, mid: string, tail: seq<string>)
    requires IsPlain(mid) && AllPlain(SplitAll(tail))
    ensures Join([ns, mid] + tail) == Join([ns, mid]) + Slashed(SplitAll(tail))
  {
    KeptPlain(SplitAll(tail));
    JoinBelow(ns, mid, tail);
  }

  lemma SlashedSplit(p: string)
    ensures Slashed(Split(p)) == "/" + p
  {
    SplitRejoins(p);
  }

  lemma PointerBelow(ns: string, mid: string, family: string, p: string)
    requires IsPlain(mid) && IsPlain(family) && AllPlain(Split(p))
    ensures Join([ns, mid, family, p]) == Join([ns, mid]) + ("/" + family) + ("/" + p)
  {
    SplitPlain(family);
    SplitTwo(family, p);
    JoinPlain(ns, mid, [family, p]);
    assert [ns, mid] + [family, p] == [ns, mid, family, p];
    SlashedConcat([family], Split(p));
    SlashedOne(family);
    SlashedSplit(p);
    Assoc(Join([ns, mid]), "/" + family, "/" + p);
  }

  lemma EntryBelow(ns: string, mid: string, family: string, p: string, v: string)
    requires IsPlain(mid) && IsPlain(family) && IsPlain(v) && AllPlain(Split(p))
    ensures Join([ns, mid, family, p, v]) == Join([ns, mid]) + ("/" + family) + ("/" + p + "/" + v)
  {
    SplitPlain(family);
    SplitPlain(v);
    SplitThree(family, p, v);
    JoinPlain(ns, mid, [family, p, v]);
    assert [ns, mid] + [family, p, v] == [ns, mid, family, p, v];
    SlashedConcat([family] + Split(p), [v]);
    SlashedConcat([family], Split(p));
    SlashedOne(family);
    SlashedOne(v);
    SlashedSplit(p);
    Assoc("/" + family, "/" + p, "/" + v);
    Assoc("/" + p, "/", v);
    Assoc(Join([ns, mid]), "/" + family, "/" + p + "/" + v);
  }

  lemma SlashedOne(seg: string)
    ensures Slashed([seg]) == "/" + seg
  {
    assert [seg][1..] == [];
    assert Slashed([seg]) == "/" + seg + "";
  }

  lemma SplitTwo(a: string, b: string)
    ensures SplitAll([a, b]) == Split(a) + Split(b)
  {
    assert [a, b][1..] == [b] && [b][1..] == [];
    assert SplitAll([b]) == Split(b) + [];
  }

  lemma SplitThree(a: string, b: string, c: string)
    ensures SplitAll([a, b, c]) == Split(a) + Split(b) + Split(c)
  {
    assert [a, b, c][1..] == [b, c];
    SplitTwo(b, c);
    Assoc(Split(a), Split(b), Split(c));
  }

  /** A listing prefix without dots selects keys of the entry family only. */
  lemma ListPrefix(ns: string, prefix: string)
    requires NoDots(prefix)
    ensures Root(ns) + ("/" + "entries") <= EntryKey(ns, prefix, "")
  {
    PrefixBelow(ns, "rulesets", "entries", prefix);
  }

  lemma PrefixBelow(ns: string, mid: string, family: string, prefix: string)
    requires IsPlain(mid) && IsPlain(family) && NoDots(prefix)
    ensures Join([ns, mid, family, prefix, ""]) == Join([ns, mid]) + ("/" + family) + Slashed(Kept(Split(prefix)))
  {
    var tail := [family, prefix, ""];
    PrefixSegments(family, prefix);
    JoinBelow(ns, mid, tail);
    assert [ns, mid] + tail == [ns, mid, family, prefix, ""];
    var kept := Kept(Split(prefix));
    SlashedConcat([family], kept);
    SlashedOne(family);
    Assoc(Join([ns, mid]), "/" + family, Slashed(kept));
  }

  lemma PrefixSegments(family: string, prefix: string)
    requires IsPlain(family) && NoDots(prefix)
    ensures Kept(SplitAll([family, prefix, ""])) == [family] + Kept(Split(prefix))
    ensures "." !in SplitAll([family, prefix, ""]) && ".." !in SplitAll([family, prefix, ""])
  {
    SplitPlain(family);
    SplitThree(family, prefix, "");
    var segs := [family] + Split(prefix);
    KeptLastEmpty(segs);
    assert segs[0] == family && segs[1..] == Split(prefix);
  }

  /** The continue cursor of a page lands right behind the last key of the page. */
  lemma CursorKey(ns: string, p: string, v: string)
    requires IsRulesetName(p) && IsPlain(v)
    ensures EntryKey(ns, Join([p, v + ZERO]), "") == EntryKey(ns, p, v) + ZERO
  {
    PlainZero(v);
    NameSegments(p);
    CursorBelow(ns, "rulesets", "entries", p, v);
  }

  lemma CursorBelow(ns: string, mid: string, family: string, p: string, v: string)
    requires IsPlain(mid) && IsPlain(family) && IsPlain(v) && AllPlain(Split(p))
    requires IsPlain(v + ZERO)
    ensures Join([ns, mid, family, Join([p, v + ZERO]), ""]) == Join([ns, mid, family, p, v]) + ZERO
  {
    var z := v + ZERO;
    var cursor := p + "/" + z;
    JoinClean(p, z);
    SplitPlain(z);
    SplitConcat(p, z);
    PrefixBelow(ns, mid, family, cursor);
    KeptPlain(Split(cursor));
    SlashedSplit(cursor);
    EntryBelow(ns, mid, family, p, v);
    Assoc("/", p + "/", z);
    Assoc("/", p, "/");
    Assoc("/" + p + "/", v, ZERO);
    Assoc(Join([ns, mid]) + ("/" + family), "/" + p + "/" + v, ZERO);
  }

  lemma JoinClean(p: string, z: string)
    requires AllPlain(Split(p)) && IsPlain(z)
    ensures Join([p, z]) == p + "/" + z
  {
    var s := p + "/" + z;
    SplitPlain(z);
    SplitConcat(p, z);
    CleanPlain(s);
    SlashedOne(z);
    assert [p, z][1..] == [z];
    Assoc(p, "/", z);
    assert Split(p)[0] in Split(p);
  }

  lemma CleanPlain(s: string)
    requires AllPlain(Split(s))
    ensures Clean(s) == s
  {
    var segs := Split(s);
    assert segs[0] in segs;
    ReduceKept([], segs, false);
    KeptPlain(segs);
    assert [] + segs == segs;
    SplitRejoins(s);
  }

  lemma {:induction false} KeptLastEmpty(segs: seq<string>)
    ensures Kept(segs + [""]) == Kept(segs)
  {
    if segs != [] {
      KeptLastEmpty(segs[1..]);
      assert (segs + [""])[1..] == segs[1..] + [""];
    }
  }

  lemma PlainZero(v: string)
    requires IsPlain(v)
    ensures IsPlain(v + ZERO)
  {
    var z := v + ZERO;
    assert |z| > 1 && z[|z| - 1] == 0 as char && ".."[1] == '.';
  }

  /** A valid ruleset name is made of plain segments. */
  lemma NameSegments(p: string)
    requires IsRulesetName(p)
    ensures AllPlain(Split(p))
  {
    SplitSegments(p);
    forall seg | seg in Split(p) ensures IsPlain(seg) {
      NoEmptySegment(p);
      SegmentChars(p, seg);
      NoDotChar(p);
      assert '.' in "." && '.' in "..";
    }
  }

  lemma NoDotChar(p: string)
    requires IsRulesetName(p)
    ensures '.' !in p
  {
    assert '.' !in ALNUM + RULESET_SEPARATORS;
  }

  lemma {:induction false} NoEmptySegment(s: string)
    requires s != "" && s[0] != '/' && s[|s| - 1] != '/'
    requires forall i | 0 <= i < |s| - 1 :: s[i] == '/' ==> s[i + 1] != '/'
    ensures "" !in Split(s)
    decreases |s|
  {
    if |s| > 1 && s[1] != '/' {
      NoEmptySegment(s[1..]);
    } else if |s| > 1 {
      assert s[1..][1..] == s[2..];
      NoEmptySegment(s[2..]);
    }
  }

  lemma {:induction false} SegmentChars(s: string, seg: string)
    requires seg in Split(s)
    ensures forall c | c in seg :: c in s
  {
    if s != "" {
      var rest := Split(s[1..]);
      if seg in rest {
        SegmentChars(s[1..], seg);
      } else if s[0] != '/' {
        assert seg == [s[0]] + rest[0];
        SegmentChars(s[1..], rest[0]);
      }
    }
  }

  /** Two entries share a key only when they are the same version of the same path. */
  lemma EntryKeysInjective(ns: string, p1: string, v1: string, p2: string, v2: string)
    requires IsRulesetName(p1) && IsRulesetName(p2) && IsPlain(v1) && IsPlain(v2)
    requires EntryKey(ns, p1, v1) == EntryKey(ns, p2, v2)
    ensures p1 == p2 && v1 == v2
  {
    Layout(ns, p1, v1);
    Layout(ns, p2, v2);
    LastSlash(Root(ns) + ("/" + "entries"), p1, v1, p2, v2);
  }

  lemma Cancel(r: string, a: string, b: string)
    requires r + ("/" + a) == r + ("/" + b)
    ensures a == b
  {
    assert a == (r + ("/" + a))[|r| + 1..] && b == (r + ("/" + b))[|r| + 1..];
  }

  lemma LastSlash(r: string, p1: string, v1: string, p2: string, v2: string)
    requires r + ("/" + p1 + "/" + v1) == r + ("/" + p2 + "/" + v2)
    requires '/' !in v1 && '/' !in v2
    ensures p1 == p2 && v1 == v2
  {
    Assoc("/", p1 + "/", v1);
    Assoc("/", p2 + "/", v2);
    Assoc("/", p1, "/");
    Assoc("/", p2, "/");
    Cancel(r, p1 + "/" + v1, p2 + "/" + v2);
    var s, t := p1 + "/" + v1, p2 + "/" + v2;
    SlashIsLast(p1, v1, |p2|);
    SlashIsLast(p2, v2, |p1|);
    assert s[|p1|] == '/' && t[|p2|] == '/';
    assert p1 == s[..|p1|] && p2 == t[..|p2|] && v1 == s[|p1| + 1..] && v2 == t[|p2| + 1..];
  }

  lemma SlashIsLast(p: string, v: string, i: nat)
    requires '/' !in v
    ensures |p| < i < |p + "/" + v| ==> (p + "/" + v)[i] != '/'
  {
    if |p| < i < |p + "/" + v| { assert (p + "/" + v)[i] == v[i - |p| - 1]; }
  }

  /** The pointer families are injective in the path. */
  lemma PointerKeysInjective(ns: string, p: string, q: string)
    requires IsRulesetName(p) && IsRulesetName(q)
    ensures ChecksumKey(ns, p) == ChecksumKey(ns, q) <==> p == q
    ensures SignatureKey(ns, p) == SignatureKey(ns, q) <==> p == q
    ensures LatestKey(ns, p) == LatestKey(ns, q) <==> p == q
  {
    var r := Root(ns);
    Layout(ns, p, "v");
    Layout(ns, q, "v");
    if ChecksumKey(ns, p) == ChecksumKey(ns, q) { Cancel(r + ("/" + "checksums"), p, q); }
    if SignatureKey(ns, p) == SignatureKey(ns, q) { Cancel(r + ("/" + "signatures"), p, q); }
    if LatestKey(ns, p) == LatestKey(ns, q) { Cancel(r + ("/" + "latest"), p, q); }
  }

  datatype Family = Entries | Checksums | Signatures | Latests

  /** The family a key below the root belongs to, read off one letter. */
  ghost predicate InFamily(ns: string, key: string, f: Family) {
    && Owned(ns, key) && |key| > |Root(ns)| + 1
    && key[|Root(ns)| + 1] == match f case Entries => 'e' case Checksums => 'c' case Signatures => 's' case Latests => 'l'
  }

  /** Every key carries the letter of its family, so no two families meet. */
  lemma FamiliesDisjoint(ns: string, p: string, v: string)
    requires IsRulesetName(p) && IsPlain(v)
    ensures InFamily(ns, EntryKey(ns, p, v), Entries)
    ensures InFamily(ns, ChecksumKey(ns, p), Checksums)
    ensures InFamily(ns, SignatureKey(ns, p), Signatures)
    ensures InFamily(ns, LatestKey(ns, p), Latests)
  {
    Layout(ns, p, v);
    FamilyLetter(Root(ns), "/" + "entries", "/" + p + "/" + v);
    FamilyLetter(Root(ns), "/" + "checksums", "/" + p);
    FamilyLetter(Root(ns), "/" + "signatures", "/" + p);
    FamilyLetter(Root(ns), "/" + "latest", "/" + p);
  }

  lemma FamilyLetter(r: string, family: string, rest: string)
    requires |family| > 1 && family[0] == '/'
    ensures |r + family + rest| > |r| + 1 && (r + family + rest)[|r| + 1] == family[1]
    ensures r + "/" <= r + family + rest
  {
  }

  lemma EntryPrefix(ns: string, p: string, v: string)
    requires IsRulesetName(p) && IsPlain(v)
    ensures Root(ns) + ("/" + "entries") <= EntryKey(ns, p, v)
  {
    Layout(ns, p, v);
  }

  /** A key with the letter of another family does not start like an entry key. */
  lemma NotEntries(ns: string, k: string)
    requires |k| > |Root(ns)| + 1 && k[|Root(ns)| + 1] != 'e'
    ensures !(Root(ns) + ("/" + "entries") <= k)
  {
    var e := Root(ns) + ("/" + "entries");
    assert e[|Root(ns)| + 1] == 'e';
  }

  /** The versions of one path lie in the order of their names. */
  lemma VersionOrder(ns: string, p: string, v: string, w: string)
    requires IsRulesetName(p) && IsPlain(v) && IsPlain(w)
    ensures Less(EntryKey(ns, p, v), EntryKey(ns, p, w)) <==> Less(v, w)
  {
    Layout(ns, p, v);
    Layout(ns, p, w);
    var r := Root(ns) + ("/" + "entries");
    Assoc(r, "/" + p + "/", v);
    Assoc(r, "/" + p + "/", w);
    LessBelow(r + ("/" + p + "/"), v, w);
  }

  /** The keys under a namespace of plain segments, spelled out. */
  lemma KeysSpelledOut(ns: string, p: string, v: string)
    requires AllPlain(Split(ns)) && IsRulesetName(p) && IsPlain(v)
    ensures Root(ns) == ns + "/" + "rulesets"
    ensures EntryKey(ns, p, v) == ns + "/" + "rulesets" + ("/" + "entries") + ("/" + p + "/" + v)
    ensures ChecksumKey(ns, p) == ns + "/" + "rulesets" + ("/" + "checksums") + ("/" + p)
    ensures SignatureKey(ns, p) == ns + "/" + "rulesets" + ("/" + "signatures") + ("/" + p)
    ensures LatestKey(ns, p) == ns + "/" + "rulesets" + ("/" + "latest") + ("/" + p)
  {
    JoinClean(ns, "rulesets");
    Layout(ns, p, v);
  }
}
