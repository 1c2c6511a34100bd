/** The name regexes of store/etcd/rulesets.go, and the language they accept. */
module Names {

  datatype Regex =
    | Class(chars: set<char>)
    | Cat(first: Regex, second: Regex)
    | Opt(body: Regex)
    | Star(body: Regex)

  /** Anchored match of the whole string, as `^...$` asks for. */
  ghost predicate Matches(r: Regex, s: string)
    decreases r, |s|
  {
    match r
    case Class(chars) => |s| == 1 && s[0] in chars
    case Cat(a, b) => exists i | 0 <= i <= |s| :: Matches(a, s[..i]) && Matches(b, s[i..])
    case Opt(b) => s == "" || Matches(b, s)
    case Star(b) => s == "" || exists i | 0 < i <= |s| :: Matches(b, s[..i]) && Matches(r, s[i..])
  }

  const LETTERS: set<char> := set c: char | 'a' <= c <= 'z'
  const ALNUM: set<char> := LETTERS + set c: char | '0' <= c <= '9'
  const RULESET_SEPARATORS: set<char> := {'-', '/'}
  const PARAM_SEPARATORS: set<char> := {'-'}

  /** `(?:[a-z0-9<seps>]?[a-z0-9])` */
  function Chunk(seps: set<char>): Regex {
    Cat(Opt(Class(ALNUM + seps)), Class(ALNUM))
  }

  /** `^[a-z]+(?:[a-z0-9<seps>]?[a-z0-9])*$`, where `x+` is `xx*` */
  function NameRegex(seps: set<char>): Regex {
    Cat(Cat(Class(LETTERS), Star(Class(LETTERS))), Star(Chunk(seps)))
  }

  /** Letters, digits and separators, where every separator is followed by a letter or digit. */
  predicate IsNameTail(s: string, seps: set<char>) {
    && (forall i | 0 <= i < |s| :: s[i] in ALNUM + seps)
    && (forall i | 0 <= i < |s| - 1 :: s[i] in seps ==> s[i + 1] !in seps)
    && (s != "" ==> s[|s| - 1] !in seps)
  }

  predicate IsName(s: string, seps: set<char>) {
    s != "" && s[0] in LETTERS && IsNameTail(s, seps)
  }

  predicate IsRulesetName(s: string) { IsName(s, RULESET_SEPARATORS) }

  /** The regexes accept exactly the strings that start with a letter, use only letters, digits and
      separators, never put two separators side by side and never end with one. */
  lemma NameLanguage(s: string, seps: set<char>)
    requires seps !! ALNUM
    ensures Matches(NameRegex(seps), s) <==> IsName(s, seps)
  {
    var first := Cat(Class(LETTERS), Star(Class(LETTERS)));
    if Matches(NameRegex(seps), s) {
      var i :| 0 <= i <= |s| && Matches(first, s[..i]) && Matches(Star(Chunk(seps)), s[i..]);
      var j :| 0 <= j <= i && Matches(Class(LETTERS), s[..i][..j]) && Matches(Star(Class(LETTERS)), s[..i][j..]);
      LettersOnly(s[..i][j..]);
      ChunksAreTails(s[i..], seps);
      assert forall k | 0 <= k < i :: s[k] in LETTERS by {
        forall k | 1 <= k < i ensures s[k] in LETTERS { assert s[k] == s[..i][j..][k - 1]; }
      }
      forall k | 0 <= k < |s| ensures s[k] in ALNUM + seps {
        if k >= i { assert s[k] == s[i..][k - i]; }
      }
      forall k | 0 <= k < |s| - 1 && s[k] in seps ensures s[k + 1] !in seps {
        assert s[k] == s[i..][k - i] && s[k + 1] == s[i..][k + 1 - i];
      }
    }
    if IsName(s, seps) {
      assert s[..1][..1] == s[..1] && s[..1][1..] == "";
      assert Matches(Class(LETTERS), s[..1][..1]) && Matches(Star(Class(LETTERS)), s[..1][1..]);
      assert Matches(first, s[..1]);
      ChunksAreTails(s[1..], seps);
    }
  }

  lemma {:induction false} LettersOnly(s: string)
    requires Matches(Star(Class(LETTERS)), s)
    ensures forall i | 0 <= i < |s| :: s[i] in LETTERS
    decreases |s|
  {
    if s != "" {
      var i :| 0 < i <= |s| && Matches(Class(LETTERS), s[..i]) && Matches(Star(Class(LETTERS)), s[i..]);
      LettersOnly(s[i..]);
      forall k | 0 <= k < |s| ensures s[k] in LETTERS {
        if k >= i { assert s[k] == s[i..][k - i]; } else { assert s[k] == s[..i][k]; }
      }
    }
  }

  lemma ChunksAreTails(s: string, seps: set<char>)
    requires seps !! ALNUM
    ensures Matches(Star(Chunk(seps)), s) <==> IsNameTail(s, seps)
  {
    if Matches(Star(Chunk(seps)), s) { ChunksMakeTail(s, seps); }
    if IsNameTail(s, seps) { TailMakesChunks(s, seps); }
  }

  lemma {:induction false} ChunksMakeTail(s: string, seps: set<char>)
    requires seps !! ALNUM
    requires Matches(Star(Chunk(seps)), s)
    ensures IsNameTail(s, seps)
    decreases |s|
  {
    if s != "" {
      var i :| 0 < i <= |s| && Matches(Chunk(seps), s[..i]) && Matches(Star(Chunk(seps)), s[i..]);
      ChunkShape(s[..i], seps);
      ChunksMakeTail(s[i..], seps);
      PrependChunk(s[..i], s[i..], seps);
      assert s == s[..i] + s[i..];
    }
  }

  lemma {:induction false} TailMakesChunks(s: string, seps: set<char>)
    requires IsNameTail(s, seps)
    ensures Matches(Star(Chunk(seps)), s)
    decreases |s|
  {
    if s != "" {
      assert s[0] in ALNUM + seps;
      var i := if s[0] in seps then 2 else 1;
      assert i == 2 ==> |s| > 1 && s[1] in ALNUM + seps && s[1] !in seps;
      ChunkShape(s[..i], seps);
      TailMakesChunks(s[i..], seps);
      StarStep(Chunk(seps), s, i);
    }
  }

  lemma StarStep(r: Regex, s: string, i: nat)
    requires 0 < i <= |s| && Matches(r, s[..i]) && Matches(Star(r), s[i..])
    ensures Matches(Star(r), s)
  {
  }

  /** A chunk is a letter or digit, optionally preceded by one more character. */
  predicate IsChunk(c: string, seps: set<char>) {
    || (|c| == 1 && c[0] in ALNUM)
    || (|c| == 2 && c[0] in ALNUM + seps && c[1] in ALNUM)
  }

  lemma ChunkShape(c: string, seps: set<char>)
    ensures Matches(Chunk(seps), c) <==> IsChunk(c, seps)
  {
    var head, last := Opt(Class(ALNUM + seps)), Class(ALNUM);
    if Matches(Cat(head, last), c) {
      var i :| 0 <= i <= |c| && Matches(head, c[..i]) && Matches(last, c[i..]);
      assert |c[i..]| == 1 && c[i..][0] == c[i];
      OptShape(ALNUM + seps, c[..i]);
      assert i == 0 || (|c[..i]| == 1 && c[..i][0] == c[0]);
    }
    if IsChunk(c, seps) {
      var i := |c| - 1;
      assert c[i..] == [c[i]] && c[..i] == if i == 0 then "" else [c[0]];
      OptShape(ALNUM + seps, c[..i]);
      assert Matches(head, c[..i]) && Matches(last, c[i..]);
    }
  }

  lemma OptShape(chars: set<char>, t: string)
    ensures Matches(Opt(Class(chars)), t) <==> t == "" || (|t| == 1 && t[0] in chars)
  {
    assert Matches(Class(chars), t) <==> |t| == 1 && t[0] in chars;
  }

  lemma PrependChunk(c: string, t: string, seps: set<char>)
    requires seps !! ALNUM && IsNameTail(t, seps) && (|c| == 1 || |c| == 2)
    requires c[|c| - 1] in ALNUM && c[0] in ALNUM + seps
    ensures IsNameTail(c + t, seps)
  {
    var s := c + t;
    forall i | 0 <= i < |s| - 1 && s[i] in seps ensures s[i + 1] !in seps {
      if i >= |c| { assert s[i] == t[i - |c|] && s[i + 1] == t[i + 1 - |c|]; }
    }
  }
}
