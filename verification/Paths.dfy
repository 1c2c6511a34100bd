/** Go's path.Clean and path.Join, on slash-separated segments. */
module Paths {
  import opened Prelude
  import opened Bytes

  function Split(s: string): (segs: seq<string>)
    ensures |segs| > 0
  {
    if s == "" then [""]
    else if s[0] == '/' then [""] + Split(s[1..])
    else
      var rest := Split(s[1..]);
      [[s[0]] + rest[0]] + rest[1..]
  }

  function Slashed(segs: seq<string>): string {
    if segs == [] then "" else "/" + segs[0] + Slashed(segs[1..])
  }

  /** strings.Join(segs, "/") */
  function JoinSlash(segs: seq<string>): string {
    if segs == [] then "" else segs[0] + Slashed(segs[1..])
  }

  /** One segment of path.Clean: empty and "." vanish, ".." removes the segment before it. */
  function Step(stack: seq<string>, seg: string, rooted: bool): seq<string> {
    if seg == "" || seg == "." then stack
    else if seg != ".." then stack + [seg]
    else if stack != [] && stack[|stack| - 1] != ".." then stack[..|stack| - 1]
    else if rooted then stack
    else stack + [".."]
  }

  function Reduce(stack: seq<string>, segs: seq<string>, rooted: bool): seq<string>
    decreases |segs|
  {
    if segs == [] then stack else Reduce(Step(stack, segs[0], rooted), segs[1..], rooted)
  }

  predicate Rooted(s: string) { s != "" && s[0] == '/' }

  function Render(stack: seq<string>, rooted: bool): string {
    if rooted then "/" + JoinSlash(stack) else if stack == [] then "." else JoinSlash(stack)
  }

  function Clean(s: string): string {
    if s == "" then "." else Render(Reduce([], Split(s), Rooted(s)), Rooted(s))
  }

  function Join(elems: seq<string>): string {
    if elems == [] then ""
    else if elems[0] == "" then Join(elems[1..])
    else Clean(JoinSlash(elems))
  }

  /** A segment that path.Clean keeps as it is. */
  predicate IsPlain(seg: string) { seg != "" && seg != "." && seg != ".." && '/' !in seg }

  /** No segment of s is "." or "..". */
  ghost predicate NoDots(s: string) {
    "." !in Split(s) && ".." !in Split(s)
  }

  /** The segments of s that path.Clean keeps when s has no dots. */
  function Kept(segs: seq<string>): seq<string> {
    if segs == [] then [] else (if segs[0] == "" then [] else [segs[0]]) + Kept(segs[1..])
  }

  lemma {:induction false} SplitRejoins(s: string)
    ensures JoinSlash(Split(s)) == s
  {
    if s != "" {
      SplitRejoins(s[1..]);
      var rest := Split(s[1..]);
      assert s == [s[0]] + s[1..];
      if s[0] == '/' {
        assert Split(s)[1..] == rest;
        assert Slashed(rest) == "/" + JoinSlash(rest);
      } else {
        assert Split(s)[1..] == rest[1..];
        assert [s[0]] + (rest[0] + Slashed(rest[1..])) == [s[0]] + rest[0] + Slashed(rest[1..]);
      }
    }
  }

  lemma {:induction false} SplitSegments(s: string)
    ensures forall seg | seg in Split(s) :: '/' !in seg
    ensures IsBytes(s) ==> forall seg | seg in Split(s) :: IsBytes(seg)
  {
    if s != "" {
      SplitSegments(s[1..]);
      var rest := Split(s[1..]);
      assert rest[0] in rest;
      if s[0] != '/' {
        forall seg | seg in Split(s) ensures '/' !in seg && (IsBytes(s) ==> IsBytes(seg)) {
          MemberOfFront([s[0]] + rest[0], rest, seg);
        }
      }
    }
  }

  lemma MemberOfFront(first: string, rest: seq<string>, seg: string)
    requires rest != [] && seg in [first] + rest[1..]
    ensures seg == first || seg in rest
  {
  }

  lemma {:induction false} SplitPlain(seg: string)
    requires '/' !in seg
    ensures Split(seg) == [seg]
  {
    if seg != "" {
      SplitPlain(seg[1..]);
      assert [seg[0]] + seg[1..] == seg;
    }
  }

  lemma {:induction false} SplitConcat(a: string, b: string)
    ensures Split(a + "/" + b) == Split(a) + Split(b)
  {
    var s := a + "/" + b;
    if a == "" {
      assert s[0] == '/' && s[1..] == b;
      assert Split(s) == [""] + Split(b);
    } else {
      SplitConcat(a[1..], b);
      assert s[0] == a[0] && s[1..] == a[1..] + "/" + b;
      var rest := Split(a[1..]);
      if a[0] == '/' {
        Assoc([""], rest, Split(b));
      } else {
        TailOf(rest, Split(b));
        Assoc([[a[0]] + rest[0]], rest[1..], Split(b));
      }
    }
  }

  lemma TailOf(y: seq<string>, z: seq<string>)
    requires y != []
    ensures (y + z)[0] == y[0] && (y + z)[1..] == y[1..] + z
  {
  }

  function SplitAll(elems: seq<string>): seq<string> {
    if elems == [] then [] else Split(elems[0]) + SplitAll(elems[1..])
  }

  lemma {:induction false} SplitJoin(head: string, elems: seq<string>)
    ensures Split(head + Slashed(elems)) == Split(head) + SplitAll(elems)
    decreases |elems|
  {
    if elems == [] {
      assert head + "" == head;
    } else {
      var tail := elems[0] + Slashed(elems[1..]);
      SplitJoin(elems[0], elems[1..]);
      SplitConcat(head, tail);
      Assoc("/", elems[0], Slashed(elems[1..]));
      Assoc(head, "/", tail);
      Assoc(Split(head), Split(elems[0]), SplitAll(elems[1..]));
    }
  }

  lemma {:induction false} ReduceConcat(stack: seq<string>, a: seq<string>, b: seq<string>, rooted: bool)
    ensures Reduce(stack, a + b, rooted) == Reduce(Reduce(stack, a, rooted), b, rooted)
    decreases |a|
  {
    if a == [] {
      assert a + b == b;
    } else {
      ReduceConcat(Step(stack, a[0], rooted), a[1..], b, rooted);
      assert (a + b)[1..] == a[1..] + b;
    }
  }

  lemma {:induction false} ReduceKept(stack: seq<string>, segs: seq<string>, rooted: bool)
    requires "." !in segs && ".." !in segs
    ensures Reduce(stack, segs, rooted) == stack + Kept(segs)
    decreases |segs|
  {
    if segs != [] { ReduceKept(Step(stack, segs[0], rooted), segs[1..], rooted); }
  }

  lemma {:induction false} SlashedConcat(a: seq<string>, b: seq<string>)
    ensures Slashed(a + b) == Slashed(a) + Slashed(b)
  {
    if a == [] {
      assert a + b == b;
    } else {
      SlashedConcat(a[1..], b);
      assert (a + b)[1..] == a[1..] + b;
    }
  }

  lemma {:induction false} KeptPlain(segs: seq<string>)
    requires "" !in segs
    ensures Kept(segs) == segs
  {
    if segs != [] { KeptPlain(segs[1..]); }
  }

  /** Joining dot-free elements below a fixed segment appends their segments, whatever the head is. */
  lemma JoinBelow(head: string, mid: string, tail: seq<string>)
    requires IsPlain(mid)
    requires "." !in SplitAll(tail) && ".." !in SplitAll(tail)
    ensures Join([head, mid] + tail) == Join([head, mid]) + Slashed(Kept(SplitAll(tail)))
  {
    if head == "" {
      assert ([head, mid] + tail)[1..] == [mid] + tail && [head, mid][1..] == [mid];
      JoinFromMid(mid, tail);
    } else {
      JoinFromHead(head, mid, tail);
    }
  }

  lemma JoinFromMid(mid: string, tail: seq<string>)
    requires IsPlain(mid)
    requires "." !in SplitAll(tail) && ".." !in SplitAll(tail)
    ensures Join([mid] + tail) == Join([mid]) + Slashed(Kept(SplitAll(tail)))
  {
    SplitPlain(mid);
    SplitJoin(mid, tail);
    assert ([mid] + tail)[1..] == tail && [mid][1..] == [];
    assert mid + Slashed([]) == mid;
    assert mid[0] in mid && (mid + Slashed(tail))[0] == mid[0];
    CleanBelow([], [mid], tail, false);
    assert [] + [mid] == [mid];
    assert Join([mid] + tail) == Clean(mid + Slashed(tail));
    assert Join([mid]) == Clean(mid);
  }

  lemma JoinFromHead(head: string, mid: string, tail: seq<string>)
    requires head != "" && IsPlain(mid)
    requires "." !in SplitAll(tail) && ".." !in SplitAll(tail)
    ensures Join([head, mid] + tail) == Join([head, mid]) + Slashed(Kept(SplitAll(tail)))
  {
    SplitPlain(mid);
    HeadSplit(head, mid, tail);
    HeadSplit(head, mid, []);
    assert [head, mid] + [] == [head, mid];
    assert Split(head) + [mid] + [] == Split(head) + [mid];
    CleanBelow(Split(head), [mid], tail, Rooted(head));
  }

  lemma HeadSplit(head: string, mid: string, tail: seq<string>)
    requires head != "" && Split(mid) == [mid]
    ensures var s := JoinSlash([head, mid] + tail);
            Split(s) == Split(head) + [mid] + SplitAll(tail) && s != "" && Rooted(s) == Rooted(head)
  {
    assert ([head, mid] + tail)[1..] == [mid] + tail && ([mid] + tail)[1..] == tail;
    SplitJoin(head, [mid] + tail);
    assert Split(head) + ([mid] + SplitAll(tail)) == Split(head) + [mid] + SplitAll(tail);
  }

  lemma CleanBelow(top: seq<string>, mid: seq<string>, tail: seq<string>, rooted: bool)
    requires |mid| == 1 && IsPlain(mid[0])
    requires "." !in SplitAll(tail) && ".." !in SplitAll(tail)
    ensures Render(Reduce([], top + mid + SplitAll(tail), rooted), rooted)
         == Render(Reduce([], top + mid, rooted), rooted) + Slashed(Kept(SplitAll(tail)))
  {
    var below := Kept(SplitAll(tail));
    var base := Reduce([], top, rooted);
    var stack := base + mid;
    assert Reduce([], top + mid, rooted) == stack by {
      ReduceConcat([], top, mid, rooted);
      ReduceKept(base, mid, rooted);
      assert Kept(mid) == mid;
    }
    assert Reduce([], top + mid + SplitAll(tail), rooted) == stack + below by {
      ReduceConcat([], top + mid, SplitAll(tail), rooted);
      ReduceKept(stack, SplitAll(tail), rooted);
    }
    RenderBelow(stack, below, rooted);
  }

  lemma RenderBelow(stack: seq<string>, below: seq<string>, rooted: bool)
    requires stack != []
    ensures Render(stack + below, rooted) == Render(stack, rooted) + Slashed(below)
  {
    assert (stack + below)[0] == stack[0] && (stack + below)[1..] == stack[1..] + below;
    SlashedConcat(stack[1..], below);
  }

  /** path.Join never invents bytes. */
  lemma {:induction false} JoinBytes(elems: seq<string>)
    requires forall e | e in elems :: IsBytes(e)
    ensures IsBytes(Join(elems))
  {
    if elems != [] {
      SlashedBytes(elems[1..]);
      assert elems[0] in elems;
      if elems[0] == "" {
        JoinBytes(elems[1..]);
      } else {
        CleanBytes(JoinSlash(elems));
      }
    }
  }

  lemma CleanBytes(s: string)
    requires IsBytes(s)
    ensures IsBytes(Clean(s))
  {
    SplitSegments(s);
    assert [] + Split(s) == Split(s);
    ReduceBytes([], Split(s), Rooted(s));
    RenderBytes(Reduce([], Split(s), Rooted(s)), Rooted(s));
  }

  lemma RenderBytes(stack: seq<string>, rooted: bool)
    requires forall e | e in stack :: IsBytes(e)
    ensures IsBytes(Render(stack, rooted))
  {
    if stack != [] {
      assert stack[0] in stack;
      SlashedBytes(stack[1..]);
    }
  }

  lemma {:induction false} SlashedBytes(segs: seq<string>)
    requires forall e | e in segs :: IsBytes(e)
    ensures IsBytes(Slashed(segs))
  {
    if segs != [] {
      SlashedBytes(segs[1..]);
      assert segs[0] in segs && '/' <= MAX_BYTE;
    }
  }

  lemma {:induction false} ReduceBytes(stack: seq<string>, segs: seq<string>, rooted: bool)
    requires forall e | e in stack + segs :: IsBytes(e)
    ensures forall e | e in Reduce(stack, segs, rooted) :: IsBytes(e)
    decreases |segs|
  {
    if segs != [] {
      var next := Step(stack, segs[0], rooted);
      forall e | e in next + segs[1..]
        ensures IsBytes(e)
      {
        assert e != ".." ==> e in stack + segs;
      }
      ReduceBytes(next, segs[1..], rooted);
    } else {
      assert stack + segs == stack;
    }
  }

  lemma SplitUp(s: string, x: string)
    requires IsPlain(x)
    ensures Split(s + ("/" + x + "/..")) == Split(s) + [x] + [".."]
  {
    SplitJoin(s, [x, ".."]);
    SplitPlain(x);
    SplitPlain("..");
    assert [x, ".."][1..] == [".."] && [".."][1..] == [];
    assert Slashed([x, ".."]) == "/" + x + ("/" + ".." + "");
    assert "/" + ".." == "/.." && "/.." + "" == "/..";
    assert Slashed([x, ".."]) == "/" + x + "/..";
    assert SplitAll([".."]) == [".."] + [] && SplitAll([x, ".."]) == [x] + [".."];
    Assoc(Split(s), [x], [".."]);
  }

  /** A segment followed by ".." cancels out. */
  lemma CleanUp(s: string, x: string)
    requires s != "" && IsPlain(x)
    ensures Clean(s + ("/" + x + "/..")) == Clean(s)
  {
    SplitUp(s, x);
    ReduceUp(Split(s), x, Rooted(s));
  }

  lemma ReduceUp(segs: seq<string>, x: string, rooted: bool)
    requires IsPlain(x)
    ensures Reduce([], segs + [x] + [".."], rooted) == Reduce([], segs, rooted)
  {
    ReduceConcat([], segs + [x], [".."], rooted);
    ReduceConcat([], segs, [x], rooted);
    UpStep(Reduce([], segs, rooted), x, rooted);
  }

  lemma UpStep(stack: seq<string>, x: string, rooted: bool)
    requires IsPlain(x)
    ensures Reduce(Reduce(stack, [x], rooted), [".."], rooted) == stack
  {
    assert [x][1..] == [] && [".."][1..] == [];
    assert Reduce(stack, [x], rooted) == stack + [x];
    assert (stack + [x])[..|stack|] == stack;
    assert |".."| == 2 && ".." != "" && ".." != ".";
  }

  lemma {:induction false} JoinSlashLast(elems: seq<string>, last: string, t: string)
    ensures JoinSlash(elems + [last + t]) == JoinSlash(elems + [last]) + t
    ensures Slashed(elems + [last + t]) == Slashed(elems + [last]) + t
  {
    if elems == [] {
      assert [last + t][1..] == [] && [last][1..] == [];
      assert Slashed([]) == "";
    } else {
      JoinSlashLast(elems[1..], last, t);
      assert (elems + [last + t])[1..] == elems[1..] + [last + t] && (elems + [last])[1..] == elems[1..] + [last];
    }
  }

  /** path.Join resolves a segment followed by "..", wherever the joined path starts. */
  lemma {:induction false} JoinUp(elems: seq<string>, last: string, x: string)
    requires last != "" && IsPlain(x)
    ensures Join(elems + [last + ("/" + x + "/..")]) == Join(elems + [last])
  {
    var t := "/" + x + "/..";
    if elems != [] && elems[0] == "" {
      JoinUp(elems[1..], last, x);
      assert (elems + [last + t])[1..] == elems[1..] + [last + t] && (elems + [last])[1..] == elems[1..] + [last];
    } else {
      JoinSlashLast(elems, last, t);
      var s := JoinSlash(elems + [last]);
      assert s != "" by { if elems != [] { assert (elems + [last])[0] == elems[0]; } else { assert [last][0] == last; } }
      CleanUp(s, x);
    }
  }
}
