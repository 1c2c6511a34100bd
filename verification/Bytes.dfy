/** Go strings: every char stands for one byte, and strings are ordered byte by byte. */
module Bytes {
  import opened Prelude

  const MAX_BYTE: char := 0xff as char
  const ZERO: string := [0 as char]

  ghost predicate IsBytes(s: string) {
    forall i | 0 <= i < |s| :: s[i] <= MAX_BYTE
  }

  /** The order of Go's `<` on strings, which is also etcd's key order. */
  predicate Less(a: string, b: string) {
    |b| > 0 && (|a| == 0 || a[0] < b[0] || (a[0] == b[0] && Less(a[1..], b[1..])))
  }

  predicate AtMost(a: string, b: string) {
    a == b || Less(a, b)
  }

  lemma {:induction false} LessIrreflexive(a: string)
    ensures !Less(a, a)
  {
    if |a| > 0 { LessIrreflexive(a[1..]); }
  }

  lemma {:induction false} LessTransitive(a: string, b: string, c: string)
    requires Less(a, b) && Less(b, c)
    ensures Less(a, c)
  {
    if |a| > 0 && a[0] == b[0] == c[0] { LessTransitive(a[1..], b[1..], c[1..]); }
  }

  lemma {:induction false} LessTotal(a: string, b: string)
    ensures a == b || Less(a, b) || Less(b, a)
    ensures !(Less(a, b) && Less(b, a))
  {
    if |a| > 0 && |b| > 0 {
      LessTotal(a[1..], b[1..]);
      if a[0] == b[0] && a[1..] == b[1..] {
        assert a == [a[0]] + a[1..] && b == [b[0]] + b[1..];
      }
    }
  }

  /** Appending a zero byte gives the immediate successor of a key: nothing fits in between. */
  lemma {:induction false} ZeroByteIsSuccessor(a: string, b: string)
    ensures Less(a, b) <==> AtMost(a + ZERO, b)
  {
    if |a| > 0 && |b| > 0 && a[0] == b[0] {
      ZeroByteIsSuccessor(a[1..], b[1..]);
      assert (a + ZERO)[1..] == a[1..] + ZERO;
      if a[1..] + ZERO == b[1..] { assert a + ZERO == [a[0]] + b[1..] == b; }
    } else if |a| == 0 && |b| > 0 {
      assert a + ZERO == ZERO;
      assert ZERO[0] as int <= b[0] as int;
      if b[0] == ZERO[0] {
        assert ZERO[1..] == "";
        if |b| == 1 { assert b == ZERO; } else { assert Less(ZERO[1..], b[1..]); }
      } else {
        assert Less(ZERO, b);
      }
    } else if |a| > 0 && |b| > 0 {
      assert (a + ZERO)[0] == a[0];
    }
  }

  /** First key after every key that starts with p; None when no key follows them. */
  function RangeEnd(p: string): Option<string> {
    if p == "" then None
    else match RangeEnd(p[1..])
      case Some(e) => Some([p[0]] + e)
      case None => if p[0] < MAX_BYTE then Some([p[0] + 1 as char]) else None
  }

  predicate Before(k: string, end: Option<string>) {
    end.None? || Less(k, end.value)
  }

  /** The half-open range from p to RangeEnd(p) holds exactly the keys that start with p. */
  lemma {:induction false} RangeIsPrefix(k: string, p: string)
    requires IsBytes(k) && IsBytes(p)
    ensures p <= k <==> AtMost(p, k) && Before(k, RangeEnd(p))
  {
    if p != "" {
      if k != "" && k[0] == p[0] {
        RangeIsPrefix(k[1..], p[1..]);
        assert p == [p[0]] + p[1..] && k == [k[0]] + k[1..];
        assert p <= k <==> p[1..] <= k[1..];
        assert AtMost(p, k) <==> AtMost(p[1..], k[1..]);
        match RangeEnd(p[1..]) {
          case Some(e) =>
            assert RangeEnd(p).value[1..] == e;
            assert Less(k, RangeEnd(p).value) <==> Less(k[1..], e);
          case None =>
            assert p[0] < MAX_BYTE ==> k[0] < RangeEnd(p).value[0];
            assert Before(k, RangeEnd(p));
        }
        assert Before(k, RangeEnd(p)) <==> Before(k[1..], RangeEnd(p[1..]));
      } else if k != "" && Less(p, k) {
        assert p[0] < k[0] <= MAX_BYTE;
        var end := RangeEnd(p).value;
        assert end[0] == p[0] || (end[0] as int == p[0] as int + 1 && end[1..] == "");
        assert !Less(k, end);
      }
    }
  }

  /** A common prefix does not matter for the order. */
  lemma {:induction false} LessBelow(p: string, a: string, b: string)
    ensures Less(p + a, p + b) <==> Less(a, b)
  {
    if p == "" {
      assert p + a == a && p + b == b;
    } else {
      LessBelow(p[1..], a, b);
      assert (p + a)[1..] == p[1..] + a && (p + b)[1..] == p[1..] + b;
    }
  }
}
