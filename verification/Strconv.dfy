/** The parts of Go's strconv package that values travel through. */
module Strconv {
  import opened Prelude

  const TWO_63: int := 0x8000_0000_0000_0000

  type int64 = i: int | -TWO_63 <= i < TWO_63

  predicate IsDigit(c: char) { '0' <= c <= '9' }

  function DigitValue(c: char): nat
    requires IsDigit(c)
  {
    c as int - '0' as int
  }

  function DigitChar(d: nat): (c: char)
    requires d < 10
    ensures IsDigit(c) && DigitValue(c) == d
  {
    ('0' as int + d) as char
  }

  function FormatNat(n: nat): (s: string)
    ensures |s| > 0 && IsDigit(s[0])
  {
    if n < 10 then [DigitChar(n)] else FormatNat(n / 10) + [DigitChar(n % 10)]
  }

  function ParseNat(s: string): Option<nat> {
    if |s| == 0 || !IsDigit(s[|s| - 1]) then None
    else if |s| == 1 then Some(DigitValue(s[0]))
    else match ParseNat(s[..|s| - 1])
      case None => None
      case Some(n) => Some(10 * n + DigitValue(s[|s| - 1]))
  }

  /** strconv.FormatInt(i, 10) */
  function FormatInt(i: int64): string {
    if i < 0 then "-" + FormatNat(-(i as int)) else FormatNat(i)
  }

  /** strconv.ParseInt(s, 10, 64): an optional sign, then digits only, within the int64 range. */
  function ParseInt(s: string): Option<int64> {
    if s == "" then None
    else
      var signed := s[0] == '-' || s[0] == '+';
      match ParseNat(if signed then s[1..] else s)
      case None => None
      case Some(n) =>
        if s[0] == '-' then (if n > TWO_63 then None else Some(-(n as int)))
        else (if n >= TWO_63 then None else Some(n))
  }

  function FormatBool(b: bool): string {
    if b then "true" else "false"
  }

  /** strconv.ParseBool */
  function ParseBool(s: string): Option<bool> {
    if s in ["1", "t", "T", "TRUE", "true", "True"] then Some(true)
    else if s in ["0", "f", "F", "FALSE", "false", "False"] then Some(false)
    else None
  }

  lemma {:induction false} NatRoundTrip(n: nat)
    ensures ParseNat(FormatNat(n)) == Some(n)
  {
    if n >= 10 {
      NatRoundTrip(n / 10);
      var s := FormatNat(n);
      assert s[..|s| - 1] == FormatNat(n / 10);
    }
  }

  /** Every int64 survives the trip through its decimal form, so decimal forms are unique. */
  lemma IntRoundTrip(i: int64)
    ensures ParseInt(FormatInt(i)) == Some(i)
  {
    NatRoundTrip(if i < 0 then -(i as int) else i);
    if i < 0 {
      assert FormatInt(i)[1..] == FormatNat(-(i as int));
    }
  }

  lemma BoolRoundTrip(b: bool)
    ensures ParseBool(FormatBool(b)) == Some(b)
  {
    assert FormatBool(b) in ["1", "t", "T", "TRUE", "true", "True"] <==> b;
  }

  // ---- Exactly which texts can be read ----

  function Zeros(z: nat): string { seq(z, _ => '0') }

  lemma {:induction false} ZerosParse(z: nat, s: string)
    requires s != ""
    ensures ParseNat(Zeros(z) + s) == ParseNat(s)
    decreases z + |s|
  {
    var t := Zeros(z) + s;
    if |s| > 1 {
      ZerosParse(z, s[..|s| - 1]);
      assert t[..|t| - 1] == Zeros(z) + s[..|s| - 1];
    } else if z > 0 {
      assert t[..|t| - 1] == Zeros(z - 1) + "0";
      ZerosParse(z - 1, "0");
      assert ParseNat("0") == Some(0);
    } else {
      assert t == s;
    }
  }

  ghost predicate WritesNat(s: string, n: nat, z: nat) { s == Zeros(z) + FormatNat(n) }

  /** One digit more. */
  lemma WritesNext(init: string, m: nat, z: nat, d: char) returns (z': nat)
    requires WritesNat(init, m, z) && IsDigit(d)
    ensures WritesNat(init + [d], 10 * m + DigitValue(d), z')
  {
    assert DigitChar(DigitValue(d)) == d;
    if m == 0 {
      z' := z + 1;
      assert FormatNat(0) == "0" && Zeros(z) + "0" == Zeros(z + 1);
    } else {
      z' := z;
      assert FormatNat(10 * m + DigitValue(d)) == FormatNat(m) + [d];
    }
  }

  lemma {:induction false} NatIsWritten(s: string) returns (z: nat)
    requires ParseNat(s).Some?
    ensures WritesNat(s, ParseNat(s).value, z)
    decreases |s|
  {
    var d := s[|s| - 1];
    if |s| == 1 {
      z := 0;
      assert DigitChar(DigitValue(d)) == d && s == [d];
    } else {
      var init := s[..|s| - 1];
      var y := NatIsWritten(init);
      z := WritesNext(init, ParseNat(init).value, y, d);
      assert s == init + [d];
    }
  }

  /** The texts that read as n are its decimal form behind any number of zeros. */
  lemma NatTexts(s: string, n: nat)
    ensures ParseNat(s) == Some(n) <==> exists z: nat :: WritesNat(s, n, z)
  {
    if z: nat :| WritesNat(s, n, z) {
      ZerosParse(z, FormatNat(n));
      NatRoundTrip(n);
    }
    if ParseNat(s) == Some(n) { var z := NatIsWritten(s); }
  }

  /** The signs with which a number may be written. */
  predicate SignOf(sign: string, i: int) {
    || (sign == "-" && i <= 0)
    || ((sign == "" || sign == "+") && i >= 0)
  }

  function Magnitude(i: int): nat { if i < 0 then -i else i }

  /** s is i written with a fitting sign, any number of zeros and the decimal form. */
  ghost predicate Writes(s: string, i: int, sign: string, z: nat) {
    SignOf(sign, i) && s == sign + (Zeros(z) + FormatNat(Magnitude(i)))
  }

  lemma WrittenReads(s: string, i: int64, sign: string, z: nat)
    requires Writes(s, i, sign, z)
    ensures ParseInt(s) == Some(i)
  {
    var digits := Zeros(z) + FormatNat(Magnitude(i));
    assert WritesNat(digits, Magnitude(i), z);
    NatTexts(digits, Magnitude(i));
    FirstDigit(digits, z, FormatNat(Magnitude(i)));
    SignedReads(sign, digits, Magnitude(i));
  }

  lemma FirstDigit(s: string, z: nat, t: string)
    requires s == Zeros(z) + t && t != "" && IsDigit(t[0])
    ensures IsDigit(s[0])
  {
    if z > 0 { assert s[0] == Zeros(z)[0]; } else { assert s == t; }
  }

  lemma SignedReads(sign: string, digits: string, n: nat)
    requires digits != "" && IsDigit(digits[0]) && ParseNat(digits) == Some(n)
    requires sign == "" || sign == "+" || sign == "-"
    ensures ParseInt(sign + digits)
         == if sign == "-" then (if n > TWO_63 then None else Some(-(n as int))) else (if n >= TWO_63 then None else Some(n))
  {
    if sign == "" { assert sign + digits == digits; } else { assert (sign + digits)[1..] == digits; }
  }

  lemma ReadIsWritten(s: string, i: int64) returns (sign: string, z: nat)
    requires ParseInt(s) == Some(i)
    ensures Writes(s, i, sign, z)
  {
    var signed := s[0] == '-' || s[0] == '+';
    var digits := if signed then s[1..] else s;
    z := NatIsWritten(digits);
    sign := if signed then s[..1] else "";
    assert s == sign + digits;
  }

  /** The texts that read as an int64 are those that write it. */
  lemma IntTexts(s: string, i: int64)
    ensures ParseInt(s) == Some(i) <==> exists sign: string, z: nat :: Writes(s, i, sign, z)
  {
    if sign, z: nat :| Writes(s, i, sign, z) { WrittenReads(s, i, sign, z); }
    if ParseInt(s) == Some(i) { var sign, z := ReadIsWritten(s, i); }
  }

  /** The spellings that read as a bool. */
  lemma BoolTexts(s: string)
    ensures ParseBool(s) == Some(true) <==> s == "1" || s == "t" || s == "T" || s == "TRUE" || s == "true" || s == "True"
    ensures ParseBool(s) == Some(false) <==> s == "0" || s == "f" || s == "F" || s == "FALSE" || s == "false" || s == "False"
  {
    var yes, no := ["1", "t", "T", "TRUE", "true", "True"], ["0", "f", "F", "FALSE", "false", "False"];
    assert yes[0] == "1" && yes[1] == "t" && yes[2] == "T" && yes[3] == "TRUE" && yes[4] == "true" && yes[5] == "True";
    assert no[0] == "0" && no[1] == "f" && no[2] == "F" && no[3] == "FALSE" && no[4] == "false" && no[5] == "False";
    assert forall x | x in yes :: x[0] == '1' || x[0] == 't' || x[0] == 'T';
  }
}
