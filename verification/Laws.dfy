/** Laws of the operators: order theory, the arity at which the documentation holds, De Morgan's
    laws with errors, and percentile cohorts. */
module Laws {
  import opened Prelude
  import opened Strconv
  import opened Expr
  import opened Typing
  import Bytes

  predicate Canonical(v: Value) { Decode(v).Some? }

  /** GT, GTE, LT and LTE on canonical values of one type are the four faces of one total order,
      and equality in that order is equality of the values. */
  lemma OrderTheory(x: Value, y: Value, z: Value, fl: Floats)
    requires Canonical(x) && Canonical(y) && Canonical(z) && x.typ == y.typ == z.typ
    ensures Compare(GT, x, y, fl).Ok? && Compare(GTE, x, y, fl).Ok?
    ensures Compare(LTE, x, y, fl) == Ok(!Compare(GT, x, y, fl).value)
    ensures Compare(LT, x, y, fl) == Ok(!Compare(GTE, x, y, fl).value)
    ensures Compare(LT, x, y, fl) == Compare(GT, y, x, fl)
    ensures Compare(GTE, x, x, fl) == Ok(true)
    ensures Compare(GTE, x, y, fl) == Ok(true) || Compare(GTE, y, x, fl) == Ok(true)
    ensures Compare(GTE, x, y, fl) == Ok(true) && Compare(GTE, y, z, fl) == Ok(true) ==>
              Compare(GTE, x, z, fl) == Ok(true)
    ensures Compare(GTE, x, y, fl) == Compare(GTE, y, x, fl) == Ok(true) <==> x == y
  {
    CompareIsRelated(GT, x, y, fl);
    CompareIsRelated(GTE, x, y, fl);
    CompareIsRelated(LT, x, y, fl);
    CompareIsRelated(LTE, x, y, fl);
    CompareIsRelated(GT, y, x, fl);
    CompareIsRelated(GTE, y, x, fl);
    CompareIsRelated(GTE, x, x, fl);
    CompareIsRelated(GTE, y, z, fl);
    CompareIsRelated(GTE, x, z, fl);
    var a, b, c := Decode(x).value, Decode(y).value, Decode(z).value;
    DataOrder(a, b, c);
    DataOrder(a, a, a);
    EncodeDecode(x);
    EncodeDecode(y);
  }

  lemma CompareIsRelated(op: Op, x: Value, y: Value, fl: Floats)
    requires IsOrder(op) && Canonical(x) && Canonical(y) && x.typ == y.typ
    ensures TyOf(Decode(x).value) == TyOf(Decode(y).value)
    ensures Compare(op, x, y, fl) == Ok(Related(op, Decode(x).value, Decode(y).value))
  {
    EncodeDecode(x);
    EncodeDecode(y);
    var a, b := Decode(x).value, Decode(y).value;
    SameTypeName(a, b);
    RelateIsRelated(op, a, b, fl);
  }

  lemma SameTypeName(a: Datum, b: Datum)
    requires TyName(TyOf(a)) == TyName(TyOf(b))
    ensures TyOf(a) == TyOf(b)
  {
    assert "bool"[0] == 'b' && "string"[0] == 's' && "int64"[0] == 'i';
  }

  /** DLess is a strict total order on the data of each type. */
  lemma DataOrder(a: Datum, b: Datum, c: Datum)
    requires TyOf(a) == TyOf(b) == TyOf(c)
    ensures !(DLess(a, b) && DLess(b, a))
    ensures a == b || DLess(a, b) || DLess(b, a)
    ensures DLess(a, b) && DLess(b, c) ==> DLess(a, c)
    ensures !DLess(a, b) && !DLess(b, c) ==> !DLess(a, c)
    ensures !DLess(a, a)
  {
    if a.S? {
      StringOrder(a.s, b.s, c.s);
    }
  }

  lemma StringOrder(a: string, b: string, c: string)
    ensures !(Bytes.Less(a, b) && Bytes.Less(b, a)) && !Bytes.Less(a, a)
    ensures a == b || Bytes.Less(a, b) || Bytes.Less(b, a)
    ensures Bytes.Less(a, b) && Bytes.Less(b, c) ==> Bytes.Less(a, c)
    ensures !Bytes.Less(a, b) && !Bytes.Less(b, c) ==> !Bytes.Less(a, c)
  {
    Bytes.LessTotal(a, b);
    Bytes.LessTotal(b, c);
    Bytes.LessTotal(a, c);
    Bytes.LessIrreflexive(a);
    if Bytes.Less(a, b) && Bytes.Less(b, c) { Bytes.LessTransitive(a, b, c); }
    if Bytes.Less(b, a) && Bytes.Less(c, b) { Bytes.LessTransitive(c, b, a); }
  }

  /** What the comments promise: each operand relates to the next one. */
  ghost predicate Chain(op: Op, ds: seq<Datum>)
    requires IsOrder(op) && Accepts(op, Types(ds))
  {
    forall i | 0 <= i < |ds| - 1 :: Link(op, ds, i)
  }

  ghost predicate Link(op: Op, ds: seq<Datum>, i: nat)
    requires IsOrder(op) && Accepts(op, Types(ds)) && i < |ds| - 1
  {
    assert Types(ds)[i] == Types(ds)[i + 1];
    Related(op, ds[i], ds[i + 1])
  }

  /** The documented chain always implies the computed answer. */
  lemma ChainImpliesComputed(op: Op, ds: seq<Datum>)
    requires IsOrder(op) && Accepts(op, Types(ds)) && Chain(op, ds)
    ensures Meaning(op, ds) == B(true)
  {
    forall i | 1 <= i < |ds|
      ensures TyOf(ds[i]) == TyOf(ds[0]) && Related(op, ds[0], ds[i])
    {
      FirstReaches(op, ds, i);
    }
  }

  lemma {:induction false} FirstReaches(op: Op, ds: seq<Datum>, i: nat)
    requires IsOrder(op) && Accepts(op, Types(ds)) && Chain(op, ds) && 1 <= i < |ds|
    ensures TyOf(ds[i]) == TyOf(ds[0]) && Related(op, ds[0], ds[i])
  {
    assert Types(ds)[i] == Types(ds)[0];
    assert Link(op, ds, i - 1);
    if i > 1 {
      FirstReaches(op, ds, i - 1);
      DataOrder(ds[0], ds[i - 1], ds[i]);
      DataOrder(ds[i], ds[i - 1], ds[0]);
    }
  }

  /** The documented and the computed relation agree on all operands of an arity exactly when the
      operator takes two of them; the code compares every operand with the first. */
  lemma DocumentedOnlyForTwo(op: Op, n: nat)
    requires IsOrder(op) && n >= 2
    ensures (forall ds: seq<Datum> | |ds| == n && Accepts(op, Types(ds)) ::
               Meaning(op, ds) == B(Chain(op, ds)))
       <==> n == 2
  {
    if n == 2 {
      forall ds: seq<Datum> | |ds| == 2 && Accepts(op, Types(ds))
        ensures Meaning(op, ds) == B(Chain(op, ds))
      {
        assert Link(op, ds, 0) == Related(op, ds[0], ds[1]);
        assert ds[1..][0] == ds[1];
      }
    } else {
      var top := if op == GT || op == GTE then 2 else 0;
      var ds := [I(top), I(2 - top)] + seq(n - 2, _ => I(1));
      assert forall i | 0 <= i < n :: ds[i].I?;
      assert Accepts(op, Types(ds));
      assert !Link(op, ds, 1);
      assert AllRelated(op, ds[0], ds[1..]);
      assert Meaning(op, ds) == B(true) && !Chain(op, ds);
    }
  }

  // ---- De Morgan ----

  function NotOf(e: Expr): Expr { Oper(Not, "not", [e]) }

  function NotEach(es: seq<Expr>): seq<Expr> {
    if es == [] then [] else [NotOf(es[0])] + NotEach(es[1..])
  }

  /** Same value, or an error on both sides. */
  predicate Agree(a: Outcome<Value>, b: Outcome<Value>) {
    a == b || (a.Err? && b.Err?)
  }

  /** A value of type bool that neither constructor builds, such as a literal with text "1". */
  predicate Odd(v: Value) { v.typ == "bool" && v != TRUE && v != FALSE }

  /** How many operands an Or or And evaluates before the one that ends it. */
  function StopIndex(op: Op, ops: seq<Expr>, env: Env): nat {
    if ops == [] then 0
    else match Eval(ops[0], env)
      case Err(_) => 0
      case Ok(v) => if v.typ != "bool" || v == StopValue(op) then 0 else 1 + StopIndex(op, ops[1..], env)
  }

  /** An And over these operands comes across an odd value before it ends. */
  predicate MeetsOdd(ops: seq<Expr>, env: Env) {
    ops != [] && match Eval(ops[0], env)
      case Err(_) => false
      case Ok(v) => Odd(v) || (v == TRUE && MeetsOdd(ops[1..], env))
  }

  lemma NotStep(e: Expr, env: Env)
    ensures Eval(e, env).Err? ==> Eval(NotOf(e), env).Err?
    ensures Eval(e, env).Ok? && Eval(e, env).value.typ != "bool" ==> Eval(NotOf(e), env).Err?
    ensures Eval(e, env).Ok? && Eval(e, env).value.typ == "bool" ==>
              Eval(NotOf(e), env) == Ok(BoolValue(Eval(e, env).value != TRUE))
    ensures TRUE != FALSE
  {
    assert TRUE.data[0] == 't' && FALSE.data[0] == 'f';
  }

  /** Not(Or(es)) and And(Not(e) for each e) agree on value and error, and look at the same operands:
      for every operand list, odd literals included. */
  lemma {:induction false} NotOrLaw(es: seq<Expr>, env: Env)
    ensures Agree(EvalConnective(And, NotEach(es), env), NotResult(EvalConnective(Or, es, env)))
    ensures StopIndex(And, NotEach(es), env) == StopIndex(Or, es, env)
  {
    if es != [] {
      NotStep(es[0], env);
      NotOrLaw(es[1..], env);
      assert NotEach(es)[1..] == NotEach(es[1..]);
    }
  }

  /** What Not makes of the outcome of its operand. */
  function NotResult(r: Outcome<Value>): Outcome<Value> {
    match r
    case Err(e) => Err(e)
    case Ok(v) => if v.typ != "bool" then Err(BadOperandType(Not)) else Ok(BoolValue(v != TRUE))
  }

  /** Not(And(es)) and Or(Not(e) for each e) agree exactly when no odd value is met or the And is
      false anyway; without odd values they also look at the same operands. */
  lemma {:induction false} NotAndLaw(es: seq<Expr>, env: Env)
    ensures Agree(EvalConnective(Or, NotEach(es), env), NotResult(EvalConnective(And, es, env)))
       <==> (MeetsOdd(es, env) ==> EvalConnective(And, es, env) == Ok(FALSE))
    ensures !MeetsOdd(es, env) ==> StopIndex(Or, NotEach(es), env) == StopIndex(And, es, env)
  {
    if es != [] {
      NotStep(es[0], env);
      NotAndLaw(es[1..], env);
      assert NotEach(es)[1..] == NotEach(es[1..]);
      ConnectiveResult(And, es, env);
    }
  }

  lemma {:induction false} ConnectiveResult(op: Op, ops: seq<Expr>, env: Env)
    requires op == Or || op == And
    ensures EvalConnective(op, ops, env).Ok? ==> EvalConnective(op, ops, env).value in {TRUE, FALSE}
  {
    if ops != [] { ConnectiveResult(op, ops[1..], env); }
  }

  lemma {:induction false} AgainstResult(op: Op, a: Value, ops: seq<Expr>, env: Env)
    ensures EvalAgainst(op, a, ops, env).Ok? ==> EvalAgainst(op, a, ops, env).value in {TRUE, FALSE}
  {
    if ops != [] { AgainstResult(op, a, ops[1..], env); }
  }

  /** Only a literal can be odd: every other node builds its booleans. */
  lemma OddIsLiteral(e: Expr, env: Env)
    requires Eval(e, env).Ok? && Odd(Eval(e, env).value)
    ensures e.Lit? && Odd(e.value)
  {
    match e {
      case Lit(_) =>
      case Ref(_) =>
      case Oper(op, _, ops) =>
        match op {
          case Not =>
          case Or | And => ConnectiveResult(op, ops, env);
          case FNV =>
          case Percentile =>
          case _ => AgainstResult(op, Eval(ops[0], env).value, ops[1..], env);
        }
    }
  }

  lemma {:induction false} NoOddLiterals(es: seq<Expr>, env: Env)
    requires forall e | e in es :: e.Lit? ==> !Odd(e.value)
    ensures !MeetsOdd(es, env)
  {
    if es != [] {
      if Eval(es[0], env).Ok? && Odd(Eval(es[0], env).value) { OddIsLiteral(es[0], env); }
      assert es[0] in es;
      NoOddLiterals(es[1..], env);
    }
  }

  /** De Morgan on whole expressions, for operands without odd boolean literals and any arity. */
  lemma DeMorgan(es: seq<Expr>, env: Env)
    requires forall e | e in es :: e.Lit? ==> !Odd(e.value)
    ensures Agree(Eval(NotOf(Oper(And, "and", es)), env), Eval(Oper(Or, "or", NotEach(es)), env))
    ensures Agree(Eval(NotOf(Oper(Or, "or", es)), env), Eval(Oper(And, "and", NotEach(es)), env))
    ensures StopIndex(Or, NotEach(es), env) == StopIndex(And, es, env)
    ensures StopIndex(And, NotEach(es), env) == StopIndex(Or, es, env)
  {
    NotEachLength(es);
    NoOddLiterals(es, env);
    NotAndLaw(es, env);
    NotOrLaw(es, env);
    assert Eval(NotOf(Oper(And, "and", es)), env) == NotResult(Eval(Oper(And, "and", es), env));
    assert Eval(NotOf(Oper(Or, "or", es)), env) == NotResult(Eval(Oper(Or, "or", es), env));
  }

  lemma {:induction false} NotEachLength(es: seq<Expr>)
    ensures |NotEach(es)| == |es|
  {
    if es != [] { NotEachLength(es[1..]); }
  }

  /** The And law for one list of operands. */
  predicate AndLaw(es: seq<Expr>, env: Env) {
    Agree(Eval(NotOf(Oper(And, "and", es)), env), Eval(Oper(Or, "or", NotEach(es)), env))
  }

  /** Every odd literal breaks the law: And passes over it, while Not makes it true. */
  lemma OddLiteralBreaksDeMorgan(v: Value, env: Env)
    requires Odd(v)
    ensures !AndLaw([Lit(v), Lit(v)], env)
  {
    var es := [Lit(v), Lit(v)];
    assert es[1..] == [Lit(v)] && [Lit(v)][1..] == [];
    NotEachLength(es);
    assert EvalConnective(And, [Lit(v)], env) == Ok(TRUE);
    assert EvalConnective(And, es, env) == Ok(TRUE);
    assert NotEach(es)[0] == NotOf(Lit(v));
    NotStep(Lit(v), env);
    NotStep(Oper(And, "and", es), env);
    assert EvalConnective(Or, NotEach(es), env) == Ok(TRUE);
  }

  ghost predicate LiteralsFrom(es: seq<Expr>, lits: set<Value>) {
    forall e | e in es && e.Lit? :: e.value in lits
  }

  /** For any set of literals that operands may be: the And law holds for all operands and all
      parameters if and only if no literal of the set is odd. */
  lemma DeMorganExact(lits: set<Value>)
    ensures (forall es, env | LiteralsFrom(es, lits) :: AndLaw(es, env)) <==> forall v | v in lits :: !Odd(v)
  {
    if v :| v in lits && Odd(v) {
      var env := Env(Nil, Floats((x, y) => Unreadable, x => None));
      OddLiteralBreaksDeMorgan(v, env);
      assert LiteralsFrom([Lit(v), Lit(v)], lits) && !AndLaw([Lit(v), Lit(v)], env);
    } else {
      forall es, env | LiteralsFrom(es, lits) ensures AndLaw(es, env) { DeMorgan(es, env); }
    }
  }

  // ---- Percentile ----

  /** v belongs to the group of percentile p. */
  ghost predicate InGroup(v: Expr, p: int64, env: Env) {
    Eval(Oper(Percentile, "percentile", [v, Lit(Int64Value(p))]), env) == Ok(TRUE)
  }

  function Residue(v: Value): (r: int)
    ensures 0 <= r < 100
  {
    HashInt(v.data) % 100
  }

  /** Groups are decided by one residue of the operand's hash, so they grow with p. */
  lemma Cohorts(v: Expr, p: int64, q: int64, env: Env)
    requires Eval(v, env).Ok?
    ensures InGroup(v, p, env) <==> Residue(Eval(v, env).value) in Selected(p)
    ensures Eval(Oper(Percentile, "percentile", [v, Lit(Int64Value(p))]), env).Ok?
    ensures p <= q && InGroup(v, p, env) ==> InGroup(v, q, env)
    ensures p < 0 ==> !InGroup(v, p, env)
    ensures p >= 99 ==> InGroup(v, p, env)
  {
    GroupIsResidue(v, p, env);
    GroupIsResidue(v, q, env);
    assert TRUE.data[0] == 't' && FALSE.data[0] == 'f';
  }

  lemma GroupIsResidue(v: Expr, p: int64, env: Env)
    requires Eval(v, env).Ok?
    ensures Eval(Oper(Percentile, "percentile", [v, Lit(Int64Value(p))]), env)
         == Ok(BoolValue(Residue(Eval(v, env).value) <= p))
  {
    Reparsed(p);
    assert Eval(Lit(Int64Value(p)), env) == Ok(Int64Value(p));
    PercentileOf("percentile", v, Lit(Int64Value(p)), Eval(v, env).value, Int64Value(p), p, env);
  }

  lemma Reparsed(i: int64)
    ensures ParseInt64Of(Int64Value(i)) == Ok(i)
  {
    IntRoundTrip(i);
  }

  /** A known hash: that of the text of the integer 1234. */
  lemma KnownHash(s: string)
    requires |s| == 4 && s[0] == '1' && s[1] == '2' && s[2] == '3' && s[3] == '4'
    ensures HashInt(s) == 2179869525
  {
    KnownSteps();
    assert s[..4] == s && s[..0] == "";
    HashNext(s, 0);
    HashNext(s, 1);
    HashNext(s, 2);
    HashNext(s, 3);
  }

  lemma HashNext(s: string, i: nat)
    requires i < |s|
    ensures HashInt(s[..i + 1]) == FnvStep(HashInt(s[..i]), s[i])
  {
    assert s[..i + 1][..i] == s[..i];
  }

  lemma KnownSteps()
    ensures FnvStep(FNV_OFFSET, '1') == 84696366 && FnvStep(84696366, '2') == 544649048
    ensures FnvStep(544649048, '3') == 1926629307 && FnvStep(1926629307, '4') == 2179869525
  {
    KnownXors();
    OneStep(FNV_OFFSET, '1', 8461673, 84696351);
    LowByte(84696351, 330845, 31, 49);
    OneStep(84696366, '2', 330853, 544649066);
    LowByte(544649066, 2127535, 106, 50);
    OneStep(544649048, '3', 2127586, 1926629256);
    LowByte(1926629256, 7525895, 136, 51);
    OneStep(1926629307, '4', 7526076, 2179869537);
    LowByte(2179869537, 8515115, 97, 52);
  }

  /** A step, given the product as quotient and low word. */
  lemma OneStep(h: uint32, c: char, q: int, m: uint32)
    requires h * 16777619 == q * 4294967296 + m && c as int < 256
    ensures FnvStep(h, c) == XorLowByte(m, c as int)
  {
    LowWord(h * FNV_PRIME, q, m);
  }

  lemma LowWord(x: int, q: int, m: int)
    requires x == q * 4294967296 + m && 0 <= m < 4294967296
    ensures x % TWO_32 == m
  {
  }

  lemma LowByte(m: uint32, high: int, last: int, byte: int)
    requires m == high * 256 + last && 0 <= last < 256 && 0 <= byte < 256
    ensures XorLowByte(m, byte) == high * 256 + Xor(last, byte)
  {
    assert m / 256 == high && m % 256 == last;
  }

  lemma KnownXors()
    ensures Xor(31, 49) == 46 && Xor(106, 50) == 88 && Xor(136, 51) == 187 && Xor(97, 52) == 85
  {
    assert Xor(0, 1) == 1 && Xor(3, 6) == 5 && Xor(15, 24) == 23;
    assert Xor(3, 1) == 2 && Xor(13, 6) == 11 && Xor(53, 25) == 44;
    assert Xor(4, 1) == 5 && Xor(17, 6) == 23 && Xor(68, 25) == 93;
    assert Xor(3, 1) == 2 && Xor(12, 6) == 10 && Xor(48, 26) == 42;
  }

  predicate Selects(p: int, residue: int) { residue <= p }

  /** The residues that percentile p selects. */
  function Selected(p: int): set<int> { set r | 0 <= r < 100 && Selects(p, r) }

  /** A percentile p in 0..99 selects exactly p + 1 of the 100 residues. */
  lemma {:induction false} CohortSize(p: int)
    requires -1 <= p <= 99
    ensures |Selected(p)| == p + 1
  {
    if p >= 0 {
      CohortSize(p - 1);
      assert Selected(p) == Selected(p - 1) + {p};
    } else {
      assert Selected(p) == {};
    }
  }
}
