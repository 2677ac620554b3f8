/** What parsing an expression without parentheses yields: parseArithmetic of include/lib_app/Parser.hpp. */
module ArithmeticValues {
  import opened Arithmetic
  import opened Basics
  import opened Bits

  // ---- The value the program computes ----

  /** 1 or -1: the product of the signs. */
  function SignOf(signs: seq<Sign>): (r: int)
    ensures r == 1 || r == -1
  {
    if signs == [] then 1 else if signs[0].Neg? then -SignOf(signs[1..]) else SignOf(signs[1..])
  }

  /** All signs of an operand but the last are applied before the operand is there, to what precedes it. */
  function ExtraSign(f: Factor): (r: int)
    ensures r == 1 || r == -1
  {
    if f.signs == [] then 1 else SignOf(f.signs[..|f.signs| - 1])
  }

  function FirstFactor(t: Term): Factor
  {
    match t
    case One(f) => f
    case Times(left, _, _) => FirstFactor(left)
  }

  function Combine(op: AddOp, a: int, b: int): int { if op.Add? then a + b else a - b }

  /** The running total changes sign with every later term whose first operand has an odd number of
      minus signs before its last sign; an expression that starts with two signs fails. */
  function SignedTotal(e: Expr): Result<int>
  {
    match e
    case Only(t) => if |FirstFactor(t).signs| > 1 then Error else TermValue(t)
    case Plus2(left, op, t) =>
      match (SignedTotal(left), TermValue(t))
      case (Ok(a), Ok(b)) => Ok(ExtraSign(FirstFactor(t)) * Combine(op, a, b))
      case _ => Error
  }

  lemma {:induction false} SignsMultiply(signs: seq<Sign>, v: int)
    ensures ApplySigns(signs, v) == SignOf(signs) * v
    decreases |signs|
  {
    if signs != [] {
      SignsMultiply(signs[1..], v);
    }
  }

  lemma {:induction false} SignsSplit(a: seq<Sign>, s: Sign)
    ensures SignOf(a + [s]) == SignOf(a) * SignOf([s])
    decreases |a|
  {
    if a == [] {
      assert a + [s] == [s];
    } else {
      assert (a + [s])[1..] == a[1..] + [s];
      SignsSplit(a[1..], s);
    }
  }

  lemma DivisionOfSigned(s: int, t: int, a: int, b: int)
    requires (s == 1 || s == -1) && (t == 1 || t == -1)
    ensures t * b == 0 <==> b == 0
    ensures b != 0 ==> TruncDiv(t * (s * a), t * b) == s * TruncDiv(a, b)
  {
    Signed(s, a);
    Signed(t, s * a);
    Signed(t, b);
    hide *;
    if b != 0 {
      TruncDivSigns(a, b);
      TruncDivSigns(s * a, b);
      Signed(s, TruncDiv(a, b));
    }
  }

  lemma Signed(s: int, x: int)
    requires s == 1 || s == -1
    ensures s * x == if s == 1 then x else -x
  {
  }

  lemma TruncDivSigns(a: int, b: int)
    requires b != 0
    ensures TruncDiv(-a, b) == -TruncDiv(a, b) && TruncDiv(-a, -b) == TruncDiv(a, b)
  {
  }

  // ---- Evaluating what the conversion emits ----

  /** Signs met by the stack machine act on its top. */
  lemma {:induction false} EvalUnary(stack: seq<int>, v: int, signs: seq<Sign>, rest: seq<Token>)
    ensures EvalFrom(stack + [v], Unary(signs) + rest) == EvalFrom(stack + [SignOf(signs) * v], rest)
    decreases |signs|
  {
    hide EvalFrom;
    if signs == [] {
      assert Unary(signs) + rest == rest;
    } else {
      var more := Unary(signs[1..]) + rest;
      assert Unary(signs) + rest == [UnaryToken(signs[0])] + more;
      EvalOneSign(stack, v, signs[0], more);
      var w := if signs[0].Neg? then -v else v;
      EvalUnary(stack, w, signs[1..], rest);
      assert SignOf(signs[1..]) * w == SignOf(signs) * v;
    }
  }

  lemma EvalOneSign(stack: seq<int>, v: int, s: Sign, rest: seq<Token>)
    ensures EvalFrom(stack + [v], [UnaryToken(s)] + rest) == EvalFrom(stack + [if s.Neg? then -v else v], rest)
  {
    assert ([UnaryToken(s)] + rest)[1..] == rest && (stack + [v])[..|stack|] == stack;
  }

  /** An unsigned operand. */
  lemma EvalCore(stack: seq<int>, f: Factor, rest: seq<Token>)
    ensures EvalFrom(stack, Core(f) + rest) == EvalFrom(stack + [FactorValue(Factor([], f.number, f.suffix))], rest)
  {
    var bare := Factor([], f.number, f.suffix);
    EvalFactor(stack, bare, rest);
    assert InnermostFirst([]) == [] && FactorPostfix(Correct, bare) == Core(f) + [];
    assert Core(f) + [] == Core(f);
  }

  /** An operand on a stack: its extra signs act on the top, and the operand lacks them. */
  lemma EvalOperand(stack: seq<int>, l: int, f: Factor, rest: seq<Token>)
    ensures EvalFrom(stack + [l], FactorPostfix(Emitted, f) + rest)
         == EvalFrom(stack + [ExtraSign(f) * l] + [ExtraSign(f) * FactorValue(f)], rest)
  {
    hide EvalFrom, Core, Unary, SignOf, ApplySigns, Multiplier, SuffixText;
    var n := |f.signs|;
    var c := FactorValue(Factor([], f.number, f.suffix));
    NoSignsApply(f.number);
    if n == 0 {
      EvalCore(stack + [l], f, rest);
      BareValue(f);
      assert f == Factor([], f.number, f.suffix);
    } else {
      var extra, last := f.signs[..n - 1], f.signs[n - 1];
      var tail := [UnaryToken(last)] + rest;
      assert FactorPostfix(Emitted, f) + rest == Unary(extra) + (Core(f) + tail);
      EvalUnary(stack, l, extra, Core(f) + tail);
      var l' := SignOf(extra) * l;
      EvalCore(stack + [l'], f, tail);
      EvalOneSign(stack + [l'], c, last, rest);
      OperandValue(f);
    }
  }

  lemma NoSignsApply(v: int) ensures ApplySigns([], v) == v {}

  lemma BareValue(f: Factor)
    requires f.signs == []
    ensures ExtraSign(f) == 1
  {
  }

  /** The operand with its last sign only. */
  lemma OperandValue(f: Factor)
    requires f.signs != []
    ensures var n := |f.signs|; var c := FactorValue(Factor([], f.number, f.suffix));
      ExtraSign(f) == SignOf(f.signs[..n - 1])
      && (if f.signs[n - 1].Neg? then -c else c) == ExtraSign(f) * FactorValue(f)
  {
    hide Multiplier, SuffixText;
    var n := |f.signs|;
    var c := FactorValue(Factor([], f.number, f.suffix));
    SignsMultiply(f.signs, c);
    SignsSplit(f.signs[..n - 1], f.signs[n - 1]);
    assert f.signs[..n - 1] + [f.signs[n - 1]] == f.signs;
    assert SignOf([f.signs[n - 1]]) == if f.signs[n - 1].Neg? then -1 else 1;
  }

  /** An operand on the empty stack, where an extra sign has nothing to act on. */
  lemma EvalFirstOperand(f: Factor, rest: seq<Token>)
    ensures EvalFrom([], FactorPostfix(Emitted, f) + rest)
         == if |f.signs| > 1 then Error else EvalFrom([FactorValue(f)], rest)
  {
    if |f.signs| > 1 {
      var q := FactorPostfix(Emitted, f) + rest;
      assert q[0] == UnaryToken(f.signs[0]);
    } else {
      hide EvalFrom;
      FactorStyles(f);
      EvalFactor([], f, rest);
      assert [] + [FactorValue(f)] == [FactorValue(f)];
    }
  }

  lemma {:induction false} EvalLaterTerm(stack: seq<int>, l: int, t: Term, rest: seq<Token>)
    ensures EvalFrom(stack + [l], TermPostfix(Emitted, t) + rest)
         == match TermValue(t)
            case Error => Error
            case Ok(v) =>
              EvalFrom(stack + [ExtraSign(FirstFactor(t)) * l] + [ExtraSign(FirstFactor(t)) * v], rest)
    decreases t
  {
    hide EvalFrom, FactorPostfix, FactorValue, ExtraSign, TruncDiv;
    match t
    case One(f) => EvalOperand(stack, l, f, rest);
    case Times(left, op, f) =>
      var m := MulToken(op);
      var more := FactorPostfix(Emitted, f) + ([m] + rest);
      assert TermPostfix(Emitted, t) + rest == TermPostfix(Emitted, left) + more;
      EvalLaterTerm(stack, l, left, more);
      if TermValue(left).Ok? {
        var s := ExtraSign(FirstFactor(t));
        var under := stack + [s * l];
        EvalOperand(under, s * TermValue(left).value, f, [m] + rest);
        EvalTimes(under, s, ExtraSign(f), TermValue(left).value, FactorValue(f), op, rest);
      }
  }

  /** Both operands may have their signs changed: the product or quotient keeps only the change of the left one. */
  lemma EvalTimes(stack: seq<int>, s: int, t: int, a: int, b: int, op: MulOp, rest: seq<Token>)
    requires (s == 1 || s == -1) && (t == 1 || t == -1)
    ensures EvalFrom(stack + [t * (s * a)] + [t * b], [MulToken(op)] + rest)
         == if op.Div? && b == 0 then Error
            else EvalFrom(stack + [s * if op.Mul? then a * b else TruncDiv(a, b)], rest)
  {
    hide EvalFrom, TruncDiv;
    EvalBinary(stack, t * (s * a), t * b, MulToken(op), rest);
    DivisionOfSigned(s, t, a, b);
    ProductOfSigned(s, t, a, b);
  }

  lemma ProductOfSigned(s: int, t: int, a: int, b: int)
    requires t == 1 || t == -1
    ensures (t * (s * a)) * (t * b) == s * (a * b)
  {
  }

  lemma {:induction false} EvalFirstTerm(t: Term, rest: seq<Token>)
    ensures EvalFrom([], TermPostfix(Emitted, t) + rest)
         == if |FirstFactor(t).signs| > 1 then Error
            else match TermValue(t) case Error => Error case Ok(v) => EvalFrom([v], rest)
    decreases t
  {
    hide EvalFrom, FactorPostfix, FactorValue, ExtraSign, TruncDiv;
    match t
    case One(f) => EvalFirstOperand(f, rest);
    case Times(left, op, f) =>
      var m := MulToken(op);
      var more := FactorPostfix(Emitted, f) + ([m] + rest);
      assert TermPostfix(Emitted, t) + rest == TermPostfix(Emitted, left) + more;
      EvalFirstTerm(left, more);
      if |FirstFactor(t).signs| <= 1 && TermValue(left).Ok? {
        var a := TermValue(left).value;
        assert [] + [a] == [a] && 1 * a == a;
        EvalOperand([], a, f, [m] + rest);
        EvalTimes([], 1, ExtraSign(f), a, FactorValue(f), op, rest);
        var v := if op.Mul? then a * FactorValue(f) else if FactorValue(f) == 0 then 0 else TruncDiv(a, FactorValue(f));
        assert [] + [1 * v] == [v];
      }
  }

  lemma {:induction false} EvalEmitted(e: Expr, rest: seq<Token>)
    ensures EvalFrom([], Postfix(Emitted, e) + rest)
         == match SignedTotal(e) case Error => Error case Ok(v) => EvalFrom([v], rest)
    decreases e
  {
    hide EvalFrom, TermPostfix, ExtraSign;
    match e
    case Only(t) => EvalFirstTerm(t, rest);
    case Plus2(left, op, t) =>
      var more := TermPostfix(Emitted, t) + ([AddToken(op)] + rest);
      assert Postfix(Emitted, e) + rest == Postfix(Emitted, left) + more;
      EvalEmitted(left, more);
      if SignedTotal(left).Ok? {
        var a := SignedTotal(left).value;
        assert [] + [a] == [a];
        EvalLaterTerm([], a, t, [AddToken(op)] + rest);
        if TermValue(t).Ok? {
          EvalPlus(ExtraSign(FirstFactor(t)), a, TermValue(t).value, op, rest);
        }
      }
  }

  lemma EvalPlus(s: int, a: int, b: int, op: AddOp, rest: seq<Token>)
    requires s == 1 || s == -1
    ensures EvalFrom([] + [s * a] + [s * b], [AddToken(op)] + rest) == EvalFrom([s * Combine(op, a, b)], rest)
  {
    hide EvalFrom;
    EvalBinary([], s * a, s * b, AddToken(op), rest);
    assert [] + [s * Combine(op, a, b)] == [s * Combine(op, a, b)];
  }

  /** The exact result for every expression without parentheses. */
  lemma ParseIsSignedTotal(e: Expr)
    ensures Parse(Tokens(e)) == SignedTotal(e)
  {
    hide Convert, Tokens;
    ConvertEmits(e);
    EvalEmitted(e, []);
    assert Postfix(Emitted, e) + [] == Postfix(Emitted, e);
  }

  // ---- When it is the value of the grammar ----

  /** At most one sign at the very start, and an even number of minus signs before the last sign of the
      first operand of every later term; the other operands may carry any signs. */
  predicate SafeSigns(e: Expr)
  {
    match e
    case Only(t) => |FirstFactor(t).signs| <= 1
    case Plus2(left, _, t) => SafeSigns(left) && ExtraSign(FirstFactor(t)) == 1
  }

  lemma {:induction false} SafeTotal(e: Expr)
    requires SafeSigns(e)
    ensures SignedTotal(e) == Value(e)
    decreases e
  {
    match e
    case Only(_) =>
    case Plus2(left, op, t) =>
      SafeTotal(left);
      hide TermValue, ExtraSign;
  }

  /** Converting and evaluating gives the value of the expression, division by zero included. */
  lemma ParsePreservesMeaning(e: Expr)
    requires SafeSigns(e)
    ensures Parse(Tokens(e)) == Value(e)
  {
    ParseIsSignedTotal(e);
    SafeTotal(e);
  }

  /** An unsafe start goes unnoticed only when the expression has no value ... */
  lemma UnsafeStartParsesIff(t: Term)
    ensures Parse(Tokens(Only(t))) == Value(Only(t)) <==> SafeSigns(Only(t)) || Value(Only(t)) == Error
  {
    hide Parse, Tokens;
    ParseIsSignedTotal(Only(t));
  }

  /** ... and a single unsafe term only when the total up to it has no value or is zero. */
  lemma UnsafeTermParsesIff(left: Expr, op: AddOp, t: Term)
    requires SafeSigns(left)
    ensures var e := Plus2(left, op, t);
      Parse(Tokens(e)) == Value(e) <==> SafeSigns(e) || Value(e) == Error || Value(e) == Ok(0)
  {
    hide Parse, Tokens, TermValue, ExtraSign;
    ParseIsSignedTotal(Plus2(left, op, t));
    SafeTotal(left);
  }

  // ---- The same operators and signs with other numbers ----

  predicate SameFactor(f: Factor, g: Factor) { f.signs == g.signs && f.suffix == g.suffix && f.number >= 0 }

  predicate SameTerm(t: Term, u: Term)
  {
    match (t, u)
    case (One(f), One(g)) => SameFactor(f, g)
    case (Times(left, op, f), Times(left', op', f')) => SameTerm(left, left') && op == op' && SameFactor(f, f')
    case _ => false
  }

  /** `d` is `e` with other numbers, all of which a tokenizer can deliver. */
  predicate SameShape(d: Expr, e: Expr)
  {
    match (d, e)
    case (Only(t), Only(u)) => SameTerm(t, u)
    case (Plus2(left, op, t), Plus2(left', op', t')) => SameShape(left, left') && op == op' && SameTerm(t, t')
    case _ => false
  }

  lemma {:induction false} SameFirst(t: Term, u: Term)
    requires SameTerm(t, u)
    ensures FirstFactor(t).signs == FirstFactor(u).signs && ExtraSign(FirstFactor(t)) == ExtraSign(FirstFactor(u))
    decreases t
  {
    if t.Times? {
      SameFirst(t.left, u.left);
    }
  }

  lemma {:induction false} SameShapeIsSafe(d: Expr, e: Expr)
    requires SameShape(d, e)
    ensures SafeSigns(d) <==> SafeSigns(e)
    decreases d
  {
    match d
    case Only(t) => SameFirst(t, e.t);
    case Plus2(left, _, t) =>
      SameShapeIsSafe(left, e.left);
      SameFirst(t, e.t);
  }

  /** An operand with another number; a size suffix never shrinks it. */
  lemma WithNumber(g: Factor, n: nat) returns (f: Factor, m: nat)
    ensures SameFactor(f, g) && f.number == n && m >= 1
    ensures FactorValue(f) == n * m || FactorValue(f) == -(n * m)
    ensures m == if g.suffix.NoSuffix? then 1 else Multiplier(SuffixText(g.suffix))
  {
    f := Factor(g.signs, n, g.suffix);
    m := if g.suffix.NoSuffix? then 1 else Multiplier(SuffixText(g.suffix));
    SignsMultiply(g.signs, n * m);
  }

  lemma {:induction false} ZeroTerm(u: Term) returns (t: Term)
    ensures SameTerm(t, u) && TermValue(t) == Ok(0)
    decreases u
  {
    hide FactorValue, Multiplier, SuffixText;
    match u
    case One(g) =>
      var f, m := WithNumber(g, 0);
      t := One(f);
    case Times(left, op, g) =>
      var l := ZeroTerm(left);
      var f, m := WithNumber(g, 1);
      t := Times(l, op, f);
      assert 0 * FactorValue(f) == 0 && TruncDiv(0, FactorValue(f)) == 0;
  }

  lemma {:induction false} BigTerm(u: Term, bound: nat) returns (t: Term)
    ensures SameTerm(t, u) && TermValue(t).Ok?
    ensures TermValue(t).value >= bound || bound + TermValue(t).value <= 0
    decreases u
  {
    hide FactorValue, Multiplier, SuffixText;
    match u
    case One(g) =>
      var f, m := WithNumber(g, bound);
      t := One(f);
      AtLeast(bound, bound, m);
    case Times(left, op, g) =>
      var f, m := WithNumber(g, 1);
      var l := BigTerm(left, if op.Mul? then bound else bound * m);
      t := Times(l, op, f);
      BigTimes(l, op, f, m, bound);
  }

  lemma BigTimes(l: Term, op: MulOp, f: Factor, m: nat, bound: nat)
    requires m >= 1 && (FactorValue(f) == 1 * m || FactorValue(f) == -(1 * m)) && TermValue(l).Ok?
    requires var a := TermValue(l).value; var b := if op.Mul? then bound else bound * m; a >= b || b + a <= 0
    ensures var v := TermValue(Times(l, op, f)); v.Ok? && (v.value >= bound || bound + v.value <= 0)
  {
    hide FactorValue, TruncDiv;
    var a := TermValue(l).value;
    if op.Mul? {
      AtLeast(bound, if a < 0 then -a else a, m);
      ProductSize(a, FactorValue(f), m);
    } else {
      QuotientSize(a, FactorValue(f), m, bound);
    }
  }

  lemma AtLeast(bound: nat, a: nat, m: nat)
    requires bound <= a && m >= 1
    ensures a * m >= bound
  {
  }

  lemma ProductSize(a: int, b: int, m: nat)
    requires b == 1 * m || b == -(1 * m)
    ensures a * b == a * m || a * b == -(a * m)
    ensures a >= 0 ==> a * m == a * m
    ensures a < 0 ==> a * m == -((-a) * m)
  {
  }

  lemma QuotientSize(a: int, b: int, m: nat, bound: nat)
    requires m >= 1 && (b == 1 * m || b == -(1 * m)) && (a >= bound * m || bound * m + a <= 0)
    ensures b != 0 && (TruncDiv(a, b) >= bound || bound + TruncDiv(a, b) <= 0)
  {
    var x := if a < 0 then -a else a;
    Division(x, m, bound);
    assert TruncDiv(a, b) == x / m || TruncDiv(a, b) == -(x / m);
  }

  lemma Division(x: nat, m: nat, bound: nat)
    requires m >= 1 && x >= bound * m
    ensures x / m >= bound
  {
    DivMod(x, m);
    FewerThanOne(bound - x / m, m, x % m);
  }

  lemma FewerThanOne(k: int, m: nat, r: nat)
    requires m >= 1 && r < m && k * m <= r
    ensures k <= 0
  {
    if k >= 1 {
      AtLeastOnce(m, k);
    }
  }

  lemma {:induction false} ZeroExpr(e: Expr) returns (d: Expr)
    ensures SameShape(d, e) && Value(d) == Ok(0) && SignedTotal(d) in {Ok(0), Error}
    decreases e
  {
    hide TermValue, ExtraSign, SameTerm;
    match e
    case Only(u) =>
      var t := ZeroTerm(u);
      d := Only(t);
    case Plus2(left, op, u) =>
      var l := ZeroExpr(left);
      var t := ZeroTerm(u);
      d := Plus2(l, op, t);
  }

  /** Unsafe signs are noticed with some choice of numbers. */
  lemma {:induction false} UnsafeNumbers(e: Expr) returns (d: Expr)
    requires !SafeSigns(e)
    ensures SameShape(d, e) && SignedTotal(d) != Value(d)
    decreases e
  {
    hide TermValue, ExtraSign, SameTerm;
    match e
    case Only(u) =>
      var t := BigTerm(u, 1);
      SameFirst(t, u);
      d := Only(t);
    case Plus2(left, op, u) =>
      if ExtraSign(FirstFactor(u)) == 1 {
        var l := UnsafeNumbers(left);
        var t := ZeroTerm(u);
        SameFirst(t, u);
        d := Plus2(l, op, t);
      } else {
        var l := ZeroExpr(left);
        var t := BigTerm(u, 1);
        SameFirst(t, u);
        d := Plus2(l, op, t);
      }
  }

  /** An arrangement of operators, signs and suffixes is parsed to its value with all numbers if and only
      if its signs are safe. */
  lemma ParsesAllNumbersIff(e: Expr)
    ensures (forall d :: SameShape(d, e) ==> Parse(Tokens(d)) == Value(d)) <==> SafeSigns(e)
  {
    hide Parse, Tokens, Value, SignedTotal, SafeSigns, SameShape;
    if SafeSigns(e) {
      forall d | SameShape(d, e) ensures Parse(Tokens(d)) == Value(d) {
        SameShapeIsSafe(d, e);
        ParsePreservesMeaning(d);
      }
    } else {
      var d := UnsafeNumbers(e);
      ParseIsSignedTotal(d);
    }
  }

  /** Two signs in a row: `--3` is rejected, although its value is 3 ... */
  lemma DoubleSignRejected()
    ensures var e := Only(One(Factor([Neg, Neg], 3, NoSuffix)));
            && Tokens(e) == [Minus, Minus, Number(3)]
            && Value(e) == Ok(3) && Parse(Tokens(e)) == Error
  {
    hide Parse;
    ParseIsSignedTotal(Only(One(Factor([Neg, Neg], 3, NoSuffix))));
    NegationTwice(3);
  }

  /** ... and `5 - --3` evaluates to -2 instead of 2. */
  lemma DoubleSignMisread()
    ensures var e := Plus2(Only(One(Factor([], 5, NoSuffix))), Sub, One(Factor([Neg, Neg], 3, NoSuffix)));
            && Tokens(e) == [Number(5), Minus, Minus, Minus, Number(3)]
            && Value(e) == Ok(2) && Parse(Tokens(e)) == Ok(-2)
  {
    hide Parse;
    ParseIsSignedTotal(Plus2(Only(One(Factor([], 5, NoSuffix))), Sub, One(Factor([Neg, Neg], 3, NoSuffix))));
    NegationTwice(3);
    assert [Neg, Neg][..1] == [Neg] && [Neg][1..] == [];
  }

  lemma NegationTwice(v: int)
    ensures ApplySigns([Neg, Neg], v) == v
  {
    assert [Neg, Neg][1..] == [Neg] && [Neg][1..] == [];
    assert ApplySigns([Neg], v) == -v;
  }
}
