/** What parsing an expression with parentheses yields: parseArithmetic of include/lib_app/Parser.hpp. */
module ArithmeticParenValues {
  import opened Arithmetic
  import opened ArithmeticParens
  import opened ArithmeticValues
  import opened Basics

  // ---- The value of the grammar ----

  function MulResult(op: MulOp, a: int, b: int): Result<int>
  {
    if op.Mul? then Ok(a * b) else if b == 0 then Error else Ok(TruncDiv(a, b))
  }

  function ValueOfOperand(o: Operand): Result<int>
  {
    match o
    case Plain(f) => Ok(FactorValue(f))
    case Group(signs, sum) =>
      match ValueOfSum(sum)
      case Error => Error
      case Ok(v) => Ok(ApplySigns(signs, v))
  }

  function ValueOfProduct(p: Product): Result<int>
  {
    match p
    case Single(o) => ValueOfOperand(o)
    case Scaled(left, op, o) =>
      match (ValueOfProduct(left), ValueOfOperand(o))
      case (Ok(a), Ok(b)) => MulResult(op, a, b)
      case _ => Error
  }

  function ValueOfSum(e: Sum): Result<int>
  {
    match e
    case Lone(p) => ValueOfProduct(p)
    case Added(left, op, p) =>
      match (ValueOfSum(left), ValueOfProduct(p))
      case (Ok(a), Ok(b)) => Ok(Combine(op, a, b))
      case _ => Error
  }

  // ---- The value the program computes ----

  /** The signs emitted before a group. */
  function EarlySign(signs: seq<Sign>): (r: int)
    ensures r == 1 || r == -1
  {
    if signs == [] then 1 else SignOf(signs[..|signs| - 1])
  }

  /** What an operand does to the value computed before it: the early signs at its start act on that. */
  function OperandEffect(o: Operand): (r: int)
    ensures r == 1 || r == -1
  {
    match o
    case Plain(f) => ExtraSign(f)
    case Group(signs, sum) => EarlySign(signs) * SumEffect(sum)
  }

  function ProductEffect(p: Product): (r: int)
    ensures r == 1 || r == -1
  {
    match p
    case Single(o) => OperandEffect(o)
    case Scaled(left, _, _) => ProductEffect(left)
  }

  function SumEffect(e: Sum): (r: int)
    ensures r == 1 || r == -1
  {
    match e
    case Lone(p) => ProductEffect(p)
    case Added(left, _, _) => SumEffect(left)
  }

  /** The value left on the stack: the signs in front of a group do not act on it. */
  function OperandResult(o: Operand): Result<int>
  {
    match o
    case Plain(f) => Ok(ExtraSign(f) * FactorValue(f))
    case Group(_, sum) => SumResult(sum)
  }

  function ProductResult(p: Product): Result<int>
  {
    match p
    case Single(o) => OperandResult(o)
    case Scaled(left, op, o) =>
      match (ProductResult(left), OperandResult(o))
      case (Ok(a), Ok(b)) => MulResult(op, OperandEffect(o) * a, b)
      case _ => Error
  }

  function SumResult(e: Sum): Result<int>
  {
    match e
    case Lone(p) => ProductResult(p)
    case Added(left, op, p) =>
      match (SumResult(left), ProductResult(p))
      case (Ok(a), Ok(b)) => Ok(Combine(op, ProductEffect(p) * a, b))
      case _ => Error
  }

  // ---- When it fails whatever the numbers are ----

  /** No parenthesis stands directly behind a binary operator. */
  predicate KeptInOperand(o: Operand)
  {
    match o
    case Plain(_) => true
    case Group(_, sum) => KeptInSum(sum)
  }

  predicate KeptInProduct(p: Product)
  {
    match p
    case Single(o) => KeptInOperand(o)
    case Scaled(left, _, o) => KeptInProduct(left) && !Bare(o) && KeptInOperand(o)
  }

  predicate KeptInSum(e: Sum)
  {
    match e
    case Lone(p) => KeptInProduct(p)
    case Added(left, _, p) => KeptInSum(left) && !Bare(FirstOperand(p)) && KeptInProduct(p)
  }

  /** At most one sign in front of the first number, and of each group that starts with it. */
  predicate StartsOperand(o: Operand)
  {
    match o
    case Plain(f) => |f.signs| <= 1
    case Group(signs, sum) => |signs| <= 1 && StartsSum(sum)
  }

  predicate StartsProduct(p: Product)
  {
    match p
    case Single(o) => StartsOperand(o)
    case Scaled(left, _, _) => StartsProduct(left)
  }

  predicate StartsSum(e: Sum)
  {
    match e
    case Lone(p) => StartsProduct(p)
    case Added(left, _, _) => StartsSum(left)
  }

  /** The exact result. */
  function Total(e: Sum): Result<int>
  {
    if KeptInSum(e) && StartsSum(e) then SumResult(e) else Error
  }

  // ---- Evaluating what is emitted ----

  lemma SignTimes(s: int, t: int, x: int)
    requires (s == 1 || s == -1) && (t == 1 || t == -1)
    ensures s * (t * x) == (s * t) * x == (t * s) * x
  {
  }

  lemma {:induction false} EvalLaterOperand(stack: seq<int>, l: int, o: Operand, rest: seq<Token>)
    requires KeptInOperand(o)
    ensures EvalFrom(stack + [l], OperandPostfix(o) + rest)
         == match OperandResult(o)
            case Error => Error
            case Ok(v) => EvalFrom(stack + [OperandEffect(o) * l] + [v], rest)
    decreases o
  {
    hide EvalFrom, FactorPostfix, FactorValue, ExtraSign, Unary, SignOf, SumPostfix;
    match o
    case Plain(f) => EvalOperand(stack, l, f, rest);
    case Group(signs, e) =>
      var early := if signs == [] then [] else signs[..|signs| - 1];
      NoSigns(Yard([], [], []));
      EarlySigns(signs);
      assert OperandPostfix(o) + rest == Unary(early) + (SumPostfix(e) + rest);
      EvalUnary(stack, l, early, SumPostfix(e) + rest);
      EvalLaterSum(stack, SignOf(early) * l, e, rest);
      SignTimes(SumEffect(e), SignOf(early), l);
  }

  lemma EarlySigns(signs: seq<Sign>)
    ensures EarlySign(signs) == SignOf(if signs == [] then [] else signs[..|signs| - 1])
  {
  }

  lemma {:induction false} EvalLaterProduct(stack: seq<int>, l: int, p: Product, rest: seq<Token>)
    requires KeptInProduct(p)
    ensures EvalFrom(stack + [l], ProductPostfix(p) + rest)
         == match ProductResult(p)
            case Error => Error
            case Ok(v) => EvalFrom(stack + [ProductEffect(p) * l] + [v], rest)
    decreases p
  {
    hide EvalFrom, OperandPostfix, OperandResult, OperandEffect;
    match p
    case Single(o) => EvalLaterOperand(stack, l, o, rest);
    case Scaled(left, op, o) =>
      var m := [MulToken(op)] + rest;
      assert ProductPostfix(p) + rest == ProductPostfix(left) + (OperandPostfix(o) + m);
      EvalLaterProduct(stack, l, left, OperandPostfix(o) + m);
      if ProductResult(left).Ok? {
        var under, a := stack + [ProductEffect(left) * l], ProductResult(left).value;
        EvalLaterOperand(under, a, o, m);
        if OperandResult(o).Ok? {
          EvalMul(under, OperandEffect(o) * a, OperandResult(o).value, op, rest);
        }
      }
  }

  lemma EvalMul(stack: seq<int>, a: int, b: int, op: MulOp, rest: seq<Token>)
    ensures EvalFrom(stack + [a] + [b], [MulToken(op)] + rest)
         == match MulResult(op, a, b) case Error => Error case Ok(v) => EvalFrom(stack + [v], rest)
  {
    hide EvalFrom;
    EvalBinary(stack, a, b, MulToken(op), rest);
  }

  lemma EvalAdd(stack: seq<int>, a: int, b: int, op: AddOp, rest: seq<Token>)
    ensures EvalFrom(stack + [a] + [b], [AddToken(op)] + rest) == EvalFrom(stack + [Combine(op, a, b)], rest)
  {
    hide EvalFrom;
    EvalBinary(stack, a, b, AddToken(op), rest);
  }

  lemma {:induction false} EvalLaterSum(stack: seq<int>, l: int, e: Sum, rest: seq<Token>)
    requires KeptInSum(e)
    ensures EvalFrom(stack + [l], SumPostfix(e) + rest)
         == match SumResult(e)
            case Error => Error
            case Ok(v) => EvalFrom(stack + [SumEffect(e) * l] + [v], rest)
    decreases e
  {
    hide EvalFrom, ProductPostfix, ProductResult, ProductEffect;
    match e
    case Lone(p) => EvalLaterProduct(stack, l, p, rest);
    case Added(left, op, p) =>
      var m := [AddToken(op)] + rest;
      assert SumPostfix(e) + rest == SumPostfix(left) + (ProductPostfix(p) + m);
      EvalLaterSum(stack, l, left, ProductPostfix(p) + m);
      if SumResult(left).Ok? {
        var under, a := stack + [SumEffect(left) * l], SumResult(left).value;
        EvalLaterProduct(under, a, p, m);
        if ProductResult(p).Ok? {
          EvalAdd(under, ProductEffect(p) * a, ProductResult(p).value, op, rest);
        }
      }
  }

  /** On the empty stack an early sign has nothing to act on. */
  lemma {:induction false} EvalFirst(o: Operand, rest: seq<Token>)
    requires KeptInOperand(o)
    ensures EvalFrom([], OperandPostfix(o) + rest)
         == if !StartsOperand(o) then Error
            else match OperandResult(o) case Error => Error case Ok(v) => EvalFrom([v], rest)
    decreases o
  {
    hide EvalFrom, FactorPostfix, FactorValue, Unary, SumPostfix;
    match o
    case Plain(f) =>
      EvalFirstOperand(f, rest);
      if |f.signs| == 1 {
        assert f.signs[..0] == [];
      }
    case Group(signs, e) =>
      if |signs| > 1 {
        var early := Unary(signs[..|signs| - 1]);
        EvalSignFirst(early + SumPostfix(e) + rest, signs[0]) by {
          assert early[0] == UnaryToken(signs[0]) by { FirstUnary(signs[..|signs| - 1]); }
        }
      } else {
        NoSigns(Yard([], [], []));
        assert signs != [] ==> signs[..0] == [];
        assert OperandPostfix(o) + rest == SumPostfix(e) + rest;
        EvalStart(e, rest);
      }
  }

  lemma FirstUnary(signs: seq<Sign>)
    requires signs != []
    ensures Unary(signs)[0] == UnaryToken(signs[0])
  {
  }

  lemma EvalSignFirst(q: seq<Token>, s: Sign)
    requires q != [] && q[0] == UnaryToken(s)
    ensures EvalFrom([], q) == Error
  {
  }

  lemma {:induction false} EvalFirstProduct(p: Product, rest: seq<Token>)
    requires KeptInProduct(p)
    ensures EvalFrom([], ProductPostfix(p) + rest)
         == if !StartsProduct(p) then Error
            else match ProductResult(p) case Error => Error case Ok(v) => EvalFrom([v], rest)
    decreases p
  {
    hide EvalFrom, OperandPostfix, OperandResult, OperandEffect;
    match p
    case Single(o) => EvalFirst(o, rest);
    case Scaled(left, op, o) =>
      var m := [MulToken(op)] + rest;
      assert ProductPostfix(p) + rest == ProductPostfix(left) + (OperandPostfix(o) + m);
      EvalFirstProduct(left, OperandPostfix(o) + m);
      if StartsProduct(left) && ProductResult(left).Ok? {
        var a := ProductResult(left).value;
        EvalLaterOperand([], a, o, m);
        if OperandResult(o).Ok? {
          EvalMul([], OperandEffect(o) * a, OperandResult(o).value, op, rest);
        }
      }
      assert forall v: int :: [] + [v] == [v];
  }

  lemma {:induction false} EvalStart(e: Sum, rest: seq<Token>)
    requires KeptInSum(e)
    ensures EvalFrom([], SumPostfix(e) + rest)
         == if !StartsSum(e) then Error
            else match SumResult(e) case Error => Error case Ok(v) => EvalFrom([v], rest)
    decreases e
  {
    hide EvalFrom, ProductPostfix, ProductResult, ProductEffect;
    match e
    case Lone(p) => EvalFirstProduct(p, rest);
    case Added(left, op, p) =>
      var m := [AddToken(op)] + rest;
      assert SumPostfix(e) + rest == SumPostfix(left) + (ProductPostfix(p) + m);
      EvalStart(left, ProductPostfix(p) + m);
      if StartsSum(left) && SumResult(left).Ok? {
        var a := SumResult(left).value;
        EvalLaterProduct([], a, p, m);
        if ProductResult(p).Ok? {
          EvalAdd([], ProductEffect(p) * a, ProductResult(p).value, op, rest);
        }
      }
      assert forall v: int :: [] + [v] == [v];
  }

  // ---- Counting what a lost operator leaves over ----

  /** Numbers less binary operators. */
  function Balance(q: seq<Token>): int
  {
    if q == [] then 0 else Weight(q[0]) + Balance(q[1..])
  }

  function Weight(t: Token): int
  {
    if IsNumber(t) then 1 else if IsOperator(t) && Arity(t) == 2 then -1 else 0
  }

  lemma {:induction false} BalanceAppend(a: seq<Token>, b: seq<Token>)
    ensures Balance(a + b) == Balance(a) + Balance(b)
    decreases |a|
  {
    if a == [] {
      assert a + b == b;
    } else {
      assert (a + b)[1..] == a[1..] + b;
      BalanceAppend(a[1..], b);
    }
  }

  /** One value is left at the end only if there is one number more than there are binary operators. */
  lemma {:induction false} EvalBalance(stack: seq<int>, q: seq<Token>)
    requires EvalFrom(stack, q).Ok?
    ensures |stack| + Balance(q) == 1
    decreases |q|
  {
    if q != [] {
      if IsOperator(q[0]) {
        var n, k := Arity(q[0]), |stack|;
        var v := ApplyOperator(q[0], if n == 1 then [stack[k - 1]] else [stack[k - 1], stack[k - 2]]).value;
        EvalBalance(stack[..k - n] + [v], q[1..]);
      } else {
        EvalBalance(stack + [q[0].value], q[1..]);
      }
    }
  }

  lemma {:induction false} UnaryBalance(signs: seq<Sign>)
    ensures Balance(Unary(signs)) == 0
    decreases |signs|
  {
    if signs != [] {
      assert Unary(signs)[1..] == Unary(signs[1..]);
      UnaryBalance(signs[1..]);
    }
  }

  lemma FactorBalance(f: Factor)
    ensures Balance(FactorPostfix(Emitted, f)) == 1
  {
    CoreBalance(f);
    if f.signs != [] {
      var n := |f.signs| - 1;
      UnaryBalance(f.signs[..n]);
      OneBalance(UnaryToken(f.signs[n]));
      BalanceAppend(Unary(f.signs[..n]) + Core(f), [UnaryToken(f.signs[n])]);
      BalanceAppend(Unary(f.signs[..n]), Core(f));
    }
  }

  lemma CoreBalance(f: Factor)
    ensures Balance(Core(f)) == 1
  {
    hide Multiplier, SuffixText;
    var n := Number(f.number);
    OneBalance(n);
    if f.suffix.NoSuffix? {
      assert Core(f) == [n];
    } else {
      var m := Number(Multiplier(SuffixText(f.suffix)));
      OneBalance(m);
      OneBalance(Multiply);
      assert Core(f) == [n] + [m] + [Multiply];
      BalanceAppend([n] + [m], [Multiply]);
      BalanceAppend([n], [m]);
    }
  }

  lemma OneBalance(t: Token)
    ensures Balance([t]) == Weight(t) && Balance([]) == 0
  {
    assert [t][1..] == [];
  }

  /** Every lost operator adds one to the balance. */
  lemma {:induction false} OperandBalance(o: Operand)
    ensures Balance(OperandPostfix(o)) >= 1 && (Balance(OperandPostfix(o)) == 1 <==> KeptInOperand(o))
    decreases o
  {
    hide Balance, Unary, FactorPostfix;
    match o
    case Plain(f) => FactorBalance(f);
    case Group(signs, e) =>
      var early := if signs == [] then [] else signs[..|signs| - 1];
      NoSigns(Yard([], [], []));
      UnaryBalance(early);
      assert OperandPostfix(o) == Unary(early) + SumPostfix(e);
      BalanceAppend(Unary(early), SumPostfix(e));
      SumBalance(e);
  }

  lemma {:induction false} ProductBalance(p: Product)
    ensures Balance(ProductPostfix(p)) >= 1 && (Balance(ProductPostfix(p)) == 1 <==> KeptInProduct(p))
    decreases p
  {
    hide Balance, OperandPostfix;
    match p
    case Single(o) => OperandBalance(o);
    case Scaled(left, op, o) =>
      ProductBalance(left);
      OperandBalance(o);
      OneBalance(MulToken(op));
      BalanceAppend(ProductPostfix(left) + OperandPostfix(o), if Bare(o) then [] else [MulToken(op)]);
      BalanceAppend(ProductPostfix(left), OperandPostfix(o));
  }

  lemma {:induction false} SumBalance(e: Sum)
    ensures Balance(SumPostfix(e)) >= 1 && (Balance(SumPostfix(e)) == 1 <==> KeptInSum(e))
    decreases e
  {
    hide Balance, ProductPostfix;
    match e
    case Lone(p) => ProductBalance(p);
    case Added(left, op, p) =>
      SumBalance(left);
      ProductBalance(p);
      OneBalance(AddToken(op));
      BalanceAppend(SumPostfix(left) + ProductPostfix(p), if Bare(FirstOperand(p)) then [] else [AddToken(op)]);
      BalanceAppend(SumPostfix(left), ProductPostfix(p));
  }

  /** The exact result for every expression without doubled parentheses behind an operator or a sign. */
  lemma ParseIsTotal(e: Sum)
    requires NoDoubled(e)
    ensures Parse(SumTokens(e)) == Total(e)
  {
    hide Convert, SumTokens, EvalFrom, SumPostfix, SumResult, KeptInSum, StartsSum, Balance, NoDoubled;
    ConvertEmitsGroups(e);
    var q := SumPostfix(e);
    assert q + [] == q;
    SumBalance(e);
    if KeptInSum(e) {
      EvalStart(e, []);
      OneValue();
    } else if EvalFrom([], q).Ok? {
      EvalBalance([], q);
    }
  }

  lemma OneValue() ensures forall v: int :: EvalFrom([v], []) == Ok(v) {}

  // ---- When that is the value of the grammar ----

  /** How the result relates to the value: 1 if it is the value and -1 if it is its opposite, with all numbers;
      0 if that depends on the numbers. */
  function OperandSense(o: Operand): (r: int)
    ensures -1 <= r <= 1
  {
    match o
    case Plain(f) => ExtraSign(f)
    case Group(signs, sum) => SignOf(signs) * SumSense(sum)
  }

  function ProductSense(p: Product): (r: int)
    ensures -1 <= r <= 1
  {
    match p
    case Single(o) => OperandSense(o)
    case Scaled(left, _, o) => OperandEffect(o) * ProductSense(left) * OperandSense(o)
  }

  function SumSense(e: Sum): (r: int)
    ensures -1 <= r <= 1
  {
    match e
    case Lone(p) => ProductSense(p)
    case Added(left, _, p) => JointSense(ProductEffect(p) * SumSense(left), ProductSense(p))
  }

  function JointSense(l: int, r: int): int { if l == r then r else 0 }

  /** No parenthesis behind a binary operator, at most one sign where the expression and the groups at its start
      begin, and signs that leave the value as it is. */
  predicate SafeSum(e: Sum)
  {
    KeptInSum(e) && StartsSum(e) && SumSense(e) == 1
  }

  predicate IsSign(s: int) { s == 1 || s == -1 }

  lemma MulSigned(s: int, t: int, a: int, b: int, op: MulOp)
    requires IsSign(s) && IsSign(t)
    ensures MulResult(op, s * a, t * b)
         == match MulResult(op, a, b) case Error => Error case Ok(v) => Ok(s * t * v)
  {
    hide TruncDiv;
    DivisionOfSigned(s * t, t, a, b);
    ProductOfSigned(s * t, t, a, b);
    SignTimes(t, s, a);
    SignTimes(t, t, s * a);
    SignTimes(t, s * t, a);
    assert t * (s * t * a) == s * a;
  }

  lemma {:induction false} OperandFollows(o: Operand)
    requires OperandSense(o) != 0
    ensures OperandResult(o)
         == match ValueOfOperand(o) case Error => Error case Ok(v) => Ok(OperandSense(o) * v)
    decreases o
  {
    hide FactorValue, ExtraSign, SumResult, ValueOfSum;
    match o
    case Plain(f) =>
    case Group(signs, e) =>
      SumFollows(e);
      if ValueOfSum(e).Ok? {
        var v := ValueOfSum(e).value;
        SignsMultiply(signs, v);
        SignTimes(SignOf(signs), SumSense(e), SignOf(signs) * v);
        SignTimes(SignOf(signs), SignOf(signs), v);
        SignTimes(SumSense(e), SignOf(signs), SignOf(signs) * v);
      }
  }

  lemma {:induction false} ProductFollows(p: Product)
    requires ProductSense(p) != 0
    ensures ProductResult(p)
         == match ValueOfProduct(p) case Error => Error case Ok(v) => Ok(ProductSense(p) * v)
    decreases p
  {
    hide OperandResult, ValueOfOperand, OperandEffect, OperandSense, MulResult;
    match p
    case Single(o) => OperandFollows(o);
    case Scaled(left, op, o) =>
      NoZeroFactor(OperandEffect(o), ProductSense(left), OperandSense(o));
      ProductFollows(left);
      OperandFollows(o);
      if ValueOfProduct(left).Ok? && ValueOfOperand(o).Ok? {
        var s, a := OperandEffect(o) * ProductSense(left), ValueOfProduct(left).value;
        SignTimes(OperandEffect(o), ProductSense(left), a);
        MulSigned(s, OperandSense(o), a, ValueOfOperand(o).value, op);
      }
  }

  lemma NoZeroFactor(s: int, t: int, u: int)
    requires IsSign(s) && -1 <= t <= 1 && -1 <= u <= 1 && s * t * u != 0
    ensures IsSign(t) && IsSign(u) && IsSign(s * t)
  {
  }

  lemma {:induction false} SumFollows(e: Sum)
    requires SumSense(e) != 0
    ensures SumResult(e) == match ValueOfSum(e) case Error => Error case Ok(v) => Ok(SumSense(e) * v)
    decreases e
  {
    hide ProductResult, ValueOfProduct, ProductEffect, ProductSense;
    match e
    case Lone(p) => ProductFollows(p);
    case Added(left, op, p) =>
      var z, l := ProductEffect(p), SumSense(left);
      assert l != 0;
      SumFollows(left);
      ProductFollows(p);
      if ValueOfSum(left).Ok? {
        SignTimes(z, l, ValueOfSum(left).value);
      }
  }

  // ---- The same arrangement with other numbers ----

  predicate SameOperand(d: Operand, o: Operand)
  {
    match (d, o)
    case (Plain(f), Plain(g)) => SameFactor(f, g)
    case (Group(signs, sum), Group(signs', sum')) => signs == signs' && SameSum(sum, sum')
    case _ => false
  }

  predicate SameProduct(d: Product, p: Product)
  {
    match (d, p)
    case (Single(o), Single(o')) => SameOperand(o, o')
    case (Scaled(left, op, o), Scaled(left', op', o')) => SameProduct(left, left') && op == op' && SameOperand(o, o')
    case _ => false
  }

  /** `d` is `e` with other numbers, all of which a tokenizer can deliver. */
  predicate SameSum(d: Sum, e: Sum)
  {
    match (d, e)
    case (Lone(p), Lone(p')) => SameProduct(p, p')
    case (Added(left, op, p), Added(left', op', p')) => SameSum(left, left') && op == op' && SameProduct(p, p')
    case _ => false
  }

  lemma {:induction false} SameOperandIsAlike(d: Operand, o: Operand)
    requires SameOperand(d, o)
    ensures Bare(d) == Bare(o) && OperandEffect(d) == OperandEffect(o) && OperandSense(d) == OperandSense(o)
    ensures KeptInOperand(d) == KeptInOperand(o) && StartsOperand(d) == StartsOperand(o)
    ensures SingleOperand(d) == SingleOperand(o) && NoDoubledOperand(d) == NoDoubledOperand(o)
    decreases d
  {
    if d.Group? {
      SameSumIsAlike(d.sum, o.sum);
    }
  }

  lemma {:induction false} SameProductIsAlike(d: Product, p: Product)
    requires SameProduct(d, p)
    ensures ProductEffect(d) == ProductEffect(p) && ProductSense(d) == ProductSense(p)
    ensures KeptInProduct(d) == KeptInProduct(p) && StartsProduct(d) == StartsProduct(p)
    ensures SingleProduct(d) == SingleProduct(p) && NoDoubledProduct(d) == NoDoubledProduct(p)
    ensures Bare(FirstOperand(d)) == Bare(FirstOperand(p))
    decreases d
  {
    SameOperandIsAlike(d.o, p.o);
    if d.Scaled? {
      SameProductIsAlike(d.left, p.left);
    }
  }

  lemma {:induction false} SameSumIsAlike(d: Sum, e: Sum)
    requires SameSum(d, e)
    ensures SumEffect(d) == SumEffect(e) && SumSense(d) == SumSense(e)
    ensures KeptInSum(d) == KeptInSum(e) && StartsSum(d) == StartsSum(e)
    ensures SingleSum(d) == SingleSum(e) && NoDoubled(d) == NoDoubled(e)
    ensures Bare(FirstOfSum(d)) == Bare(FirstOfSum(e))
    decreases d
  {
    SameProductIsAlike(d.p, e.p);
    if d.Added? {
      SameSumIsAlike(d.left, e.left);
    }
  }

  predicate AtLeastAbs(v: int, bound: nat) { v >= bound || v + bound <= 0 }

  /** Some numbers make value and result 0. */
  lemma {:induction false} OperandZero(o: Operand) returns (d: Operand)
    ensures SameOperand(d, o) && ValueOfOperand(d) == OperandResult(d) == Ok(0)
    decreases o, 0
  {
    hide FactorValue, ExtraSign;
    match o
    case Plain(g) =>
      var f, m := WithNumber(g, 0);
      d := Plain(f);
    case Group(signs, e) =>
      var z := SumZero(e);
      d := Group(signs, z);
      SignsMultiply(signs, 0);
  }

  lemma {:induction false} ProductZero(p: Product) returns (d: Product)
    ensures SameProduct(d, p) && ValueOfProduct(d) == ProductResult(d) == Ok(0)
    decreases p, 0
  {
    hide OperandResult, ValueOfOperand, OperandEffect, OperandSense;
    match p
    case Single(o) =>
      var z := OperandZero(o);
      d := Single(z);
    case Scaled(left, op, o) =>
      var l := ProductZero(left);
      var s := if OperandSense(o) == 0 then 1 else OperandSense(o);
      var r := OperandRealises(o, s, 1);
      d := Scaled(l, op, r);
      MulOfZero(op, ValueOfOperand(r).value);
      MulOfZero(op, s * ValueOfOperand(r).value);
  }

  lemma MulOfZero(op: MulOp, b: int)
    requires b != 0
    ensures MulResult(op, 0, b) == Ok(0)
  {
  }

  lemma {:induction false} SumZero(e: Sum) returns (d: Sum)
    ensures SameSum(d, e) && ValueOfSum(d) == SumResult(d) == Ok(0)
    decreases e, 0
  {
    hide ProductResult, ValueOfProduct, ProductEffect;
    match e
    case Lone(p) =>
      var z := ProductZero(p);
      d := Lone(z);
    case Added(left, op, p) =>
      var l := SumZero(left);
      var z := ProductZero(p);
      d := Added(l, op, z);
  }

  /** Some numbers give a value as large as desired, with a result of the given sign, unless that sign is fixed. */
  lemma {:induction false} OperandRealises(o: Operand, s: int, bound: nat) returns (d: Operand)
    requires IsSign(s) && (OperandSense(o) == 0 || OperandSense(o) == s)
    ensures SameOperand(d, o) && ValueOfOperand(d).Ok? && AtLeastAbs(ValueOfOperand(d).value, bound)
    ensures OperandResult(d) == Ok(s * ValueOfOperand(d).value)
    decreases o, 1
  {
    hide FactorValue, ExtraSign;
    match o
    case Plain(g) =>
      var f, m := WithNumber(g, bound);
      d := Plain(f);
      AtLeast(bound, bound, m);
      assert ExtraSign(f) == ExtraSign(g) by { SameSigns(f, g); }
    case Group(signs, e) =>
      var t := s * SignOf(signs);
      SignTimes(s, SignOf(signs), SumSense(e));
      SignTimes(SignOf(signs), SignOf(signs), SumSense(e));
      var r := SumRealises(e, t, bound);
      d := Group(signs, r);
      SignsMultiply(signs, ValueOfSum(r).value);
      SignTimes(s, SignOf(signs), ValueOfSum(r).value);
  }

  lemma SameSigns(f: Factor, g: Factor)
    requires f.signs == g.signs
    ensures ExtraSign(f) == ExtraSign(g)
  {
  }

  lemma {:induction false} ProductRealises(p: Product, s: int, bound: nat) returns (d: Product)
    requires IsSign(s) && (ProductSense(p) == 0 || ProductSense(p) == s)
    ensures SameProduct(d, p) && ValueOfProduct(d).Ok? && AtLeastAbs(ValueOfProduct(d).value, bound)
    ensures ProductResult(d) == Ok(s * ValueOfProduct(d).value)
    decreases p, 1
  {
    hide OperandResult, ValueOfOperand, OperandEffect, OperandSense, ProductSense, MulResult, SameOperand;
    match p
    case Single(o) =>
      assert ProductSense(p) == OperandSense(o) by { SenseOfSingle(o); }
      var r := OperandRealises(o, s, bound);
      d := Single(r);
    case Scaled(left, op, o) =>
      var z := OperandEffect(o);
      SenseOfScaled(p);
      var sl, sr := SplitSense(s, z, ProductSense(left), OperandSense(o));
      var r := OperandRealises(o, sr, 1);
      var b := ValueOfOperand(r).value;
      var l := ProductRealises(left, sl, if op.Mul? then bound else bound * (if b < 0 then -b else b));
      var a := ValueOfProduct(l).value;
      SameOperandIsAlike(r, o);
      d := Scaled(l, op, r);
      LargeResult(op, a, b, bound);
      SignTimes(z, sl, a);
      MulSigned(z * sl, sr, a, b, op);
  }

  lemma SenseOfSingle(o: Operand) ensures ProductSense(Single(o)) == OperandSense(o) {}

  lemma SenseOfScaled(p: Product)
    requires p.Scaled?
    ensures ProductSense(p) == OperandEffect(p.o) * ProductSense(p.left) * OperandSense(p.o)
  {
  }

  lemma SplitSense(s: int, z: int, l: int, r: int) returns (sl: int, sr: int)
    requires IsSign(s) && IsSign(z) && -1 <= l <= 1 && -1 <= r <= 1
    requires z * l * r == 0 || z * l * r == s
    ensures IsSign(sl) && IsSign(sr) && z * sl * sr == s && (l == 0 || l == sl) && (r == 0 || r == sr)
    ensures IsSign(z * sl)
  {
    if l == 0 {
      sr := if r == 0 then 1 else r;
      sl := s * z * sr;
    } else {
      sl := l;
      sr := s * z * l;
    }
  }

  lemma LargeResult(op: MulOp, a: int, b: int, bound: nat)
    requires AtLeastAbs(b, 1) && AtLeastAbs(a, if op.Mul? then bound else bound * (if b < 0 then -b else b))
    ensures MulResult(op, a, b).Ok? && AtLeastAbs(MulResult(op, a, b).value, bound)
  {
    hide TruncDiv;
    var m := if b < 0 then -b else b;
    if op.Mul? {
      AtLeast(bound, if a < 0 then -a else a, m);
      ProductSize(a, b, m);
    } else {
      QuotientSize(a, b, m, bound);
    }
  }

  lemma {:induction false} SumRealises(e: Sum, s: int, bound: nat) returns (d: Sum)
    requires IsSign(s) && (SumSense(e) == 0 || SumSense(e) == s)
    ensures SameSum(d, e) && ValueOfSum(d).Ok? && AtLeastAbs(ValueOfSum(d).value, bound)
    ensures SumResult(d) == Ok(s * ValueOfSum(d).value)
    decreases e, 1
  {
    hide ProductResult, ValueOfProduct, ProductEffect, ProductSense, SameProduct;
    match e
    case Lone(p) =>
      var r := ProductRealises(p, s, bound);
      d := Lone(r);
    case Added(left, op, p) =>
      var z := ProductEffect(p);
      if ProductSense(p) == 0 || ProductSense(p) == s {
        var l := SumZero(left);
        var r := ProductRealises(p, s, bound);
        d := Added(l, op, r);
      } else {
        SignTimes(z, z, SumSense(left));
        var l := SumRealises(left, z * s, bound);
        var r := ProductZero(p);
        SameProductIsAlike(r, p);
        d := Added(l, op, r);
        SignTimes(z, z, s);
        SignTimes(z, z * s, ValueOfSum(l).value);
      }
  }

  /** An arrangement without doubled parentheses behind an operator or a sign is parsed to its value with all
      numbers if and only if it is safe. */
  lemma GroupsParseIff(e: Sum)
    requires NoDoubled(e)
    ensures (forall d :: SameSum(d, e) ==> Parse(SumTokens(d)) == ValueOfSum(d)) <==> SafeSum(e)
  {
    hide Parse, SumTokens, ValueOfSum, SumResult, KeptInSum, StartsSum, SumSense, SameSum, NoDoubled;
    if SafeSum(e) {
      forall d | SameSum(d, e) ensures Parse(SumTokens(d)) == ValueOfSum(d) {
        SameSumIsAlike(d, e);
        SafeGroupsParse(d);
      }
    } else {
      var s := if SumSense(e) == 0 then -1 else SumSense(e);
      var d := SumRealises(e, s, 1);
      SameSumIsAlike(d, e);
      ParseIsTotal(d);
    }
  }

  /** In particular each such expression is parsed to its value, division by zero included. */
  lemma SafeGroupsParse(e: Sum)
    requires NoDoubled(e) && SafeSum(e)
    ensures Parse(SumTokens(e)) == ValueOfSum(e)
  {
    hide Parse, SumTokens, ValueOfSum, SumResult;
    ParseIsTotal(e);
    SumFollows(e);
  }

  // ---- Numbers, suffixes, binary operators and groups ----

  predicate SignFreeOperand(o: Operand)
  {
    match o
    case Plain(f) => f.signs == []
    case Group(signs, sum) => signs == [] && SignFree(sum)
  }

  predicate SignFreeProduct(p: Product)
  {
    match p
    case Single(o) => SignFreeOperand(o)
    case Scaled(left, _, o) => SignFreeProduct(left) && SignFreeOperand(o)
  }

  predicate SignFree(e: Sum)
  {
    match e
    case Lone(p) => SignFreeProduct(p)
    case Added(left, _, p) => SignFree(left) && SignFreeProduct(p)
  }

  /** Every parenthesis opens before anything else stands there. */
  predicate OpensAtStart(tokens: seq<Token>)
    decreases |tokens|
  {
    if tokens == [] then true
    else if tokens[0].OpenParen? then OpensAtStart(tokens[1..])
    else OpenParen !in tokens
  }

  lemma {:induction false} OpensAppend(a: seq<Token>, b: seq<Token>)
    requires exists t :: t in a && !t.OpenParen?
    ensures OpensAtStart(a + b) <==> OpensAtStart(a) && OpenParen !in b
    decreases |a|
  {
    assert (a + b)[0] == a[0] && (a + b)[1..] == a[1..] + b;
    if a[0].OpenParen? {
      var t :| t in a && !t.OpenParen?;
      assert t in a[1..];
      OpensAppend(a[1..], b);
    }
  }

  lemma {:induction false} OperandOpens(o: Operand)
    requires SignFreeOperand(o)
    ensures var q := OperandTokens(o);
      && (exists t :: t in q && !t.OpenParen?)
      && (OpensAtStart(q) <==> KeptInOperand(o))
      && (OpenParen in q <==> Bare(o))
      && (!KeptInOperand(o) ==> Bare(o))
    decreases o
  {
    hide SumTokens, SuffixText;
    match o
    case Plain(f) =>
      assert Signs(f.signs) == [];
      var t := OperandTokens(o)[0];
      assert t == Number(f.number) && t in OperandTokens(o);
    case Group(signs, e) =>
      var q := SumTokens(e);
      SumOpens(e);
      assert Signs(signs) == [] && OperandTokens(o) == [OpenParen] + (q + [CloseParen]);
      assert ([OpenParen] + (q + [CloseParen]))[1..] == q + [CloseParen];
      OpensAppend(q, [CloseParen]);
      assert CloseParen in OperandTokens(o) && OpenParen in OperandTokens(o);
  }

  lemma {:induction false} ProductOpens(p: Product)
    requires SignFreeProduct(p)
    ensures var q := ProductTokens(p);
      && (exists t :: t in q && !t.OpenParen?)
      && (OpensAtStart(q) <==> KeptInProduct(p))
      && (OpenParen !in q <==> KeptInProduct(p) && !Bare(FirstOperand(p)))
    decreases p
  {
    hide OperandTokens, OpensAtStart;
    match p
    case Single(o) => OperandOpens(o);
    case Scaled(left, op, o) =>
      var q, m, r := ProductTokens(left), [MulToken(op)], OperandTokens(o);
      ProductOpens(left);
      OperandOpens(o);
      assert ProductTokens(p) == q + (m + r);
      OpensAppend(q, m + r);
  }

  lemma {:induction false} SumOpens(e: Sum)
    requires SignFree(e)
    ensures var q := SumTokens(e);
      && (exists t :: t in q && !t.OpenParen?)
      && (OpensAtStart(q) <==> KeptInSum(e))
    decreases e
  {
    hide ProductTokens, OpensAtStart;
    match e
    case Lone(p) => ProductOpens(p);
    case Added(left, op, p) =>
      var q, a, r := SumTokens(left), [AddToken(op)], ProductTokens(p);
      SumOpens(left);
      ProductOpens(p);
      assert SumTokens(e) == q + (a + r);
      OpensAppend(q, a + r);
  }

  lemma {:induction false} SignFreeOperandIsPlain(o: Operand)
    requires SignFreeOperand(o)
    ensures OperandEffect(o) == OperandSense(o) == 1 && StartsOperand(o)
    decreases o
  {
    if o.Group? {
      SignFreeIsPlain(o.sum);
    }
  }

  lemma {:induction false} SignFreeProductIsPlain(p: Product)
    requires SignFreeProduct(p)
    ensures ProductEffect(p) == ProductSense(p) == 1 && StartsProduct(p)
    decreases p
  {
    SignFreeOperandIsPlain(p.o);
    if p.Scaled? {
      SignFreeProductIsPlain(p.left);
    }
  }

  lemma {:induction false} SignFreeIsPlain(e: Sum)
    requires SignFree(e)
    ensures SumEffect(e) == SumSense(e) == 1 && StartsSum(e)
    decreases e
  {
    SignFreeProductIsPlain(e.p);
    if e.Added? {
      SignFreeIsPlain(e.left);
    }
  }

  /** Without signs, and without doubled parentheses behind an operator, an arrangement is parsed to its value
      with all numbers if and only if every parenthesis opens at the start; otherwise it is always rejected. */
  lemma SignFreeParsesIff(e: Sum)
    requires SignFree(e) && NoDoubled(e)
    ensures (forall d :: SameSum(d, e) ==> Parse(SumTokens(d)) == ValueOfSum(d)) <==> OpensAtStart(SumTokens(e))
    ensures OpensAtStart(SumTokens(e)) ==> Parse(SumTokens(e)) == ValueOfSum(e)
    ensures !OpensAtStart(SumTokens(e)) ==> Parse(SumTokens(e)) == Error
  {
    hide Parse, SumTokens, ValueOfSum, SameSum, NoDoubled, OpensAtStart, KeptInSum, StartsSum, SumSense, SumResult;
    SignFreeIsPlain(e);
    SumOpens(e);
    GroupsParseIff(e);
    ParseIsTotal(e);
    if SafeSum(e) {
      SafeGroupsParse(e);
    }
  }

  // ---- Parsing ----

  /** Parsing a configuration value. */
  method ParseArithmetic(tokens: seq<Token>) returns (r: Result<int>)
    ensures r == Parse(tokens)
    ensures forall e: Expr :: tokens == Tokens(e) ==> r == SignedTotal(e)
    ensures forall e: Expr :: tokens == Tokens(e) && SafeSigns(e) ==> r == Value(e)
    ensures forall e: Sum :: tokens == SumTokens(e) && NoDoubled(e) ==> r == Total(e)
    ensures forall e: Sum :: tokens == SumTokens(e) && NoDoubled(e) && SafeSum(e) ==> r == ValueOfSum(e)
  {
    var queue := ToReversePolish(tokens);
    match queue {
      case Error => r := Error;
      case Ok(q) => r := ReversePolishEval(q);
    }
    hide Tokens, SignedTotal, SafeSigns, Value, EvalFrom, Convert, SumTokens, NoDoubled, Total, SafeSum, ValueOfSum;
    forall e: Expr | tokens == Tokens(e) ensures r == SignedTotal(e) && (SafeSigns(e) ==> r == Value(e)) {
      ParseIsSignedTotal(e);
      if SafeSigns(e) {
        SafeTotal(e);
      }
    }
    forall e: Sum | tokens == SumTokens(e) && NoDoubled(e)
      ensures r == Total(e) && (SafeSum(e) ==> r == ValueOfSum(e))
    {
      ParseIsTotal(e);
      if SafeSum(e) {
        SafeGroupsParse(e);
      }
    }
  }
}
