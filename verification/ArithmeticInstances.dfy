/** Concrete expressions with parentheses: what they are worth, and what parsing them yields. */
module ArithmeticInstances {
  import opened Arithmetic
  import opened ArithmeticGroups
  import opened ArithmeticParens
  import opened ArithmeticParenValues
  import opened ArithmeticValues
  import opened Basics

  function Num(n: int): Operand { Plain(Factor([], n, NoSuffix)) }

  /** Fine as it is: read with its operators, and worth `v` in the grammar and for the program. */
  predicate FineOperand(o: Operand, v: int)
  {
    && OperandResult(o) == ValueOfOperand(o) == Ok(v) && OperandEffect(o) == OperandSense(o) == 1
    && KeptInOperand(o) && StartsOperand(o) && NoDoubledOperand(o) && (!Bare(o) ==> SingleOperand(o))
  }

  predicate FineProduct(p: Product, v: int)
  {
    && ProductResult(p) == ValueOfProduct(p) == Ok(v) && ProductEffect(p) == ProductSense(p) == 1
    && KeptInProduct(p) && StartsProduct(p) && NoDoubledProduct(p) && (!Bare(FirstOperand(p)) ==> SingleProduct(p))
  }

  predicate FineSum(e: Sum, v: int)
  {
    && SumResult(e) == ValueOfSum(e) == Ok(v) && SumEffect(e) == SumSense(e) == 1
    && KeptInSum(e) && StartsSum(e) && NoDoubled(e) && (!Bare(FirstOfSum(e)) ==> SingleSum(e))
  }

  lemma FineNum(n: int)
    ensures FineOperand(Num(n), n) && !Bare(Num(n)) && OperandTokens(Num(n)) == [Number(n)]
  {
    assert Signs([]) == [] && [] + [Number(n)] + [] == [Number(n)];
  }

  /** An expression that is one operand. */
  lemma SingleIs(o: Operand)
    ensures var e := Lone(Single(o));
      && SumTokens(e) == OperandTokens(o) && ValueOfSum(e) == ValueOfOperand(o) && SumResult(e) == OperandResult(o)
      && KeptInSum(e) == KeptInOperand(o) && StartsSum(e) == StartsOperand(o) && NoDoubled(e) == NoDoubledOperand(o)
  {
  }

  lemma TotalOf(e: Sum)
    requires KeptInSum(e) && StartsSum(e)
    ensures Total(e) == SumResult(e)
  {
  }

  lemma FineSingle(o: Operand, v: int)
    requires FineOperand(o, v)
    ensures FineProduct(Single(o), v) && FineSum(Lone(Single(o)), v)
    ensures SumTokens(Lone(Single(o))) == ProductTokens(Single(o)) == OperandTokens(o)
  {
    hide OperandResult, ValueOfOperand, OperandEffect, OperandSense, KeptInOperand, StartsOperand, NoDoubledOperand,
         SingleOperand, OperandTokens, Bare;
  }

  lemma FineScaled(left: Product, a: int, op: MulOp, o: Operand, b: int)
    requires FineProduct(left, a) && FineOperand(o, b) && !Bare(o) && MulResult(op, a, b).Ok?
    ensures FineProduct(Scaled(left, op, o), MulResult(op, a, b).value)
    ensures ProductTokens(Scaled(left, op, o)) == ProductTokens(left) + [MulToken(op)] + OperandTokens(o)
    ensures SumTokens(Lone(Scaled(left, op, o))) == ProductTokens(Scaled(left, op, o))
  {
    hide OperandResult, ValueOfOperand, OperandEffect, OperandSense, KeptInOperand, StartsOperand, NoDoubledOperand,
         SingleOperand, OperandTokens, Bare, MulResult;
  }

  lemma FineAdded(left: Sum, a: int, op: AddOp, p: Product, b: int)
    requires FineSum(left, a) && FineProduct(p, b) && !Bare(FirstOperand(p))
    ensures FineSum(Added(left, op, p), Combine(op, a, b))
    ensures FirstOfSum(Added(left, op, p)) == FirstOfSum(left)
    ensures SumTokens(Added(left, op, p)) == SumTokens(left) + [AddToken(op)] + ProductTokens(p)
  {
    hide ProductResult, ValueOfProduct, ProductEffect, ProductSense, KeptInProduct, StartsProduct, NoDoubledProduct,
         SingleProduct, ProductTokens, Bare;
  }

  lemma FineLone(p: Product, v: int)
    requires FineProduct(p, v)
    ensures FineSum(Lone(p), v)
  {
    hide ProductResult, ValueOfProduct, ProductEffect, ProductSense, KeptInProduct, StartsProduct, NoDoubledProduct,
         SingleProduct, ProductTokens, Bare;
  }

  lemma FineGroup(signs: seq<Sign>, e: Sum, v: int)
    requires FineSum(e, v) && (signs == [] || (signs == [Pos] && !Bare(FirstOfSum(e))))
    ensures FineOperand(Group(signs, e), v)
    ensures OperandTokens(Group(signs, e)) == Signs(signs) + [OpenParen] + SumTokens(e) + [CloseParen]
  {
    hide SumResult, ValueOfSum, SumEffect, SumSense, KeptInSum, StartsSum, NoDoubled, SingleSum, SumTokens;
    assert SignOf([]) == 1 && ApplySigns([], v) == v;
    OneSign(v);
    assert [Pos][..0] == [];
  }

  lemma OneSign(v: int)
    ensures SignOf([Pos]) == 1 && ApplySigns([Pos], v) == v && ApplySigns([Neg], v) == -v
  {
    assert [Pos][1..] == [] && [Neg][1..] == [];
  }

  lemma FineParses(e: Sum, v: int)
    requires FineSum(e, v)
    ensures Parse(SumTokens(e)) == ValueOfSum(e) == Ok(v)
  {
    hide Parse, SumTokens, ValueOfSum, SumSense, KeptInSum, StartsSum, NoDoubled;
    SafeGroupsParse(e);
  }

  function Two(a: int, op: AddOp, b: int): Sum { Added(Lone(Single(Num(a))), op, Single(Num(b))) }

  lemma FineTwo(a: int, op: AddOp, b: int)
    ensures FineSum(Two(a, op, b), Combine(op, a, b)) && !Bare(FirstOfSum(Two(a, op, b)))
    ensures SumTokens(Two(a, op, b)) == [Number(a), AddToken(op), Number(b)]
  {
    FineNum(a);
    FineNum(b);
    hide Num;
    FineSingle(Num(a), a);
    FineSingle(Num(b), b);
    FineAdded(Lone(Single(Num(a))), a, op, Single(Num(b)), b);
  }

  /** `(a + b) * c` is parsed to its value ... */
  lemma GroupAtStartParses(a: int, b: int, c: int)
    ensures var e := Lone(Scaled(Single(Group([], Two(a, Add, b))), Mul, Num(c)));
      && SumTokens(e) == [OpenParen, Number(a), Plus, Number(b), CloseParen, Multiply, Number(c)]
      && ValueOfSum(e) == Parse(SumTokens(e)) == Ok((a + b) * c)
  {
    hide Parse, Two, Num, FineSum, FineProduct, FineOperand, SumTokens, ProductTokens, OperandTokens, ValueOfSum;
    var g := Group([], Two(a, Add, b));
    FineTwo(a, Add, b);
    FineGroup([], Two(a, Add, b), a + b);
    FineNum(c);
    FineSingle(g, a + b);
    FineScaled(Single(g), a + b, Mul, Num(c), c);
    FineLone(Scaled(Single(g), Mul, Num(c)), (a + b) * c);
    FineParses(Lone(Scaled(Single(g), Mul, Num(c))), (a + b) * c);
    assert Signs([]) == [];
  }

  /** ... and so is `a * +(b + c)`, where the lost entry is the sign. */
  lemma PlusBeforeGroupParses(a: int, b: int, c: int)
    ensures var e := Lone(Scaled(Single(Num(a)), Mul, Group([Pos], Two(b, Add, c))));
      && SumTokens(e) == [Number(a), Multiply, Plus, OpenParen, Number(b), Plus, Number(c), CloseParen]
      && ValueOfSum(e) == Parse(SumTokens(e)) == Ok(a * (b + c))
  {
    hide Parse, Two, Num, FineSum, FineProduct, FineOperand, SumTokens, ProductTokens, OperandTokens, ValueOfSum;
    var g := Group([Pos], Two(b, Add, c));
    FineTwo(b, Add, c);
    FineGroup([Pos], Two(b, Add, c), b + c);
    FineNum(a);
    FineSingle(Num(a), a);
    FineScaled(Single(Num(a)), a, Mul, g, b + c);
    FineLone(Scaled(Single(Num(a)), Mul, g), a * (b + c));
    FineParses(Lone(Scaled(Single(Num(a)), Mul, g)), a * (b + c));
    assert Signs([Pos]) == [Plus];
  }

  /** `-(a)` comes out as `a`. */
  lemma MinusBeforeGroupIsLost(a: int)
    ensures var e := Lone(Single(Group([Neg], Lone(Single(Num(a))))));
      && SumTokens(e) == [Minus, OpenParen, Number(a), CloseParen]
      && ValueOfSum(e) == Ok(-a) && Parse(SumTokens(e)) == Ok(a)
  {
    hide Parse;
    var inner := Lone(Single(Num(a)));
    var g := Group([Neg], inner);
    FineNum(a);
    FineSingle(Num(a), a);
    assert FirstOfSum(inner) == Num(a);
    hide Num;
    OneSign(a);
    assert Signs([Neg]) == [Minus];
    assert OperandTokens(g) == [Minus, OpenParen, Number(a), CloseParen];
    assert NoDoubledOperand(g) && KeptInOperand(g) && StartsOperand(g) && OperandResult(g) == Ok(a);
    assert ValueOfOperand(g) == Ok(-a);
    SingleIs(g);
    hide *;
    ParseIsTotal(Lone(Single(g)));
    TotalOf(Lone(Single(g)));
  }

  // ---- Doubled parentheses behind an operator ----

  /** The value and the tokens of a group with another one at its start. */
  lemma DoubledSum(b: int, op: AddOp, c: int)
    ensures var e := Added(Lone(Single(Group([], Lone(Single(Num(b)))))), op, Single(Num(c)));
      && ValueOfOperand(Group([], e)) == Ok(Combine(op, b, c))
      && OperandTokens(Group([], e))
         == [OpenParen, OpenParen, Number(b), CloseParen, AddToken(op), Number(c), CloseParen]
  {
    FineNum(b);
    FineNum(c);
    hide Num, FineSum, FineProduct, FineOperand, SumTokens, ProductTokens, OperandTokens;
    var g := Group([], Lone(Single(Num(b))));
    FineSingle(Num(b), b);
    FineSingle(Num(c), c);
    FineGroup([], Lone(Single(Num(b))), b);
    FineSingle(g, b);
    FineAdded(Lone(Single(g)), b, op, Single(Num(c)), c);
    FineGroup([], Added(Lone(Single(g)), op, Single(Num(c))), Combine(op, b, c));
    assert Signs([]) == [];
    FineValue(Group([], Added(Lone(Single(g)), op, Single(Num(c)))), Combine(op, b, c));
  }

  lemma FineValue(o: Operand, v: int)
    requires FineOperand(o, v)
    ensures ValueOfOperand(o) == Ok(v)
  {
  }

  lemma DoubledProduct(b: int, op: MulOp, c: int)
    requires MulResult(op, b, c).Ok?
    ensures var e := Lone(Scaled(Single(Group([], Lone(Single(Num(b))))), op, Num(c)));
      && ValueOfOperand(Group([], e)) == MulResult(op, b, c)
      && OperandTokens(Group([], e))
         == [OpenParen, OpenParen, Number(b), CloseParen, MulToken(op), Number(c), CloseParen]
  {
    FineNum(b);
    FineNum(c);
    hide Num, FineSum, FineProduct, FineOperand, SumTokens, ProductTokens, OperandTokens, MulResult;
    var g := Group([], Lone(Single(Num(b))));
    FineSingle(Num(b), b);
    FineGroup([], Lone(Single(Num(b))), b);
    FineSingle(g, b);
    FineScaled(Single(g), b, op, Num(c), c);
    var v := MulResult(op, b, c).value;
    FineLone(Scaled(Single(g), op, Num(c)), v);
    FineGroup([], Lone(Scaled(Single(g), op, Num(c))), v);
    assert Signs([]) == [];
    FineValue(Group([], Lone(Scaled(Single(g), op, Num(c)))), v);
  }

  lemma AfterNumber(a: int, o: Operand, v: int)
    requires ValueOfOperand(o) == Ok(v)
    ensures var e := Lone(Scaled(Single(Num(a)), Mul, o));
      ValueOfSum(e) == Ok(a * v) && SumTokens(e) == [Number(a), Multiply] + OperandTokens(o)
    ensures var e := Added(Lone(Single(Num(a))), Add, Single(o));
      ValueOfSum(e) == Ok(a + v) && SumTokens(e) == [Number(a), Plus] + OperandTokens(o)
  {
    FineNum(a);
    FineSingle(Num(a), a);
    hide Num, ValueOfOperand, OperandTokens;
    assert ProductTokens(Single(o)) == OperandTokens(o) && ValueOfProduct(Single(o)) == Ok(v);
  }

  lemma EvalThree(a: int, b: int, c: int)
    ensures EvalFrom([], [Number(a), Number(b), Multiply, Number(c), Minus]) == Ok(a * b - c)
    ensures EvalFrom([], [Number(a), Number(b), Number(c), Multiply, Plus]) == Ok(a + b * c)
  {
    hide EvalFrom;
    EvalNumber([], a, [Number(b), Multiply, Number(c), Minus]);
    EvalNumber([] + [a], b, [Multiply, Number(c), Minus]);
    EvalMul([], a, b, Mul, [Number(c), Minus]);
    EvalNumber([] + [a * b], c, [Minus]);
    EvalAdd([], a * b, c, Sub, []);
    EvalNumber([], a, [Number(b), Number(c), Multiply, Plus]);
    EvalNumber([] + [a], b, [Number(c), Multiply, Plus]);
    EvalNumber([] + [a] + [b], c, [Multiply, Plus]);
    EvalMul([] + [a], b, c, Mul, [Plus]);
    EvalAdd([], a, b * c, Add, []);
    OneValue();
    assert [] + [a * b - c] == [a * b - c] && [] + [a + b * c] == [a + b * c];
    assert [Multiply] + [Number(c), Minus] == [Multiply, Number(c), Minus] && [Minus] + [] == [Minus];
    assert [Multiply] + [Plus] == [Multiply, Plus] && [Plus] + [] == [Plus];
    assert [Number(a)] + [Number(b), Multiply, Number(c), Minus] == [Number(a), Number(b), Multiply, Number(c), Minus];
    assert [Number(b)] + [Multiply, Number(c), Minus] == [Number(b), Multiply, Number(c), Minus];
    assert [Number(c)] + [Minus] == [Number(c), Minus];
    assert [Number(a)] + [Number(b), Number(c), Multiply, Plus] == [Number(a), Number(b), Number(c), Multiply, Plus];
    assert [Number(b)] + [Number(c), Multiply, Plus] == [Number(b), Number(c), Multiply, Plus];
    assert [Number(c)] + [Multiply, Plus] == [Number(c), Multiply, Plus];
  }

  /** In `a * ((b) - c)` the outer group ends with the inner one, so the product comes before the difference:
      `2 * ((3) - 4)` is worth -2 and comes out as 2 ... */
  lemma DoubledGroupMisread(a: int, b: int, c: int)
    ensures var o := Group([], Added(Lone(Single(Group([], Lone(Single(Num(b)))))), Sub, Single(Num(c))));
      var e := Lone(Scaled(Single(Num(a)), Mul, o));
      && SumTokens(e)
         == [Number(a), Multiply, OpenParen, OpenParen, Number(b), CloseParen, Minus, Number(c), CloseParen]
      && ValueOfSum(e) == Ok(a * (b - c)) && Parse(SumTokens(e)) == Ok(a * b - c)
      && (a == 2 && b == 3 && c == 4 ==> ValueOfSum(e) == Ok(-2) && Parse(SumTokens(e)) == Ok(2))
  {
    hide Convert, Num, EvalFrom, ValueOfSum, ValueOfOperand, SumTokens, OperandTokens;
    var o := Group([], Added(Lone(Single(Group([], Lone(Single(Num(b)))))), Sub, Single(Num(c))));
    DoubledSum(b, Sub, c);
    AfterNumber(a, o, b - c);
    DoubledGroupRegroups(a, b, c);
    EvalThree(a, b, c);
  }

  /** ... but `a + ((b) * c)` comes out right. */
  lemma DoubledGroupReadRight(a: int, b: int, c: int)
    ensures var o := Group([], Lone(Scaled(Single(Group([], Lone(Single(Num(b))))), Mul, Num(c))));
      var e := Added(Lone(Single(Num(a))), Add, Single(o));
      && SumTokens(e)
         == [Number(a), Plus, OpenParen, OpenParen, Number(b), CloseParen, Multiply, Number(c), CloseParen]
      && ValueOfSum(e) == Parse(SumTokens(e)) == Ok(a + b * c)
  {
    hide Convert, Num, EvalFrom, ValueOfSum, ValueOfOperand, SumTokens, OperandTokens;
    var o := Group([], Lone(Scaled(Single(Group([], Lone(Single(Num(b))))), Mul, Num(c))));
    DoubledProduct(b, Mul, c);
    AfterNumber(a, o, b * c);
    DoubledGroupHolds(a, b, c);
    EvalThree(a, b, c);
  }
}
