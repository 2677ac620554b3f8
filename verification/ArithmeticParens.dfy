/** Arithmetic expressions with parentheses, and what toReversePolish of lib_app/Parser.cpp emits for them. */
module ArithmeticParens {
  import opened Arithmetic
  import opened Basics

  // ---- The grammar ----

  /** A number with signs and suffix, or a group in parentheses with signs in front (outermost first). */
  datatype Operand = Plain(f: Factor) | Group(signs: seq<Sign>, sum: Sum)
  datatype Product = Single(o: Operand) | Scaled(left: Product, op: MulOp, o: Operand)
  datatype Sum = Lone(p: Product) | Added(left: Sum, op: AddOp, p: Product)

  function OperandTokens(o: Operand): seq<Token>
  {
    match o
    case Plain(f) => FactorTokens(f)
    case Group(signs, sum) => Signs(signs) + [OpenParen] + SumTokens(sum) + [CloseParen]
  }

  function ProductTokens(p: Product): seq<Token>
  {
    match p
    case Single(o) => OperandTokens(o)
    case Scaled(left, op, o) => ProductTokens(left) + [MulToken(op)] + OperandTokens(o)
  }

  function SumTokens(e: Sum): seq<Token>
  {
    match e
    case Lone(p) => ProductTokens(p)
    case Added(left, op, p) => SumTokens(left) + [AddToken(op)] + ProductTokens(p)
  }

  function FirstOperand(p: Product): Operand
  {
    match p
    case Single(o) => o
    case Scaled(left, _, _) => FirstOperand(left)
  }

  function FirstOfSum(e: Sum): Operand
  {
    match e
    case Lone(p) => FirstOperand(p)
    case Added(left, _, _) => FirstOfSum(left)
  }

  /** A group without a sign in front: its parenthesis follows an operator or another one, or starts everything. */
  predicate Bare(o: Operand) { o.Group? && o.signs == [] }

  // ---- Doubled parentheses ----

  /** Behind an operator or a sign no two parentheses open in a row, at any depth. */
  predicate SingleOperand(o: Operand)
  {
    o.Group? ==> !Bare(FirstOfSum(o.sum)) && SingleSum(o.sum)
  }

  predicate SingleProduct(p: Product)
  {
    match p
    case Single(o) => SingleOperand(o)
    case Scaled(left, _, o) => SingleProduct(left) && SingleOperand(o)
  }

  predicate SingleSum(e: Sum)
  {
    match e
    case Lone(p) => SingleProduct(p)
    case Added(left, _, p) => SingleSum(left) && SingleProduct(p)
  }

  /** The same for a whole expression, which may start with any number of parentheses. */
  predicate NoDoubledOperand(o: Operand)
  {
    if Bare(o) then NoDoubled(o.sum) else SingleOperand(o)
  }

  predicate NoDoubledProduct(p: Product)
  {
    match p
    case Single(o) => NoDoubledOperand(o)
    case Scaled(left, _, o) => NoDoubledProduct(left) && SingleOperand(o)
  }

  predicate NoDoubled(e: Sum)
  {
    match e
    case Lone(p) => NoDoubledProduct(p)
    case Added(left, _, p) => NoDoubled(left) && SingleProduct(p)
  }

  // ---- What is emitted ----

  /** The last sign in front of a group is lost, the others are emitted before it. */
  function OperandPostfix(o: Operand): seq<Token>
  {
    match o
    case Plain(f) => FactorPostfix(Emitted, f)
    case Group(signs, sum) => (if signs == [] then [] else Unary(signs[..|signs| - 1])) + SumPostfix(sum)
  }

  /** A binary operator directly before a parenthesis is lost. */
  function ProductPostfix(p: Product): seq<Token>
  {
    match p
    case Single(o) => OperandPostfix(o)
    case Scaled(left, op, o) => ProductPostfix(left) + OperandPostfix(o) + if Bare(o) then [] else [MulToken(op)]
  }

  function SumPostfix(e: Sum): seq<Token>
  {
    match e
    case Lone(p) => ProductPostfix(p)
    case Added(left, op, p) =>
      SumPostfix(left) + ProductPostfix(p) + if Bare(FirstOperand(p)) then [] else [AddToken(op)]
  }

  // ---- Reading behind an operator, a sign or a parenthesis ----

  /** What remains of the stack below an operand: an operator directly before a parenthesis is gone. */
  function Below(ops: seq<Token>, o: Operand): seq<Token>
    requires Bare(o) ==> ops != []
  {
    if Bare(o) then Init(ops) else ops
  }

  /** An operand may follow; before a bare group stands a binary operator. */
  predicate Behind(y: Yard, o: Operand)
  {
    BeforeOperand(y.seen) && (Bare(o) ==> y.ops != [] && !Last(y.ops).OpenParen?)
  }

  /** A closing parenthesis moves what its group left on the stack. */
  lemma {:induction false} FlushGroup(out: seq<Token>, ops: seq<Token>, x: seq<Token>)
    requires forall i :: 0 <= i < |x| ==> !x[i].OpenParen?
    ensures PopToParen(out, ops + [OpenParen] + x) == (out + Rev(x), ops)
    decreases |x|
  {
    var all := ops + [OpenParen] + x;
    if x == [] {
      assert all == ops + [OpenParen] && Init(all) == ops;
      assert out + Rev(x) == out;
    } else {
      assert Last(all) == Last(x) && Init(all) == ops + [OpenParen] + Init(x);
      FlushGroup(out + [Last(x)], ops, Init(x));
      assert out + [Last(x)] + Rev(Init(x)) == out + Rev(x);
    }
  }

  /** The group that `piece` comes from is closed, and one more entry goes with its parenthesis. */
  lemma Closes(y: Yard, out: seq<Token>, ops: seq<Token>, piece: seq<Token>) returns (y': Yard)
    requires Done(y, out, ops + [OpenParen], 0, piece)
    ensures Consume(y, CloseParen) == Ok(y')
    ensures y'.out == out + piece && y'.ops == (if ops == [] then ops else Init(ops)) && AfterOperand(y'.seen)
  {
    hide Rev, PopToParen;
    var x := y.ops[|ops| + 1..];
    assert y.ops == ops + [OpenParen] + x;
    FlushGroup(y.out, ops, x);
    y' := Consume(y, CloseParen).value;
  }

  lemma Opens(y: Yard) returns (y': Yard)
    ensures Consume(y, OpenParen) == Ok(y')
    ensures y'.out == y.out && y'.ops == y.ops + [OpenParen] && BeforeOperand(y'.seen)
  {
    y' := Consume(y, OpenParen).value;
  }

  lemma ReadEnclosed(y: Yard, y1: Yard, tokens: seq<Token>, y2: Yard, y': Yard)
    requires Consume(y, OpenParen) == Ok(y1) && Read(y1, tokens) == Ok(y2) && Consume(y2, CloseParen) == Ok(y')
    ensures Read(y, [OpenParen] + tokens + [CloseParen]) == Ok(y')
  {
    hide Consume, Read;
    ReadCons(y, OpenParen, tokens + [CloseParen]);
    ReadAppend(y1, tokens, [CloseParen]);
    ReadCons(y2, CloseParen, []);
    NoSigns(y');
    assert [OpenParen] + tokens + [CloseParen] == [OpenParen] + (tokens + [CloseParen]);
    assert [CloseParen] + [] == [CloseParen];
  }

  lemma NothingAbove(y: Yard, out: seq<Token>, ops: seq<Token>, p: int, piece: seq<Token>)
    requires y.out == out + piece && y.ops == ops && AfterOperand(y.seen)
    ensures Done(y, out, ops, p, piece)
  {
    assert y.ops[|ops|..] == [] && y.out + [] == y.out;
  }

  /** Two pieces become one, with the operator between them if it is still there. */
  lemma Joined(y: Yard, out: seq<Token>, ops: seq<Token>, a: seq<Token>, m: Token, lost: bool, q: int, b: seq<Token>,
               p: int)
    requires Done(y, out + a, if lost then ops else ops + [m], q, b) && p <= q && p <= Precedence(m) && !m.OpenParen?
    ensures Done(y, out, ops, p, a + b + if lost then [] else [m])
  {
    hide Rev;
    if lost {
      assert out + a + b == out + (a + b + []);
    } else {
      var x := y.ops[|ops| + 1..];
      assert y.ops == ops + [m] + x;
      assert y.ops[|ops|..] == [m] + x;
      RevCons(m, x);
      assert y.out + (Rev(x) + [m]) == y.out + Rev(x) + [m];
      assert out + a + b + [m] == out + (a + b + [m]);
    }
  }

  lemma SignsRead(y: Yard, signs: seq<Sign>) returns (y': Yard)
    requires BeforeOperand(y.seen) && Stops(y.ops, 7) && signs != []
    ensures Read(y, Signs(signs)) == Ok(y')
    ensures y'.out == y.out + Unary(signs[..|signs| - 1]) && BeforeOperand(y'.seen)
    ensures y'.ops == y.ops + [UnaryToken(signs[|signs| - 1])]
  {
    hide Read, Stops, Signs;
    var n := |signs| - 1;
    ReadSigns(y, signs);
    y' := Yard(y.out + Unary(signs[..n]), y.ops + Unary([signs[n]]), y.seen + Unary(signs));
    assert Unary([signs[n]]) == [UnaryToken(signs[n])];
    assert Last(y'.seen) == UnaryToken(signs[n]);
  }

  /** A group whose signs, if any, have been read: it leaves the stack without the entry below its parenthesis. */
  lemma {:induction false} ReadGroup(y: Yard, e: Sum) returns (y': Yard)
    requires BeforeOperand(y.seen) && y.ops != []
    requires !Bare(FirstOfSum(e)) && SingleSum(e)
    ensures Read(y, [OpenParen] + SumTokens(e) + [CloseParen]) == Ok(y')
    ensures y'.out == y.out + SumPostfix(e) && y'.ops == Init(y.ops) && AfterOperand(y'.seen)
    decreases e, 1
  {
    hide Read, Consume, Rev, SumPostfix, SumTokens, SingleSum, Bare, FirstOfSum;
    var y1 := Opens(y);
    assert Last(y1.ops) == OpenParen;
    var y2 := ReadSum(y1, e);
    y' := Closes(y2, y.out, y.ops, SumPostfix(e));
    ReadEnclosed(y, y1, SumTokens(e), y2, y');
  }

  lemma {:induction false} ReadOperand(y: Yard, o: Operand) returns (y': Yard)
    requires Behind(y, o) && (!Bare(o) ==> Stops(y.ops, 7)) && SingleOperand(o)
    ensures Read(y, OperandTokens(o)) == Ok(y') && Done(y', y.out, Below(y.ops, o), 7, OperandPostfix(o))
    decreases o, 2
  {
    hide Read, Consume, Rev, SumPostfix, SumTokens, SingleSum, FactorPostfix, FactorTokens, Stops, Unary, Signs, Done;
    match o
    case Plain(f) =>
      y' := ReadFactor(y, f);
    case Group(signs, e) =>
      var inner := [OpenParen] + SumTokens(e) + [CloseParen];
      if signs == [] {
        y' := ReadGroup(y, e);
        NoSigns(y);
        assert Signs([]) + [OpenParen] + SumTokens(e) + [CloseParen] == inner;
        assert [] + SumPostfix(e) == SumPostfix(e);
      } else {
        var y1 := SignsRead(y, signs);
        assert Init(y1.ops) == y.ops;
        y' := ReadGroup(y1, e);
        ReadAppend(y, Signs(signs), inner);
        assert Signs(signs) + [OpenParen] + SumTokens(e) + [CloseParen] == Signs(signs) + inner;
        assert y.out + Unary(signs[..|signs| - 1]) + SumPostfix(e)
            == y.out + (Unary(signs[..|signs| - 1]) + SumPostfix(e));
      }
      NothingAbove(y', y.out, Below(y.ops, o), 7, OperandPostfix(o));
  }

  lemma {:induction false} ReadProduct(y: Yard, p: Product) returns (y': Yard)
    requires Behind(y, FirstOperand(p)) && Stops(Below(y.ops, FirstOperand(p)), 5) && SingleProduct(p)
    ensures Read(y, ProductTokens(p)) == Ok(y')
    ensures Done(y', y.out, Below(y.ops, FirstOperand(p)), 5, ProductPostfix(p))
    decreases p, 3
  {
    hide Read, Consume, Rev, OperandPostfix, OperandTokens, SingleOperand, Bare;
    match p
    case Single(o) =>
      y' := ReadOperand(y, o);
    case Scaled(left, op, o) =>
      var base, m := Below(y.ops, FirstOperand(p)), MulToken(op);
      var y1 := ReadProduct(y, left);
      var y2 := ReadBinary(y1, y.out, base, 5, ProductPostfix(left), m);
      BehindOperator(y2, base, m, o);
      y' := ReadOperand(y2, o);
      ReadThree(y, ProductTokens(left), m, OperandTokens(o), y1, y2);
      Joined(y', y.out, base, ProductPostfix(left), m, Bare(o), 7, OperandPostfix(o), 5);
  }

  lemma BehindOperator(y: Yard, ops: seq<Token>, m: Token, o: Operand)
    requires y.ops == ops + [m] && y.seen != [] && Last(y.seen) == m && IsOperator(m) && Precedence(m) <= 5
    ensures Behind(y, o) && Below(y.ops, o) == (if Bare(o) then ops else ops + [m]) && Stops(y.ops, 7)
  {
    assert Init(y.ops) == ops;
  }

  lemma {:induction false} ReadSum(y: Yard, e: Sum) returns (y': Yard)
    requires BeforeOperand(y.seen) && y.ops != [] && Last(y.ops).OpenParen?
    requires !Bare(FirstOfSum(e)) && SingleSum(e)
    ensures Read(y, SumTokens(e)) == Ok(y') && Done(y', y.out, y.ops, 0, SumPostfix(e))
    decreases e, 0
  {
    hide Read, Consume, Rev, ProductPostfix, ProductTokens, SingleProduct, Bare;
    match e
    case Lone(p) =>
      y' := ReadProduct(y, p);
    case Added(left, op, p) =>
      var a := AddToken(op);
      var y1 := ReadSum(y, left);
      var y2 := ReadBinary(y1, y.out, y.ops, 0, SumPostfix(left), a);
      BehindOperator(y2, y.ops, a, FirstOperand(p));
      y' := ReadProduct(y2, p);
      ReadThree(y, SumTokens(left), a, ProductTokens(p), y1, y2);
      Joined(y', y.out, y.ops, SumPostfix(left), a, Bare(FirstOperand(p)), 5, ProductPostfix(p), 0);
  }

  // ---- Reading at the start ----

  predicate AllParens(ops: seq<Token>) { forall i :: 0 <= i < |ops| ==> ops[i].OpenParen? }

  lemma ParensStop(ops: seq<Token>)
    requires AllParens(ops)
    ensures Stops(ops, 0) && Stops(ops, 5) && Stops(ops, 7)
  {
  }

  /** Nothing but parentheses lies below `piece`, no more of them than before. */
  predicate Leading(y: Yard, base: seq<Token>, before: Yard, p: int, piece: seq<Token>)
  {
    AllParens(base) && |base| <= |before.ops| && Done(y, before.out, base, p, piece)
  }

  /** The end of a group at the start: it takes along its parenthesis and the one around it, if they are there. */
  lemma ClosesLeading(y: Yard, base: seq<Token>, out: seq<Token>, piece: seq<Token>) returns (y': Yard)
    requires AllParens(base) && Done(y, out, base, 0, piece)
    ensures Consume(y, CloseParen) == Ok(y') && y'.out == out + piece && AfterOperand(y'.seen)
    ensures AllParens(y'.ops) && (|y'.ops| < |base| || y'.ops == [])
  {
    hide Rev, PopToParen;
    if base == [] {
      assert y.ops[0..] == y.ops;
      FlushAll(y.out, y.ops);
      y' := Consume(y, CloseParen).value;
    } else {
      assert base == Init(base) + [OpenParen];
      y' := Closes(y, out, Init(base), piece);
    }
  }

  lemma {:induction false} ReadFirst(y: Yard, o: Operand) returns (y': Yard, base: seq<Token>)
    requires BeforeOperand(y.seen) && AllParens(y.ops) && NoDoubledOperand(o)
    ensures Read(y, OperandTokens(o)) == Ok(y') && Leading(y', base, y, 5, OperandPostfix(o))
    decreases o, 2
  {
    hide Read, Consume, Rev, SumPostfix, SumTokens, SingleSum, FactorPostfix, FactorTokens, Done;
    ParensStop(y.ops);
    if Bare(o) {
      var y1 := Opens(y);
      var y2, inner := ReadLeading(y1, o.sum);
      y' := ClosesLeading(y2, inner, y.out, SumPostfix(o.sum));
      ReadEnclosed(y, y1, SumTokens(o.sum), y2, y');
      NoSigns(y);
      assert [] + [OpenParen] + SumTokens(o.sum) + [CloseParen] == [OpenParen] + SumTokens(o.sum) + [CloseParen];
      assert [] + SumPostfix(o.sum) == SumPostfix(o.sum);
      base := y'.ops;
      NothingAbove(y', y.out, base, 5, OperandPostfix(o));
    } else {
      y' := ReadOperand(y, o);
      base := y.ops;
      LowerBound(y', y.out, base, OperandPostfix(o));
    }
  }

  lemma LowerBound(y: Yard, out: seq<Token>, ops: seq<Token>, piece: seq<Token>)
    requires Done(y, out, ops, 7, piece)
    ensures Done(y, out, ops, 5, piece)
  {
  }

  lemma {:induction false} ReadFirstProduct(y: Yard, p: Product) returns (y': Yard, base: seq<Token>)
    requires BeforeOperand(y.seen) && AllParens(y.ops) && NoDoubledProduct(p)
    ensures Read(y, ProductTokens(p)) == Ok(y') && Leading(y', base, y, 5, ProductPostfix(p))
    decreases p, 3
  {
    hide Read, Consume, Rev, OperandPostfix, OperandTokens, SingleOperand, Bare, Done;
    match p
    case Single(o) =>
      y', base := ReadFirst(y, o);
    case Scaled(left, op, o) =>
      var m := MulToken(op);
      var y1;
      y1, base := ReadFirstProduct(y, left);
      ParensStop(base);
      var y2 := ReadBinary(y1, y.out, base, 5, ProductPostfix(left), m);
      BehindOperator(y2, base, m, o);
      y' := ReadOperand(y2, o);
      ReadThree(y, ProductTokens(left), m, OperandTokens(o), y1, y2);
      Joined(y', y.out, base, ProductPostfix(left), m, Bare(o), 7, OperandPostfix(o), 5);
  }

  lemma {:induction false} ReadLeading(y: Yard, e: Sum) returns (y': Yard, base: seq<Token>)
    requires BeforeOperand(y.seen) && AllParens(y.ops) && NoDoubled(e)
    ensures Read(y, SumTokens(e)) == Ok(y') && Leading(y', base, y, 0, SumPostfix(e))
    decreases e, 0
  {
    hide Read, Consume, Rev, ProductPostfix, ProductTokens, SingleProduct, Bare;
    match e
    case Lone(p) =>
      y', base := ReadFirstProduct(y, p);
    case Added(left, op, p) =>
      var a := AddToken(op);
      var y1;
      y1, base := ReadLeading(y, left);
      ParensStop(base);
      var y2 := ReadBinary(y1, y.out, base, 0, SumPostfix(left), a);
      BehindOperator(y2, base, a, FirstOperand(p));
      y' := ReadProduct(y2, p);
      ReadThree(y, SumTokens(left), a, ProductTokens(p), y1, y2);
      Joined(y', y.out, base, SumPostfix(left), a, Bare(FirstOperand(p)), 5, ProductPostfix(p), 0);
  }

  /** What is emitted for any expression without doubled parentheses behind an operator or a sign. */
  lemma ConvertEmitsGroups(e: Sum)
    requires NoDoubled(e)
    ensures Convert(SumTokens(e)) == Ok(SumPostfix(e))
  {
    hide SumTokens, SumPostfix, NoDoubled;
    var y := Yard([], [], []);
    var y', base := ReadLeading(y, e);
    ConvertIsRead(y, SumTokens(e));
    PopAllIsRev(y'.out, y'.ops);
    assert base == [] && y'.ops[0..] == y'.ops;
    assert [] + SumPostfix(e) == SumPostfix(e);
  }
}
