/** Expressions with parentheses of any kind: one that loses an operator is rejected. */
module ArithmeticLostOperators {
  import opened Arithmetic
  import opened ArithmeticGroups
  import opened ArithmeticParens
  import opened ArithmeticParenValues
  import opened Basics

  /** Operators only behind operands, parentheses only where an operand may stand. */
  predicate Alternates(tokens: seq<Token>, before: bool)
    decreases |tokens|
  {
    tokens == []
    || ((tokens[0].OpenParen? ==> before) && (IsOperator(tokens[0]) ==> !before && Binary(tokens[0]))
        && Alternates(tokens[1..], tokens[0].OpenParen? || IsOperator(tokens[0])))
  }

  /** Only parentheses and binary operators wait on the stack. */
  predicate NoSignWaits(ops: seq<Token>)
  {
    forall t :: t in ops ==> t.OpenParen? || Binary(t)
  }

  function YardBalance(y: Yard): int { Balance(y.out) + Balance(y.ops) }

  lemma BalancePush(s: seq<Token>, t: Token)
    ensures Balance(s + [t]) == Balance(s) + Weight(t)
  {
    BalanceAppend(s, [t]);
    OneBalance(t);
  }

  lemma BalancePop(s: seq<Token>)
    requires s != []
    ensures Balance(s) == Balance(Init(s)) + Weight(Last(s))
  {
    assert s == Init(s) + [Last(s)];
    BalancePush(Init(s), Last(s));
  }

  lemma {:induction false} PoppedBalance(out: seq<Token>, ops: seq<Token>, p: int)
    requires NoSignWaits(ops)
    ensures var (out', ops') := PopWhile(out, ops, p);
      Balance(out') + Balance(ops') == Balance(out) + Balance(ops) && NoSignWaits(ops')
    decreases |ops|
  {
    hide Balance;
    if ops != [] && !Last(ops).OpenParen? && p <= Precedence(Last(ops)) {
      BalancePush(out, Last(ops));
      BalancePop(ops);
      PoppedBalance(out + [Last(ops)], Init(ops), p);
    }
  }

  lemma {:induction false} FlushedBalance(out: seq<Token>, ops: seq<Token>)
    requires NoSignWaits(ops)
    ensures var (out', ops') := PopToParen(out, ops);
      && ops' == BelowGroup(ops) && NoSignWaits(ops')
      && Balance(out') + Balance(ops') == Balance(out) + Balance(ops)
    decreases |ops|
  {
    hide Balance;
    if ops != [] {
      BalancePop(ops);
      BalancePush(out, Last(ops));
      if !Last(ops).OpenParen? {
        FlushedBalance(out + [Last(ops)], Init(ops));
      }
    }
  }

  /** A closing parenthesis adds one exactly when the entry it takes along is an operator. */
  lemma CloseBalance(y: Yard)
    requires NoSignWaits(y.ops)
    ensures var y', below := Consume(y, CloseParen).value, BelowGroup(y.ops);
      && Consume(y, CloseParen).Ok? && NoSignWaits(y'.ops) && y'.seen == y.seen + [CloseParen]
      && YardBalance(y') == YardBalance(y) + if below == [] || Last(below).OpenParen? then 0 else 1
  {
    hide PopToParen, Balance, BelowGroup;
    FlushedBalance(y.out, y.ops);
    var below := BelowGroup(y.ops);
    if below != [] {
      BalancePop(below);
      assert Last(below) in below;
    }
  }

  /** Every other token adds what it weighs. */
  lemma OtherBalance(y: Yard, t: Token)
    requires NoSignWaits(y.ops) && Consume(y, t).Ok? && !t.CloseParen?
    requires IsOperator(t) ==> !BeforeOperand(y.seen) && Binary(t)
    ensures var y' := Consume(y, t).value;
      NoSignWaits(y'.ops) && YardBalance(y') == YardBalance(y) + Weight(t) && y'.seen == y.seen + [t]
  {
    hide PopWhile, Balance, Multiplier;
    if t.Identifier? {
      var m := Number(Multiplier(t.text));
      BalancePush(y.out, m);
      BalancePush(y.out + [m], Multiply);
      assert y.out + [m, Multiply] == y.out + [m] + [Multiply];
    } else if IsOperator(t) {
      PoppedBalance(y.out, y.ops, Precedence(t));
      BalancePush(PopWhile(y.out, y.ops, Precedence(t)).1, t);
    } else {
      BalancePush(y.out, t);
      BalancePush(y.ops, t);
    }
  }

  lemma {:induction false} NeverLess(y: Yard, tokens: seq<Token>)
    requires NoSignWaits(y.ops) && Alternates(tokens, BeforeOperand(y.seen)) && Read(y, tokens).Ok?
    ensures YardBalance(Read(y, tokens).value) >= YardBalance(y) + Balance(tokens)
    decreases |tokens|
  {
    hide Consume, YardBalance, NoSignWaits, BelowGroup;
    if tokens != [] {
      var t := tokens[0];
      if t.CloseParen? { CloseBalance(y); } else { OtherBalance(y, t); }
      SeenAfter(y.seen, t);
      NeverLess(Consume(y, t).value, tokens[1..]);
    }
  }

  lemma {:induction false} UnsafeGains(y: Yard, tokens: seq<Token>, opens: seq<bool>)
    requires NoSignWaits(y.ops) && Alternates(tokens, BeforeOperand(y.seen)) && Read(y, tokens).Ok?
    requires Matches(opens, y.ops) && TopIsLast(y) && !SafeGroups(tokens, AfterOperator(y.seen), opens)
    ensures YardBalance(Read(y, tokens).value) > YardBalance(y) + Balance(tokens)
    decreases |tokens|
  {
    hide Consume, YardBalance, NoSignWaits, BelowGroup, Matches, TopIsLast, Closed;
    if tokens != [] {
      var t := tokens[0];
      var y' := Consume(y, t).value;
      SeenAfter(y.seen, t);
      if t.CloseParen? {
        CloseBalance(y);
        ClosingMatches(y, opens);
        BelowMatches(opens, y.ops);
        if opens == [] || !opens[|opens| - 1] {
          UnsafeGains(y', tokens[1..], Closed(opens));
        } else {
          NeverLess(y', tokens[1..]);
        }
      } else {
        OtherBalance(y, t);
        OtherTokenMatches(y, t, opens);
        UnsafeGains(y', tokens[1..], if t.OpenParen? then opens + [AfterOperator(y.seen)] else opens);
      }
    }
  }

  // ---- The tokens of an expression without signs ----

  lemma AlternatesCons(t: Token, rest: seq<Token>, before: bool)
    ensures Alternates([t] + rest, before)
         == ((t.OpenParen? ==> before) && (IsOperator(t) ==> !before && Binary(t))
             && Alternates(rest, t.OpenParen? || IsOperator(t)))
  {
    assert ([t] + rest)[1..] == rest;
  }

  lemma {:induction false} OperandAlternates(o: Operand, rest: seq<Token>)
    requires SignFreeOperand(o) && Alternates(rest, false)
    ensures Alternates(OperandTokens(o) + rest, true) && Balance(OperandTokens(o)) == 1
    decreases o
  {
    hide Alternates, Balance, SuffixText;
    match o
    case Plain(f) =>
      var n := Number(f.number);
      assert Signs(f.signs) == [];
      OneBalance(n);
      if f.suffix.NoSuffix? {
        assert OperandTokens(o) == [n];
        AlternatesCons(n, rest, true);
      } else {
        var i := Identifier(SuffixText(f.suffix));
        assert OperandTokens(o) == [n] + [i] && [n] + [i] + rest == [n] + ([i] + rest);
        BalancePush([n], i);
        AlternatesCons(i, rest, false);
        AlternatesCons(n, [i] + rest, true);
      }
    case Group(signs, e) =>
      var q := SumTokens(e);
      assert Signs(signs) == [] && OperandTokens(o) == [OpenParen] + q + [CloseParen];
      AlternatesCons(CloseParen, rest, false);
      SumAlternates(e, [CloseParen] + rest);
      AlternatesCons(OpenParen, q + ([CloseParen] + rest), true);
      assert OperandTokens(o) + rest == [OpenParen] + (q + ([CloseParen] + rest));
      BalancePush([OpenParen] + q, CloseParen);
      BalanceAppend([OpenParen], q);
      OneBalance(OpenParen);
  }

  lemma {:induction false} ProductAlternates(p: Product, rest: seq<Token>)
    requires SignFreeProduct(p) && Alternates(rest, false)
    ensures Alternates(ProductTokens(p) + rest, true) && Balance(ProductTokens(p)) == 1
    decreases p
  {
    hide Alternates, Balance, OperandTokens;
    match p
    case Single(o) => OperandAlternates(o, rest);
    case Scaled(left, op, o) =>
      var m, r := MulToken(op), OperandTokens(o);
      OperandAlternates(o, rest);
      AlternatesCons(m, r + rest, false);
      ProductAlternates(left, [m] + (r + rest));
      assert ProductTokens(p) + rest == ProductTokens(left) + ([m] + (r + rest));
      BalanceAppend(ProductTokens(left) + [m], r);
      BalancePush(ProductTokens(left), m);
  }

  lemma {:induction false} SumAlternates(e: Sum, rest: seq<Token>)
    requires SignFree(e) && Alternates(rest, false)
    ensures Alternates(SumTokens(e) + rest, true) && Balance(SumTokens(e)) == 1
    decreases e
  {
    hide Alternates, Balance, ProductTokens;
    match e
    case Lone(p) => ProductAlternates(p, rest);
    case Added(left, op, p) =>
      var a, r := AddToken(op), ProductTokens(p);
      ProductAlternates(p, rest);
      AlternatesCons(a, r + rest, false);
      SumAlternates(left, [a] + (r + rest));
      assert SumTokens(e) + rest == SumTokens(left) + ([a] + (r + rest));
      BalanceAppend(SumTokens(left) + [a], r);
      BalancePush(SumTokens(left), a);
  }

  lemma {:induction false} BalanceRev(s: seq<Token>)
    ensures Balance(Rev(s)) == Balance(s)
    decreases |s|
  {
    hide Balance;
    if s != [] {
      BalancePop(s);
      BalanceRev(Init(s));
      BalanceAppend([Last(s)], Rev(Init(s)));
      OneBalance(Last(s));
    }
  }

  /** Whatever its parentheses, doubled or not, an expression without signs is rejected if one of them closes a
      parenthesis that directly follows an operator: too many values are left over. */
  lemma UnsafeGroupsRejected(e: Sum)
    requires SignFree(e) && !SafeGroups(SumTokens(e), false, [])
    ensures Parse(SumTokens(e)) == Error
  {
    hide SumTokens, SignFree, Balance, SafeGroups, Alternates, EvalFrom, Read;
    var y, q := Yard([], [], []), SumTokens(e);
    SumAlternates(e, []) by { NothingFollows(); }
    assert q + [] == q;
    ConvertIsRead(y, q);
    if Read(y, q).Ok? {
      var y' := Read(y, q).value;
      NothingYet(y);
      UnsafeGains(y, q, []);
      OneBalance(OpenParen);
      PopAllIsRev(y'.out, y'.ops);
      BalanceAppend(y'.out, Rev(y'.ops));
      BalanceRev(y'.ops);
      if EvalFrom([], y'.out + Rev(y'.ops)).Ok? {
        EvalBalance([], y'.out + Rev(y'.ops));
      }
    }
  }

  lemma NothingFollows() ensures Alternates([], false) {}
}
