/** Parentheses in arithmetic expressions: which tokens toReversePolish of lib_app/Parser.cpp keeps. */
module ArithmeticGroups {
  import opened Arithmetic
  import opened Basics

  // ---- Tokens ----

  /** An open parenthesis stands at the start, after another one or after an operator. */
  predicate OpensWell(tokens: seq<Token>, mayOpen: bool)
    decreases |tokens|
  {
    tokens == []
    || ((tokens[0].OpenParen? ==> mayOpen)
        && OpensWell(tokens[1..], tokens[0].OpenParen? || IsOperator(tokens[0])))
  }

  /** The parentheses still open after one closes: it takes the one around it along. */
  function Closed(opens: seq<bool>): seq<bool>
  {
    if |opens| <= 2 then [] else opens[..|opens| - 2]
  }

  /** No parenthesis closes one that directly follows an operator. `opens` tells of every open parenthesis
      whether it does, `operator` whether the token before is one. */
  predicate SafeGroups(tokens: seq<Token>, operator: bool, opens: seq<bool>)
    decreases |tokens|
  {
    if tokens == [] then true
    else if tokens[0].OpenParen? then SafeGroups(tokens[1..], false, opens + [operator])
    else if tokens[0].CloseParen? then
      (opens == [] || !opens[|opens| - 1]) && SafeGroups(tokens[1..], false, Closed(opens))
    else SafeGroups(tokens[1..], IsOperator(tokens[0]), opens)
  }

  /** The tokens with their signs told apart. */
  function Resolved(tokens: seq<Token>, seen: seq<Token>): seq<Token>
    decreases |tokens|
  {
    if tokens == [] then seen
    else Resolved(tokens[1..], seen + [if IsOperator(tokens[0]) then Resolve(tokens[0], seen) else tokens[0]])
  }

  /** What a token contributes to the result: a number or operator itself, a suffix its multiplication. */
  function Due1(t: Token): multiset<Token>
  {
    if t.Identifier? then multiset{Number(Multiplier(t.text)), Multiply}
    else if IsNumber(t) || IsOperator(t) then multiset{t}
    else multiset{}
  }

  function Due(s: seq<Token>): multiset<Token>
  {
    if s == [] then multiset{} else Due(Init(s)) + Due1(Last(s))
  }

  /** The numbers and operators in a queue or on a stack. */
  function Kept1(t: Token): multiset<Token> { if t.OpenParen? then multiset{} else multiset{t} }

  function Kept(s: seq<Token>): multiset<Token>
  {
    if s == [] then multiset{} else Kept(Init(s)) + Kept1(Last(s))
  }

  lemma KeptPush(s: seq<Token>, t: Token)
    ensures Kept(s + [t]) == Kept(s) + Kept1(t)
  {
    assert Init(s + [t]) == s;
  }

  lemma DuePush(s: seq<Token>, t: Token)
    ensures Due(s + [t]) == Due(s) + Due1(t)
  {
    assert Init(s + [t]) == s;
  }

  lemma {:induction false} KeptAppend(a: seq<Token>, b: seq<Token>)
    ensures Kept(a + b) == Kept(a) + Kept(b)
    decreases |b|
  {
    hide Kept;
    if b == [] {
      KeptNone(b);
      assert a + b == a;
    } else {
      KeptAppend(a, Init(b));
      KeptAppendOne(a, Init(b), Last(b));
      assert Init(b) + [Last(b)] == b;
    }
  }

  lemma KeptNone(s: seq<Token>)
    requires s == []
    ensures Kept(s) == multiset{}
  {
  }

  lemma KeptAppendOne(a: seq<Token>, b: seq<Token>, t: Token)
    requires Kept(a + b) == Kept(a) + Kept(b)
    ensures Kept(a + (b + [t])) == Kept(a) + Kept(b + [t])
  {
    hide Kept, Kept1;
    KeptPush(b, t);
    KeptPush(a + b, t);
    assert a + b + [t] == a + (b + [t]);
    Associates(Kept(a), Kept(b), Kept1(t));
  }

  lemma Associates<T>(a: multiset<T>, b: multiset<T>, c: multiset<T>)
    ensures a + b + c == a + (b + c) && a + b + c == a + c + b
  {
  }

  lemma StrictlyMore<T>(a: multiset<T>, b: multiset<T>, d: multiset<T>)
    requires a < b
    ensures a + d < b + d
  {
    assert (a + d) - d == a && (b + d) - d == b;
  }

  lemma {:induction false} KeptRev(s: seq<Token>)
    ensures Kept(Rev(s)) == Kept(s)
  {
    if s != [] {
      KeptRev(Init(s));
      KeptAppend([Last(s)], Rev(Init(s)));
      KeptPush([], Last(s));
      assert [] + [Last(s)] == [Last(s)];
    }
  }

  // ---- One closing parenthesis ----

  /** What lies below the innermost open parenthesis of the stack. */
  function BelowGroup(ops: seq<Token>): seq<Token>
  {
    if ops == [] then [] else if Last(ops).OpenParen? then Init(ops) else BelowGroup(Init(ops))
  }

  function Held(y: Yard): multiset<Token> { Kept(y.out) + Kept(y.ops) }

  /** Closing a group moves the operators inside it to the output and pops one more entry, so every
      operator is kept exactly when that entry is absent or itself an open parenthesis. */
  lemma ClosingKeepsOperatorsIff(y: Yard)
    requires Consume(y, CloseParen).Ok?
    ensures var y' := Consume(y, CloseParen).value;
      (Held(y') == Held(y) <==> BelowGroup(y.ops) == [] || Last(BelowGroup(y.ops)).OpenParen?)
      && Held(y') <= Held(y)
  {
    GroupKeeps(y.out, y.ops);
    var below := BelowGroup(y.ops);
    var y' := Consume(y, CloseParen).value;
    hide BelowGroup, PopToParen;
    if below != [] {
      OneFewer(y'.out, below);
    }
  }

  lemma OneFewer(out: seq<Token>, below: seq<Token>)
    requires below != []
    ensures Kept(out) + Kept(Init(below)) <= Kept(out) + Kept(below)
    ensures Kept(out) + Kept(Init(below)) == Kept(out) + Kept(below) <==> Last(below).OpenParen?
  {
    KeptPush(Init(below), Last(below));
    assert Init(below) + [Last(below)] == below;
    hide Kept;
    Associates(Kept(out), Kept(Init(below)), Kept1(Last(below)));
    var less, more := Kept(out) + Kept(Init(below)), Kept(out) + Kept(below);
    assert more == less + Kept1(Last(below));
    if !Last(below).OpenParen? {
      assert |more| == |less| + 1;
    }
  }

  lemma {:induction false} GroupKeeps(out: seq<Token>, ops: seq<Token>)
    ensures var (out', ops') := PopToParen(out, ops);
      ops' == BelowGroup(ops) && Kept(out) + Kept(ops) == Kept(out') + Kept(ops')
    decreases |ops|
  {
    if ops != [] && !Last(ops).OpenParen? {
      KeptPush(out, Last(ops));
      GroupKeeps(out + [Last(ops)], Init(ops));
    }
  }

  // ---- The whole token list ----

  /** `opens` tells of every open parenthesis of the stack whether an operator lies directly below it. */
  predicate Matches(opens: seq<bool>, ops: seq<Token>)
    decreases |ops|
  {
    if ops == [] then opens == []
    else if Last(ops).OpenParen? then
      opens != [] && opens[|opens| - 1] == (Init(ops) != [] && !Last(Init(ops)).OpenParen?)
      && Matches(opens[..|opens| - 1], Init(ops))
    else Matches(opens, Init(ops))
  }

  /** The top of the stack is what was pushed for the last token, if that opened or operated. */
  predicate TopIsLast(y: Yard)
  {
    && (y.seen == [] ==> y.ops == [])
    && (y.seen != [] && Last(y.seen).OpenParen? ==> y.ops != [] && Last(y.ops).OpenParen?)
    && (y.seen != [] && IsOperator(Last(y.seen)) ==> y.ops != [] && !Last(y.ops).OpenParen?)
  }

  predicate AfterOperator(seen: seq<Token>) { seen != [] && IsOperator(Last(seen)) }

  lemma {:induction false} PoppedKept(out: seq<Token>, ops: seq<Token>, p: int)
    ensures var (out', ops') := PopWhile(out, ops, p); Kept(out) + Kept(ops) == Kept(out') + Kept(ops')
    decreases |ops|
  {
    if ops != [] && !Last(ops).OpenParen? && p <= Precedence(Last(ops)) {
      KeptPush(out, Last(ops));
      PoppedKept(out + [Last(ops)], Init(ops), p);
    }
  }

  lemma {:induction false} PoppingMatches(out: seq<Token>, ops: seq<Token>, p: int, opens: seq<bool>)
    requires Matches(opens, ops)
    ensures Matches(opens, PopWhile(out, ops, p).1)
    decreases |ops|
  {
    if ops != [] && !Last(ops).OpenParen? && p <= Precedence(Last(ops)) {
      PoppingMatches(out + [Last(ops)], Init(ops), p, opens);
    }
  }

  /** Every token but a closing parenthesis adds what it is due. */
  lemma OtherTokenKeeps(y: Yard, t: Token)
    requires Consume(y, t).Ok? && !t.CloseParen?
    ensures var y' := Consume(y, t).value;
      y'.seen == y.seen + [if IsOperator(t) then Resolve(t, y.seen) else t]
      && Held(y') == Held(y) + Due1(Last(y'.seen))
  {
    if t.Identifier? {
      SuffixKeeps(y, t);
    } else if IsOperator(t) {
      OperatorKeeps(y, t);
    } else {
      hide Kept;
      KeptPush(y.out, t);
      KeptPush(y.ops, t);
      Associates(Kept(y.out), Kept(y.ops), Kept1(t));
      assert Kept(y.out) + Kept(y.ops) + multiset{} == Kept(y.out) + Kept(y.ops);
    }
  }

  lemma SuffixKeeps(y: Yard, t: Token)
    requires t.Identifier? && Consume(y, t).Ok?
    ensures var y' := Consume(y, t).value; y'.seen == y.seen + [t] && Held(y') == Held(y) + Due1(t)
  {
    hide Kept, Multiplier;
    var m := Number(Multiplier(t.text));
    assert y.out + [m, Multiply] == y.out + [m] + [Multiply];
    KeptPush(y.out, m);
    KeptPush(y.out + [m], Multiply);
    assert Kept(y.out + [m, Multiply]) == Kept(y.out) + multiset{m, Multiply};
    Associates(Kept(y.out), Kept(y.ops), multiset{m, Multiply});
  }

  lemma OperatorKeeps(y: Yard, t: Token)
    requires IsOperator(t) && Consume(y, t).Ok?
    ensures var y' := Consume(y, t).value; var r := Resolve(t, y.seen);
      y'.seen == y.seen + [r] && Held(y') == Held(y) + Due1(r)
  {
    hide PopWhile, Kept;
    var r := Resolve(t, y.seen);
    var (out, ops) := PopWhile(y.out, y.ops, Precedence(r));
    PoppedKept(y.out, y.ops, Precedence(r));
    KeptPush(ops, r);
    Associates(Kept(out), Kept(ops), multiset{r});
  }

  lemma OtherTokenMatches(y: Yard, t: Token, opens: seq<bool>)
    requires Matches(opens, y.ops) && TopIsLast(y) && Consume(y, t).Ok? && !t.CloseParen?
    requires t.OpenParen? ==> BeforeOperand(y.seen)
    ensures var y' := Consume(y, t).value;
      TopIsLast(y') && Matches(if t.OpenParen? then opens + [AfterOperator(y.seen)] else opens, y'.ops)
      && AfterOperator(y'.seen) == IsOperator(t)
  {
    hide PopWhile, Matches, Multiplier;
    if IsOperator(t) {
      var r := Resolve(t, y.seen);
      PoppingMatches(y.out, y.ops, Precedence(r), opens);
      MatchesPush(opens, PopWhile(y.out, y.ops, Precedence(r)).1, r);
    } else if t.OpenParen? {
      MatchesPush(opens, y.ops, t);
    }
  }

  lemma MatchesPush(opens: seq<bool>, ops: seq<Token>, t: Token)
    requires Matches(opens, ops)
    ensures !t.OpenParen? ==> Matches(opens, ops + [t])
    ensures t.OpenParen? ==> Matches(opens + [ops != [] && !Last(ops).OpenParen?], ops + [t])
  {
    assert Init(ops + [t]) == ops;
    var flag := ops != [] && !Last(ops).OpenParen?;
    assert (opens + [flag])[..|opens|] == opens;
  }

  /** The parentheses below the innermost one, and whether an operator separates it from them. */
  lemma {:induction false} BelowMatches(opens: seq<bool>, ops: seq<Token>)
    requires Matches(opens, ops)
    ensures var below := BelowGroup(ops);
      if opens == [] then below == []
      else Matches(opens[..|opens| - 1], below)
           && opens[|opens| - 1] == (below != [] && !Last(below).OpenParen?)
    decreases |ops|
  {
    if ops != [] && !Last(ops).OpenParen? {
      BelowMatches(opens, Init(ops));
    }
  }

  lemma ClosingMatches(y: Yard, opens: seq<bool>)
    requires Matches(opens, y.ops)
    ensures var y' := Consume(y, CloseParen).value;
      Held(y') <= Held(y) && y'.seen == y.seen + [CloseParen] && TopIsLast(y')
      && (opens == [] || !opens[|opens| - 1] ==> Held(y') == Held(y) && Matches(Closed(opens), y'.ops))
      && (opens != [] && opens[|opens| - 1] ==> Held(y') < Held(y))
  {
    hide Held, PopToParen, BelowGroup, Matches, Closed;
    ClosingKeepsOperatorsIff(y);
    BelowMatches(opens, y.ops);
    ClosedMatches(opens, BelowGroup(y.ops));
    BelowIsLeft(y.out, y.ops);
  }

  lemma BelowIsLeft(out: seq<Token>, ops: seq<Token>)
    ensures PopToParen(out, ops).1 == BelowGroup(ops)
  {
    GroupKeeps(out, ops);
  }

  lemma ClosedMatches(opens: seq<bool>, below: seq<Token>)
    requires if opens == [] then below == []
             else Matches(opens[..|opens| - 1], below)
                  && opens[|opens| - 1] == (below != [] && !Last(below).OpenParen?)
    ensures opens == [] || !opens[|opens| - 1] ==> Matches(Closed(opens), if below == [] then below else Init(below))
  {
    if opens != [] && !opens[|opens| - 1] && below != [] {
      var outer := opens[..|opens| - 1];
      assert outer[..|outer| - 1] == Closed(opens);
    }
  }

  lemma DueOfClosing(seen: seq<Token>)
    ensures Due(seen + [CloseParen]) == Due(seen)
  {
    DuePush(seen, CloseParen);
  }

  /** Once something is missing it stays missing. */
  lemma {:induction false} MissingStays(y: Yard, tokens: seq<Token>)
    requires Held(y) < Due(y.seen) && Read(y, tokens).Ok?
    ensures Held(Read(y, tokens).value) < Due(Read(y, tokens).value.seen)
    decreases |tokens|
  {
    if tokens != [] {
      var y' := Consume(y, tokens[0]).value;
      NeverGains(y, tokens[0]);
      MissingStays(y', tokens[1..]);
    }
  }

  lemma NeverGains(y: Yard, t: Token)
    requires Consume(y, t).Ok? && Held(y) < Due(y.seen)
    ensures Held(Consume(y, t).value) < Due(Consume(y, t).value.seen)
  {
    var y' := Consume(y, t).value;
    if t.CloseParen? {
      ClosingKeepsOperatorsIff(y);
      DueOfClosing(y.seen);
      hide Held, Due;
    } else {
      OtherTokenKeeps(y, t);
      DuePush(y.seen, Last(y'.seen));
      StrictlyMore(Held(y), Due(y.seen), Due1(Last(y'.seen)));
    }
  }

  /** Reading a list keeps everything if and only if no group in it is closed unsafely. */
  lemma {:induction false} ReadKeepsIff(y: Yard, tokens: seq<Token>, opens: seq<bool>)
    requires Held(y) == Due(y.seen) && Matches(opens, y.ops) && TopIsLast(y)
    requires OpensWell(tokens, BeforeOperand(y.seen)) && Read(y, tokens).Ok?
    ensures var y' := Read(y, tokens).value;
      (Held(y') == Due(y'.seen) <==> SafeGroups(tokens, AfterOperator(y.seen), opens))
      && y'.seen == Resolved(tokens, y.seen)
    decreases |tokens|
  {
    hide Kept, Due, Due1, Matches, Consume, TopIsLast, Closed;
    if tokens != [] {
      var t := tokens[0];
      var y' := Consume(y, t).value;
      if t.CloseParen? {
        ClosingMatches(y, opens);
        DueOfClosing(y.seen);
        SeenAfter(y.seen, CloseParen);
        if opens == [] || !opens[|opens| - 1] {
          ReadKeepsIff(y', tokens[1..], Closed(opens));
        } else {
          MissingStays(y', tokens[1..]);
          SeenIsResolved(y', tokens[1..]);
        }
      } else {
        OtherTokenKeeps(y, t);
        OtherTokenMatches(y, t, opens);
        DuePush(y.seen, Last(y'.seen));
        SeenAfter(y.seen, Last(y'.seen));
        ReadKeepsIff(y', tokens[1..], if t.OpenParen? then opens + [AfterOperator(y.seen)] else opens);
      }
    }
  }

  lemma SeenAfter(seen: seq<Token>, t: Token)
    ensures Last(seen + [t]) == t
    ensures BeforeOperand(seen + [t]) == (t.OpenParen? || IsOperator(t))
    ensures AfterOperator(seen + [t]) == IsOperator(t)
  {
  }

  lemma {:induction false} SeenIsResolved(y: Yard, tokens: seq<Token>)
    requires Read(y, tokens).Ok?
    ensures Read(y, tokens).value.seen == Resolved(tokens, y.seen)
    decreases |tokens|
  {
    if tokens != [] {
      hide PopWhile, PopToParen, Multiplier;
      SeenIsResolved(Consume(y, tokens[0]).value, tokens[1..]);
    }
  }

  /** The output holds every number and operator of the tokens, each as often as it is due, if and only if
      no parenthesis closes one that directly follows an operator, where a closing parenthesis takes along
      the parenthesis around its own when nothing stands between the two. */
  lemma GroupsKeepOperatorsIff(tokens: seq<Token>)
    requires OpensWell(tokens, true) && Convert(tokens).Ok?
    ensures Kept(Convert(tokens).value) == Due(Resolved(tokens, [])) <==> SafeGroups(tokens, false, [])
  {
    hide Kept, Due, Consume, SafeGroups, Resolved, OpensWell;
    var y := Yard([], [], []);
    ConvertIsRead(y, tokens);
    NothingYet(y);
    ReadKeepsIff(y, tokens, []);
    var y' := Read(y, tokens).value;
    PopAllIsRev(y'.out, y'.ops);
    KeptAppend(y'.out, Rev(y'.ops));
    KeptRev(y'.ops);
  }

  lemma NothingYet(y: Yard)
    requires y == Yard([], [], [])
    ensures Held(y) == Due(y.seen) && Matches([], y.ops) && TopIsLast(y)
  {
  }

  /** The multiplication of `2 * (3)` is lost. */
  lemma ParenthesesLoseOperator()
    ensures Convert([Number(2), Multiply, OpenParen, Number(3), CloseParen]) == Ok([Number(2), Number(3)])
    ensures Parse([Number(2), Multiply, OpenParen, Number(3), CloseParen]) == Error
  {
    hide EvalFrom, PopWhile, PopToParen, Consume, Read;
    var n2, n3 := Number(2), Number(3);
    var y0 := Yard([], [], []);
    var y1 := Yard([n2], [], [n2]);
    var y2 := Yard([n2], [Multiply], [n2, Multiply]);
    var y3 := Yard([n2], [Multiply, OpenParen], [n2, Multiply, OpenParen]);
    var y4 := Yard([n2, n3], [Multiply, OpenParen], [n2, Multiply, OpenParen, n3]);
    OpenGroup(n2, n3);
    var y5 := CloseGroup(n2, n3);
    ReadCons(y4, CloseParen, []);
    ReadNothing(y5);
    ReadCons(y3, n3, [CloseParen]);
    ReadCons(y2, OpenParen, [n3, CloseParen]);
    ReadCons(y1, Multiply, [OpenParen, n3, CloseParen]);
    ReadCons(y0, n2, [Multiply, OpenParen, n3, CloseParen]);
    ConvertIsRead(y0, [n2, Multiply, OpenParen, n3, CloseParen]);
    assert [n2] + [n3] == [n2, n3] && [n3] + [] == [n3];
    EvalNumber([], 2, [n3]);
    EvalNumber([] + [2], 3, []);
    TwoValues([] + [2] + [3]);
  }

  lemma ReadNothing(y: Yard) ensures Read(y, []) == Ok(y) {}

  lemma OpenGroup(n2: Token, n3: Token)
    requires n2.Number? && n3.Number?
    ensures Consume(Yard([], [], []), n2) == Ok(Yard([n2], [], [n2]))
    ensures Consume(Yard([n2], [], [n2]), Multiply) == Ok(Yard([n2], [Multiply], [n2, Multiply]))
    ensures Consume(Yard([n2], [Multiply], [n2, Multiply]), OpenParen)
        == Ok(Yard([n2], [Multiply, OpenParen], [n2, Multiply, OpenParen]))
    ensures Consume(Yard([n2], [Multiply, OpenParen], [n2, Multiply, OpenParen]), n3)
        == Ok(Yard([n2, n3], [Multiply, OpenParen], [n2, Multiply, OpenParen, n3]))
  {
    assert [] + [n2] == [n2];
    assert PopWhile([n2], [], 5) == ([n2], []);
    assert [] + [Multiply] == [Multiply] && [n2] + [Multiply] == [n2, Multiply];
    assert [Multiply] + [OpenParen] == [Multiply, OpenParen];
    assert [n2, Multiply] + [OpenParen] == [n2, Multiply, OpenParen];
    assert [n2] + [n3] == [n2, n3];
    assert [n2, Multiply, OpenParen] + [n3] == [n2, Multiply, OpenParen, n3];
  }

  lemma CloseGroup(n2: Token, n3: Token) returns (y: Yard)
    ensures Consume(Yard([n2, n3], [Multiply, OpenParen], [n2, Multiply, OpenParen, n3]), CloseParen) == Ok(y)
    ensures y.out == [n2, n3] && y.ops == []
  {
    assert Init([Multiply, OpenParen]) == [Multiply] && Init([Multiply]) == [];
    y := Consume(Yard([n2, n3], [Multiply, OpenParen], [n2, Multiply, OpenParen, n3]), CloseParen).value;
  }

  lemma TwoValues(stack: seq<int>)
    requires |stack| == 2
    ensures EvalFrom(stack, []) == Error
  {
  }

  /** `2 * (3)` is unsafe, `2 * ((3))` is not. */
  lemma DoubledGroupIsSafe()
    ensures !SafeGroups([Number(2), Multiply, OpenParen, Number(3), CloseParen], false, [])
    ensures SafeGroups([Number(2), Multiply, OpenParen, OpenParen, Number(3), CloseParen, CloseParen], false, [])
  {
  }

  /** What is kept may still be put in another order: `a * ((b) - c)` is read as `a * b - c` ... */
  lemma DoubledGroupRegroups(a: int, b: int, c: int)
    ensures var q := [Number(a), Multiply, OpenParen, OpenParen, Number(b), CloseParen, Minus, Number(c), CloseParen];
            SafeGroups(q, false, [])
            && Convert(q) == Ok([Number(a), Number(b), Multiply, Number(c), Minus])
  {
    hide Consume, PopWhile, PopToParen;
    DoubledIsSafe(Number(a), Multiply, Number(b), Minus, Number(c));
    var y := InnerGroup(a, Multiply, b);
    var y' := SubtractNext(y);
    EndOfGroup(a, Multiply, b, y, Minus, c, y');
    assert y'.out + [Number(c)] + [Minus] == [Number(a), Number(b), Multiply, Number(c), Minus];
    assert Rev([Minus]) == [Minus] by { RevOne([]); }
  }

  /** ... but `a + ((b) * c)` as it stands. */
  lemma DoubledGroupHolds(a: int, b: int, c: int)
    ensures var q := [Number(a), Plus, OpenParen, OpenParen, Number(b), CloseParen, Multiply, Number(c), CloseParen];
            SafeGroups(q, false, [])
            && Convert(q) == Ok([Number(a), Number(b), Number(c), Multiply, Plus])
  {
    hide Consume, PopWhile, PopToParen;
    DoubledIsSafe(Number(a), Plus, Number(b), Multiply, Number(c));
    var y := InnerGroup(a, Plus, b);
    var y' := TimesNext(y);
    EndOfGroup(a, Plus, b, y, Multiply, c, y');
    assert Rev([Plus, Multiply]) == [Multiply, Plus] by {
      RevOne([]);
      RevCons(Plus, [Multiply]);
      assert [Plus] + [Multiply] == [Plus, Multiply];
    }
    assert y'.out + [Number(c)] + [Multiply, Plus] == [Number(a), Number(b), Number(c), Multiply, Plus];
  }

  lemma SafeCons(t: Token, rest: seq<Token>, operator: bool, opens: seq<bool>)
    ensures SafeGroups([t] + rest, operator, opens)
         == if t.OpenParen? then SafeGroups(rest, false, opens + [operator])
            else if t.CloseParen? then (opens == [] || !opens[|opens| - 1]) && SafeGroups(rest, false, Closed(opens))
            else SafeGroups(rest, IsOperator(t), opens)
  {
    assert ([t] + rest)[1..] == rest;
  }

  lemma DoubledIsSafe(n: Token, m: Token, k: Token, t: Token, l: Token)
    requires n.Number? && k.Number? && l.Number? && Binary(m) && Binary(t)
    ensures SafeGroups([n, m, OpenParen, OpenParen, k, CloseParen, t, l, CloseParen], false, [])
  {
    hide SafeGroups;
    assert [n] + [m, OpenParen, OpenParen, k, CloseParen, t, l, CloseParen]
        == [n, m, OpenParen, OpenParen, k, CloseParen, t, l, CloseParen];
    assert [m] + [OpenParen, OpenParen, k, CloseParen, t, l, CloseParen]
        == [m, OpenParen, OpenParen, k, CloseParen, t, l, CloseParen];
    assert [OpenParen] + [OpenParen, k, CloseParen, t, l, CloseParen]
        == [OpenParen, OpenParen, k, CloseParen, t, l, CloseParen];
    assert [OpenParen] + [k, CloseParen, t, l, CloseParen] == [OpenParen, k, CloseParen, t, l, CloseParen];
    assert [k] + [CloseParen, t, l, CloseParen] == [k, CloseParen, t, l, CloseParen];
    assert [CloseParen] + [t, l, CloseParen] == [CloseParen, t, l, CloseParen];
    assert [t] + [l, CloseParen] == [t, l, CloseParen] && [l] + [CloseParen] == [l, CloseParen];
    SafeCons(n, [m, OpenParen, OpenParen, k, CloseParen, t, l, CloseParen], false, []);
    SafeCons(m, [OpenParen, OpenParen, k, CloseParen, t, l, CloseParen], false, []);
    SafeCons(OpenParen, [OpenParen, k, CloseParen, t, l, CloseParen], true, []);
    SafeCons(OpenParen, [k, CloseParen, t, l, CloseParen], false, [true]);
    SafeCons(k, [CloseParen, t, l, CloseParen], false, [true, false]);
    SafeCons(CloseParen, [t, l, CloseParen], false, [true, false]);
    SafeCons(t, [l, CloseParen], false, []);
    SafeCons(l, [CloseParen], true, []);
    SafeCons(CloseParen, [], false, []);
    SafeNone();
    assert [CloseParen] + [] == [CloseParen] && Closed([true, false]) == [] && Closed([]) == [];
    assert [] + [true] == [true] && [true] + [false] == [true, false];
  }

  lemma SafeNone() ensures SafeGroups([], false, []) {}

  predicate Binary(t: Token) { t.Plus? || t.Minus? || t.Multiply? || t.Divide? }

  /** `a m ((b)`, of which the operator stays on the stack. */
  lemma InnerGroup(a: int, m: Token, b: int) returns (y: Yard)
    requires Binary(m)
    ensures y.out == [Number(a), Number(b)] && y.ops == [m] && y.seen != [] && Last(y.seen) == CloseParen
    ensures Read(Yard([], [], []), [Number(a), m, OpenParen, OpenParen, Number(b), CloseParen]) == Ok(y)
  {
    hide Consume, PopWhile, PopToParen;
    var n, k := Number(a), Number(b);
    var y0 := Yard([], [], []);
    var y1 := Yard([n], [], [n]);
    var y2 := Yard([n], [m], [n, m]);
    var y3 := Yard([n], [m, OpenParen], [n, m, OpenParen]);
    var y4 := Yard([n], [m, OpenParen, OpenParen], [n, m, OpenParen, OpenParen]);
    var y5 := Yard([n, k], [m, OpenParen, OpenParen], [n, m, OpenParen, OpenParen, k]);
    InsideTwo(n, m, k);
    y := CloseTwo(y5, m);
    ReadCons(y5, CloseParen, []);
    ReadNothing(y);
    ReadCons(y4, k, [CloseParen]);
    ReadCons(y3, OpenParen, [k, CloseParen]);
    ReadCons(y2, OpenParen, [OpenParen, k, CloseParen]);
    ReadCons(y1, m, [OpenParen, OpenParen, k, CloseParen]);
    ReadCons(y0, n, [m, OpenParen, OpenParen, k, CloseParen]);
  }

  lemma InsideTwo(n: Token, m: Token, k: Token)
    requires n.Number? && k.Number? && Binary(m)
    ensures Consume(Yard([], [], []), n) == Ok(Yard([n], [], [n]))
    ensures Consume(Yard([n], [], [n]), m) == Ok(Yard([n], [m], [n, m]))
    ensures Consume(Yard([n], [m], [n, m]), OpenParen) == Ok(Yard([n], [m, OpenParen], [n, m, OpenParen]))
    ensures Consume(Yard([n], [m, OpenParen], [n, m, OpenParen]), OpenParen)
         == Ok(Yard([n], [m, OpenParen, OpenParen], [n, m, OpenParen, OpenParen]))
    ensures Consume(Yard([n], [m, OpenParen, OpenParen], [n, m, OpenParen, OpenParen]), k)
         == Ok(Yard([n, k], [m, OpenParen, OpenParen], [n, m, OpenParen, OpenParen, k]))
  {
    assert [] + [n] == [n] && [] + [m] == [m] && [n] + [m] == [n, m] && [n] + [k] == [n, k];
    assert [m] + [OpenParen] == [m, OpenParen] && [n, m] + [OpenParen] == [n, m, OpenParen];
    assert [m, OpenParen] + [OpenParen] == [m, OpenParen, OpenParen];
    assert [n, m, OpenParen] + [OpenParen] == [n, m, OpenParen, OpenParen];
    assert [n, m, OpenParen, OpenParen] + [k] == [n, m, OpenParen, OpenParen, k];
  }

  lemma CloseTwo(y: Yard, m: Token) returns (y': Yard)
    requires y.ops == [m, OpenParen, OpenParen]
    ensures Consume(y, CloseParen) == Ok(y') && y'.out == y.out && y'.ops == [m]
    ensures y'.seen == y.seen + [CloseParen]
  {
    assert Init(y.ops) == [m, OpenParen] && Init([m, OpenParen]) == [m];
    y' := Consume(y, CloseParen).value;
  }

  /** The rest of the outer group: another operator, a number and a parenthesis with nothing left to close. */
  lemma EndOfGroup(a: int, m: Token, b: int, y: Yard, t: Token, c: int, y': Yard)
    requires Read(Yard([], [], []), [Number(a), m, OpenParen, OpenParen, Number(b), CloseParen]) == Ok(y)
    requires Consume(y, t) == Ok(y') && forall i :: 0 <= i < |y'.ops| ==> !y'.ops[i].OpenParen?
    ensures Convert([Number(a), m, OpenParen, OpenParen, Number(b), CloseParen, t, Number(c), CloseParen])
         == Ok(y'.out + [Number(c)] + Rev(y'.ops))
  {
    hide Consume, PopWhile, PopToParen, Rev;
    var first, rest := [Number(a), m, OpenParen, OpenParen, Number(b), CloseParen], [t, Number(c), CloseParen];
    var y8 := Yard(y'.out + [Number(c)], y'.ops, y'.seen + [Number(c)]);
    NumberNext(y', c);
    var y9 := CloseRest(y8);
    ReadCons(y8, CloseParen, []);
    ReadNothing(y9);
    ReadCons(y', Number(c), [CloseParen]);
    ReadCons(y, t, [Number(c), CloseParen]);
    assert [t] + [Number(c), CloseParen] == rest && [Number(c)] + [CloseParen] == [Number(c), CloseParen];
    ReadAppend(Yard([], [], []), first, rest);
    assert first + rest == [Number(a), m, OpenParen, OpenParen, Number(b), CloseParen, t, Number(c), CloseParen];
    ConvertIsRead(Yard([], [], []), first + rest);
    PopAllIsRev(y9.out, y9.ops);
  }

  lemma NumberNext(y: Yard, n: int)
    ensures Consume(y, Number(n)) == Ok(Yard(y.out + [Number(n)], y.ops, y.seen + [Number(n)]))
  {
  }

  lemma SubtractNext(y: Yard) returns (y': Yard)
    requires y.ops == [Multiply] && y.seen != [] && Last(y.seen) == CloseParen
    ensures Consume(y, Minus) == Ok(y') && y'.out == y.out + [Multiply] && y'.ops == [Minus]
  {
    assert Init([Multiply]) == [];
    assert PopWhile(y.out, y.ops, 0) == (y.out + [Multiply], []);
    y' := Consume(y, Minus).value;
  }

  lemma TimesNext(y: Yard) returns (y': Yard)
    requires y.ops == [Plus] && y.seen != [] && Last(y.seen) == CloseParen
    ensures Consume(y, Multiply) == Ok(y') && y'.out == y.out && y'.ops == [Plus, Multiply]
  {
    assert PopWhile(y.out, y.ops, 5) == (y.out, y.ops) && [Plus] + [Multiply] == [Plus, Multiply];
    y' := Consume(y, Multiply).value;
  }

  lemma CloseRest(y: Yard) returns (y': Yard)
    requires forall i :: 0 <= i < |y.ops| ==> !y.ops[i].OpenParen?
    ensures Consume(y, CloseParen) == Ok(y') && y'.out + Rev(y'.ops) == y.out + Rev(y.ops) && y'.ops == []
  {
    FlushAll(y.out, y.ops);
    assert Rev([]) == [] && y.out + Rev(y.ops) + [] == y.out + Rev(y.ops);
    y' := Consume(y, CloseParen).value;
  }
}
