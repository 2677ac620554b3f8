/** Arithmetic in configuration files: toReversePolish of lib_app/Parser.cpp and the evaluator of
    include/lib_app/Parser.hpp against the usual grammar with precedences. */
module Arithmetic {
  import opened Basics

  datatype Token =
    | Number(value: int) | Float
    | Plus | Minus | Multiply | Divide | UnaryMinus | UnaryPlus
    | OpenParen | CloseParen | Identifier(text: string) | Undefined | Other

  predicate IsNumber(t: Token) { t.Number? || t.Float? }

  predicate IsOperator(t: Token)
  {
    t.Plus? || t.Minus? || t.Multiply? || t.Divide? || t.UnaryMinus? || t.UnaryPlus?
  }

  function Precedence(t: Token): int
  {
    if t.Multiply? || t.Divide? then 5 else if t.UnaryMinus? || t.UnaryPlus? then 7 else 0
  }

  /** What a size suffix stands for; 0 for any other identifier. */
  function Multiplier(text: string): int
  {
    if text == "G" then 1_000_000_000 else if text == "Gi" then 1_073_741_824
    else if text == "M" then 1_000_000 else if text == "Mi" then 1_048_576
    else if text == "K" then 1000 else if text == "Ki" then 1024 else 0
  }

  // ---- The conversion, token by token ----

  /** Output queue, operator stack (top last) and the tokens treated so far. */
  datatype Yard = Yard(out: seq<Token>, ops: seq<Token>, seen: seq<Token>)

  /** A sign is unary at the start and after an operator or an open parenthesis. */
  function Resolve(t: Token, seen: seq<Token>): Token
  {
    if seen == [] || Last(seen).OpenParen? || IsOperator(Last(seen)) then
      if t.Minus? then UnaryMinus else if t.Plus? then UnaryPlus else t
    else t
  }

  /** Moves operators of at least the given precedence from the stack to the output. */
  function PopWhile(out: seq<Token>, ops: seq<Token>, p: int): (seq<Token>, seq<Token>)
    decreases |ops|
  {
    if ops != [] && !Last(ops).OpenParen? && p <= Precedence(Last(ops)) then PopWhile(out + [Last(ops)], Init(ops), p)
    else (out, ops)
  }

  function PopToParen(out: seq<Token>, ops: seq<Token>): (seq<Token>, seq<Token>)
    decreases |ops|
  {
    if ops == [] then (out, ops)
    else if Last(ops).OpenParen? then (out, Init(ops))
    else PopToParen(out + [Last(ops)], Init(ops))
  }

  function PopAll(out: seq<Token>, ops: seq<Token>): seq<Token>
    decreases |ops|
  {
    if ops == [] then out else PopAll(out + [Last(ops)], Init(ops))
  }

  function Consume(y: Yard, token: Token): Result<Yard>
  {
    if token.Identifier? then
      if Multiplier(token.text) == 0 || y.seen == [] || !IsNumber(Last(y.seen)) then Error
      else Ok(Yard(y.out + [Number(Multiplier(token.text)), Multiply], y.ops, y.seen + [token]))
    else if IsNumber(token) then Ok(Yard(y.out + [token], y.ops, y.seen + [token]))
    else if IsOperator(token) then
      var t := Resolve(token, y.seen);
      var (out, ops) := PopWhile(y.out, y.ops, Precedence(t));
      Ok(Yard(out, ops + [t], y.seen + [t]))
    else if token.OpenParen? then Ok(Yard(y.out, y.ops + [token], y.seen + [token]))
    else if token.CloseParen? then
      var (out, ops) := PopToParen(y.out, y.ops);
      Ok(Yard(out, if ops == [] then ops else Init(ops), y.seen + [token]))
    else if token.Undefined? then Error
    else Ok(Yard(y.out, y.ops, y.seen + [token]))
  }

  function ConvertFrom(y: Yard, tokens: seq<Token>): Result<seq<Token>>
    decreases |tokens|
  {
    if tokens == [] then Ok(PopAll(y.out, y.ops))
    else match Consume(y, tokens[0])
         case Error => Error
         case Ok(y') => ConvertFrom(y', tokens[1..])
  }

  function Convert(tokens: seq<Token>): Result<seq<Token>> { ConvertFrom(Yard([], [], []), tokens) }

  method ToReversePolish(input: seq<Token>) returns (r: Result<seq<Token>>)
    ensures r == Convert(input)
  {
    var tokens, outputQueue, operatorStack, treatedInputQueue := input, [], [], [];
    while tokens != []
      invariant ConvertFrom(Yard(outputQueue, operatorStack, treatedInputQueue), tokens) == Convert(input)
      decreases |tokens|
    {
      var token := tokens[0];
      tokens := tokens[1..];
      if token.Identifier? {
        var multiplier := Multiplier(token.text);
        if multiplier == 0 {
          return Error;
        }
        if treatedInputQueue == [] {
          return Error;
        }
        if !IsNumber(Last(treatedInputQueue)) {
          return Error;
        }
        assert outputQueue + [Number(multiplier)] + [Multiply] == outputQueue + [Number(multiplier), Multiply];
        outputQueue := outputQueue + [Number(multiplier)] + [Multiply];
      }
      if IsNumber(token) {
        outputQueue := outputQueue + [token];
      }
      if IsOperator(token) {
        token := TryTransformUnaryOp(Minus, UnaryMinus, token, treatedInputQueue);
        token := TryTransformUnaryOp(Plus, UnaryPlus, token, treatedInputQueue);
        outputQueue, operatorStack := PopOperators(outputQueue, operatorStack, Precedence(token));
        operatorStack := operatorStack + [token];
      } else if token.OpenParen? {
        operatorStack := operatorStack + [token];
      } else if token.CloseParen? {
        outputQueue, operatorStack := PopGroup(outputQueue, operatorStack);
        if operatorStack != [] {
          operatorStack := Init(operatorStack);
        }
      } else if token.Undefined? {
        return Error;
      }
      treatedInputQueue := treatedInputQueue + [token];
    }
    ghost var all := PopAll(outputQueue, operatorStack);
    while operatorStack != []
      invariant PopAll(outputQueue, operatorStack) == all
      decreases |operatorStack|
    {
      outputQueue := outputQueue + [Last(operatorStack)];
      operatorStack := Init(operatorStack);
    }
    return Ok(outputQueue);
  }

  method TryTransformUnaryOp(tokenType: Token, unaryTokenType: Token, token: Token, treatedInputQueue: seq<Token>)
    returns (t: Token)
    ensures t == if token == tokenType && BeforeOperand(treatedInputQueue)
                 then unaryTokenType else token
  {
    t := token;
    if token == tokenType {
      if treatedInputQueue == [] {
        t := unaryTokenType;
      } else {
        var lastToken := Last(treatedInputQueue);
        if lastToken.OpenParen? || IsOperator(lastToken) {
          t := unaryTokenType;
        }
      }
    }
  }

  /** The loop that makes room for an operator; every operator counts as left associative. */
  method PopOperators(outputQueue: seq<Token>, operatorStack: seq<Token>, precedence: int)
    returns (out: seq<Token>, ops: seq<Token>)
    ensures (out, ops) == PopWhile(outputQueue, operatorStack, precedence)
  {
    out, ops := outputQueue, operatorStack;
    while ops != [] && !Last(ops).OpenParen?
      invariant PopWhile(out, ops, precedence) == PopWhile(outputQueue, operatorStack, precedence)
      decreases |ops|
    {
      var topToken := Last(ops);
      if precedence <= Precedence(topToken) {
        ops := Init(ops);
        out := out + [topToken];
      } else {
        break;
      }
    }
  }

  method PopGroup(outputQueue: seq<Token>, operatorStack: seq<Token>) returns (out: seq<Token>, ops: seq<Token>)
    ensures (out, ops) == PopToParen(outputQueue, operatorStack)
  {
    out, ops := outputQueue, operatorStack;
    var operatorToken := Undefined;
    while ops != [] && !operatorToken.OpenParen?
      invariant !operatorToken.OpenParen? ==> PopToParen(out, ops) == PopToParen(outputQueue, operatorStack)
      invariant operatorToken.OpenParen? ==> (out, ops) == PopToParen(outputQueue, operatorStack)
      decreases |ops|
    {
      operatorToken := Last(ops);
      ops := Init(ops);
      if !operatorToken.OpenParen? {
        out := out + [operatorToken];
      }
    }
  }

  // ---- The grammar ----

  datatype Sign = Neg | Pos
  datatype AddOp = Add | Sub
  datatype MulOp = Mul | Div
  datatype Suffix = NoSuffix | K | Ki | M | Mi | G | Gi

  /** Signs (outermost first), a number and an optional size suffix. */
  datatype Factor = Factor(signs: seq<Sign>, number: int, suffix: Suffix)
  datatype Term = One(f: Factor) | Times(left: Term, op: MulOp, f: Factor)
  datatype Expr = Only(t: Term) | Plus2(left: Expr, op: AddOp, t: Term)

  function SignToken(s: Sign): Token { match s case Neg => Minus case Pos => Plus }
  function UnaryToken(s: Sign): Token { match s case Neg => UnaryMinus case Pos => UnaryPlus }
  function AddToken(op: AddOp): Token { match op case Add => Plus case Sub => Minus }
  function MulToken(op: MulOp): Token { match op case Mul => Multiply case Div => Divide }

  function SuffixText(s: Suffix): string
  {
    match s
    case NoSuffix => ""
    case K => "K" case Ki => "Ki"
    case M => "M" case Mi => "Mi"
    case G => "G" case Gi => "Gi"
  }

  function Power(base: int, k: nat): int { if k == 0 then 1 else base * Power(base, k - 1) }

  /** K, M and G are powers of 1000, Ki, Mi and Gi of 1024. */
  lemma SuffixIsPower(s: Suffix)
    requires !s.NoSuffix?
    ensures Multiplier(SuffixText(s))
         == match s
            case K => Power(1000, 1) case M => Power(1000, 2) case G => Power(1000, 3)
            case Ki => Power(1024, 1) case Mi => Power(1024, 2) case _ => Power(1024, 3)
  {
    assert Power(1000, 2) == 1000 * Power(1000, 1) == 1000 * 1000;
    assert Power(1000, 3) == 1000 * Power(1000, 2);
    assert Power(1024, 2) == 1024 * Power(1024, 1) == 1024 * 1024;
    assert Power(1024, 3) == 1024 * Power(1024, 2);
  }

  /** Nothing else is a suffix. */
  lemma SuffixIff(text: string)
    ensures Multiplier(text) != 0 <==> exists s: Suffix :: !s.NoSuffix? && text == SuffixText(s)
  {
    if Multiplier(text) != 0 {
      var s := if text == "G" then G else if text == "Gi" then Gi else if text == "M" then M
               else if text == "Mi" then Mi else if text == "K" then K else Ki;
      assert !s.NoSuffix? && text == SuffixText(s);
    }
  }

  function Signs(signs: seq<Sign>): (r: seq<Token>) ensures |r| == |signs|
  {
    seq(|signs|, i requires 0 <= i < |signs| => SignToken(signs[i]))
  }

  function FactorTokens(f: Factor): seq<Token>
  {
    Signs(f.signs) + [Number(f.number)] + if f.suffix.NoSuffix? then [] else [Identifier(SuffixText(f.suffix))]
  }

  function TermTokens(t: Term): seq<Token>
  {
    match t
    case One(f) => FactorTokens(f)
    case Times(left, op, f) => TermTokens(left) + [MulToken(op)] + FactorTokens(f)
  }

  function Tokens(e: Expr): seq<Token>
  {
    match e
    case Only(t) => TermTokens(t)
    case Plus2(left, op, t) => Tokens(left) + [AddToken(op)] + TermTokens(t)
  }

  function ApplySigns(signs: seq<Sign>, v: int): int
  {
    if signs == [] then v
    else if signs[0].Neg? then -ApplySigns(signs[1..], v) else ApplySigns(signs[1..], v)
  }

  function FactorValue(f: Factor): int
  {
    ApplySigns(f.signs, if f.suffix.NoSuffix? then f.number else f.number * Multiplier(SuffixText(f.suffix)))
  }

  function TermValue(t: Term): Result<int>
  {
    match t
    case One(f) => Ok(FactorValue(f))
    case Times(left, op, f) =>
      match TermValue(left)
      case Error => Error
      case Ok(a) =>
        if op.Mul? then Ok(a * FactorValue(f))
        else if FactorValue(f) == 0 then Error
        else Ok(TruncDiv(a, FactorValue(f)))
  }

  /** The value of an expression: * and / before + and -, all from left to right; no division by zero. */
  function Value(e: Expr): Result<int>
  {
    match e
    case Only(t) => TermValue(t)
    case Plus2(left, op, t) =>
      match (Value(left), TermValue(t))
      case (Ok(a), Ok(b)) => Ok(if op.Add? then a + b else a - b)
      case _ => Error
  }

  // ---- Postfix form ----

  function Core(f: Factor): seq<Token>
  {
    [Number(f.number)] + if f.suffix.NoSuffix? then [] else [Number(Multiplier(SuffixText(f.suffix))), Multiply]
  }

  function InnermostFirst(signs: seq<Sign>): (r: seq<Token>)
    ensures |r| == |signs|
  {
    if signs == [] then [] else InnermostFirst(signs[1..]) + [UnaryToken(signs[0])]
  }

  function Unary(signs: seq<Sign>): (r: seq<Token>) ensures |r| == |signs|
  {
    seq(|signs|, i requires 0 <= i < |signs| => UnaryToken(signs[i]))
  }

  /** Two ways to place the signs of a factor: after the operand as postfix demands, or as the code does:
      every sign but the last one before its operand. */
  datatype Style = Correct | Emitted

  function FactorPostfix(style: Style, f: Factor): seq<Token>
  {
    if style.Correct? then Core(f) + InnermostFirst(f.signs)
    else if f.signs == [] then Core(f)
    else Unary(f.signs[..|f.signs| - 1]) + Core(f) + [UnaryToken(f.signs[|f.signs| - 1])]
  }

  function TermPostfix(style: Style, t: Term): seq<Token>
  {
    match t
    case One(f) => FactorPostfix(style, f)
    case Times(left, op, f) => TermPostfix(style, left) + FactorPostfix(style, f) + [MulToken(op)]
  }

  function Postfix(style: Style, e: Expr): seq<Token>
  {
    match e
    case Only(t) => TermPostfix(style, t)
    case Plus2(left, op, t) => Postfix(style, left) + TermPostfix(style, t) + [AddToken(op)]
  }

  predicate FewSigns(t: Term)
  {
    match t
    case One(f) => |f.signs| <= 1
    case Times(left, _, f) => FewSigns(left) && |f.signs| <= 1
  }

  /** No operand carries two signs in a row. */
  predicate AtMostOneSign(e: Expr)
  {
    match e
    case Only(t) => FewSigns(t)
    case Plus2(left, _, t) => AtMostOneSign(left) && FewSigns(t)
  }

  // ---- What the conversion emits ----

  /** Reading a list of tokens one after the other. */
  function Read(y: Yard, tokens: seq<Token>): Result<Yard>
    decreases |tokens|
  {
    if tokens == [] then Ok(y)
    else match Consume(y, tokens[0])
         case Error => Error
         case Ok(y') => Read(y', tokens[1..])
  }

  lemma {:induction false} ReadAppend(y: Yard, a: seq<Token>, b: seq<Token>)
    ensures Read(y, a + b) == match Read(y, a) case Error => Error case Ok(y') => Read(y', b)
    decreases |a|
  {
    if a == [] {
      assert a + b == b;
    } else {
      assert (a + b)[0] == a[0] && (a + b)[1..] == a[1..] + b;
      match Consume(y, a[0]) {
        case Error =>
        case Ok(y') => ReadAppend(y', a[1..], b);
      }
    }
  }

  lemma {:induction false} ConvertIsRead(y: Yard, tokens: seq<Token>)
    ensures ConvertFrom(y, tokens)
         == match Read(y, tokens) case Error => Error case Ok(y') => Ok(PopAll(y'.out, y'.ops))
    decreases |tokens|
  {
    if tokens != [] {
      match Consume(y, tokens[0]) {
        case Error =>
        case Ok(y') => ConvertIsRead(y', tokens[1..]);
      }
    }
  }

  function Rev(ops: seq<Token>): (r: seq<Token>)
    ensures |r| == |ops|
  {
    if ops == [] then [] else [Last(ops)] + Rev(Init(ops))
  }

  lemma {:induction false} RevCons(t: Token, ops: seq<Token>)
    ensures Rev([t] + ops) == Rev(ops) + [t]
  {
    if ops == [] {
      assert [t] + ops == [t];
      assert Init([t]) == [];
    } else {
      assert Last([t] + ops) == Last(ops) && Init([t] + ops) == [t] + Init(ops);
      RevCons(t, Init(ops));
    }
  }

  lemma {:induction false} PopAllIsRev(out: seq<Token>, ops: seq<Token>)
    ensures PopAll(out, ops) == out + Rev(ops)
    decreases |ops|
  {
    if ops != [] {
      PopAllIsRev(out + [Last(ops)], Init(ops));
      assert out + [Last(ops)] + Rev(Init(ops)) == out + Rev(ops);
    }
  }

  /** Without an open parenthesis a closing parenthesis moves everything. */
  lemma {:induction false} FlushAll(out: seq<Token>, ops: seq<Token>)
    requires forall i :: 0 <= i < |ops| ==> !ops[i].OpenParen?
    ensures PopToParen(out, ops) == (out + Rev(ops), [])
    decreases |ops|
  {
    if ops == [] {
      assert out + Rev(ops) == out;
    } else {
      FlushAll(out + [Last(ops)], Init(ops));
      assert out + [Last(ops)] + Rev(Init(ops)) == out + Rev(ops);
    }
  }

  /** Does an operator of precedence `p` stop above `ops`? */
  predicate Stops(ops: seq<Token>, p: int)
  {
    ops == [] || Last(ops).OpenParen? || Precedence(Last(ops)) < p
  }

  lemma {:induction false} PopsAbove(out: seq<Token>, ops: seq<Token>, x: seq<Token>, p: int)
    requires forall i :: 0 <= i < |x| ==> p <= Precedence(x[i]) && !x[i].OpenParen?
    requires Stops(ops, p)
    ensures PopWhile(out, ops + x, p) == (out + Rev(x), ops)
    decreases |x|
  {
    if x == [] {
      assert ops + x == ops && out + Rev(x) == out;
    } else {
      assert Last(ops + x) == Last(x) && Init(ops + x) == ops + Init(x);
      PopsAbove(out + [Last(x)], ops, Init(x), p);
      assert out + [Last(x)] + Rev(Init(x)) == out + Rev(x);
    }
  }

  /** The last token treated was an operand, so an operator that follows is binary. */
  predicate AfterOperand(seen: seq<Token>)
  {
    seen != [] && !Last(seen).OpenParen? && !IsOperator(Last(seen))
  }

  predicate BeforeOperand(seen: seq<Token>)
  {
    seen == [] || Last(seen).OpenParen? || IsOperator(Last(seen))
  }

  /** `piece` has been read on top of (out, ops): once the operators above `ops` are moved, it is all output. */
  predicate Done(y: Yard, out: seq<Token>, ops: seq<Token>, p: int, piece: seq<Token>)
  {
    && ops <= y.ops
    && (forall i :: |ops| <= i < |y.ops| ==> p <= Precedence(y.ops[i]) && !y.ops[i].OpenParen?)
    && y.out + Rev(y.ops[|ops|..]) == out + piece
    && AfterOperand(y.seen)
  }

  lemma ReadCons(y: Yard, t: Token, rest: seq<Token>)
    requires Consume(y, t).Ok?
    ensures Read(y, [t] + rest) == Read(Consume(y, t).value, rest)
    ensures Read(y, []) == Ok(y)
  {
    assert ([t] + rest)[1..] == rest;
  }

  /** A sign read while another one is pending moves that one to the output, before its operand. */
  lemma ConsumeSign(y: Yard, ops: seq<Token>, pending: seq<Sign>, s: Sign)
    requires |pending| <= 1 && y.ops == ops + Unary(pending) && Stops(ops, 7) && BeforeOperand(y.seen)
    ensures Consume(y, SignToken(s))
         == Ok(Yard(y.out + Unary(pending), ops + [UnaryToken(s)], y.seen + [UnaryToken(s)]))
  {
    hide PopWhile, Rev;
    RevOne(y.out);
    PopsAbove(y.out, ops, Unary(pending), 7);
    assert Rev(Unary(pending)) == Unary(pending) by {
      if pending != [] {
        assert Unary(pending) == [UnaryToken(pending[0])];
      }
    }
    ResolveSign(y.seen, s);
  }

  lemma ResolveSign(seen: seq<Token>, s: Sign)
    requires BeforeOperand(seen)
    ensures Resolve(SignToken(s), seen) == UnaryToken(s) && Precedence(UnaryToken(s)) == 7
    ensures IsOperator(SignToken(s)) && !SignToken(s).Identifier? && !IsNumber(SignToken(s))
  {
  }

  lemma UnaryCons(s: Sign, rest: seq<Sign>)
    ensures Signs([s] + rest) == [SignToken(s)] + Signs(rest)
    ensures Unary([s] + rest) == [UnaryToken(s)] + Unary(rest)
  {
  }

  lemma {:induction false} MoreSigns(y: Yard, ops: seq<Token>, s: Sign, rest: seq<Sign>)
    requires y.ops == ops + Unary([s]) && Stops(ops, 7) && BeforeOperand(y.seen)
    ensures var all := [s] + rest;
            Read(y, Signs(rest))
            == Ok(Yard(y.out + Unary(all[..|rest|]), ops + Unary([all[|rest|]]), y.seen + Unary(rest)))
    decreases |rest|
  {
    hide Read, Consume, PopWhile, Rev, Unary, Signs;
    var all := [s] + rest;
    if rest == [] {
      NoSigns(y);
      assert all[..0] == [] && all[0] == s;
    } else {
      var r, more := rest[0], rest[1..];
      assert rest == [r] + more;
      UnaryCons(r, more);
      ConsumeSign(y, ops, [s], r);
      ReadCons(y, SignToken(r), Signs(more));
      var y' := Yard(y.out + Unary([s]), ops + [UnaryToken(r)], y.seen + [UnaryToken(r)]);
      UnaryCons(r, []);
      NoSigns(y);
      assert [r] + [] == [r] && [UnaryToken(r)] + [] == [UnaryToken(r)];
      MoreSigns(y', ops, r, more);
      assert all[..|rest|] == [s] + rest[..|more|] && all[|rest|] == rest[|more|];
      UnaryCons(s, rest[..|more|]);
      UnaryCons(s, []);
      assert [s] + [] == [s] && [UnaryToken(s)] + [] == [UnaryToken(s)];
      assert y.out + Unary([s]) + Unary(rest[..|more|]) == y.out + (Unary([s]) + Unary(rest[..|more|]));
      assert y.seen + [UnaryToken(r)] + Unary(more) == y.seen + ([UnaryToken(r)] + Unary(more));
    }
  }

  lemma NoSigns(y: Yard)
    ensures Signs([]) == [] && Unary([]) == [] && Read(y, []) == Ok(y)
    ensures y == Yard(y.out + [], y.ops, y.seen + []) && y.ops + [] == y.ops
  {
  }

  lemma ReadSigns(y: Yard, signs: seq<Sign>)
    requires Stops(y.ops, 7) && BeforeOperand(y.seen) && signs != []
    ensures Read(y, Signs(signs))
         == Ok(Yard(y.out + Unary(signs[..|signs| - 1]), y.ops + Unary([signs[|signs| - 1]]), y.seen + Unary(signs)))
  {
    hide Read, Consume, PopWhile, Rev, Unary, Signs;
    var r, more := signs[0], signs[1..];
    assert signs == [r] + more;
    NoSigns(y);
    UnaryCons(r, more);
    UnaryCons(r, []);
    assert [r] + [] == [r] && [UnaryToken(r)] + [] == [UnaryToken(r)];
    ConsumeSign(y, y.ops, [], r);
    ReadCons(y, SignToken(r), Signs(more));
    var y' := Yard(y.out + Unary([]), y.ops + [UnaryToken(r)], y.seen + [UnaryToken(r)]);
    MoreSigns(y', y.ops, r, more);
    assert y.seen + [UnaryToken(r)] + Unary(more) == y.seen + ([UnaryToken(r)] + Unary(more));
  }

  function Suffixed(f: Factor): seq<Token>
  {
    if f.suffix.NoSuffix? then [] else [Identifier(SuffixText(f.suffix))]
  }

  lemma ReadCore(y: Yard, f: Factor)
    ensures Read(y, [Number(f.number)] + Suffixed(f))
         == Ok(Yard(y.out + Core(f), y.ops, y.seen + [Number(f.number)] + Suffixed(f)))
  {
    hide Read, PopWhile;
    var n := Number(f.number);
    var y1 := Yard(y.out + [n], y.ops, y.seen + [n]);
    ReadCons(y, n, Suffixed(f));
    NoSigns(y1);
    if f.suffix.NoSuffix? {
      assert [n] + [] == [n];
    } else {
      var i, m := Identifier(SuffixText(f.suffix)), Number(Multiplier(SuffixText(f.suffix)));
      var y2 := Yard(y1.out + [m, Multiply], y1.ops, y1.seen + [i]);
      ReadCons(y1, i, []);
      NoSigns(y2);
      assert [i] + [] == [i];
      assert y1.out + [m, Multiply] == y.out + ([n] + [m, Multiply]);
    }
  }

  /** Reading a factor above operators that bind less than a sign. */
  lemma ReadFactor(y: Yard, f: Factor) returns (y': Yard)
    requires Stops(y.ops, 7) && BeforeOperand(y.seen)
    ensures Read(y, FactorTokens(f)) == Ok(y') && Done(y', y.out, y.ops, 7, FactorPostfix(Emitted, f))
  {
    hide Read, Consume, PopWhile, Core, Signs, Rev;
    var core := [Number(f.number)] + Suffixed(f);
    assert FactorTokens(f) == Signs(f.signs) + core;
    ReadAppend(y, Signs(f.signs), core);
    NoSigns(y);
    RevOne(y.out);
    if f.signs == [] {
      ReadCore(y, f);
      y' := Yard(y.out + Core(f), y.ops, y.seen + [Number(f.number)] + Suffixed(f));
      assert y'.ops[|y.ops|..] == [];
    } else {
      var n := |f.signs| - 1;
      var s := f.signs[n];
      ReadSigns(y, f.signs);
      var y1 := Yard(y.out + Unary(f.signs[..n]), y.ops + Unary([s]), y.seen + Unary(f.signs));
      ReadCore(y1, f);
      y' := Yard(y1.out + Core(f), y1.ops, y1.seen + [Number(f.number)] + Suffixed(f));
      assert Unary([s]) == [UnaryToken(s)];
      assert y'.ops[|y.ops|..] == [UnaryToken(s)];
      assert y.out + Unary(f.signs[..n]) + Core(f) + [UnaryToken(s)]
          == y.out + (Unary(f.signs[..n]) + Core(f) + [UnaryToken(s)]);
    }
  }

  lemma RevOne(out: seq<Token>)
    ensures Rev([]) == [] && forall t: Token :: Rev([t]) == [t]
    ensures forall piece: seq<Token> :: out + piece + [] == out + piece
  {
    forall t: Token ensures Rev([t]) == [t] {
      assert Init([t]) == [] && Last([t]) == t;
    }
  }

  /** A binary operator read after `piece`: everything above `ops` is moved out first. */
  lemma ReadBinary(y: Yard, out: seq<Token>, ops: seq<Token>, p: int, piece: seq<Token>, t: Token) returns (y': Yard)
    requires Done(y, out, ops, p, piece) && Stops(ops, Precedence(t)) && Precedence(t) <= p
    requires t.Plus? || t.Minus? || t.Multiply? || t.Divide?
    ensures Consume(y, t) == Ok(y') && y' == Yard(out + piece, ops + [t], y.seen + [t])
  {
    hide PopWhile, Rev;
    var x := y.ops[|ops|..];
    assert y.ops == ops + x;
    PopsAbove(y.out, ops, x, Precedence(t));
    y' := Yard(out + piece, ops + [t], y.seen + [t]);
  }

  lemma {:induction false} ReadTerm(y: Yard, t: Term) returns (y': Yard)
    requires Stops(y.ops, 5) && BeforeOperand(y.seen)
    ensures Read(y, TermTokens(t)) == Ok(y') && Done(y', y.out, y.ops, 5, TermPostfix(Emitted, t))
    decreases t
  {
    hide Read, Consume, PopWhile, Rev, FactorPostfix, FactorTokens;
    match t
    case One(f) =>
      y' := ReadFactor(y, f);
    case Times(left, op, f) =>
      var y1 := ReadTerm(y, left);
      var m := MulToken(op);
      var y2 := ReadBinary(y1, y.out, y.ops, 5, TermPostfix(Emitted, left), m);
      y' := ReadFactor(y2, f);
      ReadThree(y, TermTokens(left), m, FactorTokens(f), y1, y2);
      var x := y'.ops[|y.ops| + 1..];
      assert y'.ops[|y.ops|..] == [m] + x;
      RevCons(m, x);
      assert y'.out + (Rev(x) + [m]) == y'.out + Rev(x) + [m];
      assert y.out + TermPostfix(Emitted, left) + FactorPostfix(Emitted, f) + [m]
          == y.out + (TermPostfix(Emitted, left) + FactorPostfix(Emitted, f) + [m]);
  }

  lemma ReadThree(y: Yard, a: seq<Token>, t: Token, b: seq<Token>, y1: Yard, y2: Yard)
    requires Read(y, a) == Ok(y1) && Consume(y1, t) == Ok(y2)
    ensures Read(y, a + [t] + b) == Read(y2, b)
  {
    ReadAppend(y, a + [t], b);
    ReadAppend(y, a, [t]);
    assert [t][1..] == [];
    assert Read(y2, []) == Ok(y2);
  }

  lemma {:induction false} ReadExpr(y: Yard, e: Expr) returns (y': Yard)
    requires y.ops == [] && BeforeOperand(y.seen)
    ensures Read(y, Tokens(e)) == Ok(y') && Done(y', y.out, [], 0, Postfix(Emitted, e))
    decreases e
  {
    hide Read, Consume, PopWhile, Rev, TermPostfix, TermTokens;
    match e
    case Only(t) =>
      y' := ReadTerm(y, t);
    case Plus2(left, op, t) =>
      var y1 := ReadExpr(y, left);
      var a := AddToken(op);
      var y2 := ReadBinary(y1, y.out, [], 0, Postfix(Emitted, left), a);
      y' := ReadTerm(y2, t);
      ReadThree(y, Tokens(left), a, TermTokens(t), y1, y2);
      var x := y'.ops[1..];
      assert y'.ops[0..] == [a] + x;
      RevCons(a, x);
      assert y'.out + (Rev(x) + [a]) == y'.out + Rev(x) + [a];
      assert y.out + Postfix(Emitted, left) + TermPostfix(Emitted, t) + [a]
          == y.out + (Postfix(Emitted, left) + TermPostfix(Emitted, t) + [a]);
  }

  /** What is emitted for any expression without parentheses. */
  lemma ConvertEmits(e: Expr)
    ensures Convert(Tokens(e)) == Ok(Postfix(Emitted, e))
  {
    var y := Yard([], [], []);
    var y' := ReadExpr(y, e);
    ConvertIsRead(y, Tokens(e));
    PopAllIsRev(y'.out, y'.ops);
    assert y'.ops[0..] == y'.ops;
    assert [] + Postfix(Emitted, e) == Postfix(Emitted, e);
  }

  // ---- When that is the right postfix form ----

  lemma ConcatEqual<T>(a: seq<T>, b: seq<T>, c: seq<T>, d: seq<T>)
    requires |a| == |c|
    ensures a + b == c + d <==> a == c && b == d
  {
    assert (a + b)[..|a|] == a && (c + d)[..|c|] == c;
    assert (a + b)[|a|..] == b && (c + d)[|c|..] == d;
  }

  lemma FactorStyles(f: Factor)
    ensures |FactorPostfix(Correct, f)| == |FactorPostfix(Emitted, f)|
    ensures FactorPostfix(Correct, f) == FactorPostfix(Emitted, f) <==> |f.signs| <= 1
  {
    var n := |f.signs|;
    if n == 1 {
      assert InnermostFirst(f.signs) == InnermostFirst(f.signs[1..]) + [UnaryToken(f.signs[0])];
      assert Unary(f.signs[..0]) == [];
      assert [] + Core(f) == Core(f);
    } else if n > 1 {
      assert FactorPostfix(Correct, f)[0] == Number(f.number);
      assert FactorPostfix(Emitted, f)[0] == UnaryToken(f.signs[0]);
    }
  }

  lemma {:induction false} TermStyles(t: Term)
    ensures |TermPostfix(Correct, t)| == |TermPostfix(Emitted, t)|
    ensures TermPostfix(Correct, t) == TermPostfix(Emitted, t) <==> FewSigns(t)
    decreases t
  {
    match t
    case One(f) => FactorStyles(f);
    case Times(left, op, f) =>
      TermStyles(left);
      FactorStyles(f);
      var m := [MulToken(op)];
      ConcatEqual(TermPostfix(Correct, left), FactorPostfix(Correct, f), TermPostfix(Emitted, left),
            FactorPostfix(Emitted, f));
      ConcatEqual(TermPostfix(Correct, left) + FactorPostfix(Correct, f), m, TermPostfix(Emitted, left)
            + FactorPostfix(Emitted, f), m);
  }

  lemma {:induction false} ExprStyles(e: Expr)
    ensures |Postfix(Correct, e)| == |Postfix(Emitted, e)|
    ensures Postfix(Correct, e) == Postfix(Emitted, e) <==> AtMostOneSign(e)
    decreases e
  {
    match e
    case Only(t) => TermStyles(t);
    case Plus2(left, op, t) =>
      ExprStyles(left);
      TermStyles(t);
      var a := [AddToken(op)];
      ConcatEqual(Postfix(Correct, left), TermPostfix(Correct, t), Postfix(Emitted, left), TermPostfix(Emitted, t));
      ConcatEqual(Postfix(Correct, left) + TermPostfix(Correct, t), a, Postfix(Emitted, left)
            + TermPostfix(Emitted, t), a);
  }

  /** The output queue is the postfix form of the expression if and only if no operand carries two signs. */
  lemma ConvertsToPostfixIff(e: Expr)
    ensures Convert(Tokens(e)) == Ok(Postfix(Correct, e)) <==> AtMostOneSign(e)
  {
    ConvertEmits(e);
    ExprStyles(e);
  }

  // ---- Evaluation ----

  function Arity(t: Token): nat { if t.UnaryMinus? || t.UnaryPlus? then 1 else 2 }

  /** The operator applied to the popped operands, the one on top first. */
  function ApplyOperator(t: Token, values: seq<int>): Result<int>
    requires IsOperator(t) && |values| == Arity(t)
  {
    match t
    case Plus => Ok(values[1] + values[0])
    case Minus => Ok(values[1] - values[0])
    case UnaryMinus => Ok(-values[0])
    case UnaryPlus => Ok(values[0])
    case Multiply => Ok(values[1] * values[0])
    case _ => if values[0] == 0 then Error else Ok(TruncDiv(values[1], values[0]))
  }

  function EvalFrom(stack: seq<int>, q: seq<Token>): Result<int>
    decreases |q|
  {
    if q == [] then (if |stack| == 1 then Ok(stack[0]) else Error)
    else if IsOperator(q[0]) then
      var n := Arity(q[0]);
      if |stack| < n then Error
      else
        var k := |stack|;
        match ApplyOperator(q[0], if n == 1 then [stack[k - 1]] else [stack[k - 1], stack[k - 2]])
        case Error => Error
        case Ok(v) => EvalFrom(stack[..k - n] + [v], q[1..])
    else if q[0].Number? then EvalFrom(stack + [q[0].value], q[1..])
    else Error
  }

  method ReversePolishEval(tokens: seq<Token>) returns (r: Result<int>)
    ensures r == EvalFrom([], tokens)
  {
    var stack: seq<int> := [];
    assert tokens[0..] == tokens;
    for i := 0 to |tokens|
      invariant EvalFrom(stack, tokens[i..]) == EvalFrom([], tokens)
    {
      var token := tokens[i];
      assert tokens[i..][0] == token && tokens[i..][1..] == tokens[i + 1..];
      if !IsOperator(token) {
        if !token.Number? {
          return Error;
        }
        stack := stack + [token.value];
      } else {
        var values: seq<int> := [];
        ghost var before := stack;
        for n := 0 to Arity(token)
          invariant n <= |before| && stack == before[..|before| - n] && |values| == n
          invariant forall m :: 0 <= m < n ==> values[m] == before[|before| - 1 - m]
        {
          if stack == [] {
            return Error;
          }
          values := values + [stack[|stack| - 1]];
          stack := stack[..|stack| - 1];
        }
        assert values == if Arity(token) == 1 then [before[|before| - 1]] else [before[|before| - 1],
              before[|before| - 2]];
        match ApplyOperator(token, values) {
          case Error => return Error;
          case Ok(v) => stack := stack + [v];
        }
      }
    }
    if |stack| != 1 {
      return Error;
    }
    return Ok(stack[0]);
  }

  function Parse(tokens: seq<Token>): Result<int>
  {
    match Convert(tokens) case Error => Error case Ok(q) => EvalFrom([], q)
  }

  lemma {:induction false} EvalSigns(stack: seq<int>, v: int, signs: seq<Sign>, rest: seq<Token>)
    ensures EvalFrom(stack + [v], InnermostFirst(signs) + rest) == EvalFrom(stack + [ApplySigns(signs, v)], rest)
    decreases |signs|
  {
    if signs == [] {
      assert InnermostFirst(signs) + rest == rest;
    } else {
      var u := UnaryToken(signs[0]);
      assert InnermostFirst(signs) + rest == InnermostFirst(signs[1..]) + ([u] + rest);
      EvalSigns(stack, v, signs[1..], [u] + rest);
      var w := ApplySigns(signs[1..], v);
      assert ([u] + rest)[1..] == rest && (stack + [w])[..|stack|] == stack;
    }
  }

  lemma EvalFactor(stack: seq<int>, f: Factor, rest: seq<Token>)
    ensures EvalFrom(stack, FactorPostfix(Correct, f) + rest) == EvalFrom(stack + [FactorValue(f)], rest)
  {
    hide Multiplier, SuffixText, EvalFrom, ApplySigns, InnermostFirst;
    var n := Number(f.number);
    var tail := InnermostFirst(f.signs) + rest;
    EvalNumber(stack, f.number, tail);
    if f.suffix.NoSuffix? {
      assert FactorPostfix(Correct, f) + rest == [n] + tail;
      EvalSigns(stack, f.number, f.signs, rest);
    } else {
      var m := Multiplier(SuffixText(f.suffix));
      assert FactorPostfix(Correct, f) + rest == [n] + ([Number(m)] + ([Multiply] + tail));
      EvalNumber(stack, f.number, [Number(m)] + ([Multiply] + tail));
      EvalNumber(stack + [f.number], m, [Multiply] + tail);
      EvalBinary(stack, f.number, m, Multiply, tail);
      EvalSigns(stack, f.number * m, f.signs, rest);
    }
  }

  lemma EvalNumber(stack: seq<int>, v: int, rest: seq<Token>)
    ensures EvalFrom(stack, [Number(v)] + rest) == EvalFrom(stack + [v], rest)
  {
    assert ([Number(v)] + rest)[1..] == rest;
  }

  lemma EvalBinary(stack: seq<int>, a: int, b: int, t: Token, rest: seq<Token>)
    requires t.Plus? || t.Minus? || t.Multiply? || t.Divide?
    ensures EvalFrom(stack + [a] + [b], [t] + rest)
         == match ApplyOperator(t, [b, a]) case Error => Error case Ok(v) => EvalFrom(stack + [v], rest)
  {
    assert ([t] + rest)[1..] == rest && (stack + [a] + [b])[..|stack|] == stack;
  }

  lemma {:induction false} EvalTerm(stack: seq<int>, t: Term, rest: seq<Token>)
    ensures EvalFrom(stack, TermPostfix(Correct, t) + rest)
         == match TermValue(t) case Error => Error case Ok(v) => EvalFrom(stack + [v], rest)
    decreases t
  {
    match t
    case One(f) => EvalFactor(stack, f, rest);
    case Times(left, op, f) =>
      var m := MulToken(op);
      assert TermPostfix(Correct, t) + rest == TermPostfix(Correct, left) + (FactorPostfix(Correct, f) + ([m] + rest));
      EvalTerm(stack, left, FactorPostfix(Correct, f) + ([m] + rest));
      if TermValue(left).Ok? {
        var a := TermValue(left).value;
        EvalFactor(stack + [a], f, [m] + rest);
        EvalBinary(stack, a, FactorValue(f), m, rest);
      }
  }

  lemma {:induction false} EvalExpr(stack: seq<int>, e: Expr, rest: seq<Token>)
    ensures EvalFrom(stack, Postfix(Correct, e) + rest)
         == match Value(e) case Error => Error case Ok(v) => EvalFrom(stack + [v], rest)
    decreases e
  {
    hide EvalFrom, TermPostfix;
    match e
    case Only(t) => EvalTerm(stack, t, rest);
    case Plus2(left, op, t) =>
      var a := AddToken(op);
      assert Postfix(Correct, e) + rest == Postfix(Correct, left) + (TermPostfix(Correct, t) + ([a] + rest));
      EvalExpr(stack, left, TermPostfix(Correct, t) + ([a] + rest));
      if Value(left).Ok? {
        EvalTerm(stack + [Value(left).value], t, [a] + rest);
        if TermValue(t).Ok? {
          EvalBinary(stack, Value(left).value, TermValue(t).value, a, rest);
        }
      }
  }
}
