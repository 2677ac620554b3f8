/** A parser of the JSON grammar of RFC 8259, and what it makes of the JSON writer's text.

    It has no part in common with the program's own reader. Fractions, exponents, null and escaped surrogates have no
    counterpart among the values and are errors here. */
module JsonGrammar {
  import opened Basics
  import opened Json
  import JsonRoundTrip

  // ---- The grammar ----

  /** Section 2: what may stand between tokens. */
  function SkipBlank(t: string): (r: string)
    ensures |r| <= |t|
  {
    if t != "" && t[0] in " \t\n\r" then SkipBlank(t[1..]) else t
  }

  /** Section 7: a character that stands for itself in a string. */
  predicate Unescaped(c: char) { c >= ' ' && c != '"' && c != '\\' }

  function HexValue(c: char): Result<int>
  {
    if '0' <= c <= '9' then Ok(c as int - '0' as int)
    else if 'a' <= c <= 'f' then Ok(c as int - 'a' as int + 10)
    else if 'A' <= c <= 'F' then Ok(c as int - 'A' as int + 10)
    else Error
  }

  /** The character that four hexadecimal digits stand for. */
  function FourDigits(t: string): Result<char>
    requires |t| == 4
  {
    match (HexValue(t[0]), HexValue(t[1]), HexValue(t[2]), HexValue(t[3]))
    case (Ok(a), Ok(b), Ok(c), Ok(d)) =>
      var code := 4096 * a + 256 * b + 16 * c + d;
      if 0 <= code < 0xD800 || 0xE000 <= code < 0x1_0000 then Ok(code as char) else Error
    case _ => Error
  }

  /** The character after a backslash, and how many characters spell it. */
  function Escaped(t: string): (r: Result<(char, nat)>)
    ensures r.Ok? ==> 1 <= r.value.1 <= |t|
    ensures r.Ok? ==> (r.value.1 == 1 || r.value.1 == 5) && (r.value.1 == 5 ==> '"' !in t[..5])
    ensures r.Ok? && t[0] == '"' ==> r.value == ('"', 1)
  {
    if t == "" then Error
    else if t[0] in "\"\\/" then Ok((t[0], 1))
    else if t[0] == 'b' then Ok(('\U{8}', 1))
    else if t[0] == 'f' then Ok(('\U{C}', 1))
    else if t[0] == 'n' then Ok(('\n', 1))
    else if t[0] == 'r' then Ok(('\r', 1))
    else if t[0] == 't' then Ok(('\t', 1))
    else if t[0] == 'u' && |t| >= 5 && FourDigits(t[1..5]).Ok? then Ok((FourDigits(t[1..5]).value, 5))
    else Error
  }

  /** The characters of a string up to its closing quote, and the text after it. */
  function ParseString(t: string): (r: Result<(string, string)>)
    ensures r.Ok? ==> |r.value.1| < |t|
  {
    if t == "" then Error
    else if t[0] == '"' then Ok(("", t[1..]))
    else if Unescaped(t[0]) then Prepend(t[0], ParseString(t[1..]))
    else if t[0] == '\\' && Escaped(t[1..]).Ok? then
      var (c, n) := Escaped(t[1..]).value;
      Prepend(c, ParseString(t[1 + n..]))
    else Error
  }

  function Prepend(c: char, r: Result<(string, string)>): Result<(string, string)>
  {
    match r case Error => Error case Ok((s, rest)) => Ok(([c] + s, rest))
  }

  predicate Digit(c: char) { '0' <= c <= '9' }

  function DigitCount(t: string): (n: nat)
    ensures n <= |t| && (forall k :: 0 <= k < n ==> Digit(t[k])) && (n < |t| ==> !Digit(t[n]))
  {
    if t != "" && Digit(t[0]) then 1 + DigitCount(t[1..]) else 0
  }

  function NumberOf(digits: string): int
  {
    if digits == "" then 0 else 10 * NumberOf(Init(digits)) + (Last(digits) as int - '0' as int)
  }

  /** Section 6, without fractions and exponents: no superfluous zero in front. */
  function ParseDigits(t: string): (r: Result<(int, string)>)
    ensures r.Ok? ==> |r.value.1| < |t|
  {
    var n := DigitCount(t);
    if n == 0 then Error
    else
      var k := if t[0] == '0' then 1 else n;
      if k < |t| && t[k] in ".eE" then Error else Ok((NumberOf(t[..k]), t[k..]))
  }

  function ParseNumber(t: string): (r: Result<(int, string)>)
    ensures r.Ok? ==> |r.value.1| < |t|
  {
    if t != "" && t[0] == '-' then
      match ParseDigits(t[1..]) case Error => Error case Ok((n, rest)) => Ok((-n, rest))
    else ParseDigits(t)
  }

  /** Section 3, from the first character of a value on. */
  function ParseValue(t: string): (r: Result<(Value, string)>)
    ensures r.Ok? ==> |r.value.1| < |t|
    decreases |t|, 0
  {
    if "true" <= t then Ok((Bool(true), t[4..]))
    else if "false" <= t then Ok((Bool(false), t[5..]))
    else if t == "" then Error
    else if t[0] == '"' then
      match ParseString(t[1..]) case Error => Error case Ok((s, rest)) => Ok((String(s), rest))
    else if t[0] == '[' then
      var u := SkipBlank(t[1..]);
      if u != "" && u[0] == ']' then Ok((Array([]), u[1..])) else ParseElements(u, [])
    else if t[0] == '{' then
      var u := SkipBlank(t[1..]);
      if u != "" && u[0] == '}' then Ok((Object([]), u[1..])) else ParseMembers(u, [])
    else
      match ParseNumber(t) case Error => Error case Ok((n, rest)) => Ok((Number(n), rest))
  }

  /** Section 5, from an element on. */
  function ParseElements(t: string, items: seq<Value>): (r: Result<(Value, string)>)
    ensures r.Ok? ==> |r.value.1| < |t|
    decreases |t|, 1
  {
    match ParseValue(t)
    case Error => Error
    case Ok((v, rest)) =>
      var u := SkipBlank(rest);
      if u == "" then Error
      else if u[0] == ',' then ParseElements(SkipBlank(u[1..]), items + [v])
      else if u[0] == ']' then Ok((Array(items + [v]), u[1..]))
      else Error
  }

  /** Section 4, from a member on; members keep the order of the text. */
  function ParseMembers(t: string, members: seq<Member>): (r: Result<(Value, string)>)
    ensures r.Ok? ==> |r.value.1| < |t|
    decreases |t|, 1
  {
    match ParseMember(t)
    case Error => Error
    case Ok((m, rest)) =>
      var u := SkipBlank(rest);
      if u == "" then Error
      else if u[0] == ',' then ParseMembers(SkipBlank(u[1..]), members + [m])
      else if u[0] == '}' then Ok((Object(members + [m]), u[1..]))
      else Error
  }

  function ParseMember(t: string): (r: Result<(Member, string)>)
    ensures r.Ok? ==> |r.value.1| < |t|
    decreases |t|, 0
  {
    if t == "" || t[0] != '"' then Error
    else
      match ParseString(t[1..])
      case Error => Error
      case Ok((key, rest)) =>
        var u := SkipBlank(rest);
        if u == "" || u[0] != ':' then Error
        else
          match ParseValue(SkipBlank(u[1..]))
          case Error => Error
          case Ok((v, after)) => Ok((Member(key, v), after))
  }

  /** JSON-text: a value and nothing else but blanks. */
  function ParseText(t: string): Result<Value>
  {
    match ParseValue(SkipBlank(t))
    case Error => Error
    case Ok((v, rest)) => if SkipBlank(rest) == "" then Ok(v) else Error
  }

  // ---- Values that the writer spells correctly ----

  predicate PlainString(s: string) { forall k :: 0 <= k < |s| ==> Unescaped(s[k]) }

  /** The writer escapes nothing, so no string or key may need it. */
  predicate Plain(v: Value)
  {
    match v
    case String(s) => PlainString(s)
    case Array(items) => forall i :: 0 <= i < |items| ==> Plain(items[i])
    case Object(ms) => forall i :: 0 <= i < |ms| ==> PlainString(ms[i].key) && Plain(ms[i].value)
    case _ => true
  }

  // ---- Strings ----

  function FirstQuote(t: string): (q: nat)
    ensures q <= |t| && '"' !in t[..q] && (q < |t| ==> t[q] == '"')
  {
    if t == "" || t[0] == '"' then 0
    else
      var q := FirstQuote(t[1..]);
      assert t[..q + 1] == [t[0]] + t[1..][..q];
      q + 1
  }

  /** The string either ends at the first quote, and is shorter than the text up to there unless it is that text; or
      it has an escaped quote, which stands before the place of the first quote of the text. */
  ghost predicate Against(d: string, t: string)
  {
    var q := FirstQuote(t);
    (|d| <= q < |t| && (|d| == q ==> d == t[..q] && PlainString(d)))
    || exists j :: 0 <= j < |d| && j < q && d[j] == '"'
  }

  lemma {:induction false} StringAgainstText(t: string)
    requires ParseString(t).Ok?
    ensures Against(ParseString(t).value.0, t)
    decreases |t|
  {
    hide Against, Escaped, FirstQuote, Unescaped;
    if t[0] == '"' {
      NothingAgainst(t);
    } else if Unescaped(t[0]) {
      StringAgainstText(t[1..]);
      OneMoreAgainst(ParseString(t[1..]).value.0, t);
    } else {
      var (c, n) := Escaped(t[1..]).value;
      StringAgainstText(t[1 + n..]);
      EscapeAgainst(ParseString(t[1 + n..]).value.0, t, c, n);
    }
  }

  lemma NothingAgainst(t: string)
    requires t != "" && t[0] == '"'
    ensures Against("", t)
  {
  }

  lemma OneMoreAgainst(d: string, t: string)
    requires t != "" && Unescaped(t[0]) && Against(d, t[1..])
    ensures Against([t[0]] + d, t)
  {
    var q := FirstQuote(t[1..]);
    assert FirstQuote(t) == q + 1 && t[..q + 1] == [t[0]] + t[1..][..q];
    if j :| 0 <= j < |d| && j < q && d[j] == '"' {
      assert ([t[0]] + d)[j + 1] == '"';
    }
  }

  lemma EscapeAgainst(d: string, t: string, c: char, n: nat)
    requires t != "" && t[0] == '\\' && Escaped(t[1..]) == Ok((c, n)) && Against(d, t[1 + n..])
    ensures Against([c] + d, t)
  {
    hide Escaped;
    if t[1] == '"' {
      assert ([c] + d)[0] == '"' && FirstQuote(t) == 1;
    } else {
      NoQuoteBefore(t, n);
      if j :| 0 <= j < |d| && j < FirstQuote(t[1 + n..]) && d[j] == '"' {
        assert ([c] + d)[j + 1] == '"';
      }
    }
  }

  lemma NoQuoteBefore(t: string, n: nat)
    requires t != "" && t[0] == '\\' && Escaped(t[1..]).Ok? && Escaped(t[1..]).value.1 == n && t[1] != '"'
    ensures FirstQuote(t) == 1 + n + FirstQuote(t[1 + n..])
  {
    if n == 5 {
      assert forall k :: 0 <= k < 5 ==> t[1..][..5][k] == t[1 + k];
    }
    forall k | 0 <= k < 1 + n ensures t[k] != '"' {
    }
    SkipToQuote(t, 1 + n);
  }

  lemma {:induction false} SkipToQuote(t: string, k: nat)
    requires k <= |t| && forall i :: 0 <= i < k ==> t[i] != '"'
    ensures FirstQuote(t) == k + FirstQuote(t[k..])
    decreases k
  {
    if k > 0 {
      SkipToQuote(t[1..], k - 1);
      assert t[1..][k - 1..] == t[k..];
    }
  }

  lemma {:induction false} PlainStringParses(s: string, rest: string)
    requires PlainString(s)
    ensures ParseString(s + "\"" + rest) == Ok((s, rest))
  {
    var t := s + "\"" + rest;
    if s == "" {
      assert t[1..] == rest;
    } else {
      assert t[1..] == s[1..] + "\"" + rest && t[0] == s[0];
      PlainStringParses(s[1..], rest);
      assert [s[0]] + s[1..] == s;
    }
  }

  /** Unescaped text between quotes is read as itself if and only if nothing in it needs escaping. */
  lemma StringIff(s: string, rest: string)
    ensures PlainString(s) ==> ParseString(s + "\"" + rest) == Ok((s, rest))
    ensures ParseString(s + "\"" + rest).Ok? && ParseString(s + "\"" + rest).value.0 == s ==> PlainString(s)
  {
    var t := s + "\"" + rest;
    if PlainString(s) {
      PlainStringParses(s, rest);
    }
    if ParseString(t).Ok? && ParseString(t).value.0 == s {
      hide ParseString, PlainString, FirstQuote;
      StringAgainstText(t);
      QuoteAt(t, |s|);
      QuotesBefore(t, s, rest);
    }
  }

  lemma QuoteAt(t: string, k: nat)
    requires k < |t| && t[k] == '"'
    ensures FirstQuote(t) <= k
  {
    hide FirstQuote;
    var q := FirstQuote(t);
    forall j | 0 <= j < q ensures t[j] != '"' {
      assert t[..q][j] == t[j];
    }
  }

  lemma QuotesBefore(t: string, s: string, rest: string)
    requires t == s + "\"" + rest
    ensures forall j :: 0 <= j < |s| && j < FirstQuote(t) ==> s[j] != '"'
    ensures FirstQuote(t) == |s| ==> t[..FirstQuote(t)] == s
  {
    hide FirstQuote;
    var q := FirstQuote(t);
    forall j | 0 <= j < |s| && j < q ensures s[j] != '"' {
      assert t[..q][j] == s[j];
    }
  }

  // ---- Numbers ----

  predicate NumberEnds(rest: string) { rest != "" ==> !Digit(rest[0]) && rest[0] !in ".eE" }

  lemma {:induction false} CountsDigits(d: string, rest: string)
    requires (forall k :: 0 <= k < |d| ==> Digit(d[k])) && NumberEnds(rest)
    ensures DigitCount(d + rest) == |d|
  {
    if d == "" {
      assert d + rest == rest;
    } else {
      assert (d + rest)[1..] == d[1..] + rest;
      CountsDigits(d[1..], rest);
    }
  }

  lemma {:induction false} DigitsSpell(n: nat)
    ensures NumberOf(Digits(n)) == n && (n > 0 ==> Digits(n)[0] != '0') && (n == 0 ==> Digits(n) == "0")
    ensures forall k :: 0 <= k < |Digits(n)| ==> Digit(Digits(n)[k])
  {
    if n < 10 {
      var d := ['0' + n as char];
      assert Init(d) == "" && NumberOf(d) == 10 * NumberOf("") + n;
    } else {
      DigitsSpell(n / 10);
      var d := Digits(n);
      assert Init(d) == Digits(n / 10) && Last(d) == '0' + (n % 10) as char;
    }
  }

  lemma DigitsParse(n: nat, rest: string)
    requires NumberEnds(rest)
    ensures ParseDigits(Digits(n) + rest) == Ok((n, rest))
  {
    var d := Digits(n);
    DigitsSpell(n);
    CountsDigits(d, rest);
    assert (d + rest)[..|d|] == d && (d + rest)[|d|..] == rest;
  }

  lemma NumberParses(n: int, rest: string)
    requires NumberEnds(rest)
    ensures ParseNumber(Decimal(n) + rest) == Ok((n, rest))
    ensures Decimal(n) != "" && (Decimal(n)[0] == '-' || Digit(Decimal(n)[0]))
  {
    hide ParseDigits, Digits, NumberEnds;
    var d := Digits(if n < 0 then -n else n);
    DigitsParse(if n < 0 then -n else n, rest);
    DigitsSpell(if n < 0 then -n else n);
    assert d != "" && Digit(d[0]);
    var t := Decimal(n) + rest;
    if n < 0 {
      assert t[1..] == d + rest;
    } else {
      assert t == d + rest;
    }
  }

  // ---- Blanks ----

  predicate Blank(s: string) { forall k :: 0 <= k < |s| ==> s[k] in " \t\n\r" }

  /** Text that begins with something else. */
  predicate Begins(t: string) { t != "" && t[0] !in " \t\n\r" }

  lemma {:induction false} BlanksSkipped(ws: string, t: string)
    requires Blank(ws) && Begins(t)
    ensures SkipBlank(ws + t) == t
  {
    if ws == "" {
      assert ws + t == t;
    } else {
      assert (ws + t)[1..] == ws[1..] + t;
      BlanksSkipped(ws[1..], t);
    }
  }

  lemma {:induction false} TabsAreBlank(n: nat)
    ensures Blank(Tabs(n)) && Blank(NextLine(n))
  {
    if n > 0 {
      TabsAreBlank(n - 1);
    }
  }

  lemma LayoutIsBlank(first: bool, oneLiner: bool, tab: nat)
    ensures Blank(Align(first, oneLiner, tab))
  {
    TabsAreBlank(tab + 1);
  }

  /** A written value begins like a value. */
  lemma WrittenBegins(v: Value, tab: nat, rest: string)
    ensures Begins(Written(v, tab) + rest) && (Written(v, tab) + rest)[0] !in "]}"
  {
    if v.Number? {
      NumberParses(v.number, "");
    }
  }

  // ---- Values ----

  predicate MayFollow(v: Value, rest: string) { v.Number? ==> NumberEnds(rest) }

  /** Reading gives `v` and leaves the rest, if the strings are plain, and never gives `v` otherwise. */
  ghost predicate ReadsAs<T>(r: Result<(T, string)>, v: T, rest: string, plain: bool)
  {
    (plain ==> r == Ok((v, rest))) && (r.Ok? && r.value.0 == v ==> plain)
  }

  lemma {:induction false} ValueReads(v: Value, tab: nat, rest: string)
    requires MayFollow(v, rest)
    ensures ReadsAs(ParseValue(Written(v, tab) + rest), v, rest, Plain(v))
    decreases v, 1, 0
  {
    match v {
      case Bool(flag) => WordReads(flag, tab, rest);
      case Number(n) => NumberReads(n, tab, rest);
      case String(s) => StringReads(s, tab, rest);
      case Array(items) => ArrayReads(v, tab, rest);
      case Object(members) => ObjectReads(v, tab, rest);
    }
  }

  lemma WordReads(flag: bool, tab: nat, rest: string)
    ensures ReadsAs(ParseValue(Written(Bool(flag), tab) + rest), Bool(flag), rest, true)
  {
    var word := if flag then "true" else "false";
    var t := word + rest;
    assert word <= t && t[|word|..] == rest;
    assert !flag ==> t[0] == 'f';
  }

  lemma NotAWord(t: string)
    requires t != "" && t[0] !in "tf"
    ensures !("true" <= t) && !("false" <= t)
  {
  }

  lemma NumberReads(n: int, tab: nat, rest: string)
    requires NumberEnds(rest)
    ensures ReadsAs(ParseValue(Written(Number(n), tab) + rest), Number(n), rest, true)
  {
    hide ParseNumber, Decimal;
    NumberParses(n, rest);
    NotAWord(Decimal(n) + rest);
  }

  lemma StringReads(s: string, tab: nat, rest: string)
    ensures ReadsAs(ParseValue(Written(String(s), tab) + rest), String(s), rest, PlainString(s))
  {
    hide ParseString, PlainString;
    var t := Written(String(s), tab) + rest;
    NotAWord(t);
    assert t[1..] == s + "\"" + rest;
    StringIff(s, rest);
  }

  // ---- Arrays ----

  predicate PlainFrom(items: seq<Value>, i: nat)
  {
    forall k :: i <= k < |items| ==> Plain(items[k])
  }

  lemma ArrayReads(v: Value, tab: nat, rest: string)
    requires v.Array?
    ensures ReadsAs(ParseValue(Written(v, tab) + rest), v, rest, Plain(v))
    decreases v, 0, |v.items| + 2
  {
    ArrayTailReads(v, StartsPlain(v.items), tab, false, rest);
    ArrayStarts(v, tab, rest);
  }

  /** What an opening bracket leads to. */
  function AfterBracket(t: string): Result<(Value, string)>
  {
    var u := SkipBlank(t);
    if u != "" && u[0] == ']' then Ok((Array([]), u[1..])) else ParseElements(u, [])
  }

  lemma ArrayStarts(v: Value, tab: nat, rest: string)
    requires v.Array?
    ensures ParseValue(Written(v, tab) + rest) == AfterBracket(ArrayTail(v, 0, StartsPlain(v.items), tab, false) + rest)
    ensures Plain(v) <==> PlainFrom(v.items, 0)
  {
    hide SkipBlank, ParseElements, ArrayTail;
    var t := Written(v, tab) + rest;
    NotAWord(t);
    assert t[1..] == ArrayTail(v, 0, StartsPlain(v.items), tab, false) + rest;
  }

  lemma ArrayTailReads(v: Value, oneLiner: bool, tab: nat, stream: bool, rest: string)
    requires v.Array?
    ensures ReadsAs(AfterBracket(ArrayTail(v, 0, oneLiner, tab, stream) + rest), v, rest, PlainFrom(v.items, 0))
    decreases v, 0, |v.items| + 1
  {
    if v.items == [] {
      ClosingSkipped(v, oneLiner, tab, stream, rest);
    } else {
      ItemSkipped(v, 0, oneLiner, tab, stream, rest);
      ElementsRead(v, 0, oneLiner, tab, stream, rest);
      assert v.items[..0] == [];
    }
  }

  lemma ClosingSkipped(v: Value, oneLiner: bool, tab: nat, stream: bool, rest: string)
    requires v.Array?
    ensures SkipBlank(ArrayTail(v, |v.items|, oneLiner, tab, stream) + rest) == "]" + rest
    ensures NumberEnds(ArrayTail(v, |v.items|, oneLiner, tab, stream) + rest)
  {
    var blank := if oneLiner then "" else NextLine(tab);
    TabsAreBlank(tab);
    BlanksSkipped(blank, "]" + rest);
    assert ArrayTail(v, |v.items|, oneLiner, tab, stream) + rest == blank + ("]" + rest);
  }

  /** Element `i` in front of the rest of its array. */
  function FromItem(v: Value, i: nat, oneLiner: bool, tab: nat, stream: bool, rest: string): string
    requires v.Array? && i < |v.items|
  {
    Written(v.items[i], tab + 1) + AfterItem(v, i, oneLiner, tab, stream, rest)
  }

  function AfterItem(v: Value, i: nat, oneLiner: bool, tab: nat, stream: bool, rest: string): string
    requires v.Array? && i < |v.items|
  {
    Separator(i + 1 == |v.items|) + (ArrayTail(v, i + 1, oneLiner, tab, stream) + rest)
  }

  lemma ItemSkipped(v: Value, i: nat, oneLiner: bool, tab: nat, stream: bool, rest: string)
    requires v.Array? && i < |v.items|
    ensures var u := SkipBlank(ArrayTail(v, i, oneLiner, tab, stream) + rest);
      u == FromItem(v, i, oneLiner, tab, stream, rest) && u != "" && u[0] != ']'
  {
    hide Written, Align, SkipBlank;
    var blank, u := Align(i == 0 && !stream, oneLiner, tab), FromItem(v, i, oneLiner, tab, stream, rest);
    JsonRoundTrip.ItemParts(v, i, oneLiner, tab, stream, rest);
    LayoutIsBlank(i == 0 && !stream, oneLiner, tab);
    WrittenBegins(v.items[i], tab + 1, AfterItem(v, i, oneLiner, tab, stream, rest));
    BlanksSkipped(blank, u);
  }

  lemma ElementsRead(v: Value, i: nat, oneLiner: bool, tab: nat, stream: bool, rest: string)
    requires v.Array? && i < |v.items|
    ensures ReadsAs(ParseElements(FromItem(v, i, oneLiner, tab, stream, rest), v.items[..i]), v, rest,
                    PlainFrom(v.items, i))
    decreases v, 0, |v.items| - i
  {
    hide Written, SkipBlank, ParseValue, ParseElements, ArrayTail, Plain;
    var t, after := FromItem(v, i, oneLiner, tab, stream, rest), AfterItem(v, i, oneLiner, tab, stream, rest);
    var w := v.items[i];
    AfterItemEnds(v, i, oneLiner, tab, stream, rest);
    ValueReads(w, tab + 1, after);
    ElementsExtend(t, v.items[..i]);
    if ParseValue(t) == Ok((w, after)) {
      assert v.items[..i + 1] == v.items[..i] + [w];
      ElementsGoOn(t, v.items[..i], w, after);
      if i + 1 < |v.items| {
        ItemSkipped(v, i + 1, oneLiner, tab, stream, rest);
        ElementsRead(v, i + 1, oneLiner, tab, stream, rest);
      } else {
        assert v.items[..i + 1] == v.items;
      }
    } else {
      assert (v.items[..i] + [w])[i] == w;
    }
  }

  /** What follows an element is a comma or the closing bracket. */
  lemma AfterItemEnds(v: Value, i: nat, oneLiner: bool, tab: nat, stream: bool, rest: string)
    requires v.Array? && i < |v.items|
    ensures var after := AfterItem(v, i, oneLiner, tab, stream, rest);
      NumberEnds(after)
      && SkipBlank(after) == if i + 1 == |v.items| then "]" + rest
                             else "," + (ArrayTail(v, i + 1, oneLiner, tab, stream) + rest)
  {
    hide ArrayTail;
    var after := AfterItem(v, i, oneLiner, tab, stream, rest);
    if i + 1 == |v.items| {
      ClosingSkipped(v, oneLiner, tab, stream, rest);
      assert after == ArrayTail(v, i + 1, oneLiner, tab, stream) + rest;
    } else {
      BlanksSkipped("", after);
      assert "" + after == after;
    }
  }

  lemma ElementsGoOn(t: string, items: seq<Value>, w: Value, after: string)
    requires ParseValue(t) == Ok((w, after))
    ensures var u := SkipBlank(after);
      ParseElements(t, items) == if u == "" then Error
                                 else if u[0] == ',' then ParseElements(SkipBlank(u[1..]), items + [w])
                                 else if u[0] == ']' then Ok((Array(items + [w]), u[1..])) else Error
  {
    hide ParseValue, SkipBlank;
  }

  /** The elements read before, and the next one, are among those of the array. */
  lemma {:induction false} ElementsExtend(t: string, items: seq<Value>)
    ensures var r := ParseElements(t, items);
      r.Ok? ==> ParseValue(t).Ok? && r.value.0.Array? && items + [ParseValue(t).value.0] <= r.value.0.items
    decreases |t|
  {
    hide ParseValue, SkipBlank;
    if ParseValue(t).Ok? {
      var (w, after) := ParseValue(t).value;
      var u := SkipBlank(after);
      if u != "" && u[0] == ',' {
        ElementsExtend(SkipBlank(u[1..]), items + [w]);
      }
    }
  }

  // ---- Objects ----

  predicate PlainMember(m: Member) { PlainString(m.key) && Plain(m.value) }

  predicate PlainMembers(ms: seq<Member>, i: nat)
  {
    forall k :: i <= k < |ms| ==> PlainMember(ms[k])
  }

  function AfterBrace(t: string): Result<(Value, string)>
  {
    var u := SkipBlank(t);
    if u != "" && u[0] == '}' then Ok((Object([]), u[1..])) else ParseMembers(u, [])
  }

  lemma ObjectReads(v: Value, tab: nat, rest: string)
    requires v.Object?
    ensures ReadsAs(ParseValue(Written(v, tab) + rest), v, rest, Plain(v))
    decreases v, 0, |v.members| + 2
  {
    hide SkipBlank, ParseMembers, ParseValue, ObjectTail, Written;
    ObjectStarts(v, tab, rest);
    if v.members == [] {
      BraceSkipped(v, tab, rest);
    } else {
      MemberSkipped(v, 0, tab, rest);
      MembersRead(v, 0, tab, rest);
      assert v.members[..0] == [];
    }
  }

  lemma ObjectStarts(v: Value, tab: nat, rest: string)
    requires v.Object?
    ensures ParseValue(Written(v, tab) + rest) == AfterBrace(ObjectTail(v, 0, tab) + rest)
    ensures Plain(v) <==> PlainMembers(v.members, 0)
  {
    hide SkipBlank, ParseMembers, ObjectTail;
    var t := Written(v, tab) + rest;
    NotAWord(t);
    assert t[1..] == ObjectTail(v, 0, tab) + rest;
  }

  lemma BraceSkipped(v: Value, tab: nat, rest: string)
    requires v.Object?
    ensures SkipBlank(ObjectTail(v, |v.members|, tab) + rest) == "}" + rest
    ensures NumberEnds(ObjectTail(v, |v.members|, tab) + rest)
  {
    TabsAreBlank(tab);
    BlanksSkipped(NextLine(tab), "}" + rest);
    assert ObjectTail(v, |v.members|, tab) + rest == NextLine(tab) + ("}" + rest);
  }

  /** Member `i`, from its key on, in front of the rest of its object. */
  function FromMember(v: Value, i: nat, tab: nat, rest: string): string
    requires v.Object? && i < |v.members|
  {
    "\"" + v.members[i].key + "\"" + AfterKey(v, i, tab, rest)
  }

  function AfterKey(v: Value, i: nat, tab: nat, rest: string): string
    requires v.Object? && i < |v.members|
  {
    ":" + ((if IsOneLiner(v.members[i].value) then " " else NextLine(tab + 1))
           + (Written(v.members[i].value, tab + 1) + AfterMember(v, i, tab, rest)))
  }

  function AfterMember(v: Value, i: nat, tab: nat, rest: string): string
    requires v.Object? && i < |v.members|
  {
    Separator(i + 1 == |v.members|) + (ObjectTail(v, i + 1, tab) + rest)
  }

  lemma MemberSkipped(v: Value, i: nat, tab: nat, rest: string)
    requires v.Object? && i < |v.members|
    ensures SkipBlank(ObjectTail(v, i, tab) + rest) == FromMember(v, i, tab, rest)
    ensures FromMember(v, i, tab, rest) != "" && FromMember(v, i, tab, rest)[0] == '"'
  {
    hide Written, IsOneLiner, ObjectTail, NextLine, SkipBlank;
    var u := FromMember(v, i, tab, rest);
    JsonRoundTrip.MemberParts(v, i, tab, rest);
    TabsAreBlank(tab + 1);
    KeyParts(v, i, tab, rest);
    BlanksSkipped(NextLine(tab + 1), u);
  }

  lemma KeyParts(v: Value, i: nat, tab: nat, rest: string)
    requires v.Object? && i < |v.members|
    ensures KeyText(v.members[i].key, IsOneLiner(v.members[i].value), tab)
            + (Written(v.members[i].value, tab + 1) + AfterMember(v, i, tab, rest))
         == NextLine(tab + 1) + FromMember(v, i, tab, rest)
  {
    hide Written, IsOneLiner, ObjectTail, NextLine, AfterMember;
  }

  lemma MembersRead(v: Value, i: nat, tab: nat, rest: string)
    requires v.Object? && i < |v.members|
    ensures ReadsAs(ParseMembers(FromMember(v, i, tab, rest), v.members[..i]), v, rest, PlainMembers(v.members, i))
    decreases v, 0, |v.members| - i
  {
    hide Written, SkipBlank, ParseMember, ParseMembers, ObjectTail, PlainMember, FromMember;
    var t, after := FromMember(v, i, tab, rest), AfterMember(v, i, tab, rest);
    var m := v.members[i];
    AfterMemberEnds(v, i, tab, rest);
    ValueReads(m.value, tab + 1, after);
    MemberReads(v, i, tab, rest);
    MembersExtend(t, v.members[..i]);
    if ParseMember(t) == Ok((m, after)) {
      assert v.members[..i + 1] == v.members[..i] + [m];
      MembersGoOn(t, v.members[..i], m, after);
      if i + 1 < |v.members| {
        MemberSkipped(v, i + 1, tab, rest);
        MembersRead(v, i + 1, tab, rest);
      } else {
        assert v.members[..i + 1] == v.members;
      }
    } else {
      assert (v.members[..i] + [m])[i] == m;
    }
  }

  lemma AfterMemberEnds(v: Value, i: nat, tab: nat, rest: string)
    requires v.Object? && i < |v.members|
    ensures var after := AfterMember(v, i, tab, rest);
      NumberEnds(after)
      && SkipBlank(after) == if i + 1 == |v.members| then "}" + rest else "," + (ObjectTail(v, i + 1, tab) + rest)
  {
    hide ObjectTail;
    var after := AfterMember(v, i, tab, rest);
    if i + 1 == |v.members| {
      BraceSkipped(v, tab, rest);
      assert after == ObjectTail(v, i + 1, tab) + rest;
    } else {
      BlanksSkipped("", after);
      assert "" + after == after;
    }
  }

  /** One member, given what reading its value gives. */
  lemma MemberReads(v: Value, i: nat, tab: nat, rest: string)
    requires v.Object? && i < |v.members|
    requires var m, after := v.members[i], AfterMember(v, i, tab, rest);
      ReadsAs(ParseValue(Written(m.value, tab + 1) + after), m.value, after, Plain(m.value))
    ensures ReadsAs(ParseMember(FromMember(v, i, tab, rest)), v.members[i], AfterMember(v, i, tab, rest),
                    PlainMember(v.members[i]))
  {
    hide Written, SkipBlank, ParseValue, ParseString, PlainString, Plain, AfterMember;
    var m, after := v.members[i], AfterMember(v, i, tab, rest);
    var t := FromMember(v, i, tab, rest);
    assert t[1..] == m.key + "\"" + AfterKey(v, i, tab, rest);
    StringIff(m.key, AfterKey(v, i, tab, rest));
    KeyThenValue(v, i, tab, rest);
  }

  lemma KeyThenValue(v: Value, i: nat, tab: nat, rest: string)
    requires v.Object? && i < |v.members|
    ensures var u := SkipBlank(AfterKey(v, i, tab, rest));
      u != "" && u[0] == ':'
      && SkipBlank(u[1..]) == Written(v.members[i].value, tab + 1) + AfterMember(v, i, tab, rest)
  {
    hide Written, AfterMember, NextLine, IsOneLiner, SkipBlank;
    var m := v.members[i];
    var gap := if IsOneLiner(m.value) then " " else NextLine(tab + 1);
    var t := Written(m.value, tab + 1) + AfterMember(v, i, tab, rest);
    TabsAreBlank(tab + 1);
    WrittenBegins(m.value, tab + 1, AfterMember(v, i, tab, rest));
    BlanksSkipped("", AfterKey(v, i, tab, rest));
    assert "" + AfterKey(v, i, tab, rest) == AfterKey(v, i, tab, rest) && AfterKey(v, i, tab, rest)[1..] == gap + t;
    BlanksSkipped(gap, t);
  }

  lemma MembersGoOn(t: string, members: seq<Member>, m: Member, after: string)
    requires ParseMember(t) == Ok((m, after))
    ensures var u := SkipBlank(after);
      ParseMembers(t, members) == if u == "" then Error
                                  else if u[0] == ',' then ParseMembers(SkipBlank(u[1..]), members + [m])
                                  else if u[0] == '}' then Ok((Object(members + [m]), u[1..])) else Error
  {
    hide ParseMember, SkipBlank;
  }

  lemma {:induction false} MembersExtend(t: string, members: seq<Member>)
    ensures var r := ParseMembers(t, members);
      r.Ok? ==> ParseMember(t).Ok? && r.value.0.Object? && members + [ParseMember(t).value.0] <= r.value.0.members
    decreases |t|
  {
    hide ParseMember, SkipBlank;
    if ParseMember(t).Ok? {
      var (m, after) := ParseMember(t).value;
      var u := SkipBlank(after);
      if u != "" && u[0] == ',' {
        MembersExtend(SkipBlank(u[1..]), members + [m]);
      }
    }
  }

  // ---- Whole texts ----

  /** What the writer makes of a value is a JSON text for that value if and only if no string or key in it needs
      escaping; booleans and empty arrays and objects are fine, and the order of the keys does not matter. */
  lemma WrittenIsJsonIff(v: Value)
    ensures ParseText(Written(v, 0)) == Ok(v) <==> Plain(v)
  {
    hide Written, Plain, ParseValue, SkipBlank;
    assert Written(v, 0) + "" == Written(v, 0);
    WrittenBegins(v, 0, "");
    BlanksSkipped("", Written(v, 0));
    assert "" + Written(v, 0) == Written(v, 0);
    ValueReads(v, 0, "");
    assert SkipBlank("") == "" by { NothingSkipped(); }
  }

  lemma NothingSkipped()
    ensures SkipBlank("") == "" && SkipBlank("\n") == ""
  {
    assert SkipBlank("\n") == SkipBlank("");
  }

  /** A closed stream is a JSON text for the array of the values written to it, if and only if none of them has a
      string or key that needs escaping. */
  lemma StreamIsJsonIff(written: seq<Value>, oneLiner: bool)
    ensures var v := Array(written);
      ParseText("[" + ArrayTail(v, 0, oneLiner, 0, true) + "\n") == Ok(v) <==> Plain(v)
  {
    hide ArrayTail, SkipBlank;
    var v := Array(written);
    var t := "[" + ArrayTail(v, 0, oneLiner, 0, true) + "\n";
    ArrayTailReads(v, oneLiner, 0, true, "\n");
    NotAWord(t);
    assert t[1..] == ArrayTail(v, 0, oneLiner, 0, true) + "\n";
    BlanksSkipped("", t);
    assert "" + t == t;
    NothingSkipped();
  }
}
