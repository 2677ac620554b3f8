/** What the JSON reader makes of the JSON writer's text. */
module JsonRoundTrip {
  import opened Basics
  import opened Json

  // ---- Values ----

  /** Keys in map order, at every depth. */
  predicate Ordered(v: Value)
  {
    match v
    case Array(items) => forall i :: 0 <= i < |items| ==> Ordered(items[i])
    case Object(ms) => Sorted(ms) && forall i :: 0 <= i < |ms| ==> Ordered(ms[i].value)
    case _ => true
  }

  /** No double quote inside a string or key, no empty array or object. */
  predicate Clean(v: Value)
  {
    match v
    case String(s) => '"' !in s
    case Array(items) => items != [] && forall i :: 0 <= i < |items| ==> Clean(items[i])
    case Object(ms) => ms != [] && forall i :: 0 <= i < |ms| ==> '"' !in ms[i].key && Clean(ms[i].value)
    case _ => true
  }

  predicate NoBool(v: Value)
  {
    match v
    case Bool(_) => false
    case Array(items) => forall i :: 0 <= i < |items| ==> NoBool(items[i])
    case Object(ms) => forall i :: 0 <= i < |ms| ==> NoBool(ms[i].value)
    case _ => true
  }

  // ---- Keys ----

  lemma {:induction false} LessIsStrict(a: string, b: string)
    requires Less(a, b)
    ensures !Less(b, a) && a != b
  {
    if a != "" && a[0] == b[0] {
      LessIsStrict(a[1..], b[1..]);
    }
  }

  lemma {:induction false} LessIsTotal(a: string, b: string)
    ensures Less(a, b) || a == b || Less(b, a)
  {
    if a != "" && b != "" && a[0] == b[0] {
      LessIsTotal(a[1..], b[1..]);
      assert a == [a[0]] + a[1..] && b == [b[0]] + b[1..];
    }
  }

  lemma {:induction false} LessIsTransitive(a: string, b: string, c: string)
    requires Less(a, b) && Less(b, c)
    ensures Less(a, c)
  {
    if a != "" && a[0] == b[0] == c[0] {
      LessIsTransitive(a[1..], b[1..], c[1..]);
    }
  }

  lemma {:induction false} InsertAppends(members: seq<Member>, key: string, value: Value)
    requires forall i :: 0 <= i < |members| ==> Less(members[i].key, key)
    ensures Insert(members, key, value) == members + [Member(key, value)]
    decreases |members|
  {
    if members != [] {
      LessIsStrict(members[0].key, key);
      InsertAppends(members[1..], key, value);
    }
  }

  /** Assignment to a key keeps the order and touches no other member. */
  lemma {:induction false} InsertKeepsOrder(members: seq<Member>, key: string, value: Value)
    requires Sorted(members)
    ensures var r := Insert(members, key, value);
      Sorted(r) && Member(key, value) in r
      && (forall m :: m in r ==> m == Member(key, value) || m in members)
      && (forall m :: m in members && m.key != key ==> m in r)
    decreases |members|
  {
    var r := Insert(members, key, value);
    if members == [] {
    } else if Less(key, members[0].key) {
      forall i | 0 <= i < |members| ensures Less(key, members[i].key) {
        if i > 0 {
          LessIsTransitive(key, members[0].key, members[i].key);
        }
      }
      assert forall m :: m in members ==> m in r[1..];
    } else if members[0].key == key {
      assert forall m :: m in members ==> m == members[0] || m in members[1..];
    } else {
      LessIsTotal(key, members[0].key);
      InsertKeepsOrder(members[1..], key, value);
      var r' := Insert(members[1..], key, value);
      forall i | 0 <= i < |r'| ensures Less(members[0].key, r'[i].key) {
        assert r'[i] in r';
        if r'[i] != Member(key, value) {
          assert r'[i] in members[1..];
        }
      }
      assert r == [members[0]] + r';
      assert forall m :: m in members ==> m == members[0] || m in members[1..];
    }
  }

  // ---- Whatever the text ----

  ghost predicate Good(v: Value) { Clean(v) && Ordered(v) }

  ghost predicate GoodMembers(ms: seq<Member>)
  {
    Sorted(ms) && forall m :: m in ms ==> '"' !in m.key && Good(m.value)
  }

  /** The reader never returns a quote inside a string, an empty array or object, or unordered keys. */
  lemma {:induction false} ReadsGoodValues(text: string)
    ensures Read(text).Ok? ==> Good(Read(text).value.0)
    decreases |text|, 0
  {
    var (token, rest) := NextToken(text);
    if token.OpenArray? {
      ReadsGoodItems(rest, []);
    } else if token.OpenObject? {
      ReadsGoodMembers(rest, []);
    }
  }

  lemma {:induction false} ReadsGoodItems(text: string, items: seq<Value>)
    requires forall i :: 0 <= i < |items| ==> Good(items[i])
    ensures ReadItems(text, items).Ok? ==> Good(ReadItems(text, items).value.0)
    decreases |text|, 1
  {
    ReadsGoodValues(text);
    match Read(text) {
      case Error =>
      case Ok((v, rest)) =>
        var (token, rest') := NextToken(rest);
        if token.Comma? {
          ReadsGoodItems(rest', items + [v]);
        }
    }
  }

  lemma {:induction false} ReadsGoodMembers(text: string, members: seq<Member>)
    requires GoodMembers(members)
    ensures ReadMembers(text, members).Ok? ==> Good(ReadMembers(text, members).value.0)
    decreases |text|, 1
  {
    ReadsGoodMember(text);
    match ReadMember(text) {
      case Error =>
      case Ok((m, rest)) =>
        var members' := Insert(members, m.key, m.value);
        InsertKeepsOrder(members, m.key, m.value);
        assert GoodMembers(members');
        var (token, rest') := NextToken(rest);
        if token.Comma? {
          ReadsGoodMembers(rest', members');
        } else if token.CloseObject? {
          GoodObject(members');
        }
    }
  }

  lemma GoodObject(members: seq<Member>)
    requires GoodMembers(members) && members != []
    ensures Good(Object(members))
  {
    forall i | 0 <= i < |members| ensures '"' !in members[i].key && Good(members[i].value) {
      assert members[i] in members;
    }
  }

  lemma {:induction false} ReadsGoodMember(text: string)
    ensures ReadMember(text).Ok? ==> '"' !in ReadMember(text).value.0.key && Good(ReadMember(text).value.0.value)
    decreases |text|, 0
  {
    var (key, afterKey) := NextToken(text);
    if key.Str? {
      var (colon, afterColon) := NextToken(afterKey);
      if colon.Colon? {
        ReadsGoodValues(afterColon);
      }
    }
  }

  // ---- Tokens ----

  ghost predicate AllSpace(s: string) { forall k :: 0 <= k < |s| ==> IsSpace(s[k]) }

  /** What no number, however short, is misread before. */
  predicate Delimited(rest: string)
  {
    rest != "" ==> !IsDigit(rest[0]) && rest[0] != 't' && rest[0] != 'f'
  }

  /** What may follow this value: after a number no digit, and after a single digit no first letter of a boolean,
      since the reader looks at the character after the current one. */
  predicate MayFollow(v: Value, rest: string)
  {
    v.Number? && rest != "" ==> !IsDigit(rest[0]) && (rest[0] == 't' || rest[0] == 'f' ==> |Decimal(v.number)| > 1)
  }

  lemma {:induction false} SpaceIsSkipped(ws: string, t: string)
    requires AllSpace(ws)
    ensures NextToken(ws + t) == NextToken(t)
    decreases |ws|
  {
    if ws == "" {
      assert ws + t == t;
    } else {
      assert (ws + t)[1..] == ws[1..] + t;
      SpaceIsSkipped(ws[1..], t);
    }
  }

  lemma {:induction false} AlignIsSpace(first: bool, oneLiner: bool, tab: nat)
    ensures AllSpace(Align(first, oneLiner, tab))
    ensures AllSpace(NextLine(tab))
  {
    TabsAreSpace(tab);
    TabsAreSpace(tab + 1);
  }

  lemma {:induction false} TabsAreSpace(n: nat)
    ensures AllSpace(Tabs(n))
  {
    if n > 0 {
      TabsAreSpace(n - 1);
    }
  }

  lemma {:induction false} QuoteFound(s: string, rest: string)
    requires '"' !in s
    ensures UpToQuote(s + "\"" + rest) == |s|
  {
    if s != "" {
      assert (s + "\"" + rest)[1..] == s[1..] + "\"" + rest;
      QuoteFound(s[1..], rest);
    }
  }

  lemma StringToken(s: string, rest: string)
    requires '"' !in s
    ensures NextToken("\"" + s + "\"" + rest) == (Str(s), rest)
  {
    var t := "\"" + s + "\"" + rest;
    QuoteFound(s, rest);
    assert t[1..] == s + "\"" + rest;
    assert t[1..][..|s|] == s && t[|s| + 2..] == rest;
  }

  predicate AllDigits(s: string) { forall k :: 0 <= k < |s| ==> IsDigit(s[k]) }

  lemma {:induction false} DigitsThen(s: string, t: string, acc: int)
    requires AllDigits(s)
    ensures ReadDigits(s, acc).1 == "" && ReadDigits(s + t, acc) == ReadDigits(t, ReadDigits(s, acc).0)
    decreases |s|
  {
    if s == "" {
      assert s + t == t;
    } else {
      assert (s + t)[1..] == s[1..] + t;
      DigitsThen(s[1..], t, acc * 10 + (s[0] as int - '0' as int));
    }
  }

  lemma {:induction false} DigitsValue(n: nat)
    ensures ReadDigits(Digits(n), 0) == (n, "")
  {
    var c := '0' + (n % 10) as char;
    assert [c][1..] == "";
    if n >= 10 {
      DigitsValue(n / 10);
      DigitsThen(Digits(n / 10), [c], 0);
      assert ReadDigits([c], n / 10) == ReadDigits("", n);
    } else {
      assert Digits(n) == [c];
      assert ReadDigits([c], 0) == ReadDigits("", n);
    }
  }

  /** A written number is the next token, and only it is consumed, exactly when what follows allows it. */
  lemma NumberTokenIff(n: int, rest: string)
    ensures NextToken(Decimal(n) + rest) == (Num(n), rest) <==> MayFollow(Number(n), rest)
  {
    var m := if n < 0 then -n else n;
    var d := Digits(m);
    DigitsValue(m);
    DigitsThen(d, rest, 0);
    assert ReadDigits(d + rest, 0) == ReadDigits(rest, m);
    if n < 0 {
      assert (Decimal(n) + rest)[1..] == d + rest;
    } else {
      assert (d + rest)[0] == d[0] && ReadDigits(d + rest, 0) == ReadDigits((d + rest)[1..], d[0] as int - '0' as int);
      assert |d| > 1 ==> (d + rest)[1] == d[1];
      assert |d| == 1 ==> (d + rest)[1..] == rest;
    }
  }

  lemma BoolIsBad(flag: bool, rest: string)
    ensures Read((if flag then "true" else "false") + rest) == Error
  {
  }

  /** A boolean is read only with a character in front of it, which is lost: one that is no token of its own. */
  lemma BoolAfterCharacter(c: char, flag: bool, rest: string)
    requires c !in " \n\t\r[]{},:\""
    ensures Read([c] + (if flag then "true" else "false") + rest) == Ok((Bool(flag), rest))
  {
    var word := if flag then "true" else "false";
    var t := [c] + word + rest;
    assert t[1..] == word + rest && t[1 + |word|..] == rest && t[1] == word[0];
  }

  lemma Punctuation(c: char, rest: string)
    requires c in "[]{},:"
    ensures var (token, after) := NextToken([c] + rest);
      after == rest
      && token == (if c == '[' then OpenArray else if c == ']' then CloseArray else if c == '{' then OpenObject
                   else if c == '}' then CloseObject else if c == ',' then Comma else Colon)
  {
    assert ([c] + rest)[1..] == rest;
  }

  // ---- Round trip ----

  lemma {:induction false} ReadWritten(v: Value, tab: nat, rest: string)
    requires Ordered(v) && Clean(v) && MayFollow(v, rest)
    ensures Read(Written(v, tab) + rest) == if NoBool(v) then Ok((v, rest)) else Error
    decreases v, 1, 0
  {
    match v {
      case Bool(flag) => BoolIsBad(flag, rest);
      case Number(n) => NumberTokenIff(n, rest);
      case String(s) => StringToken(s, rest);
      case Array(items) =>
        ReadArrayTail(v, 0, StartsPlain(items), tab, false, rest);
        ArrayOpens(v, tab, rest);
      case Object(members) =>
        ReadObjectTail(v, 0, tab, rest);
        ObjectOpens(v, tab, rest);
    }
  }

  lemma ArrayOpens(v: Value, tab: nat, rest: string)
    requires v.Array?
    ensures Read(Written(v, tab) + rest)
         == ReadItems(ArrayTail(v, 0, StartsPlain(v.items), tab, false) + rest, v.items[..0])
    ensures NoBool(v) == NoBoolItems(v, 0)
  {
    hide NextToken, ReadItems, ArrayTail;
    var tail := ArrayTail(v, 0, StartsPlain(v.items), tab, false);
    assert Written(v, tab) + rest == ['['] + (tail + rest) && v.items[..0] == [];
    Punctuation('[', tail + rest);
  }

  lemma ObjectOpens(v: Value, tab: nat, rest: string)
    requires v.Object?
    ensures Read(Written(v, tab) + rest) == ReadMembers(ObjectTail(v, 0, tab) + rest, v.members[..0])
    ensures NoBool(v) == NoBoolMembers(v, 0)
  {
    hide NextToken, ReadMembers, ObjectTail;
    var tail := ObjectTail(v, 0, tab);
    assert Written(v, tab) + rest == ['{'] + (tail + rest) && v.members[..0] == [];
    Punctuation('{', tail + rest);
  }

  predicate NoBoolItems(v: Value, i: nat) requires v.Array?
  {
    forall k :: i <= k < |v.items| ==> NoBool(v.items[k])
  }

  predicate NoBoolMembers(v: Value, i: nat) requires v.Object?
  {
    forall k :: i <= k < |v.members| ==> NoBool(v.members[k].value)
  }

  lemma {:induction false} ReadArrayTail(v: Value, i: nat, oneLiner: bool, tab: nat, stream: bool, rest: string)
    requires v.Array? && i < |v.items| && Ordered(v) && Clean(v)
    ensures ReadItems(ArrayTail(v, i, oneLiner, tab, stream) + rest, v.items[..i])
         == if NoBoolItems(v, i) then Ok((v, rest)) else Error
    decreases v, 0, |v.items| - i
  {
    hide NextToken, Written, Read, ReadItems, ArrayTail, Align, Closing, Ordered, Clean, NoBool;
    var last := i + 1 == |v.items|;
    var ws := Align(i == 0 && !stream, oneLiner, tab);
    var w := Written(v.items[i], tab + 1);
    var more := ArrayTail(v, i + 1, oneLiner, tab, stream) + rest;
    var after := Separator(last) + more;
    ItemIsFine(v, i);
    ItemParts(v, i, oneLiner, tab, stream, rest);
    AlignIsSpace(i == 0 && !stream, oneLiner, tab);
    ReadAfterSpace(ws, w + after);
    assert v.items[..i + 1] == v.items[..i] + [v.items[i]];
    if last {
      ArrayCloses(v, oneLiner, tab, stream, rest);
      assert after == more && v.items[..i + 1] == v.items && v == Array(v.items);
    } else {
      assert after == [','] + more;
      Punctuation(',', more);
      ReadArrayTail(v, i + 1, oneLiner, tab, stream, rest);
    }
    ReadWritten(v.items[i], tab + 1, after);
    ReadItem(ws + (w + after), v.items[..i]);
  }

  lemma ItemIsFine(v: Value, i: nat)
    requires v.Array? && i < |v.items| && Ordered(v) && Clean(v)
    ensures Ordered(v.items[i]) && Clean(v.items[i])
    ensures NoBoolItems(v, i) == (NoBool(v.items[i]) && NoBoolItems(v, i + 1))
  {
  }

  lemma ItemParts(v: Value, i: nat, oneLiner: bool, tab: nat, stream: bool, rest: string)
    requires v.Array? && i < |v.items|
    ensures ArrayTail(v, i, oneLiner, tab, stream) + rest
         == Align(i == 0 && !stream, oneLiner, tab)
            + (Written(v.items[i], tab + 1) + (Separator(i + 1 == |v.items|) + (ArrayTail(v, i + 1, oneLiner, tab,
                  stream) + rest)))
  {
    hide Written, Align;
  }

  lemma ReadAfterSpace(ws: string, text: string)
    requires AllSpace(ws)
    ensures Read(ws + text) == Read(text)
  {
    hide NextToken;
    SpaceIsSkipped(ws, text);
  }

  lemma ReadItem(text: string, items: seq<Value>)
    ensures Read(text).Error? ==> ReadItems(text, items) == Error
    ensures Read(text).Ok? ==>
      var v, next := Read(text).value.0, NextToken(Read(text).value.1);
      ReadItems(text, items) == if next.0.Comma? then ReadItems(next.1, items + [v])
                                else if next.0.CloseArray? then Ok((Array(items + [v]), next.1)) else Error
  {
    hide Read, NextToken;
  }

  lemma ArrayCloses(v: Value, oneLiner: bool, tab: nat, stream: bool, rest: string)
    requires v.Array?
    ensures var text := ArrayTail(v, |v.items|, oneLiner, tab, stream) + rest;
      Delimited(text) && NextToken(text) == (CloseArray, rest)
  {
    var ws := if oneLiner then "" else NextLine(tab);
    AlignIsSpace(true, oneLiner, tab);
    assert Closing(oneLiner, tab) + rest == ws + ([']'] + rest);
    SpaceIsSkipped(ws, [']'] + rest);
    Punctuation(']', rest);
  }

  lemma {:induction false} ReadObjectTail(v: Value, i: nat, tab: nat, rest: string)
    requires v.Object? && i < |v.members| && Ordered(v) && Clean(v)
    ensures ReadMembers(ObjectTail(v, i, tab) + rest, v.members[..i])
         == if NoBoolMembers(v, i) then Ok((v, rest)) else Error
    decreases v, 0, |v.members| - i
  {
    hide NextToken, Written, Read, ReadMember, ReadMembers, ObjectTail, KeyText, Ordered, Clean, NoBool, Insert,
          IsOneLiner, Less;
    var last := i + 1 == |v.members|;
    var m := v.members[i];
    var k := KeyText(m.key, IsOneLiner(m.value), tab);
    var w := Written(m.value, tab + 1);
    var more := ObjectTail(v, i + 1, tab) + rest;
    var after := Separator(last) + more;
    MemberIsFine(v, i);
    MemberParts(v, i, tab, rest);
    ReadKey(m.key, IsOneLiner(m.value), tab, w + after);
    if last {
      ObjectCloses(v, tab, rest);
      assert after == more && v.members[..i + 1] == v.members && v == Object(v.members);
    } else {
      assert after == [','] + more;
      Punctuation(',', more);
      ReadObjectTail(v, i + 1, tab, rest);
    }
    ReadWritten(m.value, tab + 1, after);
    ReadMemberThen(k + (w + after), v.members[..i]);
  }

  lemma MemberIsFine(v: Value, i: nat)
    requires v.Object? && i < |v.members| && Ordered(v) && Clean(v)
    ensures '"' !in v.members[i].key && Ordered(v.members[i].value) && Clean(v.members[i].value)
    ensures Insert(v.members[..i], v.members[i].key, v.members[i].value) == v.members[..i + 1]
    ensures NoBoolMembers(v, i) == (NoBool(v.members[i].value) && NoBoolMembers(v, i + 1))
  {
    var m := v.members[i];
    assert v.members[..i + 1] == v.members[..i] + [m] && m == Member(m.key, m.value);
    InsertAppends(v.members[..i], m.key, m.value);
  }

  lemma MemberParts(v: Value, i: nat, tab: nat, rest: string)
    requires v.Object? && i < |v.members|
    ensures ObjectTail(v, i, tab) + rest
         == KeyText(v.members[i].key, IsOneLiner(v.members[i].value), tab)
            + (Written(v.members[i].value, tab + 1) + (Separator(i + 1 == |v.members|) + (ObjectTail(v, i + 1,
                  tab) + rest)))
  {
    hide Written, KeyText, IsOneLiner;
  }

  lemma ReadMemberThen(text: string, members: seq<Member>)
    ensures ReadMember(text).Error? ==> ReadMembers(text, members) == Error
    ensures ReadMember(text).Ok? ==>
      var m, next := ReadMember(text).value.0, NextToken(ReadMember(text).value.1);
      var members' := Insert(members, m.key, m.value);
      ReadMembers(text, members) == if next.0.Comma? then ReadMembers(next.1, members')
                                    else if next.0.CloseObject? then Ok((Object(members'), next.1)) else Error
  {
    hide ReadMember, NextToken, Insert;
  }

  /** A key and its colon are consumed; what is left is the value. */
  lemma ReadKey(key: string, oneLiner: bool, tab: nat, rest: string)
    requires '"' !in key
    ensures ReadMember(KeyText(key, oneLiner, tab) + rest)
         == match Read(rest) case Error => Error case Ok((v, after)) => Ok((Member(key, v), after))
  {
    hide NextToken;
    var ws := NextLine(tab + 1);
    var gap := if oneLiner then " " else NextLine(tab + 1);
    AlignIsSpace(true, oneLiner, tab + 1);
    var afterKey := [':'] + (gap + rest);
    assert KeyText(key, oneLiner, tab) + rest == ws + ("\"" + key + "\"" + afterKey);
    SpaceIsSkipped(ws, "\"" + key + "\"" + afterKey);
    StringToken(key, afterKey);
    Punctuation(':', gap + rest);
    SpaceIsSkipped(gap, rest);
  }

  lemma ObjectCloses(v: Value, tab: nat, rest: string)
    requires v.Object?
    ensures var text := ObjectTail(v, |v.members|, tab) + rest;
      Delimited(text) && NextToken(text) == (CloseObject, rest)
  {
    AlignIsSpace(true, true, tab);
    assert NextLine(tab) + "}" + rest == NextLine(tab) + (['}'] + rest);
    SpaceIsSkipped(NextLine(tab), ['}'] + rest);
    Punctuation('}', rest);
  }

  /** Reading what was written gives the value back and stops right after it exactly when it holds no
      boolean, no double quote in a string or key and no empty array or object, has its keys in map order, and
      does not run on into what follows. */
  lemma RoundTripIff(v: Value, tab: nat, rest: string)
    ensures Read(Written(v, tab) + rest) == Ok((v, rest))
       <==> Clean(v) && NoBool(v) && Ordered(v) && MayFollow(v, rest)
  {
    ReadsGoodValues(Written(v, tab) + rest);
    if v.Number? {
      NumberTokenIff(v.number, rest);
      NumberOnly(v.number, rest);
    } else if Good(v) {
      ReadWritten(v, tab, rest);
    }
  }

  lemma NumberOnly(n: int, rest: string)
    ensures Read(Decimal(n) + rest) == Ok((Number(n), rest)) <==> NextToken(Decimal(n) + rest) == (Num(n), rest)
  {
    hide NextToken, ReadItems, ReadMembers, Decimal;
    NotNested(Decimal(n) + rest);
  }

  /** A number is read from a number token only. */
  lemma NotNested(text: string)
    ensures Read(text).Ok? && Read(text).value.0.Number? ==>
      NextToken(text) == (Num(Read(text).value.0.number), Read(text).value.1)
  {
    hide NextToken;
    var (token, rest) := NextToken(text);
    if token.OpenArray? {
      ItemsGiveArrays(rest, []);
    } else if token.OpenObject? {
      MembersGiveObjects(rest, []);
    }
  }

  lemma {:induction false} ItemsGiveArrays(text: string, items: seq<Value>)
    ensures ReadItems(text, items).Ok? ==> ReadItems(text, items).value.0.Array?
    decreases |text|
  {
    hide NextToken;
    match Read(text) {
      case Error =>
      case Ok((v, rest)) =>
        if NextToken(rest).0.Comma? {
          ItemsGiveArrays(NextToken(rest).1, items + [v]);
        }
    }
  }

  lemma {:induction false} MembersGiveObjects(text: string, members: seq<Member>)
    ensures ReadMembers(text, members).Ok? ==> ReadMembers(text, members).value.0.Object?
    decreases |text|
  {
    hide NextToken, Insert;
    match ReadMember(text) {
      case Error =>
      case Ok((m, rest)) =>
        if NextToken(rest).0.Comma? {
          MembersGiveObjects(NextToken(rest).1, Insert(members, m.key, m.value));
        }
    }
  }
}
