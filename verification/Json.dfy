/** The text format shared by the JSON writer and reader of lib_app/JsonFile.cpp. */
module Json {
  import opened Basics

  /** An object holds its members in increasing key order, as std::map does. */
  datatype Value =
    | Bool(flag: bool) | Number(number: int) | String(text: string)
    | Array(items: seq<Value>) | Object(members: seq<Member>)
  datatype Member = Member(key: string, value: Value)

  predicate Less(a: string, b: string)
  {
    b != "" && (a == "" || a[0] < b[0] || (a[0] == b[0] && Less(a[1..], b[1..])))
  }

  /** Assignment through operator[] of the map. */
  function Insert(members: seq<Member>, key: string, value: Value): seq<Member>
  {
    if members == [] || Less(key, members[0].key) then [Member(key, value)] + members
    else if members[0].key == key then [Member(key, value)] + members[1..]
    else [members[0]] + Insert(members[1..], key, value)
  }

  predicate Sorted(members: seq<Member>)
  {
    forall i, j :: 0 <= i < j < |members| ==> Less(members[i].key, members[j].key)
  }

  // ---- Writer ----

  function Digits(n: nat): (s: string)
    ensures s != "" && forall k :: 0 <= k < |s| ==> IsDigit(s[k])
  {
    if n < 10 then ['0' + n as char] else Digits(n / 10) + ['0' + (n % 10) as char]
  }

  function Decimal(n: int): string { if n < 0 then "-" + Digits(-n) else Digits(n) }

  function Tabs(n: nat): string { if n == 0 then "" else "\t" + Tabs(n - 1) }
  function NextLine(tab: nat): string { "\n" + Tabs(tab) }

  /** A list starting with a boolean or a number is written on one line. */
  predicate StartsPlain(items: seq<Value>) { items == [] || items[0].Bool? || items[0].Number? }

  predicate IsOneLiner(v: Value)
  {
    !v.Object? && (v.Array? ==> StartsPlain(v.items))
  }

  function Align(first: bool, oneLiner: bool, tab: nat): string
  {
    if oneLiner then (if first then "" else " ") else NextLine(tab + 1)
  }

  function Closing(oneLiner: bool, tab: nat): string { (if oneLiner then "" else NextLine(tab)) + "]" }

  function Separator(last: bool): string { if last then "" else "," }

  function Written(v: Value, tab: nat): string
    decreases v, 1, 0
  {
    match v
    case Bool(flag) => if flag then "true" else "false"
    case Number(n) => Decimal(n)
    case String(s) => "\"" + s + "\""
    case Array(items) => "[" + ArrayTail(v, 0, StartsPlain(items), tab, false)
    case Object(_) => "{" + ObjectTail(v, 0, tab)
  }

  /** The text of an array from element `i` to the closing bracket; a stream aligns its first element too. */
  function ArrayTail(v: Value, i: nat, oneLiner: bool, tab: nat, stream: bool): string
    requires v.Array? && i <= |v.items|
    decreases v, 0, |v.items| - i
  {
    if i == |v.items| then Closing(oneLiner, tab)
    else ItemText(v, i, oneLiner, tab, stream) + ArrayTail(v, i + 1, oneLiner, tab, stream)
  }

  function ItemText(v: Value, i: nat, oneLiner: bool, tab: nat, stream: bool): string
    requires v.Array? && i < |v.items|
    decreases v, 0, 0
  {
    Align(i == 0 && !stream, oneLiner, tab) + Written(v.items[i], tab + 1) + Separator(i + 1 == |v.items|)
  }

  function KeyText(key: string, oneLiner: bool, tab: nat): string
  {
    NextLine(tab + 1) + "\"" + key + "\":" + if oneLiner then " " else NextLine(tab + 1)
  }

  function ObjectTail(v: Value, i: nat, tab: nat): string
    requires v.Object? && i <= |v.members|
    decreases v, 0, |v.members| - i
  {
    if i == |v.members| then NextLine(tab) + "}"
    else MemberText(v, i, tab) + ObjectTail(v, i + 1, tab)
  }

  function MemberText(v: Value, i: nat, tab: nat): string
    requires v.Object? && i < |v.members|
    decreases v, 0, 0
  {
    var m := v.members[i];
    KeyText(m.key, IsOneLiner(m.value), tab) + Written(m.value, tab + 1) + Separator(i + 1 == |v.members|)
  }

  // ---- Reader ----

  datatype Token =
    | True | False | Num(n: int) | Str(s: string) | OpenArray | CloseArray | OpenObject | CloseObject
    | Comma | Colon | EndFile | Bad

  predicate IsSpace(c: char) { c == ' ' || c == '\n' || c == '\t' || c == '\r' }
  predicate IsDigit(c: char) { '0' <= c <= '9' }

  function SkipSpace(t: string): (r: string)
    ensures |r| <= |t| && (r != "" ==> !IsSpace(r[0]))
  {
    if t != "" && IsSpace(t[0]) then SkipSpace(t[1..]) else t
  }

  /** Characters up to the next double quote, or to the end. */
  function UpToQuote(t: string): (k: nat)
    ensures k <= |t| && '"' !in t[..k] && (k < |t| ==> t[k] == '"')
  {
    if t == "" || t[0] == '"' then 0
    else var k := UpToQuote(t[1..]); assert t[..k + 1] == [t[0]] + t[1..][..k]; k + 1
  }

  function ReadDigits(t: string, acc: int): (r: (int, string))
    ensures |r.1| <= |t|
  {
    if t != "" && IsDigit(t[0]) then ReadDigits(t[1..], acc * 10 + (t[0] as int - '0' as int)) else (acc, t)
  }

  /** Next token of the remaining text (current character first) and the text after it. */
  function NextToken(text: string): (r: (Token, string))
    ensures r.0.Bad? || r.0.EndFile? || |r.1| < |text|
  {
    var t := SkipSpace(text);
    if t == "" then (EndFile, "")
    else if t[0] == '[' then (OpenArray, t[1..])
    else if t[0] == ']' then (CloseArray, t[1..])
    else if t[0] == '{' then (OpenObject, t[1..])
    else if t[0] == '}' then (CloseObject, t[1..])
    else if t[0] == ',' then (Comma, t[1..])
    else if t[0] == ':' then (Colon, t[1..])
    else if t[0] == '"' then
      var k := UpToQuote(t[1..]);
      if k == |t| - 1 then (Bad, "") else (Str(t[1..][..k]), t[k + 2..])
    else if |t| > 1 && t[1] == 't' then if "true" <= t[1..] then (True, t[5..]) else (Bad, "")
    else if |t| > 1 && t[1] == 'f' then if "false" <= t[1..] then (False, t[6..]) else (Bad, "")
    else if t[0] == '-' then var (n, r) := ReadDigits(t[1..], 0); (Num(-n), r)
    else if IsDigit(t[0]) then var (n, r) := ReadDigits(t[1..], t[0] as int - '0' as int); (Num(n), r)
    else (Bad, "")
  }

  function Read(text: string): (r: Result<(Value, string)>)
    ensures r.Ok? ==> |r.value.1| < |text|
    decreases |text|, 0
  {
    var (token, rest) := NextToken(text);
    match token
    case True => Ok((Bool(true), rest))
    case False => Ok((Bool(false), rest))
    case Num(n) => Ok((Number(n), rest))
    case Str(s) => Ok((String(s), rest))
    case OpenArray => ReadItems(rest, [])
    case OpenObject => ReadMembers(rest, [])
    case _ => Error
  }

  function ReadItems(text: string, items: seq<Value>): (r: Result<(Value, string)>)
    ensures r.Ok? ==> |r.value.1| < |text|
    decreases |text|, 1
  {
    match Read(text)
    case Error => Error
    case Ok((v, rest)) =>
      var (token, rest') := NextToken(rest);
      if token.Comma? then ReadItems(rest', items + [v])
      else if token.CloseArray? then Ok((Array(items + [v]), rest'))
      else Error
  }

  function ReadMembers(text: string, members: seq<Member>): (r: Result<(Value, string)>)
    ensures r.Ok? ==> |r.value.1| < |text|
    decreases |text|, 1
  {
    match ReadMember(text)
    case Error => Error
    case Ok((m, rest)) =>
      var (token, rest') := NextToken(rest);
      var members' := Insert(members, m.key, m.value);
      if token.Comma? then ReadMembers(rest', members')
      else if token.CloseObject? then Ok((Object(members'), rest'))
      else Error
  }

  function ReadMember(text: string): (r: Result<(Member, string)>)
    ensures r.Ok? ==> |r.value.1| < |text|
    decreases |text|, 0
  {
    var (key, afterKey) := NextToken(text);
    if !key.Str? then Error
    else
      var (colon, afterColon) := NextToken(afterKey);
      if !colon.Colon? then Error
      else match Read(afterColon)
           case Error => Error
           case Ok((v, rest)) => Ok((Member(key.s, v), rest))
  }
}
