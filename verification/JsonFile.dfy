/** The reader and the writer of lib_app/JsonFile.cpp; a file is the string of its characters. */
module JsonFile {
  import opened Basics
  import opened Json
  import JsonRoundTrip
  import JsonGrammar

  /** `cToken` has been taken from the stream and not used yet; `eof` is the stream's end-of-file flag. */
  class JsonReader {
    var cToken: char
    var stream: string
    var eof: bool

    ghost function Text(): string reads this { if eof then "" else [cToken] + stream }

    constructor () { cToken, stream, eof := ' ', "", true; }

    /** Reads a whole file, or as much of it as its first value takes; `isOpen` says whether it could be opened. */
    method ReadFile(file: string, isOpen: bool) returns (ok: bool, v: Value)
      modifies this
      ensures ok == (isOpen && Read(file).Ok?)
      ensures ok ==> (v, Text()) == Read(file).value
      ensures !isOpen ==> Text() == old(Text())
    {
      if !isOpen {
        return false, Bool(false);
      }
      cToken, stream, eof := ' ', file, false;
      JsonRoundTrip.ReadAfterSpace(" ", file);
      ok, v := ReadValue();
    }

    /** Takes a character from the stream. */
    method Get() returns (ok: bool)
      modifies this
      ensures ok == (!old(eof) && old(stream) != "") && eof == !ok
      ensures ok ==> cToken == old(stream)[0] && stream == old(stream)[1..]
      ensures !ok ==> cToken == old(cToken) && stream == old(stream)
      ensures !old(eof) ==> Text() == old(Text())[1..]
    {
      ok := !eof && stream != "";
      if ok {
        cToken, stream := stream[0], stream[1..];
      } else {
        eof := true;
      }
    }

    /** Looks at the next character of the stream; looking past the end sets the flag. */
    method PeekIs(c: char) returns (same: bool)
      modifies this`eof
      ensures same == (!old(eof) && stream != "" && stream[0] == c)
      ensures eof == (old(eof) || stream == "")
    {
      if stream == "" {
        eof := true;
      }
      same := !eof && stream[0] == c;
    }

    method CheckToken(expected: string) returns (same: bool)
      requires !eof
      modifies this`stream, this`eof
      ensures same == (expected <= old(stream))
      ensures same ==> !eof && stream == old(stream)[|expected|..]
    {
      var i := 0;
      while i < |expected|
        invariant i <= |expected| && !eof
        invariant expected[..i] <= old(stream) && stream == old(stream)[i..]
      {
        if stream == "" {
          eof := true;
          return false;
        }
        var c := stream[0];
        stream := stream[1..];
        if c != expected[i] {
          return false;
        }
        i := i + 1;
      }
      same := true;
    }

    method SkipSpaces()
      modifies this
      ensures Text() == SkipSpace(old(Text()))
    {
      var more := true;
      while IsSpace(cToken) && more
        invariant SkipSpace(Text()) == SkipSpace(old(Text()))
        invariant !more ==> eof
        decreases |Text()|, more
      {
        more := Get();
      }
    }

    /** The characters of a string and its closing quote, which stays in `cToken`. */
    method GetString() returns (s: string)
      requires !eof
      modifies this
      ensures s == old(stream)[..UpToQuote(old(stream))]
      ensures eof == (UpToQuote(old(stream)) == |old(stream)|)
      ensures !eof ==> stream == old(stream)[UpToQuote(old(stream)) + 1..]
    {
      hide UpToQuote;
      ghost var all := stream;
      s := "";
      var more := Get();
      ghost var left := Text();
      while more && cToken != '"'
        invariant more == !eof && left == Text()
        invariant s + left == all && |s| + UpToQuote(left) == UpToQuote(all)
        decreases |left|
      {
        StringGoesOn(s, left);
        s := s + [cToken];
        more := Get();
        left := left[1..];
      }
      StringEnds(s, left);
    }

    /** Continues a number after its first character. */
    method GetDigits(acc: int) returns (n: int)
      modifies this
      ensures (n, Text()) == ReadDigits(if old(eof) then "" else old(stream), acc)
    {
      n := acc;
      var more := Get();
      while more && IsDigit(cToken)
        invariant more == !eof
        invariant ReadDigits(Text(), n) == ReadDigits(if old(eof) then "" else old(stream), acc)
        decreases |Text()|
      {
        assert Text()[1..] == stream;
        n := n * 10 + (cToken as int - '0' as int);
        more := Get();
      }
    }

    method ReadNextToken() returns (t: Token)
      modifies this
      ensures t == NextToken(old(Text())).0
      ensures !t.Bad? ==> Text() == NextToken(old(Text())).1
    {
      SkipSpaces();
      if eof {
        return EndFile;
      }
      ghost var text := Text();
      assert text[1..] == stream;
      match cToken {
        case '[' => t := OpenArray;
        case ']' => t := CloseArray;
        case '{' => t := OpenObject;
        case '}' => t := CloseObject;
        case ',' => t := Comma;
        case ':' => t := Colon;
        case '"' =>
          var s := GetString();
          if eof {
            return Bad;
          }
          t := Str(s);
          assert stream == text[|s| + 2..];
        case _ =>
          t := ReadWord();
          return;
      }
      var _ := Get();
    }

    /** Booleans and numbers; a word is recognised by the character after the current one. */
    method ReadWord() returns (t: Token)
      requires !eof && cToken !in " \n\t\r[]{},:\""
      modifies this
      ensures t == NextToken(old(Text())).0
      ensures !t.Bad? ==> Text() == NextToken(old(Text())).1
    {
      ghost var text := Text();
      assert text[1..] == stream && SkipSpace(text) == text;
      var isTrue := PeekIs('t');
      if isTrue {
        isTrue := CheckToken("true");
        if !isTrue {
          return Bad;
        }
        assert stream == text[5..];
        var _ := Get();
        return True;
      }
      var isFalse := PeekIs('f');
      if isFalse {
        isFalse := CheckToken("false");
        if !isFalse {
          return Bad;
        }
        assert stream == text[6..];
        var _ := Get();
        return False;
      }
      var bNegative := cToken == '-';
      if !bNegative && !IsDigit(cToken) {
        return Bad;
      }
      var n := GetDigits(if bNegative then 0 else cToken as int - '0' as int);
      t := Num(if bNegative then -n else n);
    }

    method ReadValue() returns (ok: bool, v: Value)
      modifies this
      ensures ok == Read(old(Text())).Ok?
      ensures ok ==> (v, Text()) == Read(old(Text())).value
      decreases |Text()|, 0
    {
      v := Bool(false);
      var token := ReadNextToken();
      match token {
        case True => v := Bool(true);
        case False => v := Bool(false);
        case Num(n) => v := Number(n);
        case Str(s) => v := String(s);
        case OpenArray =>
          ok, v := ReadArray();
          return;
        case OpenObject =>
          ok, v := ReadObject();
          return;
        case _ => return false, v;
      }
      ok := true;
    }

    method ReadArray() returns (ok: bool, v: Value)
      modifies this
      ensures ok == ReadItems(old(Text()), []).Ok?
      ensures ok ==> (v, Text()) == ReadItems(old(Text()), []).value
      decreases |Text()|, 1
    {
      var items: seq<Value> := [];
      v := Array(items);
      var token := Comma;
      ghost var whole := ReadItems(Text(), []);
      while token.Comma?
        invariant token.Comma? ==> |Text()| <= |old(Text())| && ReadItems(Text(), items) == whole
        invariant token.CloseArray? ==> whole == Ok((Array(items), Text()))
        invariant !token.Comma? && !token.CloseArray? ==> whole == Error
        decreases token.Comma?, |Text()|
      {
        var good, sub := ReadValue();
        if !good {
          return false, v;
        }
        items := items + [sub];
        token := ReadNextToken();
      }
      ok, v := token.CloseArray?, Array(items);
    }

    method ReadObject() returns (ok: bool, v: Value)
      modifies this
      ensures ok == ReadMembers(old(Text()), []).Ok?
      ensures ok ==> (v, Text()) == ReadMembers(old(Text()), []).value
      decreases |Text()|, 1
    {
      var members: seq<Member> := [];
      v := Object(members);
      var token := Comma;
      ghost var whole := ReadMembers(Text(), []);
      while token.Comma?
        invariant token.Comma? ==> |Text()| <= |old(Text())| && ReadMembers(Text(), members) == whole
        invariant token.CloseObject? ==> whole == Ok((Object(members), Text()))
        invariant !token.Comma? && !token.CloseObject? ==> whole == Error
        decreases token.Comma?, |Text()|
      {
        token := ReadNextToken();
        if !token.Str? {
          return false, v;
        }
        var key := token.s;
        token := ReadNextToken();
        if !token.Colon? {
          return false, v;
        }
        var good, sub := ReadValue();
        if !good {
          return false, v;
        }
        members := Insert(members, key, sub);
        token := ReadNextToken();
      }
      ok, v := token.CloseObject?, Object(members);
    }
  }

  lemma StringGoesOn(s: string, left: string)
    requires left != "" && left[0] != '"'
    ensures UpToQuote(left) == 1 + UpToQuote(left[1..]) && s + left == s + [left[0]] + left[1..]
  {
    Associates(s, [left[0]], left[1..]);
    assert left == [left[0]] + left[1..];
  }

  lemma StringEnds(s: string, left: string)
    requires left == "" || left[0] == '"'
    ensures UpToQuote(left) == 0 && (s + left)[..|s|] == s && (left != "" ==> (s + left)[|s| + 1..] == left[1..])
  {
  }

  datatype WriterState = SingleWrite | StreamClosed | StreamOpened

  /** `written` lists what a stream has been given since it was opened. */
  class JsonWriter {
    var file: string
    var eState: WriterState
    var bOneLinerStream: bool
    ghost var written: seq<Value>

    /** Closing an open stream now would complete the array of everything written. */
    ghost predicate Valid()
      reads this
    {
      match eState
      case SingleWrite => true
      case StreamClosed => written == []
      case StreamOpened =>
        written != []
        && file + Closing(bOneLinerStream, 0) == "[" + ArrayTail(Array(written), 0, bOneLinerStream, 0, true)
    }

    constructor (existing: string, bStreamMode: bool)
      ensures Valid() && file == existing && written == []
      ensures eState == if bStreamMode then StreamClosed else SingleWrite
    {
      file, bOneLinerStream, written := existing, true, [];
      eState := if bStreamMode then StreamClosed else SingleWrite;
    }

    /** `isOpen` says whether the file could be opened. */
    method Write(v: Value, isOpen: bool) returns (ok: bool)
      requires Valid()
      modifies this
      ensures Valid() && ok == isOpen
      ensures ok && old(eState).SingleWrite? ==> eState.SingleWrite? && file == Written(v, 0)
      ensures ok && old(eState).SingleWrite? ==> (JsonGrammar.ParseText(file) == Ok(v) <==> JsonGrammar.Plain(v))
      ensures ok && !old(eState).SingleWrite? ==> eState.StreamOpened? && written == old(written) + [v]
      ensures !ok ==> eState == old(eState) && file == old(file) && written == old(written)
                      && bOneLinerStream == old(bOneLinerStream)
    {
      if !isOpen {
        return false;
      }
      var single := eState.SingleWrite?;
      if eState.StreamOpened? {
        file := file + ",";
      } else {
        file := "";   // opening without append mode empties the file
        if eState.StreamClosed? {
          file := "[";
          bOneLinerStream := IsOneLiner(v);
          eState := StreamOpened;
        }
      }
      var iTab := 0;
      ghost var before := file;
      if eState.StreamOpened? {
        file := file + Align(false, bOneLinerStream, 0);
        iTab := 1;
      }
      WriteValue(v, iTab);
      if single {
        JsonGrammar.WrittenIsJsonIff(v);
      } else {
        StreamGrows(old(file), old(written), v, before, bOneLinerStream);
        written := written + [v];
      }
      ok := true;
    }

    /** What the destructor does; what it writes to a file that could not be opened is lost. */
    method Close(isOpen: bool)
      requires Valid()
      modifies this`file
      ensures file == if eState.StreamOpened? && isOpen
                      then "[" + ArrayTail(Array(written), 0, bOneLinerStream, 0, true) + "\n"
                      else old(file)
      ensures eState.StreamOpened? && isOpen ==>
                (JsonGrammar.ParseText(file) == Ok(Array(written)) <==> JsonGrammar.Plain(Array(written)))
    {
      JsonGrammar.StreamIsJsonIff(written, bOneLinerStream);
      if !eState.StreamOpened? || !isOpen {
        return;
      }
      file := file + Closing(bOneLinerStream, 0);
      file := file + "\n";
    }

    method WriteValue(v: Value, iTab: nat)
      modifies this`file
      ensures file == old(file) + Written(v, iTab)
      decreases v, 1
    {
      match v
      case Bool(flag) => file := file + if flag then "true" else "false";
      case Number(n) => file := file + Decimal(n);
      case String(s) => file := file + "\"" + s + "\"";
      case Array(_) => WriteArray(v, iTab);
      case Object(_) => WriteObject(v, iTab);
    }

    method WriteArray(v: Value, iTab: nat)
      requires v.Array?
      modifies this`file
      ensures file == old(file) + Written(v, iTab)
      decreases v, 0, 1
    {
      file := file + "[";
      var bOneLiner := |v.items| == 0 || v.items[0].Bool? || v.items[0].Number?;
      assert file + ArrayTail(v, 0, bOneLiner, iTab, false) == old(file) + Written(v, iTab) by { hide ArrayTail; }
      hide Written, ItemText, Closing, ArrayTail;
      for i := 0 to |v.items|
        invariant file + ArrayTail(v, i, bOneLiner, iTab, false) == old(file) + Written(v, iTab)
      {
        ArrayTailItem(v, i, bOneLiner, iTab, false);
        Associates(file, ItemText(v, i, bOneLiner, iTab, false), ArrayTail(v, i + 1, bOneLiner, iTab, false));
        WriteItem(v, i, bOneLiner, iTab);
      }
      ArrayTailEnd(v, bOneLiner, iTab, false);
      file := file + Closing(bOneLiner, iTab);
    }

    method WriteItem(v: Value, i: nat, bOneLiner: bool, iTab: nat)
      requires v.Array? && i < |v.items|
      modifies this`file
      ensures file == old(file) + ItemText(v, i, bOneLiner, iTab, false)
      decreases v, 0, 0
    {
      hide Written, Align;
      file := file + Align(i == 0, bOneLiner, iTab);
      WriteValue(v.items[i], iTab + 1);
      if i != |v.items| - 1 {
        file := file + ",";
      }
    }

    method WriteMember(v: Value, i: nat, iTab: nat)
      requires v.Object? && i < |v.members|
      modifies this`file
      ensures file == old(file) + MemberText(v, i, iTab)
      decreases v, 0, 0
    {
      hide Written, NextLine, IsOneLiner;
      var m := v.members[i];
      file := file + NextLine(iTab + 1);
      file := file + "\"" + m.key + "\":";
      if !IsOneLiner(m.value) {
        file := file + NextLine(iTab + 1);
      } else {
        file := file + " ";
      }
      assert file == old(file) + KeyText(m.key, IsOneLiner(m.value), iTab);
      WriteValue(m.value, iTab + 1);
      if i != |v.members| - 1 {
        file := file + ",";
      }
    }

    method WriteObject(v: Value, iTab: nat)
      requires v.Object?
      modifies this`file
      ensures file == old(file) + Written(v, iTab)
      decreases v, 0, 1
    {
      file := file + "{";
      assert file + ObjectTail(v, 0, iTab) == old(file) + Written(v, iTab) by { hide ObjectTail; }
      hide Written, MemberText, NextLine;
      for i := 0 to |v.members|
        invariant file + ObjectTail(v, i, iTab) == old(file) + Written(v, iTab)
      {
        Associates(file, MemberText(v, i, iTab), ObjectTail(v, i + 1, iTab));
        WriteMember(v, i, iTab);
      }
      assert file + (NextLine(iTab) + "}") == file + NextLine(iTab) + "}";
      file := file + NextLine(iTab);
      file := file + "}";
    }
  }

  lemma ArrayTailItem(v: Value, i: nat, oneLiner: bool, tab: nat, stream: bool)
    requires v.Array? && i < |v.items|
    ensures ArrayTail(v, i, oneLiner, tab, stream)
         == ItemText(v, i, oneLiner, tab, stream) + ArrayTail(v, i + 1, oneLiner, tab, stream)
  {
  }

  lemma ArrayTailStep(v: Value, i: nat, oneLiner: bool, tab: nat, stream: bool)
    requires v.Array? && i < |v.items|
    ensures ArrayTail(v, i, oneLiner, tab, stream)
         == (Align(i == 0 && !stream, oneLiner, tab) + Written(v.items[i], tab + 1) + Separator(i + 1 == |v.items|))
            + ArrayTail(v, i + 1, oneLiner, tab, stream)
  {
    hide Align, Written;
  }

  lemma ArrayTailEnd(v: Value, oneLiner: bool, tab: nat, stream: bool)
    requires v.Array?
    ensures ArrayTail(v, |v.items|, oneLiner, tab, stream) == Closing(oneLiner, tab)
  {
  }

  /** One more value, aligned and separated as Write does it, in a stream that can be closed. */
  lemma StreamGrows(file: string, written: seq<Value>, v: Value, before: string, oneLiner: bool)
    requires if written == [] then before == "["
             else before == file + ","
                  && file + Closing(oneLiner, 0) == "[" + ArrayTail(Array(written), 0, oneLiner, 0, true)
    ensures before + Align(false, oneLiner, 0) + Written(v, 1) + Closing(oneLiner, 0)
         == "[" + ArrayTail(Array(written + [v]), 0, oneLiner, 0, true)
  {
    hide Written, ArrayTail, Align, Closing;
    var item := Align(false, oneLiner, 0) + Written(v, 1) + Closing(oneLiner, 0);
    assert before + Align(false, oneLiner, 0) + Written(v, 1) + Closing(oneLiner, 0) == before + item;
    if written == [] {
      LastItem([], v, oneLiner);
    } else {
      var p := TailGrows(written, 0, v, oneLiner);
      assert "[" + (p + Closing(oneLiner, 0)) == ("[" + p) + Closing(oneLiner, 0);
      SameFront(file, "[" + p, Closing(oneLiner, 0));
      assert "[" + (p + "," + item) == "[" + p + "," + item;
    }
  }

  lemma SameFront(a: string, b: string, c: string)
    requires a + c == b + c
    ensures a == b
  {
    assert |a| == |b| && a == (a + c)[..|a|] && b == (b + c)[..|b|];
  }

  lemma LastItem(written: seq<Value>, v: Value, oneLiner: bool)
    ensures ArrayTail(Array(written + [v]), |written|, oneLiner, 0, true)
         == Align(false, oneLiner, 0) + Written(v, 1) + Closing(oneLiner, 0)
  {
    hide Written, Align, Closing;
    var a := Array(written + [v]);
    ArrayTailStep(a, |written|, oneLiner, 0, true);
    ArrayTailEnd(a, oneLiner, 0, true);
  }

  /** A longer stream agrees with a shorter one up to the latter's closing bracket. */
  lemma {:induction false} TailGrows(written: seq<Value>, i: nat, v: Value, oneLiner: bool) returns (p: string)
    requires i < |written|
    ensures ArrayTail(Array(written), i, oneLiner, 0, true) == p + Closing(oneLiner, 0)
    ensures ArrayTail(Array(written + [v]), i, oneLiner, 0, true)
         == p + "," + (Align(false, oneLiner, 0) + Written(v, 1) + Closing(oneLiner, 0))
    decreases |written| - i
  {
    hide Written, ArrayTail, Align, Closing;
    var a, b := Array(written), Array(written + [v]);
    var item := Align(false, oneLiner, 0) + Written(written[i], 1);
    assert b.items[i] == written[i];
    ArrayTailStep(a, i, oneLiner, 0, true);
    ArrayTailStep(b, i, oneLiner, 0, true);
    if i + 1 == |written| {
      p := item;
      ArrayTailEnd(a, oneLiner, 0, true);
      LastItem(written, v, oneLiner);
    } else {
      var q := TailGrows(written, i + 1, v, oneLiner);
      p := item + "," + q;
    }
  }

  /** A closed stream of at least one value reads back as the array of those values, exactly when each
      of them can be read back. */
  lemma StreamRoundTripIff(written: seq<Value>, oneLiner: bool)
    requires written != []
    ensures var v := Array(written);
      Read("[" + ArrayTail(v, 0, oneLiner, 0, true) + "\n") == Ok((v, "\n"))
      <==> JsonRoundTrip.Clean(v) && JsonRoundTrip.NoBool(v) && JsonRoundTrip.Ordered(v)
  {
    var v := Array(written);
    var tail := ArrayTail(v, 0, oneLiner, 0, true);
    JsonRoundTrip.ReadsGoodValues("[" + tail + "\n");
    if JsonRoundTrip.Good(v) {
      hide NextToken, ReadItems, ArrayTail;
      JsonRoundTrip.ReadArrayTail(v, 0, oneLiner, 0, true, "\n");
      assert "[" + tail + "\n" == ['['] + (tail + "\n") && v.items[..0] == [];
      JsonRoundTrip.Punctuation('[', tail + "\n");
    }
  }
}
