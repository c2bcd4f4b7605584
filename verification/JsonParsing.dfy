/** The index-driven parser, proved to do what the grammar says. */
module JsonParsing {
  import opened BitStrings
  import opened JsonValues
  import opened JsonGrammar
  import JsonDepth
  import JsonRoundTrip

  class JsonParser {
    const str: Text
    const comments: bool
    var i: nat
    var failed: bool

    predicate Valid()
      reads this
    {
      i <= |str|
    }

    constructor (text: Text, withComments: bool)
      ensures Valid() && str == text && comments == withComments && i == 0 && !failed
    {
      str, comments, i, failed := text, withComments, 0, false;
    }

    method ConsumeWhitespace()
      requires Valid()
      modifies this`i
      ensures Valid() && i == SkipBlanks(str, old(i))
    {
      while Blank(Peek(str, i))
        invariant Valid() && SkipBlanks(str, i) == SkipBlanks(str, old(i))
        decreases |str| - i
      {
        i := i + 1;
      }
    }

    method ConsumeComment() returns (found: bool)
      requires Valid()
      modifies this
      ensures old(i) <= i <= |str| && (old(failed) ==> failed) && (found ==> old(i) < i)
      ensures !old(failed) ==> (failed <==> SkipComment(str, old(i)).None?)
      ensures !failed ==> i == SkipComment(str, old(i)).value && (found <==> i != old(i))
    {
      found := false;
      if Peek(str, i) == 47 {
        i := i + 1;
        if i == |str| { failed := true; return false; }
        if str[i] == 47 {
          i := i + 1;
          while i < |str| && str[i] != 10
            invariant old(i) + 2 <= i <= |str| && SkipLine(str, i) == SkipLine(str, old(i) + 2)
            invariant failed == old(failed)
          {
            i := i + 1;
          }
          found := true;
        } else if str[i] == 42 {
          i := i + 1;
          if i > |str| - 2 { failed := true; return false; }
          while !(str[i] == 42 && str[i + 1] == 47)
            invariant old(i) + 2 <= i <= |str| - 2 && SkipBlock(str, i) == SkipBlock(str, old(i) + 2)
            invariant failed == old(failed)
            decreases |str| - i
          {
            i := i + 1;
            if i > |str| - 2 { failed := true; return false; }
          }
          i := i + 2;
          found := true;
        } else {
          failed := true;
        }
      }
    }

    method ConsumeGarbage()
      requires Valid()
      modifies this
      ensures old(i) <= i <= |str| && (old(failed) ==> failed)
      ensures !old(failed) ==> (failed <==> Garbage(str, old(i), comments).None?)
      ensures !failed ==> i == Garbage(str, old(i), comments).value
    {
      ConsumeWhitespace();
      if comments {
        var found := true;
        while found
          invariant old(i) <= i <= |str| && (old(failed) ==> failed)
          invariant !old(failed) ==> !failed
          invariant !failed && found ==> SkipComments(str, i) == Garbage(str, old(i), comments)
          invariant !failed && !found ==> Garbage(str, old(i), comments) == Some(i)
          decreases |str| - i, if found then 1 else 0
        {
          found := ConsumeComment();
          if failed { return; }
          ConsumeWhitespace();
        }
      }
    }

    /** The next token, or 0 if there is none. */
    method GetNextToken() returns (ch: Byte)
      requires Valid()
      modifies this
      ensures old(i) <= i <= |str| && (old(failed) ==> failed) && (failed ==> ch == 0)
      ensures !old(failed) ==> (failed <==> Token(str, old(i), comments).None?)
      ensures !failed ==> i == Token(str, old(i), comments).value + 1 && ch == str[i - 1] && old(i) < i
    {
      ConsumeGarbage();
      if failed { return 0; }
      if i == |str| { failed := true; return 0; }
      i := i + 1;
      return str[i - 1];
    }

    method ParseString() returns (out: Text)
      requires Valid() && !failed
      modifies this
      ensures old(i) <= i <= |str|
      ensures failed <==> StringFrom(str, old(i), [], -1).None?
      ensures !failed ==> StringFrom(str, old(i), [], -1) == Some((out, i))
    {
      hide EncodeUtf8, CodePointAt, HexValue;
      out := [];
      var last: int := -1;
      while true
        invariant old(i) <= i <= |str| && !failed
        invariant StringFrom(str, i, out, last) == StringFrom(str, old(i), [], -1)
        decreases |str| - i
      {
        if i == |str| { failed := true; return; }
        var ch := str[i];
        i := i + 1;
        if ch == QUOTE {
          out := out + EncodeUtf8(last);
          return;
        }
        if ch <= 0x1f { failed := true; return; }
        if ch != BACKSLASH {
          out, last := out + EncodeUtf8(last) + [ch], -1;
          continue;
        }
        if i == |str| { failed := true; return; }
        ch := str[i];
        i := i + 1;
        if ch == 117 {
          if !HexAt(str, i) { failed := true; return; }
          var pt := CodePointAt(str, i);
          if LeadSurrogate(last) && TrailSurrogate(pt) {
            out, last := out + EncodeUtf8((last - 0xD800) * 0x400 + (pt - 0xDC00) + 0x10000), -1;
          } else {
            out, last := out + EncodeUtf8(last), pt;
          }
          i := i + 4;
          continue;
        }
        out, last := out + EncodeUtf8(last), -1;
        if Unescape(ch) < 0 { failed := true; return; }
        out := out + [Unescape(ch)];
      }
    }

    method ConsumeDigits()
      requires Valid()
      modifies this`i
      ensures Valid() && i == SkipDigits(str, old(i))
    {
      while IsDigit(Peek(str, i))
        invariant Valid() && SkipDigits(str, i) == SkipDigits(str, old(i))
        decreases |str| - i
      {
        i := i + 1;
      }
    }

    method ParseNumber() returns (v: Json)
      requires Valid() && !failed
      modifies this
      ensures old(i) <= i <= |str|
      ensures failed <==> NumberAt(str, old(i)).None?
      ensures !failed ==> NumberAt(str, old(i)) == Some((v, i))
    {
      v := Null;
      var start := i;
      if Peek(str, i) == MINUS { i := i + 1; }
      if Peek(str, i) == 48 {
        i := i + 1;
        if IsDigit(Peek(str, i)) { failed := true; return; }
      } else if IsDigit(Peek(str, i)) {
        i := i + 1;
        ConsumeDigits();
      } else {
        failed := true;
        return;
      }
      assert IntegerEnd(str, start) == Some(i);
      IntegerIs(str, start, i);
      if Peek(str, i) != 46 && Peek(str, i) != 101 && Peek(str, i) != 69 && i - start <= 9 {
        return Int(IntegerValue(str[start..i]));
      }
      ParseFraction();
      if failed { return; }
      ParseExponent();
      if failed { return; }
      v := Double(str[start..i]);
    }

    method ParseFraction()
      requires Valid() && !failed
      modifies this
      ensures old(i) <= i <= |str|
      ensures failed <==> FractionEnd(str, old(i)).None?
      ensures !failed ==> FractionEnd(str, old(i)) == Some(i)
    {
      if Peek(str, i) == 46 {
        i := i + 1;
        if !IsDigit(Peek(str, i)) { failed := true; return; }
        ConsumeDigits();
      }
    }

    method ParseExponent()
      requires Valid() && !failed
      modifies this
      ensures old(i) <= i <= |str|
      ensures failed <==> ExponentEnd(str, old(i)).None?
      ensures !failed ==> ExponentEnd(str, old(i)) == Some(i)
    {
      if Peek(str, i) == 101 || Peek(str, i) == 69 {
        i := i + 1;
        if Peek(str, i) == 43 || Peek(str, i) == MINUS { i := i + 1; }
        if !IsDigit(Peek(str, i)) { failed := true; return; }
        ConsumeDigits();
      }
    }

    method Expect(expected: Text, res: Json) returns (v: Json)
      requires Valid() && !failed && i > 0 && expected != []
      modifies this
      ensures old(i) - 1 <= i <= |str|
      ensures failed <==> JsonGrammar.Expect(str, old(i) - 1, expected, res).None?
      ensures !failed ==> JsonGrammar.Expect(str, old(i) - 1, expected, res) == Some((v, i))
    {
      i := i - 1;
      if At(str, i, expected) {
        i := i + |expected|;
        return res;
      }
      failed := true;
      return Null;
    }

    /** parse_json; after a failure it may be called once more, and fails. */
    method ParseJson(depth: int) returns (v: Json)
      requires Valid()
      modifies this
      ensures old(i) <= i <= |str| && (old(failed) ==> failed)
      ensures !old(failed) ==> (failed <==> ValueAt(str, old(i), depth, comments).None?)
      ensures !failed ==> ValueAt(str, old(i), depth, comments) == Some((v, i))
      decreases |str| - i, if failed then 0 else 3
    {
      if depth > MAX_DEPTH { failed := true; return Null; }
      var ch := GetNextToken();
      if failed { return Null; }
      if ch == 123 {
        v := ParseObject(depth);
      } else if ch == 91 {
        v := ParseArray(depth);
      } else {
        v := ParseLeaf(ch);
      }
    }

    method ParseLeaf(ch: Byte) returns (v: Json)
      requires Valid() && !failed && i > 0 && ch == str[i - 1]
      modifies this
      ensures old(i) - 1 <= i <= |str| && (!failed ==> old(i) <= i)
      ensures failed <==> LeafAt(str, old(i) - 1).None?
      ensures !failed ==> LeafAt(str, old(i) - 1) == Some((v, i))
    {
      if ch == MINUS || IsDigit(ch) {
        i := i - 1;
        v := ParseNumber();
      } else if ch == 116 {
        v := Expect(DumpBool(true), Bool(true));
      } else if ch == 102 {
        v := Expect(DumpBool(false), Bool(false));
      } else if ch == 110 {
        v := Expect(Dump(Null), Null);
      } else if ch == QUOTE {
        var text := ParseString();
        v := Str(text);
      } else {
        failed := true;
        v := Null;
      }
    }

    /** One item of an array and the token behind it; after a failure it fails again. */
    method ParseItem(depth: int) returns (item: Json, ch: Byte)
      requires Valid() && i > 0
      modifies this
      ensures old(i) - 1 <= i <= |str| && (old(failed) ==> failed) && (!failed ==> old(i) < i)
      ensures !old(failed) ==> (failed <==> ItemTurn(str, old(i) - 1, depth, comments).None?)
      ensures !failed ==> ItemTurn(str, old(i) - 1, depth, comments) == Some((item, i - 1)) && ch == str[i - 1]
      decreases |str| - (i - 1), if failed then 1 else 4
    {
      ch := 0;
      i := i - 1;
      item := ParseJson(depth + 1);
      if failed { return; }
      ch := GetNextToken();
    }

    /** The part of parse_json behind an opening bracket. */
    method ParseArray(depth: int) returns (v: Json)
      requires Valid() && !failed && i > 0
      modifies this
      ensures old(i) - 1 <= i <= |str|
      ensures failed <==> ArrayAt(str, old(i) - 1, depth, comments).None?
      ensures !failed ==> ArrayAt(str, old(i) - 1, depth, comments) == Some((v, i))
      decreases |str| - (i - 1), 2
    {
      hide ArrayAt, ArrayFrom, ItemTurn;
      v := Null;
      ghost var start := i - 1;
      var data := [];
      ArrayStart(str, start, depth, comments);
      var ch := GetNextToken();
      if ch == 93 && !failed { return Array([]); }
      while true
        invariant start < i <= |str|
        invariant failed ==> ArrayAt(str, start, depth, comments).None?
        invariant !failed ==> start + 1 < i
        invariant !failed ==> ArrayAt(str, start, depth, comments) == ArrayFrom(str, i - 1, depth, comments, data)
        decreases |str| - i, if failed then 0 else 1
      {
        ghost var before := i - 1;
        var item;
        item, ch := ParseItem(depth);
        ArrayTurn(str, before, depth, comments, data);
        if failed { return Null; }
        data := data + [item];
        if ch == 93 { return Array(data); }
        if ch != COMMA { failed := true; return Null; }
        ch := GetNextToken();
      }
    }

    /** One entry of an object, from the token read last, and the token behind it. */
    method ParseField(depth: int, first: Byte) returns (key: Text, value: Json, ch: Byte)
      requires Valid() && !failed && i > 0 && first == str[i - 1]
      modifies this
      ensures old(i) <= i <= |str| && (!failed ==> old(i) < i)
      ensures failed <==> FieldTurn(str, old(i) - 1, depth, comments).None?
      ensures !failed ==> FieldTurn(str, old(i) - 1, depth, comments) == Some((key, value, i - 1)) && ch == str[i - 1]
      decreases |str| - (i - 1), 1
    {
      hide StringFrom, Token, ValueAt;
      key, value, ch := [], Null, first;
      if ch != QUOTE { failed := true; return; }
      key := ParseString();
      if failed { return; }
      ch := GetNextToken();
      if ch != COLON || failed { failed := true; return; }
      value := ParseJson(depth + 1);
      if failed { return; }
      ch := GetNextToken();
    }

    /** The part of parse_json behind an opening brace. */
    method ParseObject(depth: int) returns (v: Json)
      requires Valid() && !failed && i > 0
      modifies this
      ensures old(i) <= i <= |str|
      ensures failed <==> ObjectAt(str, old(i) - 1, depth, comments).None?
      ensures !failed ==> ObjectAt(str, old(i) - 1, depth, comments) == Some((v, i))
      decreases |str| - (i - 1), 2
    {
      hide ObjectAt, ObjectFrom, FieldTurn;
      v := Null;
      ghost var start := i - 1;
      var data := [];
      ObjectStart(str, start, depth, comments);
      var ch := GetNextToken();
      if ch == 125 && !failed { return Object([]); }
      while !failed
        invariant start < i <= |str|
        invariant failed ==> ObjectAt(str, start, depth, comments).None?
        invariant !failed ==> start + 1 < i && ch == str[i - 1]
        invariant !failed ==> ObjectAt(str, start, depth, comments) == ObjectFrom(str, i - 1, depth, comments, data)
        decreases |str| - i, if failed then 0 else 1
      {
        ghost var before := i - 1;
        var key, value;
        key, value, ch := ParseField(depth, ch);
        ObjectTurn(str, before, depth, comments, data);
        if failed { return Null; }
        data := Assign(data, key, value);
        if ch == 125 { return Object(data); }
        if ch != COMMA { failed := true; return Null; }
        ch := GetNextToken();
      }
    }
  }

  /** A value and the position of the token behind it. */
  function ItemTurn(s: Text, i: nat, depth: int, comments: bool): (r: Option<(Json, nat)>)
    requires i <= |s|
    ensures r.Some? ==> i < r.value.1 < |s|
  {
    var v := ValueAt(s, i, depth + 1, comments);
    if v.None? then None else
    var t := Token(s, v.value.1, comments);
    if t.None? then None else Some((v.value.0, t.value))
  }

  /** The array whose items up to `i` are `done`. */
  function ArrayFrom(s: Text, i: nat, depth: int, comments: bool, done: seq<Json>): (r: Option<(Json, nat)>)
    requires i < |s|
  {
    var r := ItemsAt(s, i, depth, comments, done);
    if r.None? then None else Some((Array(r.value.0), r.value.1))
  }

  lemma ArrayStart(s: Text, i: nat, depth: int, comments: bool)
    requires i < |s|
    ensures var t := Token(s, i + 1, comments);
      ArrayAt(s, i, depth, comments) ==
      if t.None? then None
      else if s[t.value] == 93 then Some((Array([]), t.value + 1))
      else ArrayFrom(s, t.value, depth, comments, [])
  {
  }

  lemma ArrayTurn(s: Text, i: nat, depth: int, comments: bool, done: seq<Json>)
    requires i < |s|
    ensures var turn := ItemTurn(s, i, depth, comments);
      ArrayFrom(s, i, depth, comments, done) ==
      if turn.None? then None
      else if s[turn.value.1] == 93 then Some((Array(done + [turn.value.0]), turn.value.1 + 1))
      else if s[turn.value.1] != COMMA then None
      else
        var next := Token(s, turn.value.1 + 1, comments);
        if next.None? then None else ArrayFrom(s, next.value, depth, comments, done + [turn.value.0])
  {
    hide SkipComments, SkipBlanks, LeafAt;
  }

  /** A key, its value and the position of the token behind them. */
  function FieldTurn(s: Text, i: nat, depth: int, comments: bool): (r: Option<(Text, Json, nat)>)
    requires i < |s|
    ensures r.Some? ==> i < r.value.2 < |s|
  {
    if s[i] != QUOTE then None else
    var key := StringFrom(s, i + 1, [], -1);
    if key.None? then None else
    var colon := Token(s, key.value.1, comments);
    if colon.None? || s[colon.value] != COLON then None else
    var turn := ItemTurn(s, colon.value + 1, depth, comments);
    if turn.None? then None else Some((key.value.0, turn.value.0, turn.value.1))
  }

  /** The object whose entries up to `i` are `done`. */
  function ObjectFrom(s: Text, i: nat, depth: int, comments: bool, done: seq<Field>): (r: Option<(Json, nat)>)
    requires i < |s|
  {
    var r := FieldsAt(s, i, depth, comments, done);
    if r.None? then None else Some((Object(r.value.0), r.value.1))
  }

  lemma ObjectStart(s: Text, i: nat, depth: int, comments: bool)
    requires i < |s|
    ensures var t := Token(s, i + 1, comments);
      ObjectAt(s, i, depth, comments) ==
      if t.None? then None
      else if s[t.value] == 125 then Some((Object([]), t.value + 1))
      else ObjectFrom(s, t.value, depth, comments, [])
  {
  }

  lemma ObjectTurn(s: Text, i: nat, depth: int, comments: bool, done: seq<Field>)
    requires i < |s|
    ensures var turn := FieldTurn(s, i, depth, comments);
      ObjectFrom(s, i, depth, comments, done) ==
      if turn.None? then None
      else if s[turn.value.2] == 125 then Some((Object(Assign(done, turn.value.0, turn.value.1)), turn.value.2 + 1))
      else if s[turn.value.2] != COMMA then None
      else
        var next := Token(s, turn.value.2 + 1, comments);
        if next.None? then None
        else ObjectFrom(s, next.value, depth, comments, Assign(done, turn.value.0, turn.value.1))
  {
    hide Garbage, ValueAt;
  }

  /** Json::parse */
  method Parse(text: Text, comments: bool) returns (r: Option<Json>)
    ensures r == JsonGrammar.Parse(text, comments)
  {
    var parser := new JsonParser(text, comments);
    var v := parser.ParseJson(0);
    parser.ConsumeGarbage();
    if parser.failed || parser.i != |text| { return None; }
    return Some(v);
  }

  /** What dump() writes, parse() reads back as an equal value, unless it is nested too deeply. */
  method ParseDumped(v: Json, comments: bool) returns (r: Option<Json>)
    requires Plain(v)
    ensures r.Some? <==> Within(v, MAX_DEPTH)
    ensures r.Some? ==> JsonRoundTrip.Equal(v, r.value)
  {
    hide Dump, Plain, Within, JsonGrammar.Parse;
    var text := DumpTo(v, []);
    assert text == Dump(v);
    r := Parse(text, comments);
    JsonDepth.ParsesWithinDepth(v, comments);
    if Within(v, MAX_DEPTH) { JsonRoundTrip.ParseOfDump(v, comments); }
  }
}
