/** What the parser does with a text, as functions of the text and the position. */
module JsonGrammar {
  import opened BitStrings
  import opened JsonValues

  const MAX_DEPTH: int := 200

  datatype Option<+T> = None | Some(value: T)

  /* Between tokens */

  predicate Blank(b: Byte) {
    b == 32 || b == 13 || b == 10 || b == 9
  }

  function SkipBlanks(s: Text, i: nat): (r: nat)
    requires i <= |s|
    ensures i <= r <= |s|
    decreases |s| - i
  {
    if i < |s| && Blank(s[i]) then SkipBlanks(s, i + 1) else i
  }

  /** The end of a line comment: the next line feed, or the end of the input. */
  function SkipLine(s: Text, i: nat): (r: nat)
    requires i <= |s|
    ensures i <= r <= |s|
    decreases |s| - i
  {
    if i < |s| && s[i] != 10 then SkipLine(s, i + 1) else i
  }

  /** Just behind the end of a block comment, if it has one. */
  function SkipBlock(s: Text, i: nat): (r: Option<nat>)
    requires i <= |s|
    ensures r.Some? ==> i < r.value <= |s|
    decreases |s| - i
  {
    if i + 2 > |s| then None
    else if s[i] == 42 && s[i + 1] == 47 then Some(i + 2)
    else SkipBlock(s, i + 1)
  }

  /** A comment at `i`, if there is one: the position behind it, or nothing if it is malformed. */
  function SkipComment(s: Text, i: nat): (r: Option<nat>)
    requires i <= |s|
    ensures r.Some? ==> i <= r.value <= |s| && (r.value == i <==> Peek(s, i) != 47)
  {
    if Peek(s, i) != 47 then Some(i)
    else if i + 1 == |s| then None
    else if s[i + 1] == 47 then Some(SkipLine(s, i + 2))
    else if s[i + 1] == 42 then SkipBlock(s, i + 2)
    else None
  }

  function SkipComments(s: Text, i: nat): (r: Option<nat>)
    requires i <= |s|
    ensures r.Some? ==> i <= r.value <= |s|
    decreases |s| - i
  {
    var next := SkipComment(s, i);
    if next.None? then None
    else if next.value == i then Some(SkipBlanks(s, i))
    else SkipComments(s, SkipBlanks(s, next.value))
  }

  function Garbage(s: Text, i: nat, comments: bool): (r: Option<nat>)
    requires i <= |s|
    ensures r.Some? ==> i <= r.value <= |s|
  {
    if comments then SkipComments(s, SkipBlanks(s, i)) else Some(SkipBlanks(s, i))
  }

  /** The position of the next token. */
  function Token(s: Text, i: nat, comments: bool): (r: Option<nat>)
    requires i <= |s|
    ensures r.Some? ==> i <= r.value < |s|
  {
    var r := Garbage(s, i, comments);
    if r.None? || r.value == |s| then None else r
  }

  /* Strings */

  /** A code point in UTF-8; a negative one stands for none. */
  function EncodeUtf8(pt: int): Text {
    if pt < 0 then []
    else if pt < 0x80 then [pt]
    else if pt < 0x800 then [pt / 0x40 + 0xC0, pt % 0x40 + 0x80]
    else if pt < 0x10000 then [pt / 0x1000 + 0xE0, pt / 0x40 % 0x40 + 0x80, pt % 0x40 + 0x80]
    else [pt / 0x40000 % 8 + 0xF0, pt / 0x1000 % 0x40 + 0x80, pt / 0x40 % 0x40 + 0x80, pt % 0x40 + 0x80]
  }

  function HexValue(b: Byte): int {
    if 48 <= b <= 57 then b - 48 else if 65 <= b <= 70 then b - 55 else if 97 <= b <= 102 then b - 87 else -1
  }

  predicate HexAt(s: Text, i: nat) {
    i + 4 <= |s| && HexValue(s[i]) >= 0 && HexValue(s[i + 1]) >= 0 && HexValue(s[i + 2]) >= 0 && HexValue(s[i + 3]) >= 0
  }

  function CodePointAt(s: Text, i: nat): nat
    requires HexAt(s, i)
  {
    0x1000 * HexValue(s[i]) + 0x100 * HexValue(s[i + 1]) + 0x10 * HexValue(s[i + 2]) + HexValue(s[i + 3])
  }

  /** What the letter of a short escape stands for. */
  function Unescape(b: Byte): int {
    if b == 98 then 8 else if b == 102 then 12 else if b == 110 then 10 else if b == 114 then 13
    else if b == 116 then 9 else if b == QUOTE || b == BACKSLASH || b == 47 then b else -1
  }

  predicate LeadSurrogate(pt: int) {
    0xD800 <= pt <= 0xDBFF
  }

  predicate TrailSurrogate(pt: int) {
    0xDC00 <= pt <= 0xDFFF
  }

  /** The rest of a string: `out` is what is read of it, and `last` a code point that is held back because
      it might be the first half of a pair. The result is the string and the position behind it. */
  function StringFrom(s: Text, i: nat, out: Text, last: int): (r: Option<(Text, nat)>)
    requires i <= |s|
    ensures r.Some? ==> i < r.value.1 <= |s|
    decreases |s| - i
  {
    if i == |s| then None
    else if s[i] == QUOTE then Some((out + EncodeUtf8(last), i + 1))
    else if s[i] <= 0x1f then None
    else if s[i] != BACKSLASH then StringFrom(s, i + 1, out + EncodeUtf8(last) + [s[i]], -1)
    else if i + 1 == |s| then None
    else if s[i + 1] == 117 then
      if !HexAt(s, i + 2) then None else
      var pt := CodePointAt(s, i + 2);
      if LeadSurrogate(last) && TrailSurrogate(pt)
      then StringFrom(s, i + 6, out + EncodeUtf8((last - 0xD800) * 0x400 + (pt - 0xDC00) + 0x10000), -1)
      else StringFrom(s, i + 6, out + EncodeUtf8(last), pt)
    else if Unescape(s[i + 1]) < 0 then None
    else StringFrom(s, i + 2, out + EncodeUtf8(last) + [Unescape(s[i + 1])], -1)
  }

  /* Numbers */

  predicate IsDigit(b: Byte) {
    48 <= b <= 57
  }

  function SkipDigits(s: Text, i: nat): (r: nat)
    requires i <= |s|
    ensures i <= r <= |s|
    decreases |s| - i
  {
    if i < |s| && IsDigit(s[i]) then SkipDigits(s, i + 1) else i
  }

  /** The value of a run of digits. */
  function DigitsValue(text: Text): nat
    requires forall k :: 0 <= k < |text| ==> IsDigit(text[k])
  {
    if text == [] then 0 else
    var last: int := text[|text| - 1];
    assert IsDigit(text[|text| - 1]);
    DigitsValue(text[..|text| - 1]) * 10 + (last - 48)
  }

  lemma {:induction false} SkipDigitsAre(s: Text, i: nat)
    requires i <= |s|
    ensures forall k :: i <= k < SkipDigits(s, i) ==> IsDigit(s[k])
    decreases |s| - i
  {
    if i < |s| && IsDigit(s[i]) {
      SkipDigitsAre(s, i + 1);
    }
  }

  /** The end of the integer part: a sign, and a zero alone or digits that do not begin with one. */
  function IntegerEnd(s: Text, i: nat): (r: Option<nat>)
    requires i <= |s|
    ensures r.Some? ==> i < r.value <= |s|
  {
    var start := if Peek(s, i) == MINUS then i + 1 else i;
    if Peek(s, start) == 48 then (if IsDigit(Peek(s, start + 1)) then None else Some(start + 1))
    else if IsDigit(Peek(s, start)) then Some(SkipDigits(s, start + 1))
    else None
  }

  function FractionEnd(s: Text, i: nat): (r: Option<nat>)
    requires i <= |s|
    ensures r.Some? ==> i <= r.value <= |s|
  {
    if Peek(s, i) != 46 then Some(i)
    else if !IsDigit(Peek(s, i + 1)) then None
    else Some(SkipDigits(s, i + 1))
  }

  function ExponentEnd(s: Text, i: nat): (r: Option<nat>)
    requires i <= |s|
    ensures r.Some? ==> i <= r.value <= |s|
  {
    if Peek(s, i) != 101 && Peek(s, i) != 69 then Some(i) else
    var start := if Peek(s, i + 1) == 43 || Peek(s, i + 1) == MINUS then i + 2 else i + 1;
    if !IsDigit(Peek(s, start)) then None else Some(SkipDigits(s, start))
  }

  /** atoi, on the literal of an integer */
  function IntegerValue(text: Text): int
    requires forall k :: 0 <= k < |text| && !(k == 0 && text[0] == MINUS) ==> IsDigit(text[k])
  {
    if text != [] && text[0] == MINUS then 0 - DigitsValue(text[1..]) as int else DigitsValue(text)
  }

  lemma IntegerIs(s: Text, i: nat, e: nat)
    requires i <= |s| && IntegerEnd(s, i) == Some(e)
    ensures forall k :: 0 <= k < e - i && !(k == 0 && s[i..e][0] == MINUS) ==> IsDigit(s[i..e][k])
  {
    var start := if Peek(s, i) == MINUS then i + 1 else i;
    if Peek(s, start) != 48 {
      SkipDigitsAre(s, start + 1);
    }
  }

  /** A number: an int if it has no fraction or exponent and at most nine characters. */
  function NumberAt(s: Text, i: nat): (r: Option<(Json, nat)>)
    requires i <= |s|
    ensures r.Some? ==> i < r.value.1 <= |s|
  {
    var e := IntegerEnd(s, i);
    if e.None? then None else
    var next := Peek(s, e.value);
    IntegerIs(s, i, e.value);
    if next != 46 && next != 101 && next != 69 && e.value - i <= 9
    then Some((Int(IntegerValue(s[i..e.value])), e.value))
    else
      var f := FractionEnd(s, e.value);
      if f.None? then None else
      var x := ExponentEnd(s, f.value);
      if x.None? then None else Some((Double(s[i..x.value]), x.value))
  }

  /* Values */

  predicate At(s: Text, i: nat, t: Text) {
    i + |t| <= |s| && s[i..i + |t|] == t
  }

  lemma AtParts(s: Text, i: nat, a: Text, b: Text)
    requires At(s, i, a + b)
    ensures At(s, i, a) && At(s, i + |a|, b)
  {
    assert s[i..i + |a|] == s[i..i + |a + b|][..|a|] == a;
    assert s[i + |a|..i + |a| + |b|] == s[i..i + |a + b|][|a|..] == b;
  }

  lemma AtByte(s: Text, i: nat, t: Text, k: nat)
    requires At(s, i, t) && k < |t|
    ensures i + k < |s| && s[i + k] == t[k]
  {
    assert s[i..i + |t|][k] == s[i + k];
  }

  function Expect(s: Text, i: nat, expected: Text, v: Json): (r: Option<(Json, nat)>)
    requires expected != []
    ensures r.Some? ==> i < r.value.1 <= |s|
  {
    if At(s, i, expected) then Some((v, i + |expected|)) else None
  }

  /** `data[key] = value` on a map kept in the order of its keys. */
  function Assign(fields: seq<Field>, key: Text, value: Json): seq<Field> {
    if fields == [] then [Field(key, value)]
    else if fields[0].key == key then [Field(key, value)] + fields[1..]
    else if Before(key, fields[0].key) then [Field(key, value)] + fields
    else [fields[0]] + Assign(fields[1..], key, value)
  }

  /** parse_json */
  function ValueAt(s: Text, i: nat, depth: int, comments: bool): (r: Option<(Json, nat)>)
    requires i <= |s|
    ensures r.Some? ==> i < r.value.1 <= |s|
    decreases |s| - i, 4
  {
    if depth > MAX_DEPTH then None else
    var t := Token(s, i, comments);
    if t.None? then None else TokenAt(s, t.value, depth, comments)
  }

  /** The value that begins with the token at `i`. */
  function TokenAt(s: Text, i: nat, depth: int, comments: bool): (r: Option<(Json, nat)>)
    requires i < |s|
    ensures r.Some? ==> i < r.value.1 <= |s|
    decreases |s| - i, 3
  {
    if s[i] == 123 then ObjectAt(s, i, depth, comments)
    else if s[i] == 91 then ArrayAt(s, i, depth, comments)
    else LeafAt(s, i)
  }

  function LeafAt(s: Text, i: nat): (r: Option<(Json, nat)>)
    requires i < |s|
    ensures r.Some? ==> i < r.value.1 <= |s|
  {
    var ch := s[i];
    if ch == MINUS || IsDigit(ch) then NumberAt(s, i)
    else if ch == 116 then Expect(s, i, DumpBool(true), Bool(true))
    else if ch == 102 then Expect(s, i, DumpBool(false), Bool(false))
    else if ch == 110 then Expect(s, i, Dump(Null), Null)
    else if ch == QUOTE then
      var r := StringFrom(s, i + 1, [], -1);
      if r.None? then None else Some((Str(r.value.0), r.value.1))
    else None
  }

  function ObjectAt(s: Text, i: nat, depth: int, comments: bool): (r: Option<(Json, nat)>)
    requires i < |s|
    ensures r.Some? ==> i < r.value.1 <= |s|
    decreases |s| - i, 2
  {
    var t := Token(s, i + 1, comments);
    if t.None? then None
    else if s[t.value] == 125 then Some((Object([]), t.value + 1))
    else
      var r := FieldsAt(s, t.value, depth, comments, []);
      if r.None? then None else Some((Object(r.value.0), r.value.1))
  }

  function ArrayAt(s: Text, i: nat, depth: int, comments: bool): (r: Option<(Json, nat)>)
    requires i < |s|
    ensures r.Some? ==> i < r.value.1 <= |s|
    decreases |s| - i, 2
  {
    var t := Token(s, i + 1, comments);
    if t.None? then None
    else if s[t.value] == 93 then Some((Array([]), t.value + 1))
    else
      var r := ItemsAt(s, t.value, depth, comments, []);
      if r.None? then None else Some((Array(r.value.0), r.value.1))
  }

  /** The items from the token at `i` on, and the closing bracket. */
  function ItemsAt(s: Text, i: nat, depth: int, comments: bool, done: seq<Json>): (r: Option<(seq<Json>, nat)>)
    requires i < |s|
    ensures r.Some? ==> i < r.value.1 <= |s|
    decreases |s| - i, 5
  {
    var v := ValueAt(s, i, depth + 1, comments);
    if v.None? then None else
    var items := done + [v.value.0];
    var t := Token(s, v.value.1, comments);
    if t.None? then None
    else if s[t.value] == 93 then Some((items, t.value + 1))
    else if s[t.value] != COMMA then None
    else
      var next := Token(s, t.value + 1, comments);
      if next.None? then None else ItemsAt(s, next.value, depth, comments, items)
  }

  /** The entries from the token at `i` on, and the closing brace. */
  function FieldsAt(s: Text, i: nat, depth: int, comments: bool, done: seq<Field>): (r: Option<(seq<Field>, nat)>)
    requires i < |s|
    ensures r.Some? ==> i < r.value.1 <= |s|
    decreases |s| - i, 5
  {
    if s[i] != QUOTE then None else
    var key := StringFrom(s, i + 1, [], -1);
    if key.None? then None else
    var colon := Token(s, key.value.1, comments);
    if colon.None? || s[colon.value] != COLON then None else
    var v := ValueAt(s, colon.value + 1, depth + 1, comments);
    if v.None? then None else
    var fields := Assign(done, key.value.0, v.value.0);
    var t := Token(s, v.value.1, comments);
    if t.None? then None
    else if s[t.value] == 125 then Some((fields, t.value + 1))
    else if s[t.value] != COMMA then None
    else
      var next := Token(s, t.value + 1, comments);
      if next.None? then None else FieldsAt(s, next.value, depth, comments, fields)
  }

  /** Json::parse: one value, and nothing behind it. */
  function Parse(s: Text, comments: bool): Option<Json> {
    var r := ValueAt(s, 0, 0, comments);
    if r.None? then None else
    var e := Garbage(s, r.value.1, comments);
    if e == Some(|s|) then Some(r.value.0) else None
  }
}
