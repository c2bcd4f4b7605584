/** JSON values without floating point, and how they are printed. Strings are bytes. */
module JsonValues {
  import opened BitStrings

  type Text = seq<Byte>

  /** `Double` is a number the parser does not read as an int; its value is that of its literal. */
  datatype Json = Null | Bool(b: bool) | Int(n: int) | Double(literal: Text) | Str(text: Text)
                | Array(items: seq<Json>) | Object(fields: seq<Field>)

  /** The entries of an object are kept in the order of their keys. */
  datatype Field = Field(key: Text, value: Json)

  const INT_MIN: int := -0x8000_0000
  const INT_MAX: int := 0x7FFF_FFFF

  /** The order of `std::string`. */
  predicate Before(a: Text, b: Text) {
    if a == [] then b != []
    else b != [] && (a[0] < b[0] || (a[0] == b[0] && Before(a[1..], b[1..])))
  }

  predicate Sorted(fields: seq<Field>) {
    forall i, j :: 0 <= i < j < |fields| ==> Before(fields[i].key, fields[j].key)
  }

  /** A value built from null, booleans, ints, strings, arrays and maps. */
  predicate Plain(v: Json) {
    match v
    case Null => true
    case Bool(b) => true
    case Int(n) => INT_MIN <= n <= INT_MAX
    case Double(literal) => false
    case Str(text) => true
    case Array(items) => forall i :: 0 <= i < |items| ==> Plain(items[i])
    case Object(fields) => Sorted(fields) && forall i :: 0 <= i < |fields| ==> Plain(fields[i].value)
  }

  /** No node lies deeper than `depth`. */
  predicate Within(v: Json, depth: int) {
    depth >= 0 &&
    match v
    case Array(items) => forall i :: 0 <= i < |items| ==> Within(items[i], depth - 1)
    case Object(fields) => forall i :: 0 <= i < |fields| ==> Within(fields[i].value, depth - 1)
    case _ => true
  }

  /* Printing */

  const QUOTE: Byte := 34
  const BACKSLASH: Byte := 92
  const COMMA: Byte := 44
  const COLON: Byte := 58
  const SPACE: Byte := 32
  const MINUS: Byte := 45

  function Digit(n: nat): Byte
    requires n < 10
  {
    48 + n
  }

  function Digits(n: nat): (r: Text)
    ensures r != []
  {
    if n < 10 then [Digit(n)] else Digits(n / 10) + [Digit(n % 10)]
  }

  /** `%d` */
  function Decimal(n: int): Text {
    if n < 0 then [MINUS] + Digits(-n) else Digits(n)
  }

  function HexDigit(n: nat): Byte
    requires n < 16
  {
    if n < 10 then 48 + n else 87 + n
  }

  /** `\u%04x` for a control character */
  function Control(b: Byte): Text
    requires b < 32
  {
    [BACKSLASH, 117, 48, 48, HexDigit(b / 16), HexDigit(b % 16)]
  }

  /** A line or paragraph separator in UTF-8. */
  predicate Separator(text: Text) {
    |text| >= 3 && text[0] == 0xe2 && text[1] == 0x80 && (text[2] == 0xa8 || text[2] == 0xa9)
  }

  /** How one byte is printed, unless it begins a separator. */
  function DumpByte(b: Byte): Text {
    if b == BACKSLASH then [BACKSLASH, BACKSLASH]
    else if b == QUOTE then [BACKSLASH, QUOTE]
    else if b == 8 then [BACKSLASH, 98]
    else if b == 12 then [BACKSLASH, 102]
    else if b == 10 then [BACKSLASH, 110]
    else if b == 13 then [BACKSLASH, 114]
    else if b == 9 then [BACKSLASH, 116]
    else if b <= 0x1f then Control(b)
    else [b]
  }

  function DumpSeparator(b: Byte): Text {
    [BACKSLASH, 117, 50, 48, 50, if b == 0xa8 then 56 else 57]
  }

  function DumpBytes(text: Text): Text {
    if text == [] then []
    else if Separator(text) then DumpSeparator(text[2]) + DumpBytes(text[3..])
    else DumpByte(text[0]) + DumpBytes(text[1..])
  }

  function DumpText(text: Text): Text {
    [QUOTE] + DumpBytes(text) + [QUOTE]
  }

  function DumpBool(b: bool): Text {
    if b then [116, 114, 117, 101] else [102, 97, 108, 115, 101]
  }

  function Dump(v: Json): Text {
    match v
    case Null => [110, 117, 108, 108]
    case Bool(b) => DumpBool(b)
    case Int(n) => Decimal(n)
    case Double(literal) => literal
    case Str(text) => DumpText(text)
    case Array(items) => [91] + DumpItems(items) + [93]
    case Object(fields) => [123] + DumpFields(fields) + [125]
  }

  /** Separated by a comma and a space. */
  function DumpItems(items: seq<Json>): Text {
    if items == [] then [] else Dump(items[0]) + MoreItems(items[1..])
  }

  function MoreItems(items: seq<Json>): Text {
    if items == [] then [] else [COMMA, SPACE] + Dump(items[0]) + MoreItems(items[1..])
  }

  function DumpField(f: Field): Text {
    DumpText(f.key) + [COLON, SPACE] + Dump(f.value)
  }

  function DumpFields(fields: seq<Field>): Text {
    if fields == [] then [] else DumpField(fields[0]) + MoreFields(fields[1..])
  }

  function MoreFields(fields: seq<Field>): Text {
    if fields == [] then [] else [COMMA, SPACE] + DumpField(fields[0]) + MoreFields(fields[1..])
  }

  /* The loops that print */

  /** `str[i]`, which is 0 at the end of the string. */
  function Peek(text: Text, i: nat): Byte {
    if i < |text| then text[i] else 0
  }

  lemma NextBytes(text: Text, i: nat)
    requires i < |text|
    ensures text[i..] != [] && text[i..][0] == text[i] && text[i..][1..] == text[i + 1..]
    ensures Separator(text[i..]) <==> text[i] == 0xe2 && Peek(text, i + 1) == 0x80
                                      && (Peek(text, i + 2) == 0xa8 || Peek(text, i + 2) == 0xa9)
    ensures Separator(text[i..]) ==> i + 3 <= |text| && text[i..][3..] == text[i + 3..] && text[i..][2] == text[i + 2]
  {
  }

  method DumpTextTo(value: Text, out0: Text) returns (out: Text)
    ensures out == out0 + DumpText(value)
  {
    out := out0 + [QUOTE];
    ghost var start := out;
    var i := 0;
    assert value[0..] == value;
    while i < |value|
      invariant 0 <= i <= |value| && out + DumpBytes(value[i..]) == start + DumpBytes(value)
      decreases |value| - i
    {
      NextBytes(value, i);
      var ch := value[i];
      if ch == 0xe2 && Peek(value, i + 1) == 0x80 && Peek(value, i + 2) == 0xa8 {
        Reassociate(out, DumpSeparator(0xa8), DumpBytes(value[i + 3..]));
        out := out + [BACKSLASH, 117, 50, 48, 50, 56];
        i := i + 3;
      } else if ch == 0xe2 && Peek(value, i + 1) == 0x80 && Peek(value, i + 2) == 0xa9 {
        Reassociate(out, DumpSeparator(0xa9), DumpBytes(value[i + 3..]));
        out := out + [BACKSLASH, 117, 50, 48, 50, 57];
        i := i + 3;
      } else {
        Reassociate(out, DumpByte(ch), DumpBytes(value[i + 1..]));
        out := out + DumpByte(ch);
        i := i + 1;
      }
    }
    assert value[i..] == [] && out + [] == out;
    Reassociate(out0, [QUOTE], DumpBytes(value) + [QUOTE]);
    Reassociate(out0 + [QUOTE], DumpBytes(value), [QUOTE]);
    assert DumpText(value) == [QUOTE] + (DumpBytes(value) + [QUOTE]);
    out := out + [QUOTE];
  }

  lemma Reassociate(a: Text, b: Text, c: Text)
    ensures a + (b + c) == a + b + c
  {
  }

  /** Json::dump, appending to a buffer. */
  method DumpTo(v: Json, out0: Text) returns (out: Text)
    ensures out == out0 + Dump(v)
    decreases v
  {
    match v {
      case Null => out := out0 + [110, 117, 108, 108];
      case Bool(b) => out := out0 + DumpBool(b);
      case Int(n) => out := out0 + Decimal(n);
      case Double(literal) => out := out0 + literal;
      case Str(text) => out := DumpTextTo(text, out0);
      case Array(items) =>
        out := DumpItemsTo(v, items, out0 + [91]);
        out := out + [93];
        assert out == out0 + Dump(v);
      case Object(fields) =>
        out := DumpFieldsTo(v, fields, out0 + [123]);
        out := out + [125];
        assert out == out0 + Dump(v);
    }
  }

  function Comma(k: nat): Text {
    if k == 0 then [] else [COMMA, SPACE]
  }

  /** What is still to be printed when `k` items are. */
  function ItemsFrom(items: seq<Json>, k: nat): Text
    requires k <= |items|
  {
    if k == 0 then DumpItems(items) else MoreItems(items[k..])
  }

  lemma NextItem(items: seq<Json>, k: nat)
    requires k < |items|
    ensures ItemsFrom(items, k) == Comma(k) + Dump(items[k]) + ItemsFrom(items, k + 1)
  {
    assert k > 0 ==> items[k..][0] == items[k] && items[k..][1..] == items[k + 1..];
    assert k == 0 ==> [] + Dump(items[0]) == Dump(items[0]);
  }

  function FieldsFrom(fields: seq<Field>, k: nat): Text
    requires k <= |fields|
  {
    if k == 0 then DumpFields(fields) else MoreFields(fields[k..])
  }

  lemma NextField(fields: seq<Field>, k: nat)
    requires k < |fields|
    ensures FieldsFrom(fields, k) == Comma(k) + DumpField(fields[k]) + FieldsFrom(fields, k + 1)
  {
    assert k > 0 ==> fields[k..][0] == fields[k] && fields[k..][1..] == fields[k + 1..];
    assert k == 0 ==> [] + DumpField(fields[0]) == DumpField(fields[0]);
  }

  lemma Reassociate3(a: Text, b: Text, c: Text, d: Text)
    ensures a + (b + c + d) == a + b + c + d
  {
  }

  method DumpItemsTo(ghost v: Json, items: seq<Json>, out0: Text) returns (out: Text)
    requires v.Array? && v.items == items
    ensures out == out0 + DumpItems(items)
    decreases v, 0
  {
    out := out0;
    var first, k := true, 0;
    while k < |items|
      invariant 0 <= k <= |items| && (first <==> k == 0)
      invariant out + ItemsFrom(items, k) == out0 + DumpItems(items)
      invariant k == |items| ==> out == out0 + DumpItems(items)
    {
      ghost var before := out;
      if !first { out := out + [COMMA, SPACE]; }
      out := DumpTo(items[k], out);
      ItemPrinted(items, k, before, out, out0 + DumpItems(items));
      first := false;
      k := k + 1;
    }
  }

  lemma ItemPrinted(items: seq<Json>, k: nat, before: Text, after: Text, all: Text)
    requires k < |items| && before + ItemsFrom(items, k) == all && after == before + Comma(k) + Dump(items[k])
    ensures after + ItemsFrom(items, k + 1) == all
    ensures k + 1 == |items| ==> after == all
  {
    NextItem(items, k);
    Reassociate3(before, Comma(k), Dump(items[k]), ItemsFrom(items, k + 1));
    if k + 1 == |items| { assert ItemsFrom(items, k + 1) == [] && after + [] == after; }
  }

  lemma FieldPrinted(fields: seq<Field>, k: nat, before: Text, after: Text, all: Text)
    requires k < |fields| && before + FieldsFrom(fields, k) == all && after == before + Comma(k) + DumpField(fields[k])
    ensures after + FieldsFrom(fields, k + 1) == all
    ensures k + 1 == |fields| ==> after == all
  {
    NextField(fields, k);
    Reassociate3(before, Comma(k), DumpField(fields[k]), FieldsFrom(fields, k + 1));
    if k + 1 == |fields| { assert FieldsFrom(fields, k + 1) == [] && after + [] == after; }
  }

  method DumpFieldsTo(ghost v: Json, fields: seq<Field>, out0: Text) returns (out: Text)
    requires v.Object? && v.fields == fields
    ensures out == out0 + DumpFields(fields)
    decreases v, 0
  {
    out := out0;
    var first, k := true, 0;
    while k < |fields|
      invariant 0 <= k <= |fields| && (first <==> k == 0)
      invariant out + FieldsFrom(fields, k) == out0 + DumpFields(fields)
      invariant k == |fields| ==> out == out0 + DumpFields(fields)
    {
      ghost var before := out;
      if !first { out := out + [COMMA, SPACE]; }
      out := DumpFieldTo(fields[k], out);
      FieldPrinted(fields, k, before, out, out0 + DumpFields(fields));
      first := false;
      k := k + 1;
    }
  }

  method DumpFieldTo(f: Field, out0: Text) returns (out: Text)
    ensures out == out0 + DumpField(f)
    decreases f
  {
    out := DumpTextTo(f.key, out0);
    out := out + [COLON, SPACE];
    out := DumpTo(f.value, out);
    Reassociate3(out0, DumpText(f.key), [COLON, SPACE], Dump(f.value));
  }
}
