/** Parsing what was printed gives an equal value and uses up the whole text. */
module JsonRoundTrip {
  import opened BitStrings
  import opened JsonValues
  import opened JsonGrammar

  /* Equality of values, as `Json::operator==` */

  predicate IntegerLiteral(text: Text) {
    text != [] && forall k :: 0 <= k < |text| && !(k == 0 && text[0] == MINUS) ==> IsDigit(text[k])
  }

  /** Numbers compare by value, however they are stored. */
  predicate HasValue(v: Json, n: int) {
    match v
    case Int(m) => m == n
    case Double(literal) => IntegerLiteral(literal) && IntegerValue(literal) == n
    case _ => false
  }

  predicate Equal(v: Json, w: Json) {
    match v
    case Null => w.Null?
    case Bool(b) => w == Bool(b)
    case Int(n) => HasValue(w, n)
    case Double(literal) => w == v || (w.Int? && HasValue(v, w.n))
    case Str(text) => w == Str(text)
    case Array(items) =>
      w.Array? && |items| == |w.items| && forall i :: 0 <= i < |items| ==> Equal(items[i], w.items[i])
    case Object(fields) =>
      && w.Object? && |fields| == |w.fields|
      && forall i :: 0 <= i < |fields| ==> fields[i].key == w.fields[i].key && Equal(fields[i].value, w.fields[i].value)
  }

  /* Tokens */

  /** A byte that begins a token, and neither blanks nor a comment. */
  predicate TokenByte(b: Byte) {
    !Blank(b) && b != 47
  }

  lemma TokenHere(s: Text, i: nat, comments: bool)
    requires i < |s| && TokenByte(s[i])
    ensures Token(s, i, comments) == Some(i)
  {
  }

  lemma TokenNext(s: Text, i: nat, comments: bool)
    requires i + 1 < |s| && s[i] == SPACE && TokenByte(s[i + 1])
    ensures Token(s, i, comments) == Some(i + 1)
  {
    assert SkipBlanks(s, i + 1) == i + 1;
  }

  /** What may stand behind a printed value. */
  predicate Ends(s: Text, i: nat) {
    i == |s| || (i < |s| && (s[i] == COMMA || s[i] == 93 || s[i] == 125))
  }

  /* Strings */

  lemma HexDigitIs(n: nat)
    requires n < 16
    ensures HexValue(HexDigit(n)) == n
  {
  }

  /** A byte printed as its number is read as a code point, and held back. */
  lemma EscapeReads(s: Text, i: nat, b: Byte, out: Text, last: int)
    requires At(s, i, DumpByte(b)) && last < 0xD800 && |DumpByte(b)| == 6
    ensures StringFrom(s, i, out, last) == StringFrom(s, i + 6, out + EncodeUtf8(last), b)
    ensures EncodeUtf8(b) == [b]
  {
    var d := DumpByte(b);
    AtByte(s, i, d, 0);
    AtByte(s, i, d, 1);
    AtByte(s, i, d, 2);
    AtByte(s, i, d, 3);
    AtByte(s, i, d, 4);
    AtByte(s, i, d, 5);
    HexDigitIs(b / 16);
    HexDigitIs(b % 16);
  }

  lemma PlainByteReads(s: Text, i: nat, b: Byte, out: Text, last: int)
    requires At(s, i, DumpByte(b)) && last < 0xD800 && |DumpByte(b)| != 6
    ensures StringFrom(s, i, out, last)
         == StringFrom(s, i + |DumpByte(b)|, out + EncodeUtf8(last) + [b], -1)
  {
    hide EncodeUtf8;
    var d := DumpByte(b);
    AtByte(s, i, d, 0);
    if |d| >= 2 { AtByte(s, i, d, 1); }
  }

  /** One printed byte is read back; the code point before it is let go, and the byte itself may be held back. */
  lemma ByteReads(s: Text, i: nat, b: Byte, out: Text, last: int) returns (out': Text, last': int)
    requires At(s, i, DumpByte(b)) && last < 0xD800
    ensures StringFrom(s, i, out, last) == StringFrom(s, i + |DumpByte(b)|, out', last')
    ensures out' + EncodeUtf8(last') == out + EncodeUtf8(last) + [b] && last' < 0xD800
  {
    hide StringFrom, DumpByte;
    if |DumpByte(b)| == 6 {
      EscapeReads(s, i, b, out, last);
      out', last' := out + EncodeUtf8(last), b;
    } else {
      PlainByteReads(s, i, b, out, last);
      out', last' := out + EncodeUtf8(last) + [b], -1;
      assert out' + [] == out';
    }
  }

  function SeparatorPoint(b: Byte): int {
    0x1F80 + b as int
  }

  lemma SeparatorReads(s: Text, i: nat, b: Byte, out: Text, last: int)
    requires At(s, i, DumpSeparator(b)) && (b == 0xa8 || b == 0xa9) && last < 0xD800
    ensures StringFrom(s, i, out, last) == StringFrom(s, i + 6, out + EncodeUtf8(last), SeparatorPoint(b))
    ensures EncodeUtf8(SeparatorPoint(b)) == [0xe2, 0x80, b]
  {
    var d := DumpSeparator(b);
    AtByte(s, i, d, 0);
    AtByte(s, i, d, 1);
    AtByte(s, i, d, 2);
    AtByte(s, i, d, 3);
    AtByte(s, i, d, 4);
    AtByte(s, i, d, 5);
  }

  lemma Rejoin(a: Text, b: Text, c: Text, all: Text)
    requires all == b + c
    ensures a + b + c == a + all && a + [] == a
  {
  }

  /** The first separator or byte of a printed string is read; `rest` is still to come. */
  lemma FirstRead(s: Text, i: nat, value: Text, out: Text, last: int)
    returns (next: nat, rest: Text, out': Text, last': int)
    requires At(s, i, DumpBytes(value) + [QUOTE]) && last < 0xD800 && value != []
    ensures next <= |s| && StringFrom(s, i, out, last) == StringFrom(s, next, out', last')
    ensures At(s, next, DumpBytes(rest) + [QUOTE]) && next + |DumpBytes(rest)| == i + |DumpBytes(value)|
    ensures out' + EncodeUtf8(last') + rest == out + EncodeUtf8(last) + value
    ensures |rest| < |value| && last' < 0xD800
  {
    if Separator(value) {
      next, rest, out', last' := SeparatorFirst(s, i, value, out, last);
    } else {
      next, rest, out', last' := ByteFirst(s, i, value, out, last);
    }
  }

  /** With a code point held back, the rest of a printed string is read back. */
  lemma {:induction false} BytesRead(s: Text, i: nat, value: Text, out: Text, last: int)
    requires At(s, i, DumpBytes(value) + [QUOTE]) && last < 0xD800
    ensures StringFrom(s, i, out, last) == Some((out + EncodeUtf8(last) + value, i + |DumpBytes(value)| + 1))
    decreases |value|
  {
    if value == [] {
      AtByte(s, i, DumpBytes(value) + [QUOTE], 0);
      assert out + EncodeUtf8(last) + [] == out + EncodeUtf8(last);
    } else {
      var next, rest, out', last' := FirstRead(s, i, value, out, last);
      BytesRead(s, next, rest, out', last');
    }
  }

  lemma SeparatorFirst(s: Text, i: nat, value: Text, out: Text, last: int)
    returns (next: nat, rest: Text, out': Text, last': int)
    requires At(s, i, DumpBytes(value) + [QUOTE]) && last < 0xD800 && Separator(value)
    ensures next <= |s| && StringFrom(s, i, out, last) == StringFrom(s, next, out', last')
    ensures At(s, next, DumpBytes(rest) + [QUOTE]) && next + |DumpBytes(rest)| == i + |DumpBytes(value)|
    ensures out' + EncodeUtf8(last') + rest == out + EncodeUtf8(last) + value
    ensures |rest| < |value| && last' < 0xD800
  {
    next, rest, out', last' := i + 6, value[3..], out + EncodeUtf8(last), SeparatorPoint(value[2]);
    assert DumpBytes(value) + [QUOTE] == DumpSeparator(value[2]) + (DumpBytes(rest) + [QUOTE]);
    AtParts(s, i, DumpSeparator(value[2]), DumpBytes(rest) + [QUOTE]);
    SeparatorReads(s, i, value[2], out, last);
    Rejoin(out', [0xe2, 0x80, value[2]], rest, value);
  }

  lemma ByteFirst(s: Text, i: nat, value: Text, out: Text, last: int)
    returns (next: nat, rest: Text, out': Text, last': int)
    requires At(s, i, DumpBytes(value) + [QUOTE]) && last < 0xD800 && value != [] && !Separator(value)
    ensures next <= |s| && StringFrom(s, i, out, last) == StringFrom(s, next, out', last')
    ensures At(s, next, DumpBytes(rest) + [QUOTE]) && next + |DumpBytes(rest)| == i + |DumpBytes(value)|
    ensures out' + EncodeUtf8(last') + rest == out + EncodeUtf8(last) + value
    ensures |rest| < |value| && last' < 0xD800
  {
    var d := DumpByte(value[0]);
    next, rest := i + |d|, value[1..];
    BytesSplit(value, d, DumpBytes(rest) + [QUOTE]);
    AtParts(s, i, d, DumpBytes(rest) + [QUOTE]);
    out', last' := ByteReads(s, i, value[0], out, last);
    Rejoin(out + EncodeUtf8(last), [value[0]], rest, value);
  }

  lemma BytesSplit(value: Text, d: Text, rest: Text)
    requires value != [] && !Separator(value) && d == DumpByte(value[0]) && rest == DumpBytes(value[1..]) + [QUOTE]
    ensures DumpBytes(value) + [QUOTE] == d + rest && |DumpBytes(value)| + 1 == |d| + |rest|
  {
  }

  lemma TextReads(s: Text, i: nat, value: Text)
    requires At(s, i, DumpText(value))
    ensures i < |s| && s[i] == QUOTE
    ensures StringFrom(s, i + 1, [], -1) == Some((value, i + |DumpText(value)|))
  {
    hide StringFrom, DumpBytes;
    var d := DumpBytes(value) + [QUOTE];
    assert DumpText(value) == [QUOTE] + d;
    AtParts(s, i, [QUOTE], d);
    AtByte(s, i, [QUOTE], 0);
    BytesRead(s, i + 1, value, [], -1);
    assert [] + [] + value == value;
  }

  /* Numbers */

  predicate AllDigits(text: Text) {
    forall k :: 0 <= k < |text| ==> IsDigit(text[k])
  }

  lemma {:induction false} DigitsAre(n: nat)
    ensures AllDigits(Digits(n)) && DigitsValue(Digits(n)) == n
    ensures n > 0 ==> Digits(n)[0] != 48
  {
    if n >= 10 {
      DigitsAre(n / 10);
      assert Digits(n)[..|Digits(n)| - 1] == Digits(n / 10);
    } else {
      assert Digits(n)[..0] == [];
    }
  }

  lemma {:induction false} SkipRun(s: Text, i: nat, text: Text)
    requires At(s, i, text) && AllDigits(text) && !IsDigit(Peek(s, i + |text|))
    ensures SkipDigits(s, i) == i + |text|
    decreases |text|
  {
    if text != [] {
      AtByte(s, i, text, 0);
      assert IsDigit(text[0]);
      AtParts(s, i, text[..1], text[1..]);
      assert text == text[..1] + text[1..];
      SkipRun(s, i + 1, text[1..]);
    }
  }

  /** The end of the digits of `n`, from their second one on. */
  lemma DigitsEnd(s: Text, i: nat, n: nat)
    requires At(s, i, Digits(n)) && !IsDigit(Peek(s, i + |Digits(n)|))
    ensures IsDigit(Peek(s, i))
    ensures if Peek(s, i) == 48 then |Digits(n)| == 1 else SkipDigits(s, i + 1) == i + |Digits(n)|
  {
    var d := Digits(n);
    DigitsAre(n);
    AtByte(s, i, d, 0);
    assert IsDigit(d[0]);
    if n > 0 {
      assert d == d[..1] + d[1..];
      AtParts(s, i, d[..1], d[1..]);
      SkipRun(s, i + 1, d[1..]);
    }
  }

  lemma DecimalIs(n: int)
    ensures IntegerLiteral(Decimal(n)) && IntegerValue(Decimal(n)) == n
  {
    hide Digits;
    if n < 0 {
      DigitsAre(-n);
      assert Decimal(n)[1..] == Digits(-n);
    } else {
      DigitsAre(n);
      assert IsDigit(Digits(n)[0]);
    }
  }

  lemma IntegerReads(s: Text, i: nat, n: int)
    requires At(s, i, Decimal(n)) && !IsDigit(Peek(s, i + |Decimal(n)|))
    ensures IntegerEnd(s, i) == Some(i + |Decimal(n)|)
  {
    AtByte(s, i, Decimal(n), 0);
    if n < 0 {
      AtParts(s, i, [MINUS], Digits(-n));
      DigitsEnd(s, i + 1, -n);
    } else {
      DigitsAre(n);
      assert IsDigit(Digits(n)[0]);
      DigitsEnd(s, i, n);
    }
  }

  /** The number the parser makes of a printed int: one of more than nine characters becomes a double. */
  function RereadNumber(n: int): Json {
    if |Decimal(n)| <= 9 then Int(n) else Double(Decimal(n))
  }

  lemma NumberReads(s: Text, i: nat, n: int)
    requires At(s, i, Decimal(n)) && Ends(s, i + |Decimal(n)|)
    ensures NumberAt(s, i) == Some((RereadNumber(n), i + |Decimal(n)|))
  {
    hide Digits, DigitsValue, IntegerEnd;
    var e := i + |Decimal(n)|;
    IntegerReads(s, i, n);
    DecimalIs(n);
    assert s[i..e] == Decimal(n);
  }

  /* Values */

  /** What the parser makes of a printed value. */
  function Reread(v: Json): Json {
    match v
    case Int(n) => RereadNumber(n)
    case Array(items) => Array(RereadItems(items))
    case Object(fields) => Object(RereadFields(fields))
    case _ => v
  }

  function RereadItems(items: seq<Json>): (r: seq<Json>)
    ensures |r| == |items|
  {
    if items == [] then [] else [Reread(items[0])] + RereadItems(items[1..])
  }

  function RereadFields(fields: seq<Field>): (r: seq<Field>)
    ensures |r| == |fields|
  {
    if fields == [] then [] else [Field(fields[0].key, Reread(fields[0].value))] + RereadFields(fields[1..])
  }

  /** `done` holds the first `k` of them. */
  predicate ItemsDone(items: seq<Json>, done: seq<Json>, k: nat) {
    |done| == k <= |items| && forall m :: 0 <= m < k ==> done[m] == Reread(items[m])
  }

  predicate FieldsDone(fields: seq<Field>, done: seq<Field>, k: nat) {
    && |done| == k <= |fields|
    && forall m :: 0 <= m < k ==> done[m].key == fields[m].key && done[m].value == Reread(fields[m].value)
  }

  lemma AllItems(items: seq<Json>)
    ensures ItemsDone(items, RereadItems(items), |items|)
  {
    forall k | 0 <= k < |items| ensures RereadItems(items)[k] == Reread(items[k]) {
      RereadItemAt(items, k);
    }
  }

  lemma AllFields(fields: seq<Field>)
    ensures FieldsDone(fields, RereadFields(fields), |fields|)
  {
    forall k | 0 <= k < |fields|
      ensures RereadFields(fields)[k].key == fields[k].key
      ensures RereadFields(fields)[k].value == Reread(fields[k].value)
    {
      RereadFieldAt(fields, k);
    }
  }

  lemma {:induction false} RereadItemAt(items: seq<Json>, k: nat)
    requires k < |items|
    ensures RereadItems(items)[k] == Reread(items[k])
  {
    if k > 0 {
      RereadItemAt(items[1..], k - 1);
    }
  }

  lemma {:induction false} RereadFieldAt(fields: seq<Field>, k: nat)
    requires k < |fields|
    ensures RereadFields(fields)[k] == Field(fields[k].key, Reread(fields[k].value))
  {
    if k > 0 {
      RereadFieldAt(fields[1..], k - 1);
    }
  }

  /** It is equal to the value. */
  lemma {:induction false} RereadEqual(v: Json)
    requires Plain(v)
    ensures Equal(v, Reread(v))
    decreases v
  {
    match v
    case Int(n) => DecimalIs(n);
    case Array(items) =>
      forall k | 0 <= k < |items| ensures Equal(items[k], RereadItems(items)[k]) {
        RereadItemAt(items, k);
        RereadEqual(items[k]);
      }
    case Object(fields) =>
      forall k | 0 <= k < |fields|
        ensures fields[k].key == RereadFields(fields)[k].key
        ensures Equal(fields[k].value, RereadFields(fields)[k].value)
      {
        RereadFieldAt(fields, k);
        RereadEqual(fields[k].value);
      }
    case _ =>
  }

  lemma FirstByte(v: Json)
    requires Plain(v)
    ensures Dump(v) != [] && TokenByte(Dump(v)[0])
    ensures v.Int? <==> Dump(v)[0] == MINUS || IsDigit(Dump(v)[0])
  {
    if v.Int? {
      if v.n < 0 { DigitsAre(-v.n); } else { DigitsAre(v.n); assert IsDigit(Digits(v.n)[0]); }
    }
  }

  lemma BeforeIsStrict(a: Text, b: Text)
    requires Before(a, b)
    ensures a != b && !Before(b, a)
    decreases |a|
  {
    if a != [] && a[0] == b[0] {
      BeforeIsStrict(a[1..], b[1..]);
    }
  }

  predicate AllBefore(done: seq<Field>, key: Text) {
    forall k :: 0 <= k < |done| ==> Before(done[k].key, key)
  }

  /** A key behind all others is added at the end. */
  lemma {:induction false} AssignLast(done: seq<Field>, key: Text, value: Json)
    requires AllBefore(done, key)
    ensures Assign(done, key, value) == done + [Field(key, value)]
    decreases |done|
  {
    if done != [] {
      BeforeIsStrict(done[0].key, key);
      AssignLast(done[1..], key, value);
    }
  }

  /** A printed value is read back, wherever the text before it leads to it. */
  lemma {:induction false} ValueReads(s: Text, j: nat, i: nat, v: Json, depth: int, comments: bool)
    requires j <= i && Plain(v) && Within(v, MAX_DEPTH - depth) && At(s, i, Dump(v)) && Ends(s, i + |Dump(v)|)
    requires Token(s, j, comments) == Some(i)
    ensures ValueAt(s, j, depth, comments) == Some((Reread(v), i + |Dump(v)|))
    decreases v, 3, 0
  {
    hide TokenAt, Token, Dump;
    assert depth <= MAX_DEPTH;
    match v
    case Array(items) =>
      AllItems(items);
      ArrayReads(s, i, v, items, depth, comments, RereadItems(items), i + |Dump(v)|);
    case Object(fields) =>
      AllFields(fields);
      ObjectReads(s, i, v, fields, depth, comments, RereadFields(fields), i + |Dump(v)|);
    case _ => LeafReads(s, i, v, depth, comments);
  }

  lemma LeafReads(s: Text, i: nat, v: Json, depth: int, comments: bool)
    requires Plain(v) && At(s, i, Dump(v)) && Ends(s, i + |Dump(v)|) && !v.Array? && !v.Object?
    ensures i < |s| && TokenAt(s, i, depth, comments) == Some((Reread(v), i + |Dump(v)|))
  {
    hide Digits, DumpBytes, DigitsValue, StringFrom, NumberAt;
    FirstByte(v);
    AtByte(s, i, Dump(v), 0);
    match v
    case Int(n) => NumberReads(s, i, n);
    case Str(text) => TextReads(s, i, text);
    case _ =>
  }

  /* Arrays: the text, the steps of the parser, and both together */

  function ItemsText(items: seq<Json>, k: nat): Text
    requires k < |items|
  {
    Dump(items[k]) + MoreItems(items[k + 1..]) + [93]
  }

  lemma ItemsLayout(s: Text, i: nat, items: seq<Json>, k: nat, e: nat)
    requires k < |items| && At(s, i, ItemsText(items, k)) && e == i + |Dump(items[k])|
    ensures At(s, i, Dump(items[k])) && e < |s|
    ensures k + 1 == |items| ==> s[e] == 93 && i + |ItemsText(items, k)| == e + 1
    ensures k + 1 < |items| ==>
              && e + 2 < |s| && s[e] == COMMA && s[e + 1] == SPACE && At(s, e + 2, ItemsText(items, k + 1))
              && i + |ItemsText(items, k)| == e + 2 + |ItemsText(items, k + 1)|
  {
    hide At, DumpText, DumpItems, DumpBool, Decimal;
    var d, more := Dump(items[k]), MoreItems(items[k + 1..]) + [93];
    assert ItemsText(items, k) == d + more;
    AtParts(s, i, d, more);
    AtByte(s, e, more, 0);
    if k + 1 < |items| {
      assert items[k + 1..][0] == items[k + 1] && items[k + 1..][1..] == items[k + 2..];
      assert more == [COMMA, SPACE] + ItemsText(items, k + 1);
      AtParts(s, e, [COMMA, SPACE], ItemsText(items, k + 1));
      AtByte(s, e, [COMMA, SPACE], 1);
    }
  }

  lemma ItemsStep(s: Text, i: nat, depth: int, comments: bool, done: seq<Json>, w: Json, e: nat)
    requires i < e < |s| && ValueAt(s, i, depth + 1, comments) == Some((w, e)) && Token(s, e, comments) == Some(e)
    ensures s[e] == 93 ==> ItemsAt(s, i, depth, comments, done) == Some((done + [w], e + 1))
    ensures s[e] == COMMA && Token(s, e + 1, comments) == Some(e + 2) ==>
              ItemsAt(s, i, depth, comments, done) == ItemsAt(s, e + 2, depth, comments, done + [w])
  {
  }

  lemma ArrayStep(s: Text, i: nat, depth: int, comments: bool)
    requires i + 1 < |s| && s[i] == 91 && Token(s, i + 1, comments) == Some(i + 1)
    ensures s[i + 1] == 93 ==> TokenAt(s, i, depth, comments) == Some((Array([]), i + 2))
    ensures s[i + 1] != 93 ==>
              var r := ItemsAt(s, i + 1, depth, comments, []);
              TokenAt(s, i, depth, comments) == if r.None? then None else Some((Array(r.value.0), r.value.1))
  {
  }

  /** One turn of the loop over the items of an array. */
  lemma ItemsTurn(s: Text, i: nat, v: Json, items: seq<Json>, k: nat, depth: int, comments: bool,
                  done: seq<Json>, e: nat)
    requires v == Array(items) && k < |items| && Plain(v) && Within(items[k], MAX_DEPTH - depth - 1)
    requires At(s, i, ItemsText(items, k)) && e == i + |Dump(items[k])|
    ensures i < e < |s|
    ensures k + 1 == |items| ==> ItemsAt(s, i, depth, comments, done) == Some((done + [Reread(items[k])], e + 1))
    ensures k + 1 == |items| ==> i + |ItemsText(items, k)| == e + 1
    ensures k + 1 < |items| ==>
              && At(s, e + 2, ItemsText(items, k + 1)) && e + 2 < |s|
              && i + |ItemsText(items, k)| == e + 2 + |ItemsText(items, k + 1)|
              && ItemsAt(s, i, depth, comments, done)
                 == ItemsAt(s, e + 2, depth, comments, done + [Reread(items[k])])
    decreases v, 1, 0
  {
    ItemsLayout(s, i, items, k, e);
    ItemRead(s, i, v, items, k, depth, comments, e);
    ItemsStep(s, i, depth, comments, done, Reread(items[k]), e);
    if k + 1 < |items| {
      NextToken(s, e, items[k + 1], ItemsText(items, k + 1), comments);
    }
  }

  lemma WithinParts(v: Json, depth: int)
    requires Within(v, depth)
    ensures v.Array? ==> forall i :: 0 <= i < |v.items| ==> Within(v.items[i], depth - 1)
    ensures v.Object? ==> forall i :: 0 <= i < |v.fields| ==> Within(v.fields[i].value, depth - 1)
  {
  }

  /** The items from the `k`-th on. */
  lemma ItemsRead(s: Text, i: nat, v: Json, items: seq<Json>, k: nat, depth: int, comments: bool,
                  done: seq<Json>, all: seq<Json>, end: nat)
    requires v == Array(items) && k < |items| && Plain(v) && Within(v, MAX_DEPTH - depth)
    requires At(s, i, ItemsText(items, k)) && end == i + |ItemsText(items, k)|
    requires ItemsDone(items, done, k) && ItemsDone(items, all, |items|)
    ensures i < |s| && ItemsAt(s, i, depth, comments, done) == Some((all, end))
    decreases v, 1, |items| - k
  {
    hide Dump, ItemsAt, ItemsText, Plain;
    var e, next := i + |Dump(items[k])|, done + [Reread(items[k])];
    WithinParts(v, MAX_DEPTH - depth);
    ItemsTurn(s, i, v, items, k, depth, comments, done, e);
    assert ItemsDone(items, next, k + 1);
    if k + 1 == |items| { assert next == all; }
    if k + 1 < |items| {
      ItemsRead(s, e + 2, v, items, k + 1, depth, comments, next, all, end);
    }
  }

  lemma ItemRead(s: Text, i: nat, v: Json, items: seq<Json>, k: nat, depth: int, comments: bool, e: nat)
    requires v == Array(items) && k < |items| && Plain(v) && Within(items[k], MAX_DEPTH - depth - 1)
    requires At(s, i, Dump(items[k])) && e == i + |Dump(items[k])| < |s| && (s[e] == COMMA || s[e] == 93)
    ensures ValueAt(s, i, depth + 1, comments) == Some((Reread(items[k]), e)) && Token(s, e, comments) == Some(e)
    ensures i < e
    decreases v, 0, 1
  {
    hide TokenAt;
    FirstByte(items[k]);
    AtByte(s, i, Dump(items[k]), 0);
    TokenHere(s, i, comments);
    TokenHere(s, e, comments);
    ValueReads(s, i, i, items[k], depth + 1, comments);
  }

  lemma NextToken(s: Text, e: nat, v: Json, text: Text, comments: bool)
    requires e + 2 < |s| && s[e + 1] == SPACE && Plain(v) && At(s, e + 2, text) && Dump(v) <= text
    ensures Token(s, e + 1, comments) == Some(e + 2)
  {
    FirstByte(v);
    AtByte(s, e + 2, text, 0);
    TokenNext(s, e + 1, comments);
  }

  lemma ArrayReads(s: Text, i: nat, v: Json, items: seq<Json>, depth: int, comments: bool, all: seq<Json>, end: nat)
    requires v == Array(items) && Plain(v) && Within(v, MAX_DEPTH - depth) && At(s, i, Dump(v)) && end == i + |Dump(v)|
    requires ItemsDone(items, all, |items|)
    ensures i < |s| && TokenAt(s, i, depth, comments) == Some((Array(all), end))
    decreases v, 2, 0
  {
    ArrayLayout(s, i, items);
    TokenHere(s, i + 1, comments);
    ArrayStep(s, i, depth, comments);
    if items != [] {
      ItemsRead(s, i + 1, v, items, 0, depth, comments, [], all, end);
    }
  }

  lemma ArrayLayout(s: Text, i: nat, items: seq<Json>)
    requires At(s, i, Dump(Array(items))) && Plain(Array(items))
    ensures i + 1 < |s| && s[i] == 91 && TokenByte(s[i + 1]) && (items == [] <==> s[i + 1] == 93)
    ensures items == [] ==> |Dump(Array(items))| == 2
    ensures items != [] ==> At(s, i + 1, ItemsText(items, 0)) && |Dump(Array(items))| == 1 + |ItemsText(items, 0)|
  {
    var body := DumpItems(items) + [93];
    assert Dump(Array(items)) == [91] + body;
    AtParts(s, i, [91], body);
    AtByte(s, i, [91], 0);
    AtByte(s, i + 1, body, 0);
    if items != [] {
      FirstByte(items[0]);
      NotABracket(items[0]);
      assert body == ItemsText(items, 0);
    }
  }

  lemma NotABracket(v: Json)
    requires Plain(v)
    ensures Dump(v) != [] && Dump(v)[0] != 93
  {
    if v.Int? {
      if v.n < 0 { DigitsAre(-v.n); } else { DigitsAre(v.n); assert IsDigit(Digits(v.n)[0]); }
    }
  }

  /* Objects, likewise */

  function FieldsText(fields: seq<Field>, k: nat): Text
    requires k < |fields|
  {
    DumpField(fields[k]) + MoreFields(fields[k + 1..]) + [125]
  }

  lemma FieldsLayout(s: Text, i: nat, fields: seq<Field>, k: nat, e: nat)
    requires k < |fields| && At(s, i, FieldsText(fields, k)) && e == i + |DumpField(fields[k])|
    ensures At(s, i, DumpField(fields[k])) && e < |s|
    ensures k + 1 == |fields| ==> s[e] == 125 && i + |FieldsText(fields, k)| == e + 1
    ensures k + 1 < |fields| ==>
              && e + 2 < |s| && s[e] == COMMA && s[e + 1] == SPACE && s[e + 2] == QUOTE
              && At(s, e + 2, FieldsText(fields, k + 1))
              && i + |FieldsText(fields, k)| == e + 2 + |FieldsText(fields, k + 1)|
  {
    hide At, DumpBytes;
    var d, more := DumpField(fields[k]), MoreFields(fields[k + 1..]) + [125];
    assert FieldsText(fields, k) == d + more;
    AtParts(s, i, d, more);
    AtByte(s, e, more, 0);
    if k + 1 < |fields| {
      assert fields[k + 1..][0] == fields[k + 1] && fields[k + 1..][1..] == fields[k + 2..];
      assert more == [COMMA, SPACE] + FieldsText(fields, k + 1);
      AtParts(s, e, [COMMA, SPACE], FieldsText(fields, k + 1));
      AtByte(s, e, [COMMA, SPACE], 1);
      AtByte(s, e + 2, FieldsText(fields, k + 1), 0);
    }
  }

  lemma FieldLayout(s: Text, i: nat, text: Text, value: Text, colon: nat)
    requires At(s, i, text + [COLON, SPACE] + value) && colon == i + |text| && value != []
    ensures At(s, i, text) && colon + 2 < |s| && s[colon] == COLON && s[colon + 1] == SPACE
    ensures At(s, colon + 2, value)
  {
    assert text + [COLON, SPACE] + value == text + ([COLON, SPACE] + value);
    AtParts(s, i, text, [COLON, SPACE] + value);
    AtParts(s, colon, [COLON, SPACE], value);
    AtByte(s, colon, [COLON, SPACE], 0);
    AtByte(s, colon, [COLON, SPACE], 1);
    AtByte(s, colon + 2, value, 0);
  }

  lemma FieldsStep(s: Text, i: nat, depth: int, comments: bool, done: seq<Field>, key: Text, colon: nat,
                   w: Json, e: nat)
    requires i < colon < e < |s| && s[i] == QUOTE && StringFrom(s, i + 1, [], -1) == Some((key, colon))
    requires Token(s, colon, comments) == Some(colon) && s[colon] == COLON
    requires ValueAt(s, colon + 1, depth + 1, comments) == Some((w, e)) && Token(s, e, comments) == Some(e)
    ensures s[e] == 125 ==> FieldsAt(s, i, depth, comments, done) == Some((Assign(done, key, w), e + 1))
    ensures s[e] == COMMA && Token(s, e + 1, comments) == Some(e + 2) ==>
              FieldsAt(s, i, depth, comments, done) == FieldsAt(s, e + 2, depth, comments, Assign(done, key, w))
  {
    hide StringFrom, Token, ValueAt, Assign;
  }

  lemma ObjectStep(s: Text, i: nat, depth: int, comments: bool)
    requires i + 1 < |s| && s[i] == 123 && Token(s, i + 1, comments) == Some(i + 1)
    ensures s[i + 1] == 125 ==> TokenAt(s, i, depth, comments) == Some((Object([]), i + 2))
    ensures s[i + 1] != 125 ==>
              var r := FieldsAt(s, i + 1, depth, comments, []);
              TokenAt(s, i, depth, comments) == if r.None? then None else Some((Object(r.value.0), r.value.1))
  {
  }

  /** One turn of the loop over the entries of an object. */
  lemma FieldsTurn(s: Text, i: nat, v: Json, fields: seq<Field>, k: nat, depth: int, comments: bool,
                   done: seq<Field>, e: nat)
    requires v == Object(fields) && k < |fields| && Plain(v) && Within(fields[k].value, MAX_DEPTH - depth - 1)
    requires At(s, i, FieldsText(fields, k)) && e == i + |DumpField(fields[k])|
    requires AllBefore(done, fields[k].key)
    ensures i < e < |s|
    ensures k + 1 < |fields| ==> e + 2 < |s|
    ensures var next := done + [Field(fields[k].key, Reread(fields[k].value))];
            FieldsAt(s, i, depth, comments, done)
            == if k + 1 == |fields| then Some((next, e + 1)) else FieldsAt(s, e + 2, depth, comments, next)
    ensures k + 1 == |fields| ==> i + |FieldsText(fields, k)| == e + 1
    ensures k + 1 < |fields| ==>
              At(s, e + 2, FieldsText(fields, k + 1))
              && i + |FieldsText(fields, k)| == e + 2 + |FieldsText(fields, k + 1)|
    decreases v, 1, 0
  {
    hide FieldsAt, FieldsText, DumpField, Within, Plain;
    var colon := i + |DumpText(fields[k].key)|;
    FieldsLayout(s, i, fields, k, e);
    FieldRead(s, i, v, fields, k, depth, comments, colon, e);
    if k + 1 < |fields| {
      TokenNext(s, e + 1, comments);
    }
    FieldsStep(s, i, depth, comments, done, fields[k].key, colon, Reread(fields[k].value), e);
    AssignLast(done, fields[k].key, Reread(fields[k].value));
  }

  /** The entries from the `k`-th on. */
  lemma FieldsRead(s: Text, i: nat, v: Json, fields: seq<Field>, k: nat, depth: int, comments: bool,
                  done: seq<Field>, all: seq<Field>, end: nat)
    requires v == Object(fields) && k < |fields| && Plain(v) && Within(v, MAX_DEPTH - depth)
    requires At(s, i, FieldsText(fields, k)) && end == i + |FieldsText(fields, k)|
    requires FieldsDone(fields, done, k) && FieldsDone(fields, all, |fields|)
    ensures i < |s| && FieldsAt(s, i, depth, comments, done) == Some((all, end))
    decreases v, 1, |fields| - k
  {
    hide DumpField, FieldsAt, FieldsText, Within;
    var e, next := i + |DumpField(fields[k])|, done + [Field(fields[k].key, Reread(fields[k].value))];
    assert AllBefore(done, fields[k].key);
    WithinParts(v, MAX_DEPTH - depth);
    FieldsTurn(s, i, v, fields, k, depth, comments, done, e);
    assert FieldsDone(fields, next, k + 1);
    if k + 1 == |fields| { assert next == all; }
    if k + 1 < |fields| {
      FieldsRead(s, e + 2, v, fields, k + 1, depth, comments, next, all, end);
    }
  }

  lemma FieldRead(s: Text, i: nat, v: Json, fields: seq<Field>, k: nat, depth: int, comments: bool, colon: nat, e: nat)
    requires v == Object(fields) && k < |fields| && Plain(v) && Within(fields[k].value, MAX_DEPTH - depth - 1)
    requires At(s, i, DumpField(fields[k])) && colon == i + |DumpText(fields[k].key)|
    requires e == i + |DumpField(fields[k])| < |s| && (s[e] == COMMA || s[e] == 125)
    ensures i < colon < e && s[i] == QUOTE && StringFrom(s, i + 1, [], -1) == Some((fields[k].key, colon))
    ensures Token(s, colon, comments) == Some(colon) && s[colon] == COLON
    ensures ValueAt(s, colon + 1, depth + 1, comments) == Some((Reread(fields[k].value), e))
    ensures Token(s, e, comments) == Some(e)
    decreases v, 0, 1
  {
    var f := fields[k];
    FirstByte(f.value);
    FieldLayout(s, i, DumpText(f.key), Dump(f.value), colon);
    TextReads(s, i, f.key);
    TokenHere(s, colon, comments);
    TokenHere(s, e, comments);
    FieldValueRead(s, v, f, depth, comments, colon, e);
  }

  lemma FieldValueRead(s: Text, v: Json, f: Field, depth: int, comments: bool, colon: nat, e: nat)
    requires v.Object? && f.value < v && Plain(f.value) && Within(f.value, MAX_DEPTH - depth - 1)
    requires colon + 2 < |s| && At(s, colon + 2, Dump(f.value)) && e == colon + 2 + |Dump(f.value)| && Ends(s, e)
    requires s[colon + 1] == SPACE
    ensures ValueAt(s, colon + 1, depth + 1, comments) == Some((Reread(f.value), e))
    decreases v, 0, 0
  {
    NextToken(s, colon, f.value, Dump(f.value), comments);
    ValueReads(s, colon + 1, colon + 2, f.value, depth + 1, comments);
  }

  lemma ObjectLayout(s: Text, i: nat, fields: seq<Field>)
    requires At(s, i, Dump(Object(fields)))
    ensures i + 1 < |s| && s[i] == 123 && s[i + 1] == (if fields == [] then 125 else QUOTE)
    ensures fields == [] ==> |Dump(Object(fields))| == 2
    ensures fields != [] ==> At(s, i + 1, FieldsText(fields, 0))
    ensures fields != [] ==> |Dump(Object(fields))| == 1 + |FieldsText(fields, 0)|
  {
    var body := DumpFields(fields) + [125];
    assert Dump(Object(fields)) == [123] + body;
    AtParts(s, i, [123], body);
    AtByte(s, i, [123], 0);
    AtByte(s, i + 1, body, 0);
    if fields != [] {
      assert body == FieldsText(fields, 0);
    }
  }

  lemma ObjectReads(s: Text, i: nat, v: Json, fields: seq<Field>, depth: int, comments: bool, all: seq<Field>, end: nat)
    requires v == Object(fields) && Plain(v) && Within(v, MAX_DEPTH - depth)
    requires At(s, i, Dump(v)) && end == i + |Dump(v)|
    requires FieldsDone(fields, all, |fields|)
    ensures i < |s| && TokenAt(s, i, depth, comments) == Some((Object(all), end))
    decreases v, 2, 0
  {
    ObjectLayout(s, i, fields);
    TokenHere(s, i + 1, comments);
    ObjectStep(s, i, depth, comments);
    if fields != [] {
      FieldsRead(s, i + 1, v, fields, 0, depth, comments, [], all, end);
    }
  }

  /** Parsing what is printed succeeds, uses up the text, and gives an equal value, whether or not comments
      are allowed. */
  lemma ParseOfDump(v: Json, comments: bool)
    requires Plain(v) && Within(v, MAX_DEPTH)
    ensures Parse(Dump(v), comments).Some? && Equal(v, Parse(Dump(v), comments).value)
  {
    hide TokenAt, Dump, Plain, Within, Equal, Reread;
    var s := Dump(v);
    FirstByte(v);
    TokenHere(s, 0, comments);
    assert s[0..|s|] == s;
    ValueReads(s, 0, 0, v, 0, comments);
    RereadEqual(v);
  }
}
