/** The parser reads every text that the trees of `JsonSyntax` describe, and makes of it the value of the tree, unless
    something lies too deep. */
module JsonAccepts {
  import opened BitStrings
  import opened HexDigits
  import opened JsonValues
  import opened JsonGrammar
  import opened JsonSyntax

  /* Texts in place */

  lemma ThreeInPlace(s: Text, i: nat, a: Text, b: Text, c: Text)
    requires At(s, i, a + b + c)
    ensures At(s, i, a) && At(s, i + |a|, b) && At(s, i + |a| + |b|, c)
  {
    AtParts(s, i, a + b, c);
    AtParts(s, i, a, b);
  }

  /* Between tokens */

  /** Not the first byte of a gap. */
  predicate NoGap(b: Byte) {
    b != 32 && b != 9 && b != 10 && b != 13 && b != 47
  }

  lemma {:induction false} BlanksSkipped(s: Text, i: nat, blanks: Text)
    requires At(s, i, blanks) && AllBlank(blanks)
    ensures SkipBlanks(s, i) == SkipBlanks(s, i + |blanks|)
    decreases |blanks|
  {
    if blanks != [] {
      AtByte(s, i, blanks, 0);
      assert blanks == blanks[..1] + blanks[1..];
      AtParts(s, i, blanks[..1], blanks[1..]);
      BlanksSkipped(s, i + 1, blanks[1..]);
    }
  }

  lemma {:induction false} LineSkipped(s: Text, i: nat, body: Text)
    requires At(s, i, body) && forall k :: 0 <= k < |body| ==> body[k] != 10
    requires i + |body| == |s| || s[i + |body|] == 10
    ensures SkipLine(s, i) == i + |body|
    decreases |body|
  {
    if body != [] {
      AtByte(s, i, body, 0);
      assert body == body[..1] + body[1..];
      AtParts(s, i, body[..1], body[1..]);
      LineSkipped(s, i + 1, body[1..]);
    }
  }

  lemma {:induction false} BlockSkipped(s: Text, i: nat, body: Text)
    requires At(s, i, body + [42, 47])
    requires forall k :: 0 <= k < |body| - 1 ==> !(body[k] == 42 && body[k + 1] == 47)
    ensures SkipBlock(s, i) == Some(i + |body| + 2)
    decreases |body|
  {
    AtByte(s, i, body + [42, 47], 0);
    AtByte(s, i, body + [42, 47], 1);
    if body != [] {
      assert body + [42, 47] == body[..1] + (body[1..] + [42, 47]);
      AtParts(s, i, body[..1], body[1..] + [42, 47]);
      BlockSkipped(s, i + 1, body[1..]);
    }
  }

  lemma LineCommentSkipped(s: Text, i: nat, body: Text)
    requires At(s, i, [47, 47] + body) && forall k :: 0 <= k < |body| ==> body[k] != 10
    requires i + 2 + |body| == |s| || s[i + 2 + |body|] == 10
    ensures Peek(s, i) == 47 && SkipComment(s, i) == Some(i + 2 + |body|)
  {
    hide SkipLine, SkipBlock;
    AtParts(s, i, [47, 47], body);
    AtByte(s, i, [47, 47], 0);
    AtByte(s, i, [47, 47], 1);
    LineSkipped(s, i + 2, body);
  }

  lemma BlockCommentSkipped(s: Text, i: nat, body: Text)
    requires At(s, i, [47, 42] + (body + [42, 47]))
    requires forall k :: 0 <= k < |body| - 1 ==> !(body[k] == 42 && body[k + 1] == 47)
    ensures Peek(s, i) == 47 && SkipComment(s, i) == Some(i + 4 + |body|)
  {
    hide SkipLine, SkipBlock;
    AtParts(s, i, [47, 42], body + [42, 47]);
    AtByte(s, i, [47, 42], 0);
    AtByte(s, i, [47, 42], 1);
    BlockSkipped(s, i + 2, body);
  }

  lemma CommentSkipped(s: Text, i: nat, c: Comment, rest: Gap, j: nat)
    requires At(s, i, CommentText(c)) && j == i + |CommentText(c)|
    requires At(s, j, GapText(rest)) && CommentFits(c, rest, j + |GapText(rest)| == |s|)
    ensures Peek(s, i) == 47 && SkipComment(s, i) == Some(j)
  {
    hide At, SkipComment;
    match c
    case Line(body) =>
      if rest.blanks != [] {
        assert GapText(rest)[0] == 10;
        AtByte(s, j, GapText(rest), 0);
      }
      LineCommentSkipped(s, i, body);
    case Block(body) =>
      assert CommentText(c) == [47, 42] + (body + [42, 47]);
      BlockCommentSkipped(s, i, body);
  }

  lemma NoComment(s: Text, j: nat)
    requires j <= |s| && (j == |s| || NoGap(s[j]))
    ensures SkipComment(s, j) == Some(j)
  {
  }

  /** Blanks and comments are passed over, up to the end or to a byte that begins neither. */
  lemma {:induction false} GapSkipped(s: Text, i: nat, g: Gap, comments: bool, j: nat)
    requires At(s, i, GapText(g)) && j == i + |GapText(g)| && GapFits(g, comments, j == |s|)
    requires j == |s| || NoGap(s[j])
    ensures Garbage(s, i, comments) == Some(j)
    decreases g
  {
    hide SkipComment, CommentText, CommentFits, AllBlank;
    match g
    case Blanks(blanks) =>
      BlanksSkipped(s, i, blanks);
      assert SkipBlanks(s, j) == j;
      NoComment(s, j);
    case Remark(blanks, comment, rest) =>
      ThreeInPlace(s, i, blanks, CommentText(comment), GapText(rest));
      BlanksSkipped(s, i, blanks);
      var k := i + |blanks|;
      var next := k + |CommentText(comment)|;
      CommentSkipped(s, k, comment, rest, next);
      GapSkipped(s, next, rest, comments, j);
  }

  lemma TokenAfter(s: Text, i: nat, g: Gap, comments: bool, j: nat)
    requires At(s, i, GapText(g)) && GapFits(g, comments, false) && j == i + |GapText(g)| < |s| && NoGap(s[j])
    ensures Token(s, i, comments) == Some(j)
  {
    hide GapText, GapFits, Garbage;
    GapSkipped(s, i, g, comments, j);
  }

  lemma TokenAtOnce(s: Text, i: nat, comments: bool)
    requires i < |s| && NoGap(s[i])
    ensures Token(s, i, comments) == Some(i)
  {
  }

  /* Strings */

  lemma HexRead(h: Hex)
    ensures HexValue(HexByte(h)) == h.value
  {
  }

  /** What is still to come out when a code unit, or none, is held back. */
  function Held(last: int, cs: seq<Char>): Text {
    if last < 0 then CharsValue(cs) else UnitThen(last, cs)
  }

  lemma UnitInPlace(s: Text, i: nat, c: Char)
    requires c.Unit? && At(s, i, CharText(c))
    ensures i + 6 <= |s| && s[i] == BACKSLASH && s[i + 1] == 117 && HexAt(s, i + 2)
    ensures CodePointAt(s, i + 2) == UnitValue(c) < 0x1_0000
  {
    hide HexByte, HexValue;
    var t := CharText(c);
    AtByte(s, i, t, 0);
    AtByte(s, i, t, 1);
    AtByte(s, i, t, 2);
    AtByte(s, i, t, 3);
    AtByte(s, i, t, 4);
    AtByte(s, i, t, 5);
    HexRead(c.a);
    HexRead(c.b');
    HexRead(c.c);
    HexRead(c.d);
  }

  lemma RawRead(s: Text, i: nat, b: Byte, out: Text, last: int)
    requires CharFits(Raw(b)) && At(s, i, [b])
    ensures i + 1 <= |s| && StringFrom(s, i, out, last) == StringFrom(s, i + 1, out + EncodeUtf8(last) + [b], -1)
  {
    hide EncodeUtf8;
    AtByte(s, i, [b], 0);
  }

  lemma ShortRead(s: Text, i: nat, k: Letter, out: Text, last: int)
    requires At(s, i, CharText(Short(k)))
    ensures i + 2 <= |s|
    ensures StringFrom(s, i, out, last) == StringFrom(s, i + 2, out + EncodeUtf8(last) + [MEANINGS[k]], -1)
  {
    hide EncodeUtf8;
    AtByte(s, i, CharText(Short(k)), 0);
    AtByte(s, i, CharText(Short(k)), 1);
    assert Unescape(LETTERS[k]) == MEANINGS[k] && LETTERS[k] != 117;
  }

  /** One character is read; what comes out of it and of the rest stays the same. */
  lemma CharRead(s: Text, i: nat, cs: seq<Char>, out: Text, last: int) returns (out': Text, last': int)
    requires cs != [] && CharFits(cs[0]) && At(s, i, CharText(cs[0])) && -1 <= last < 0x1_0000
    ensures i + |CharText(cs[0])| <= |s| && -1 <= last' < 0x1_0000
    ensures StringFrom(s, i, out, last) == StringFrom(s, i + |CharText(cs[0])|, out', last')
    ensures out' + Held(last', cs[1..]) == out + Held(last, cs)
  {
    hide EncodeUtf8, CodePointAt, HexAt, HexByte, StringFrom, At;
    match cs[0]
    case Raw(b) =>
      out', last' := out + EncodeUtf8(last) + [b], -1;
      RawRead(s, i, b, out, last);
      PlainRead(out, last, b, cs);
    case Short(k) =>
      out', last' := out + EncodeUtf8(last) + [MEANINGS[k]], -1;
      ShortRead(s, i, k, out, last);
      PlainRead(out, last, MEANINGS[k], cs);
    case Unit(_, _, _, _) =>
      UnitInPlace(s, i, cs[0]);
      out', last' := UnitRead(s, i, cs, out, last);
  }

  lemma PlainRead(out: Text, last: int, b: Byte, cs: seq<Char>)
    requires cs != [] && !cs[0].Unit? && CharsValue(cs) == [b] + CharsValue(cs[1..])
    ensures out + EncodeUtf8(last) + [b] + CharsValue(cs[1..]) == out + Held(last, cs)
  {
    hide EncodeUtf8;
    var rest := CharsValue(cs[1..]);
    if last < 0 {
      NoCodePoint(last);
      assert out + [] + [b] + rest == out + ([b] + rest);
    } else {
      assert out + EncodeUtf8(last) + [b] + rest == out + (EncodeUtf8(last) + ([b] + rest));
    }
  }

  lemma NoCodePoint(last: int)
    requires last < 0
    ensures EncodeUtf8(last) == []
  {
  }

  lemma UnitRead(s: Text, i: nat, cs: seq<Char>, out: Text, last: int) returns (out': Text, last': int)
    requires cs != [] && cs[0].Unit? && -1 <= last < 0x1_0000 && UnitValue(cs[0]) < 0x1_0000
    requires i + 6 <= |s| && s[i] == BACKSLASH && s[i + 1] == 117 && HexAt(s, i + 2)
    requires CodePointAt(s, i + 2) == UnitValue(cs[0])
    ensures -1 <= last' < 0x1_0000 && StringFrom(s, i, out, last) == StringFrom(s, i + 6, out', last')
    ensures out' + Held(last', cs[1..]) == out + Held(last, cs)
  {
    hide EncodeUtf8, CodePointAt, HexAt, UnitValue;
    var pt, rest := UnitValue(cs[0]), cs[1..];
    if 0xD800 <= last < 0xDC00 && 0xDC00 <= pt < 0xE000 {
      var pair := EncodeUtf8(0x1_0000 + (last - 0xD800) * 0x400 + (pt - 0xDC00));
      assert (last - 0xD800) * 0x400 + (pt - 0xDC00) + 0x1_0000 == 0x1_0000 + (last - 0xD800) * 0x400 + (pt - 0xDC00);
      out', last' := out + pair, -1;
      assert Held(last, cs) == pair + CharsValue(rest);
      assert out + pair + CharsValue(rest) == out + (pair + CharsValue(rest));
    } else {
      out', last' := out + EncodeUtf8(last), pt;
      assert CharsValue(cs) == UnitThen(pt, rest);
      if last < 0 {
        NoCodePoint(last);
        assert out + [] == out;
      } else {
        assert Held(last, cs) == EncodeUtf8(last) + CharsValue(cs);
        assert out + EncodeUtf8(last) + UnitThen(pt, rest) == out + (EncodeUtf8(last) + UnitThen(pt, rest));
      }
    }
  }

  /** The rest of a string is read, whatever is held back. */
  lemma {:induction false} CharsRead(s: Text, i: nat, cs: seq<Char>, out: Text, last: int)
    requires CharsFit(cs) && At(s, i, CharsText(cs) + [34]) && -1 <= last < 0x1_0000
    ensures StringFrom(s, i, out, last) == Some((out + Held(last, cs), i + |CharsText(cs)| + 1))
    decreases |cs|
  {
    hide EncodeUtf8, CharText, StringFrom;
    if cs == [] {
      assert CharsText(cs) + [34] == [34];
      StringDone(s, i, out, last);
    } else {
      var c, rest := CharText(cs[0]), CharsText(cs[1..]) + [34];
      assert CharsText(cs) + [34] == c + rest;
      AtParts(s, i, c, rest);
      var out', last' := CharRead(s, i, cs, out, last);
      CharsRead(s, i + |c|, cs[1..], out', last');
    }
  }

  lemma StringDone(s: Text, i: nat, out: Text, last: int)
    requires At(s, i, [34])
    ensures StringFrom(s, i, out, last) == Some((out + Held(last, []), i + 1))
  {
    AtByte(s, i, [34], 0);
    if last >= 0 { assert EncodeUtf8(last) + [] == EncodeUtf8(last); }
  }

  lemma StringRead(s: Text, i: nat, cs: seq<Char>)
    requires CharsFit(cs) && At(s, i, StringText(cs))
    ensures i < |s| && s[i] == 34
    ensures StringFrom(s, i + 1, [], -1) == Some((CharsValue(cs), i + |StringText(cs)|))
  {
    hide StringFrom, CharsText;
    assert StringText(cs) == [34] + (CharsText(cs) + [34]);
    AtParts(s, i, [34], CharsText(cs) + [34]);
    AtByte(s, i, [34], 0);
    CharsRead(s, i + 1, cs, [], -1);
    assert [] + CharsValue(cs) == CharsValue(cs);
  }

  /* Numbers */

  /** A byte that cannot go on with a number. */
  predicate NoNumber(b: Byte) {
    !(48 <= b <= 57) && b != 46 && b != 69 && b != 101
  }

  lemma {:induction false} FiguresSkipped(s: Text, i: nat, figures: seq<Figure>)
    requires At(s, i, FiguresText(figures)) && !(48 <= Peek(s, i + |figures|) <= 57)
    ensures SkipDigits(s, i) == i + |figures|
    decreases |figures|
  {
    var t := FiguresText(figures);
    if figures != [] {
      AtByte(s, i, t, 0);
      AtParts(s, i, [FigureByte(figures[0])], FiguresText(figures[1..]));
      FiguresSkipped(s, i + 1, figures[1..]);
    }
  }

  lemma FigureIs(f: Figure)
    ensures FigureByte(f) == 48 + f as int && IsDigit(FigureByte(f))
  {
  }

  lemma FiguresBegin(s: Text, i: nat, figures: seq<Figure>)
    requires At(s, i, FiguresText(figures)) && figures != []
    ensures IsDigit(Peek(s, i)) && Peek(s, i) == 48 + figures[0] as int && At(s, i + 1, FiguresText(figures[1..]))
  {
    hide At, FigureByte, IsDigit;
    var rest := FiguresText(figures[1..]);
    assert FiguresText(figures) == [FigureByte(figures[0])] + rest;
    FigureIs(figures[0]);
    AtParts(s, i, [FigureByte(figures[0])], rest);
    AtByte(s, i, [FigureByte(figures[0])], 0);
  }

  lemma {:induction false} FiguresAre(figures: seq<Figure>)
    ensures forall k :: 0 <= k < |figures| ==> IsDigit(FiguresText(figures)[k])
    ensures forall k :: 0 <= k < |figures| ==> FiguresText(figures)[k] == FigureByte(figures[k])
  {
    if figures != [] {
      FiguresAre(figures[1..]);
    }
  }

  lemma {:induction false} FiguresMean(figures: seq<Figure>)
    ensures forall k :: 0 <= k < |figures| ==> IsDigit(FiguresText(figures)[k])
    ensures DigitsValue(FiguresText(figures)) == FiguresValue(figures)
  {
    hide FiguresText, FigureByte, IsDigit;
    FiguresAre(figures);
    if figures != [] {
      var m := |figures| - 1;
      FiguresAre(figures[..m]);
      FiguresMean(figures[..m]);
      FigureIs(figures[m]);
      assert FiguresText(figures)[..m] == FiguresText(figures[..m]);
    } else {
      assert FiguresText(figures) == [];
    }
  }

  /** The whole part, from behind its sign on. */
  lemma IntegerEndIs(s: Text, i: nat, start: nat)
    requires i <= |s| && start == (if Peek(s, i) == 45 then i + 1 else i) && IsDigit(Peek(s, start))
    requires Peek(s, start) == 48 ==> !IsDigit(Peek(s, start + 1))
    ensures IntegerEnd(s, i) == Some(if Peek(s, start) == 48 then start + 1 else SkipDigits(s, start + 1))
  {
    hide SkipDigits;
  }

  lemma SignInPlace(s: Text, i: nat, n: Number)
    requires NumberFits(n) && At(s, i, WholeText(n))
    ensures var start := if n.minus then i + 1 else i;
            At(s, start, FiguresText(n.whole)) && (n.minus ==> Peek(s, i) == 45)
    ensures |WholeText(n)| == |n.whole| + (if n.minus then 1 else 0)
  {
    hide At, FiguresText;
    AtParts(s, i, if n.minus then [45] else [], FiguresText(n.whole));
    if n.minus { AtByte(s, i, [45], 0); }
  }

  lemma WholeRead(s: Text, i: nat, n: Number)
    requires NumberFits(n) && At(s, i, WholeText(n)) && !(48 <= Peek(s, i + |WholeText(n)|) <= 57)
    ensures IntegerEnd(s, i) == Some(i + |WholeText(n)|)
    ensures Peek(s, i) == 45 || IsDigit(Peek(s, i))
  {
    hide SkipDigits, At, FiguresText, WholeText, IntegerEnd, FigureByte;
    var start := if n.minus then i + 1 else i;
    SignInPlace(s, i, n);
    FiguresBegin(s, start, n.whole);
    FiguresSkipped(s, start + 1, n.whole[1..]);
    IntegerEndIs(s, i, start);
  }

  lemma FractionRead(s: Text, i: nat, n: Number)
    requires At(s, i, FractionText(n)) && !(48 <= Peek(s, i + |FractionText(n)|) <= 57)
    requires n.fraction == [] ==> Peek(s, i) != 46
    ensures FractionEnd(s, i) == Some(i + |FractionText(n)|)
  {
    hide SkipDigits, FigureByte;
    if n.fraction != [] {
      AtParts(s, i, [46], FiguresText(n.fraction));
      AtByte(s, i, [46], 0);
      FiguresBegin(s, i + 1, n.fraction);
      FiguresSkipped(s, i + 1, n.fraction);
    }
  }

  lemma ExponentInPlace(s: Text, i: nat, n: Number)
    requires At(s, i, ExponentText(n)) && n.exponent.Some?
    ensures var e := n.exponent.value;
            && Peek(s, i) == (if e.upper then 69 else 101)
            && (e.sign != NoSign ==> Peek(s, i + 1) == (if e.sign == Plus then 43 else 45))
            && At(s, i + 1 + |SignText(e.sign)|, FiguresText(e.figures))
            && |ExponentText(n)| == 1 + |SignText(e.sign)| + |e.figures|
  {
    hide At, FiguresText;
    var e := n.exponent.value;
    var mark: Byte := if e.upper then 69 else 101;
    ThreeInPlace(s, i, [mark], SignText(e.sign), FiguresText(e.figures));
    AtByte(s, i, [mark], 0);
    if e.sign != NoSign { AtByte(s, i + 1, SignText(e.sign), 0); }
  }

  /** The exponent, from behind its sign on. */
  lemma ExponentEndIs(s: Text, i: nat, start: nat)
    requires i <= |s| && (Peek(s, i) == 69 || Peek(s, i) == 101) && IsDigit(Peek(s, start))
    requires start == (if Peek(s, i + 1) == 43 || Peek(s, i + 1) == 45 then i + 2 else i + 1)
    ensures ExponentEnd(s, i) == Some(SkipDigits(s, start))
  {
    hide SkipDigits;
  }

  lemma ExponentRead(s: Text, i: nat, n: Number)
    requires NumberFits(n) && At(s, i, ExponentText(n)) && !(48 <= Peek(s, i + |ExponentText(n)|) <= 57)
    requires n.exponent.None? ==> Peek(s, i) != 69 && Peek(s, i) != 101
    ensures ExponentEnd(s, i) == Some(i + |ExponentText(n)|)
  {
    if n.exponent.Some? {
      SomeExponentRead(s, i, n);
    }
  }

  lemma SomeExponentRead(s: Text, i: nat, n: Number)
    requires NumberFits(n) && n.exponent.Some? && At(s, i, ExponentText(n))
    requires !(48 <= Peek(s, i + |ExponentText(n)|) <= 57)
    ensures ExponentEnd(s, i) == Some(i + |ExponentText(n)|)
  {
    hide SkipDigits, FigureByte, At, FiguresText, ExponentText, ExponentEnd;
    var e := n.exponent.value;
    var start := i + 1 + |SignText(e.sign)|;
    ExponentInPlace(s, i, n);
    FiguresBegin(s, start, e.figures);
    FiguresSkipped(s, start, e.figures);
    ExponentEndIs(s, i, start);
  }

  /** What follows the whole part, and what follows the fraction. */
  lemma PartsBegin(s: Text, i: nat, n: Number)
    requires At(s, i, FractionText(n) + ExponentText(n))
    requires NoNumber(Peek(s, i + |FractionText(n)| + |ExponentText(n)|))
    ensures !(48 <= Peek(s, i) <= 57) && !(48 <= Peek(s, i + |FractionText(n)|) <= 57)
    ensures n.fraction == [] <==> Peek(s, i) != 46
    ensures n.exponent.None? <==> Peek(s, i + |FractionText(n)|) != 69 && Peek(s, i + |FractionText(n)|) != 101
  {
    hide FiguresText;
    AtParts(s, i, FractionText(n), ExponentText(n));
    if n.fraction != [] { AtByte(s, i, FractionText(n), 0); }
    if n.exponent.Some? { AtByte(s, i + |FractionText(n)|, ExponentText(n), 0); }
  }

  lemma WholeMeans(n: Number)
    requires NumberFits(n)
    ensures forall k :: 0 <= k < |WholeText(n)| && !(k == 0 && WholeText(n)[0] == MINUS) ==> IsDigit(WholeText(n)[k])
    ensures IntegerValue(WholeText(n)) == (if n.minus then 0 - FiguresValue(n.whole) as int else FiguresValue(n.whole))
  {
    hide FiguresText, DigitsValue, FiguresValue;
    FiguresMean(n.whole);
    var w, t := WholeText(n), FiguresText(n.whole);
    assert t != [] && IsDigit(t[0]);
    if n.minus {
      assert w[1..] == t && w[0] == MINUS;
      assert IntegerValue(w) == 0 - DigitsValue(t) as int;
    } else {
      assert w == t;
      assert IntegerValue(w) == DigitsValue(t);
    }
  }

  /** What the parser makes of a number whose parts end at `w`, `f` and `x`. */
  lemma NumberParts(s: Text, i: nat, w: nat, f: nat, x: nat)
    requires i < w <= f <= x <= |s| && IntegerEnd(s, i) == Some(w)
    requires FractionEnd(s, w) == Some(f) && ExponentEnd(s, f) == Some(x)
    ensures var next := Peek(s, w);
            if next != 46 && next != 101 && next != 69 && w - i <= 9
            then NumberAt(s, i).Some? && NumberAt(s, i).value.1 == w && IntegerPart(s, i, w, NumberAt(s, i).value.0)
            else NumberAt(s, i) == Some((Double(s[i..x]), x))
  {
    hide IntegerEnd, FractionEnd, ExponentEnd, IntegerValue;
    IntegerIs(s, i, w);
  }

  predicate IntegerPart(s: Text, i: nat, w: nat, v: Json)
    requires i <= w <= |s|
  {
    && (forall k :: 0 <= k < w - i && !(k == 0 && s[i..w][0] == MINUS) ==> IsDigit(s[i..w][k]))
    && v == Int(IntegerValue(s[i..w]))
  }

  lemma NumberRead(s: Text, i: nat, n: Number)
    requires NumberFits(n) && At(s, i, NumberText(n)) && NoNumber(Peek(s, i + |NumberText(n)|))
    ensures Peek(s, i) == 45 || IsDigit(Peek(s, i))
    ensures NumberAt(s, i) == Some((NumberValue(n), i + |NumberText(n)|))
  {
    hide ExponentText, FractionText, Peek, WholeText, ExponentEnd, FractionEnd, IntegerEnd, IntegerPart, IntegerValue;
    var w, f := i + |WholeText(n)|, i + |WholeText(n)| + |FractionText(n)|;
    var x := f + |ExponentText(n)|;
    assert NumberText(n) == WholeText(n) + (FractionText(n) + ExponentText(n));
    AtParts(s, i, WholeText(n), FractionText(n) + ExponentText(n));
    AtParts(s, w, FractionText(n), ExponentText(n));
    PartsBegin(s, w, n);
    WholeRead(s, i, n);
    FractionRead(s, w, n);
    ExponentRead(s, f, n);
    WholeMeans(n);
    PartsEmpty(n);
    NumberParts(s, i, w, f, x);
    assert s[i..w] == WholeText(n) && s[i..x] == NumberText(n);
  }

  lemma PartsEmpty(n: Number)
    ensures n.fraction == [] <==> |FractionText(n)| == 0
    ensures n.exponent.None? <==> |ExponentText(n)| == 0
  {
  }

  /* Values */

  /** What stands behind a value: the end, a gap, or the next token. */
  predicate Behind(s: Text, i: nat) {
    i == |s| || (i < |s| && (!NoGap(s[i]) || s[i] == 44 || s[i] == 93 || s[i] == 125))
  }

  lemma GapBegins(g: Gap, comments: bool, atEnd: bool)
    requires GapFits(g, comments, atEnd) && GapText(g) != []
    ensures !NoGap(GapText(g)[0])
  {
    if g.Remark? && g.blanks == [] { assert GapText(g)[0] == CommentText(g.comment)[0]; }
  }

  lemma BehindGap(s: Text, i: nat, g: Gap, comments: bool, j: nat)
    requires At(s, i, GapText(g)) && j == i + |GapText(g)| && GapFits(g, comments, j == |s|)
    requires j == |s| || s[j] == 44 || s[j] == 93 || s[j] == 125
    ensures Behind(s, i)
  {
    if GapText(g) != [] {
      GapBegins(g, comments, j == |s|);
      AtByte(s, i, GapText(g), 0);
    }
  }

  /** No value begins with a byte that a gap begins with, or that closes an array or object. */
  lemma TreeBegins(t: Tree, comments: bool)
    requires Fits(t, comments)
    ensures TreeText(t) != [] && NoGap(TreeText(t)[0]) && TreeText(t)[0] != 93
  {
    hide FiguresText, CharsText, GapText;
    if t.NumberTree? && !t.number.minus {
      NumberBegins(t.number);
    }
  }

  lemma NumberBegins(n: Number)
    requires NumberFits(n) && !n.minus
    ensures NumberText(n) != [] && NumberText(n)[0] == FigureByte(n.whole[0])
  {
    FiguresAre(n.whole);
    assert WholeText(n) == FiguresText(n.whole);
  }

  /** What the parser makes of a value, if nothing of it lies too deep. */
  function Outcome<T>(depth: int, v: T, end: nat): Option<(T, nat)> {
    if depth <= 200 then Some((v, end)) else None
  }

  lemma {:induction false} TreeRead(s: Text, i: nat, t: Tree, depth: nat, comments: bool)
    requires Fits(t, comments) && At(s, i, TreeText(t)) && Behind(s, i + |TreeText(t)|) && depth <= 200
    ensures i < |s| && TokenAt(s, i, depth, comments) == Outcome(depth + Depth(t), TreeValue(t), i + |TreeText(t)|)
    decreases t, 1
  {
    hide SlotsText, MembersText, SlotsDepth, MembersDepth, ArrayAt, ObjectAt, LeafAt, At, Behind, SlotsValues,
         MembersValue, GapText, GapFits, StringText, NumberText, NumberValue, CharsValue;
    match t
    case EmptyArray(gap) => EmptyRead(s, i, 91, gap, 93, depth, comments);
    case ArrayTree(slots) => ArrayRead(s, i, slots, depth, comments);
    case EmptyObject(gap) => EmptyRead(s, i, 123, gap, 125, depth, comments);
    case ObjectTree(members) => ObjectRead(s, i, members, depth, comments);
    case _ => LeafRead(s, i, t, comments);
  }

  lemma LeafRead(s: Text, i: nat, t: Tree, comments: bool)
    requires Fits(t, comments) && At(s, i, TreeText(t)) && Behind(s, i + |TreeText(t)|)
    requires t.NullTree? || t.BoolTree? || t.NumberTree? || t.StringTree?
    ensures i < |s| && s[i] != 91 && s[i] != 123
    ensures LeafAt(s, i) == Some((TreeValue(t), i + |TreeText(t)|))
  {
    hide NumberAt, NumberText, NumberValue, StringFrom, CharsText, CharsValue;
    match t
    case NumberTree(number) => NumberRead(s, i, number);
    case StringTree(chars) => StringRead(s, i, chars);
    case NullTree => AtByte(s, i, TreeText(t), 0);
    case BoolTree(b) => AtByte(s, i, TreeText(t), 0);
  }

  lemma EmptyRead(s: Text, i: nat, open: Byte, gap: Gap, close: Byte, depth: int, comments: bool)
    requires At(s, i, [open] + GapText(gap) + [close]) && GapFits(gap, comments, false)
    requires (open == 91 && close == 93) || (open == 123 && close == 125)
    ensures i < |s| && s[i] == open
    ensures open == 91 ==> ArrayAt(s, i, depth, comments) == Some((Array([]), i + 2 + |GapText(gap)|))
    ensures open == 123 ==> ObjectAt(s, i, depth, comments) == Some((Object([]), i + 2 + |GapText(gap)|))
  {
    hide Token, GapText, GapFits;
    ThreeInPlace(s, i, [open], GapText(gap), [close]);
    AtByte(s, i, [open], 0);
    AtByte(s, i + 1 + |GapText(gap)|, [close], 0);
    TokenAfter(s, i + 1, gap, comments, i + 1 + |GapText(gap)|);
  }

  lemma SlotInPlace(s: Text, p: nat, x: Slot, close: Byte)
    requires At(s, p, SlotText(x) + [close])
    ensures var start := p + |GapText(x.before)|;
            var end := start + |TreeText(x.value)|;
            && At(s, p, GapText(x.before)) && At(s, start, TreeText(x.value)) && At(s, end, GapText(x.after))
            && p + |SlotText(x)| == end + |GapText(x.after)| < |s| && s[p + |SlotText(x)|] == close
  {
    hide GapText, TreeText, At;
    AtParts(s, p, SlotText(x), [close]);
    ThreeInPlace(s, p, GapText(x.before), TreeText(x.value), GapText(x.after));
    AtByte(s, p + |SlotText(x)|, [close], 0);
  }

  /** A value with what stands around it: where it begins, and what is read. */
  lemma SlotRead(s: Text, p: nat, x: Slot, depth: nat, comments: bool, close: Byte)
    returns (start: nat, end: nat)
    requires SlotFits(x, comments) && At(s, p, SlotText(x) + [close]) && (close == 44 || close == 93 || close == 125)
    requires depth <= 201
    ensures start == p + |GapText(x.before)| && p <= start < end <= p + |SlotText(x)| < |s|
    ensures Token(s, p, comments) == Some(start) && NoGap(s[start]) && s[start] != 93
    ensures ValueAt(s, start, depth, comments) == Outcome(depth + Depth(x.value), TreeValue(x.value), end)
    ensures ValueAt(s, p, depth, comments) == Outcome(depth + Depth(x.value), TreeValue(x.value), end)
    ensures Token(s, end, comments) == Some(p + |SlotText(x)|) && s[p + |SlotText(x)|] == close
    decreases x, 0
  {
    hide GapText, GapFits, TreeText, SlotText, Fits, TokenAt, Token, Depth, TreeValue, At, Behind;
    var t := TreeText(x.value);
    start := p + |GapText(x.before)|;
    end := start + |t|;
    SlotInPlace(s, p, x, close);
    TreeBegins(x.value, comments);
    AtByte(s, start, t, 0);
    TokenAfter(s, p, x.before, comments, start);
    TokenAtOnce(s, start, comments);
    BehindGap(s, end, x.after, comments, p + |SlotText(x)|);
    TokenAfter(s, end, x.after, comments, p + |SlotText(x)|);
    if depth <= 200 {
      TreeRead(s, start, x.value, depth, comments);
    }
  }

  /** One turn of the parser in an array. */
  lemma ItemsStep(s: Text, i: nat, depth: int, comments: bool, done: seq<Json>, t: nat, next: nat)
    requires i < |s| && ValueAt(s, i, depth + 1, comments).Some?
    requires Token(s, ValueAt(s, i, depth + 1, comments).value.1, comments) == Some(t)
    ensures var items := done + [ValueAt(s, i, depth + 1, comments).value.0];
            && (s[t] == 93 ==> ItemsAt(s, i, depth, comments, done) == Some((items, t + 1)))
            && (s[t] == 44 && Token(s, t + 1, comments) == Some(next) ==>
                  ItemsAt(s, i, depth, comments, done) == ItemsAt(s, next, depth, comments, items))
  {
    hide ValueAt, Token;
  }

  lemma ItemsStop(s: Text, i: nat, depth: int, comments: bool, done: seq<Json>)
    requires i < |s| && ValueAt(s, i, depth + 1, comments).None?
    ensures ItemsAt(s, i, depth, comments, done).None?
  {
    hide ValueAt, Token;
  }

  lemma SlotsInPlace(s: Text, p: nat, slots: Slots)
    requires At(s, p, SlotsText(slots) + [93])
    ensures var t := p + |SlotText(slots.slot)|;
            && At(s, p, SlotText(slots.slot) + [if slots.LastSlot? then 93 else 44])
            && (slots.LastSlot? ==> |SlotsText(slots)| == |SlotText(slots.slot)|)
            && (slots.MoreSlots? ==>
                  && At(s, t + 1, SlotsText(slots.rest) + [93])
                  && p + |SlotsText(slots)| == t + 1 + |SlotsText(slots.rest)|)
  {
    hide SlotText, At;
    var close: Byte := if slots.LastSlot? then 93 else 44;
    var more: Text := if slots.LastSlot? then [] else SlotsText(slots.rest) + [93];
    assert SlotsText(slots) + [93] == SlotText(slots.slot) + [close] + more;
    AtParts(s, p, SlotText(slots.slot) + [close], more);
  }

  lemma {:induction false} SlotsRead(s: Text, p: nat, slots: Slots, depth: nat, comments: bool, done: seq<Json>)
    returns (start: nat)
    requires SlotsFit(slots, comments) && At(s, p, SlotsText(slots) + [93]) && depth <= 200
    ensures p <= start < |s| && Token(s, p, comments) == Some(start) && s[start] != 93
    ensures ItemsAt(s, start, depth, comments, done)
         == Outcome(depth + 1 + SlotsDepth(slots), done + SlotsValues(slots), p + |SlotsText(slots)| + 1)
    decreases slots, 0
  {
    hide SlotText, SlotsText, SlotFits, Token, Depth, TreeValue, ValueAt, At, ItemsAt;
    var x := slots.slot;
    var close: Byte := if slots.LastSlot? then 93 else 44;
    SlotsInPlace(s, p, slots);
    var end;
    start, end := SlotRead(s, p, x, depth + 1, comments, close);
    var v, t := TreeValue(x.value), p + |SlotText(x)|;
    if depth + 1 + Depth(x.value) > 200 {
      ItemsStop(s, start, depth, comments, done);
    } else if slots.MoreSlots? {
      var next := SlotsRead(s, t + 1, slots.rest, depth, comments, done + [v]);
      assert done + [v] + SlotsValues(slots.rest) == done + ([v] + SlotsValues(slots.rest));
      ItemsStep(s, start, depth, comments, done, t, next);
    } else {
      ItemsStep(s, start, depth, comments, done, t, 0);
    }
  }

  lemma ArrayRead(s: Text, i: nat, slots: Slots, depth: nat, comments: bool)
    requires SlotsFit(slots, comments) && At(s, i, [91] + SlotsText(slots) + [93]) && depth <= 200
    ensures i < |s| && s[i] == 91
    ensures ArrayAt(s, i, depth, comments)
         == Outcome(depth + 1 + SlotsDepth(slots), Array(SlotsValues(slots)), i + |SlotsText(slots)| + 2)
    decreases slots, 1
  {
    hide SlotsText, SlotsFit, Token, SlotsDepth, SlotsValues, ItemsAt;
    assert [91] + SlotsText(slots) + [93] == [91] + (SlotsText(slots) + [93]);
    AtParts(s, i, [91], SlotsText(slots) + [93]);
    AtByte(s, i, [91], 0);
    var start := SlotsRead(s, i + 1, slots, depth, comments, []);
    assert [] + SlotsValues(slots) == SlotsValues(slots);
  }

  /** Where the parts of a member lie. */
  lemma MemberInPlace(s: Text, p: nat, m: Member, close: Byte)
    requires At(s, p, MemberText(m) + [close])
    ensures var key := p + |GapText(m.before)|;
            var after := key + |StringText(m.key)|;
            var colon := after + |GapText(m.after)|;
            && At(s, p, GapText(m.before)) && At(s, key, StringText(m.key)) && At(s, after, GapText(m.after))
            && colon < |s| && s[colon] == 58 && At(s, colon + 1, SlotText(m.slot) + [close])
            && p + |MemberText(m)| == colon + 1 + |SlotText(m.slot)|
  {
    hide GapText, StringText, SlotText, At;
    var before, key, after := GapText(m.before), StringText(m.key), GapText(m.after);
    var slot := SlotText(m.slot) + [close];
    assert MemberText(m) + [close] == before + key + (after + [58] + slot);
    ThreeInPlace(s, p, before, key, after + [58] + slot);
    ThreeInPlace(s, p + |before| + |key|, after, [58], slot);
    AtByte(s, p + |before| + |key| + |after|, [58], 0);
  }

  /** The key of a member, the colon, and the value. */
  lemma MemberRead(s: Text, p: nat, m: Member, depth: nat, comments: bool, close: Byte)
    returns (start: nat, colon: nat, end: nat)
    requires MemberFits(m, comments) && At(s, p, MemberText(m) + [close]) && (close == 44 || close == 125)
    requires depth <= 201
    ensures p <= start < colon < end <= p + |MemberText(m)| < |s|
    ensures Token(s, p, comments) == Some(start) && s[start] == QUOTE
    ensures StringFrom(s, start + 1, [], -1).Some? && StringFrom(s, start + 1, [], -1).value.0 == CharsValue(m.key)
    ensures Token(s, StringFrom(s, start + 1, [], -1).value.1, comments) == Some(colon) && s[colon] == COLON
    ensures ValueAt(s, colon + 1, depth, comments)
         == Outcome(depth + Depth(m.slot.value), TreeValue(m.slot.value), end)
    ensures Token(s, end, comments) == Some(p + |MemberText(m)|) && s[p + |MemberText(m)|] == close
    decreases m, 0
  {
    hide GapText, GapFits, StringText, CharsFit, SlotText, SlotFits, Token, Depth, TreeValue, StringFrom, ValueAt, At,
         MemberText, CharsValue;
    MemberInPlace(s, p, m, close);
    start := p + |GapText(m.before)|;
    var after := start + |StringText(m.key)|;
    colon := after + |GapText(m.after)|;
    StringRead(s, start, m.key);
    TokenAfter(s, p, m.before, comments, start);
    TokenAfter(s, after, m.after, comments, colon);
    var value;
    value, end := SlotRead(s, colon + 1, m.slot, depth, comments, close);
  }

  /** The parser in an object: the last turn, and any other one. */
  lemma FieldsEnd(s: Text, i: nat, depth: int, comments: bool, done: seq<Field>, key: (Text, nat), colon: nat,
                  v: (Json, nat), t: nat)
    requires i < |s| && s[i] == QUOTE && StringFrom(s, i + 1, [], -1) == Some(key)
    requires Token(s, key.1, comments) == Some(colon) && s[colon] == COLON
    requires ValueAt(s, colon + 1, depth + 1, comments) == Some(v) && Token(s, v.1, comments) == Some(t)
    requires s[t] == 125
    ensures FieldsAt(s, i, depth, comments, done) == Some((Assign(done, key.0, v.0), t + 1))
  {
    hide ValueAt, Token, StringFrom, Assign;
  }

  lemma FieldsMore(s: Text, i: nat, depth: int, comments: bool, done: seq<Field>, key: (Text, nat), colon: nat,
                   v: (Json, nat), t: nat, next: nat)
    requires i < |s| && s[i] == QUOTE && StringFrom(s, i + 1, [], -1) == Some(key)
    requires Token(s, key.1, comments) == Some(colon) && s[colon] == COLON
    requires ValueAt(s, colon + 1, depth + 1, comments) == Some(v) && Token(s, v.1, comments) == Some(t)
    requires s[t] == 44 && Token(s, t + 1, comments) == Some(next)
    ensures FieldsAt(s, i, depth, comments, done)
         == FieldsAt(s, next, depth, comments, Assign(done, key.0, v.0))
  {
    hide ValueAt, Token, StringFrom, Assign;
  }

  lemma FieldsStop(s: Text, i: nat, depth: int, comments: bool, done: seq<Field>, key: (Text, nat), colon: nat)
    requires i < |s| && s[i] == QUOTE && StringFrom(s, i + 1, [], -1) == Some(key)
    requires Token(s, key.1, comments) == Some(colon) && s[colon] == COLON
    requires ValueAt(s, colon + 1, depth + 1, comments).None?
    ensures FieldsAt(s, i, depth, comments, done).None?
  {
    hide ValueAt, Token, StringFrom, Assign;
  }

  lemma MembersInPlace(s: Text, p: nat, members: Members)
    requires At(s, p, MembersText(members) + [125])
    ensures var t := p + |MemberText(members.member)|;
            && At(s, p, MemberText(members.member) + [if members.LastMember? then 125 else 44])
            && (members.LastMember? ==> |MembersText(members)| == |MemberText(members.member)|)
            && (members.MoreMembers? ==>
                  && At(s, t + 1, MembersText(members.rest) + [125])
                  && p + |MembersText(members)| == t + 1 + |MembersText(members.rest)|)
  {
    hide MemberText, At;
    var close: Byte := if members.LastMember? then 125 else 44;
    var more: Text := if members.LastMember? then [] else MembersText(members.rest) + [125];
    assert MembersText(members) + [125] == MemberText(members.member) + [close] + more;
    AtParts(s, p, MemberText(members.member) + [close], more);
  }

  lemma {:induction false} MembersRead(s: Text, p: nat, members: Members, depth: nat, comments: bool,
                                       done: seq<Field>)
    returns (start: nat)
    requires MembersFit(members, comments) && At(s, p, MembersText(members) + [125]) && depth <= 200
    ensures p <= start < |s| && Token(s, p, comments) == Some(start) && s[start] == QUOTE
    ensures FieldsAt(s, start, depth, comments, done)
         == Outcome(depth + 1 + MembersDepth(members), MembersValue(members, done), p + |MembersText(members)| + 1)
    decreases members, 0
  {
    hide MemberText, MembersText, MemberFits, Token, Depth, TreeValue, ValueAt, StringFrom, CharsValue, Assign, At,
         FieldsAt;
    var m := members.member;
    var close: Byte := if members.LastMember? then 125 else 44;
    MembersInPlace(s, p, members);
    var colon, end;
    start, colon, end := MemberRead(s, p, m, depth + 1, comments, close);
    var key := StringFrom(s, start + 1, [], -1).value;
    var v, t := TreeValue(m.slot.value), p + |MemberText(m)|;
    if depth + 1 + Depth(m.slot.value) > 200 {
      FieldsStop(s, start, depth, comments, done, key, colon);
    } else if members.MoreMembers? {
      var next := MembersRead(s, t + 1, members.rest, depth, comments, Assign(done, key.0, v));
      FieldsMore(s, start, depth, comments, done, key, colon, (v, end), t, next);
    } else {
      FieldsEnd(s, start, depth, comments, done, key, colon, (v, end), t);
    }
  }

  lemma ObjectRead(s: Text, i: nat, members: Members, depth: nat, comments: bool)
    requires MembersFit(members, comments) && At(s, i, [123] + MembersText(members) + [125]) && depth <= 200
    ensures i < |s| && s[i] == 123
    ensures ObjectAt(s, i, depth, comments)
         == Outcome(depth + 1 + MembersDepth(members), Object(MembersValue(members, [])),
                    i + |MembersText(members)| + 2)
    decreases members, 1
  {
    hide MembersText, MembersFit, Token, MembersDepth, MembersValue, FieldsAt;
    assert [123] + MembersText(members) + [125] == [123] + (MembersText(members) + [125]);
    AtParts(s, i, [123], MembersText(members) + [125]);
    AtByte(s, i, [123], 0);
    var start := MembersRead(s, i + 1, members, depth, comments, []);
  }

  /** A whole text: it is accepted exactly when nothing lies more than 200 levels deep, and then means its value. */
  lemma TextRead(x: Slot, comments: bool)
    requires TextFits(x, comments)
    ensures Parse(SlotText(x), comments) == if Depth(x.value) <= 200 then Some(TreeValue(x.value)) else None
  {
    hide GapText, GapFits, TreeText, Fits, TokenAt, Token, Garbage, Depth, TreeValue;
    var s, t := SlotText(x), TreeText(x.value);
    var start := |GapText(x.before)|;
    var end := start + |t|;
    assert At(s, 0, s);
    ThreeInPlace(s, 0, GapText(x.before), t, GapText(x.after));
    TreeBegins(x.value, comments);
    AtByte(s, start, t, 0);
    TokenAfter(s, 0, x.before, comments, start);
    BehindGap(s, end, x.after, comments, |s|);
    GapSkipped(s, end, x.after, comments, |s|);
    TreeRead(s, start, x.value, 0, comments);
  }
}
