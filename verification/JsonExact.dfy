/** The parser accepts no text but those that the trees of `JsonSyntax` describe, down to the depth limit. */
module JsonExact {
  import opened BitStrings
  import opened HexDigits
  import opened JsonValues
  import opened JsonGrammar
  import opened JsonSyntax
  import opened JsonAccepts
  import JsonRoundTrip

  lemma Joined(s: Text, i: nat, j: nat, k: nat)
    requires i <= j <= k <= |s|
    ensures s[i..j] + s[j..k] == s[i..k]
  {
  }

  lemma OneByte(s: Text, i: nat)
    requires i < |s|
    ensures s[i..i + 1] == [s[i]]
  {
  }

  lemma TwoBytes(s: Text, i: nat)
    requires i + 2 <= |s|
    ensures s[i..i + 2] == [s[i], s[i + 1]]
  {
  }

  /* Between tokens */

  /** The blanks at `i` end at the first byte that is none. */
  lemma {:induction false} BlanksFound(s: Text, i: nat)
    requires i <= |s|
    ensures AllBlank(s[i..SkipBlanks(s, i)])
    ensures var j := SkipBlanks(s, i); j < |s| ==> !Blank(s[j])
    decreases |s| - i
  {
    if i < |s| && Blank(s[i]) {
      BlanksFound(s, i + 1);
      Joined(s, i, i + 1, SkipBlanks(s, i));
    }
  }

  /** Where no comments are allowed, just the bytes 32, 9, 10 and 13 are passed over, and all of them. */
  lemma {:induction false} GarbageIs(s: Text, i: nat, k: nat)
    requires i <= |s|
    ensures Garbage(s, i, false) == Some(k) <==>
            && i <= k <= |s|
            && (forall n :: i <= n < k ==> s[n] == 32 || s[n] == 9 || s[n] == 10 || s[n] == 13)
            && (k == |s| || !(s[k] == 32 || s[k] == 9 || s[k] == 10 || s[k] == 13))
    decreases |s| - i
  {
    if i < |s| && Blank(s[i]) {
      GarbageIs(s, i + 1, k);
    }
  }

  lemma {:induction false} LineFound(s: Text, i: nat)
    requires i <= |s|
    ensures var j := SkipLine(s, i);
            (forall k :: 0 <= k < j - i ==> s[i..j][k] != 10) && (j == |s| || s[j] == 10)
    decreases |s| - i
  {
    if i < |s| && s[i] != 10 {
      LineFound(s, i + 1);
      Joined(s, i, i + 1, SkipLine(s, i));
    }
  }

  lemma {:induction false} BlockFound(s: Text, i: nat)
    requires i <= |s| && SkipBlock(s, i).Some?
    ensures var e := SkipBlock(s, i).value - 2;
            && i <= e && s[e] == 42 && s[e + 1] == 47
            && (forall k :: i <= k < e ==> !(s[k] == 42 && s[k + 1] == 47))
    decreases |s| - i
  {
    if !(s[i] == 42 && s[i + 1] == 47) {
      BlockFound(s, i + 1);
    }
  }

  lemma CommentFound(s: Text, i: nat) returns (c: Comment)
    requires i <= |s| && Peek(s, i) == 47 && SkipComment(s, i).Some?
    ensures var j := SkipComment(s, i).value;
            && i < j && CommentText(c) == s[i..j]
            && (c.Line? ==> (forall k :: 0 <= k < |c.body| ==> c.body[k] != 10) && (j == |s| || s[j] == 10))
            && (c.Block? ==> forall k :: 0 <= k < |c.body| - 1 ==> !(c.body[k] == 42 && c.body[k + 1] == 47))
  {
    hide SkipLine, SkipBlock;
    var j := SkipComment(s, i).value;
    if s[i + 1] == 47 {
      LineFound(s, i + 2);
      c := Line(s[i + 2..j]);
      Joined(s, i, i + 2, j);
      TwoBytes(s, i);
    } else {
      BlockFound(s, i + 2);
      c := Block(s[i + 2..j - 2]);
      Joined(s, i, i + 2, j - 2);
      Joined(s, i, j - 2, j);
      TwoBytes(s, i);
      TwoBytes(s, j - 2);
    }
  }

  lemma {:induction false} GapFound(s: Text, i: nat, comments: bool) returns (g: Gap)
    requires i <= |s| && Garbage(s, i, comments).Some?
    ensures var j := Garbage(s, i, comments).value;
            && g.blanks == s[i..SkipBlanks(s, i)] && GapText(g) == s[i..j] && GapFits(g, comments, j == |s|)
            && (j < |s| ==> !Blank(s[j]) && (comments ==> s[j] != 47))
    decreases |s| - i
  {
    hide SkipComment, CommentText, SkipBlanks, AllBlank;
    var k := SkipBlanks(s, i);
    BlanksFound(s, i);
    if comments && Peek(s, k) == 47 {
      var m := SkipComment(s, k).value;
      var c := CommentFound(s, k);
      var rest := GapFound(s, m, comments);
      g := Remark(s[i..k], c, rest);
      RemarkFits(s, m, c, rest, Garbage(s, m, comments).value == |s|);
      Joined(s, i, k, m);
      Joined(s, i, m, Garbage(s, m, comments).value);
    } else {
      SkippedTwice(s, i);
      g := Blanks(s[i..k]);
    }
  }

  lemma SkippedTwice(s: Text, i: nat)
    requires i <= |s|
    ensures SkipBlanks(s, SkipBlanks(s, i)) == SkipBlanks(s, i)
  {
    BlanksFound(s, i);
  }

  lemma RemarkFits(s: Text, m: nat, c: Comment, rest: Gap, atEnd: bool)
    requires m <= |s| && rest.blanks == s[m..SkipBlanks(s, m)] && At(s, m, GapText(rest))
    requires atEnd <==> m + |GapText(rest)| == |s|
    requires c.Line? ==> (forall k :: 0 <= k < |c.body| ==> c.body[k] != 10) && (m == |s| || s[m] == 10)
    requires c.Block? ==> forall k :: 0 <= k < |c.body| - 1 ==> !(c.body[k] == 42 && c.body[k + 1] == 47)
    ensures CommentFits(c, rest, atEnd)
  {
    if c.Line? {
      if m == |s| {
        assert GapText(rest) == [];
      } else {
        assert SkipBlanks(s, m) > m && rest.blanks[0] == s[m];
      }
    }
  }

  lemma NothingSkipped(s: Text, j: nat)
    requires j < |s| && SkipBlanks(s, j) == j && s[j] != 47
    ensures SkipComments(s, j) == Some(j)
  {
  }

  lemma TokenFound(s: Text, i: nat, comments: bool) returns (g: Gap)
    requires i <= |s| && Token(s, i, comments).Some?
    ensures var j := Token(s, i, comments).value;
            GapText(g) == s[i..j] && GapFits(g, comments, false) && Token(s, j, comments) == Some(j)
  {
    g := GapFound(s, i, comments);
    TokenStays(s, i, comments);
  }

  lemma TokenStays(s: Text, i: nat, comments: bool)
    requires i <= |s| && Token(s, i, comments).Some?
    ensures Token(s, Token(s, i, comments).value, comments) == Token(s, i, comments)
  {
    hide SkipComments;
    var g := GapFound(s, i, comments);
    var j := Token(s, i, comments).value;
    assert SkipBlanks(s, j) == j;
    if comments {
      NothingSkipped(s, j);
    }
  }

  /* Strings */

  lemma HexFound(b: Byte) returns (h: Hex)
    requires HexValue(b) >= 0
    ensures HexByte(h) == b
  {
    h := Hex(HexValue(b), 65 <= b <= 70);
  }

  lemma UnitFound(s: Text, i: nat) returns (c: Char)
    requires HexAt(s, i + 2) && s[i] == 92 && s[i + 1] == 117
    ensures c.Unit? && CharText(c) == s[i..i + 6]
  {
    hide HexByte, HexValue;
    var a := HexFound(s[i + 2]);
    var b := HexFound(s[i + 3]);
    var b' := HexFound(s[i + 4]);
    var d := HexFound(s[i + 5]);
    c := Unit(a, b, b', d);
  }

  lemma ShortFound(b: Byte) returns (k: Letter)
    requires Unescape(b) >= 0
    ensures LETTERS[k] == b
  {
    k := if b == 34 then 0 else if b == 92 then 1 else if b == 47 then 2 else if b == 98 then 3
         else if b == 102 then 4 else if b == 110 then 5 else if b == 114 then 6 else 7;
  }

  lemma CharFound(s: Text, i: nat, out: Text, last: int) returns (c: Char, out': Text, last': int)
    requires i < |s| && s[i] != 34 && StringFrom(s, i, out, last).Some?
    ensures CharFits(c) && i + |CharText(c)| <= |s| && CharText(c) == s[i..i + |CharText(c)|]
    ensures StringFrom(s, i, out, last) == StringFrom(s, i + |CharText(c)|, out', last')
  {
    hide EncodeUtf8, HexByte, HexAt, CodePointAt, LETTERS;
    if s[i] != 92 {
      c, out', last' := Raw(s[i]), out + EncodeUtf8(last) + [s[i]], -1;
    } else if s[i + 1] == 117 {
      c := UnitFound(s, i);
      var pt := CodePointAt(s, i + 2);
      if LeadSurrogate(last) && TrailSurrogate(pt) {
        out', last' := out + EncodeUtf8((last - 0xD800) * 0x400 + (pt - 0xDC00) + 0x10000), -1;
      } else {
        out', last' := out + EncodeUtf8(last), pt;
      }
    } else {
      var k := ShortFound(s[i + 1]);
      c, out', last' := Short(k), out + EncodeUtf8(last) + [Unescape(s[i + 1])], -1;
    }
  }

  lemma {:induction false} CharsFound(s: Text, i: nat, out: Text, last: int) returns (cs: seq<Char>)
    requires i <= |s| && StringFrom(s, i, out, last).Some?
    ensures CharsFit(cs) && CharsText(cs) + [34] == s[i..StringFrom(s, i, out, last).value.1]
    decreases |s| - i
  {
    hide EncodeUtf8, CharText, CharFits, HexAt, CodePointAt, Unescape;
    var e := StringFrom(s, i, out, last).value.1;
    if s[i] == 34 {
      cs := [];
      assert CharsText(cs) + [34] == [34] == s[i..e];
    } else {
      var c, out', last' := CharFound(s, i, out, last);
      var m := i + |CharText(c)|;
      var rest := CharsFound(s, m, out', last');
      cs := [c] + rest;
      assert cs[1..] == rest;
      assert CharText(c) + (CharsText(rest) + [34]) == CharText(c) + CharsText(rest) + [34];
      Joined(s, i, m, e);
    }
  }

  lemma StringFound(s: Text, i: nat) returns (cs: seq<Char>)
    requires i < |s| && s[i] == 34 && StringFrom(s, i + 1, [], -1).Some?
    ensures CharsFit(cs) && StringText(cs) == s[i..StringFrom(s, i + 1, [], -1).value.1]
  {
    hide StringFrom, CharsText;
    cs := CharsFound(s, i + 1, [], -1);
    OneByte(s, i);
    Joined(s, i, i + 1, StringFrom(s, i + 1, [], -1).value.1);
    assert [34] + (CharsText(cs) + [34]) == StringText(cs);
  }

  /* Numbers */

  lemma {:induction false} FiguresFound(s: Text, i: nat, j: nat) returns (figures: seq<Figure>)
    requires i <= j <= |s| && forall k :: i <= k < j ==> IsDigit(s[k])
    ensures FiguresText(figures) == s[i..j] && |figures| == j - i
    ensures i < j ==> figures[0] == s[i] - 48
    decreases j - i
  {
    if i == j {
      figures := [];
    } else {
      var rest := FiguresFound(s, i + 1, j);
      figures := [s[i] - 48] + rest;
      assert figures[1..] == rest;
      assert FigureByte(figures[0]) == s[i];
    }
  }

  /** The whole part of a number. */
  lemma WholeFound(s: Text, i: nat) returns (minus: bool, whole: seq<Figure>)
    requires i <= |s| && IntegerEnd(s, i).Some?
    ensures whole != [] && (whole[0] == 0 ==> |whole| == 1)
    ensures (if minus then [45] else []) + FiguresText(whole) == s[i..IntegerEnd(s, i).value]
  {
    hide SkipDigits, FiguresText;
    minus := Peek(s, i) == 45;
    var start := if minus then i + 1 else i;
    if start < |s| { SkipDigitsAre(s, start + 1); }
    whole := FiguresFound(s, start, IntegerEnd(s, i).value);
    if minus { OneByte(s, i); }
    Joined(s, i, start, IntegerEnd(s, i).value);
  }

  lemma FractionFound(s: Text, i: nat) returns (fraction: seq<Figure>)
    requires i <= |s| && FractionEnd(s, i).Some?
    ensures (if fraction == [] then [] else [46] + FiguresText(fraction)) == s[i..FractionEnd(s, i).value]
  {
    hide FiguresText;
    if Peek(s, i) != 46 {
      fraction := [];
    } else {
      SkipDigitsAre(s, i + 1);
      fraction := FiguresFound(s, i + 1, FractionEnd(s, i).value);
      OneByte(s, i);
      Joined(s, i, i + 1, FractionEnd(s, i).value);
    }
  }

  lemma ExponentFound(s: Text, i: nat) returns (e: Option<Exponent>)
    requires i <= |s| && ExponentEnd(s, i).Some?
    ensures e.Some? ==> e.value.figures != []
    ensures s[i..ExponentEnd(s, i).value]
         == if e.None? then []
            else [if e.value.upper then 69 else 101] + SignText(e.value.sign) + FiguresText(e.value.figures)
  {
    hide FiguresText;
    var end := ExponentEnd(s, i).value;
    if Peek(s, i) != 101 && Peek(s, i) != 69 {
      e := None;
    } else {
      var sign := if Peek(s, i + 1) == 43 then Plus else if Peek(s, i + 1) == 45 then Minus else NoSign;
      var start := i + 1 + |SignText(sign)|;
      SkipDigitsAre(s, start);
      var figures := FiguresFound(s, start, end);
      e := Some(Exponent(s[i] == 69, sign, figures));
      OneByte(s, i);
      Joined(s, i, i + 1, start);
      Joined(s, i, start, end);
      assert s[i + 1..start] == SignText(sign);
    }
  }

  lemma NumberFound(s: Text, i: nat) returns (n: Number)
    requires i <= |s| && NumberAt(s, i).Some?
    ensures NumberFits(n) && NumberText(n) == s[i..NumberAt(s, i).value.1]
  {
    hide IntegerEnd, FractionEnd, ExponentEnd, FiguresText, IntegerValue;
    var w, x := IntegerEnd(s, i).value, NumberAt(s, i).value.1;
    IntegerIs(s, i, w);
    var minus, whole := WholeFound(s, i);
    if NumberAt(s, i).value.0.Int? {
      n := Number(minus, whole, [], None);
      assert s[i..w] + [] + [] == s[i..w];
    } else {
      var f := FractionEnd(s, w).value;
      var fraction := FractionFound(s, w);
      var exponent := ExponentFound(s, f);
      n := Number(minus, whole, fraction, exponent);
      Joined(s, i, w, f);
      Joined(s, i, f, x);
    }
  }

  /* Values */

  lemma WordFound(s: Text, i: nat, word: Text, v: Json)
    requires word != [] && Expect(s, i, word, v).Some?
    ensures s[i..Expect(s, i, word, v).value.1] == word
  {
  }

  lemma LeafFound(s: Text, i: nat) returns (t: Tree)
    requires i < |s| && LeafAt(s, i).Some?
    ensures Fits(t, false) && Fits(t, true) && Depth(t) == 0 && TreeText(t) == s[i..LeafAt(s, i).value.1]
  {
    hide NumberAt, StringFrom, CharsText, NumberText, Expect;
    if s[i] == 116 {
      WordFound(s, i, DumpBool(true), Bool(true));
      t := BoolTree(true);
    } else if s[i] == 102 {
      WordFound(s, i, DumpBool(false), Bool(false));
      t := BoolTree(false);
    } else if s[i] == 110 {
      WordFound(s, i, Dump(Null), Null);
      t := NullTree;
    } else if s[i] == 34 {
      var cs := StringFound(s, i);
      t := StringTree(cs);
    } else {
      var n := NumberFound(s, i);
      t := NumberTree(n);
    }
  }

  /** The text of the value that begins with the token at `i`. */
  lemma {:induction false} TreeFound(s: Text, i: nat, depth: nat, comments: bool) returns (t: Tree)
    requires i < |s| && depth <= 200 && TokenAt(s, i, depth, comments).Some?
    ensures Fits(t, comments) && TreeText(t) == s[i..TokenAt(s, i, depth, comments).value.1]
    ensures depth + Depth(t) <= 200
    decreases |s| - i, 3
  {
    hide LeafAt, ArrayAt, ObjectAt, Fits, TreeText, Depth;
    if s[i] == 123 {
      t := ObjectFound(s, i, depth, comments);
    } else if s[i] == 91 {
      t := ArrayFound(s, i, depth, comments);
    } else {
      t := LeafFound(s, i);
    }
  }

  lemma ValueFound(s: Text, p: nat, depth: nat, comments: bool) returns (g: Gap, t: Tree)
    requires p <= |s| && ValueAt(s, p, depth, comments).Some?
    ensures GapFits(g, comments, false) && Fits(t, comments) && depth + Depth(t) <= 200
    ensures GapText(g) + TreeText(t) == s[p..ValueAt(s, p, depth, comments).value.1]
    decreases |s| - p, 4
  {
    hide TokenAt, Token, GapText, GapFits, Fits, TreeText, Depth;
    g := TokenFound(s, p, comments);
    var i := Token(s, p, comments).value;
    t := TreeFound(s, i, depth, comments);
    Joined(s, p, i, TokenAt(s, i, depth, comments).value.1);
  }

  lemma ArrayFound(s: Text, i: nat, depth: nat, comments: bool) returns (t: Tree)
    requires i < |s| && s[i] == 91 && depth <= 200 && ArrayAt(s, i, depth, comments).Some?
    ensures Fits(t, comments) && TreeText(t) == s[i..ArrayAt(s, i, depth, comments).value.1]
    ensures depth + Depth(t) <= 200
    decreases |s| - i, 2
  {
    hide Token, ItemsAt, GapText, GapFits, SlotsText, SlotsFit, SlotsDepth;
    var g := TokenFound(s, i + 1, comments);
    var start := Token(s, i + 1, comments).value;
    OneByte(s, i);
    if s[start] == 93 {
      t := EmptyArray(g);
      OneByte(s, start);
      Joined(s, i, i + 1, start);
      Joined(s, i, start, start + 1);
    } else {
      var slots := SlotsFound(s, i + 1, g, start, depth, comments, []);
      t := ArrayTree(slots);
      Joined(s, i, i + 1, ArrayAt(s, i, depth, comments).value.1);
      assert [91] + (SlotsText(slots) + [93]) == [91] + SlotsText(slots) + [93];
    }
  }

  /** What the parser went through in one turn in an array that is read. */
  lemma ItemsParts(s: Text, i: nat, depth: int, comments: bool, done: seq<Json>)
    requires i < |s| && ItemsAt(s, i, depth, comments, done).Some?
    ensures ValueAt(s, i, depth + 1, comments).Some?
    ensures var v := ValueAt(s, i, depth + 1, comments).value;
            var t := Token(s, v.1, comments);
            var items := done + [v.0];
            && t.Some?
            && (s[t.value] == 93 ==> ItemsAt(s, i, depth, comments, done) == Some((items, t.value + 1)))
            && (s[t.value] != 93 ==>
                  && s[t.value] == 44 && Token(s, t.value + 1, comments).Some?
                  && ItemsAt(s, i, depth, comments, done)
                     == ItemsAt(s, Token(s, t.value + 1, comments).value, depth, comments, items))
  {
    hide ValueAt, Token;
  }

  /** The values of an array from the token at `i` on, the first of them with the gap before it. */
  lemma {:induction false} SlotsFound(s: Text, p: nat, g: Gap, i: nat, depth: nat, comments: bool, done: seq<Json>)
    returns (slots: Slots)
    requires p <= i < |s| && GapText(g) == s[p..i] && GapFits(g, comments, false) && Token(s, i, comments) == Some(i)
    requires ItemsAt(s, i, depth, comments, done).Some?
    ensures SlotsFit(slots, comments) && depth + 1 + SlotsDepth(slots) <= 200
    ensures SlotsText(slots) + [93] == s[p..ItemsAt(s, i, depth, comments, done).value.1]
    decreases |s| - i, 5
  {
    hide Token, ValueAt, GapText, GapFits, SlotFits, SlotText, Depth, ItemsAt;
    ItemsParts(s, i, depth, comments, done);
    var v := ValueAt(s, i, depth + 1, comments).value;
    var x := SlotFound(s, p, g, i, depth + 1, comments);
    var end := Token(s, v.1, comments).value;
    OneByte(s, end);
    if s[end] == 93 {
      slots := LastSlot(x);
      Joined(s, p, end, end + 1);
    } else {
      var before := TokenFound(s, end + 1, comments);
      var next := Token(s, end + 1, comments).value;
      var rest := SlotsFound(s, end + 1, before, next, depth, comments, done + [v.0]);
      slots := MoreSlots(x, rest);
      var e := ItemsAt(s, i, depth, comments, done).value.1;
      Joined(s, p, end, end + 1);
      Joined(s, p, end + 1, e);
      assert SlotText(x) + [44] + (SlotsText(rest) + [93]) == SlotsText(slots) + [93];
    }
  }

  /** One value of an array, or of a member, and the gap behind it. */
  lemma SlotFound(s: Text, p: nat, g: Gap, i: nat, depth: nat, comments: bool) returns (x: Slot)
    requires p <= i <= |s| && GapText(g) == s[p..i] && GapFits(g, comments, false)
    requires Token(s, i, comments) == Some(i)
    requires ValueAt(s, i, depth, comments).Some? && Token(s, ValueAt(s, i, depth, comments).value.1, comments).Some?
    ensures SlotFits(x, comments) && depth + Depth(x.value) <= 200
    ensures SlotText(x) == s[p..Token(s, ValueAt(s, i, depth, comments).value.1, comments).value]
    decreases |s| - i, 4
  {
    hide Token, TokenAt, GapText, GapFits, Fits, TreeText, Depth;
    var end := ValueAt(s, i, depth, comments).value.1;
    var t := TreeFound(s, i, depth, comments);
    var after := TokenFound(s, end, comments);
    x := Slot(g, t, after);
    Joined(s, p, i, end);
    Joined(s, p, end, Token(s, end, comments).value);
  }

  lemma ObjectFound(s: Text, i: nat, depth: nat, comments: bool) returns (t: Tree)
    requires i < |s| && s[i] == 123 && depth <= 200 && ObjectAt(s, i, depth, comments).Some?
    ensures Fits(t, comments) && TreeText(t) == s[i..ObjectAt(s, i, depth, comments).value.1]
    ensures depth + Depth(t) <= 200
    decreases |s| - i, 2
  {
    hide Token, FieldsAt, GapText, GapFits, MembersText, MembersFit, MembersDepth;
    var g := TokenFound(s, i + 1, comments);
    var start := Token(s, i + 1, comments).value;
    OneByte(s, i);
    if s[start] == 125 {
      t := EmptyObject(g);
      OneByte(s, start);
      Joined(s, i, i + 1, start);
      Joined(s, i, start, start + 1);
    } else {
      var members := MembersFound(s, i + 1, g, start, depth, comments, []);
      t := ObjectTree(members);
      Joined(s, i, i + 1, ObjectAt(s, i, depth, comments).value.1);
      assert [123] + (MembersText(members) + [125]) == [123] + MembersText(members) + [125];
    }
  }

  /** The key, the colon and the value of a member that is read. */
  lemma FieldsKey(s: Text, i: nat, depth: int, comments: bool, done: seq<Field>)
    requires i < |s| && FieldsAt(s, i, depth, comments, done).Some?
    ensures s[i] == 34 && StringFrom(s, i + 1, [], -1).Some?
    ensures var colon := Token(s, StringFrom(s, i + 1, [], -1).value.1, comments);
            colon.Some? && s[colon.value] == 58
  {
    hide ValueAt, Token, StringFrom, Assign;
  }

  lemma FieldsValue(s: Text, i: nat, depth: int, comments: bool, done: seq<Field>, key: (Text, nat), colon: nat)
    requires i < |s| && FieldsAt(s, i, depth, comments, done).Some? && StringFrom(s, i + 1, [], -1) == Some(key)
    requires Token(s, key.1, comments) == Some(colon)
    ensures ValueAt(s, colon + 1, depth + 1, comments).Some?
    ensures Token(s, ValueAt(s, colon + 1, depth + 1, comments).value.1, comments).Some?
  {
    hide ValueAt, Token, StringFrom, Assign;
  }

  lemma FieldsParts(s: Text, i: nat, depth: int, comments: bool, done: seq<Field>, key: (Text, nat), colon: nat,
                    v: (Json, nat), t: nat)
    requires i < |s| && FieldsAt(s, i, depth, comments, done).Some?
    requires s[i] == 34 && StringFrom(s, i + 1, [], -1) == Some(key)
    requires Token(s, key.1, comments) == Some(colon) && s[colon] == 58
    requires ValueAt(s, colon + 1, depth + 1, comments) == Some(v) && Token(s, v.1, comments) == Some(t)
    ensures var fields := Assign(done, key.0, v.0);
            && (s[t] == 125 ==> FieldsAt(s, i, depth, comments, done) == Some((fields, t + 1)))
            && (s[t] != 125 ==>
                  && s[t] == 44 && Token(s, t + 1, comments).Some?
                  && FieldsAt(s, i, depth, comments, done)
                     == FieldsAt(s, Token(s, t + 1, comments).value, depth, comments, fields))
  {
    hide ValueAt, Token, StringFrom, Assign;
  }

  /** The members of an object, likewise. */
  lemma {:induction false} MembersFound(s: Text, p: nat, g: Gap, i: nat, depth: nat, comments: bool, done: seq<Field>)
    returns (members: Members)
    requires p <= i < |s| && GapText(g) == s[p..i] && GapFits(g, comments, false)
    requires FieldsAt(s, i, depth, comments, done).Some?
    ensures MembersFit(members, comments) && depth + 1 + MembersDepth(members) <= 200
    ensures MembersText(members) + [125] == s[p..FieldsAt(s, i, depth, comments, done).value.1]
    decreases |s| - i, 5
  {
    hide Token, ValueAt, GapText, GapFits, Depth, StringFrom, Assign, MemberText, MemberFits, FieldsAt;
    FieldsKey(s, i, depth, comments, done);
    var key := StringFrom(s, i + 1, [], -1).value;
    var colon := Token(s, key.1, comments).value;
    FieldsValue(s, i, depth, comments, done, key, colon);
    var v := ValueAt(s, colon + 1, depth + 1, comments).value;
    var end := Token(s, v.1, comments).value;
    FieldsParts(s, i, depth, comments, done, key, colon, v, end);
    var m := MemberFound(s, p, g, i, colon, depth + 1, comments);
    OneByte(s, end);
    if s[end] == 125 {
      members := LastMember(m);
      Joined(s, p, end, end + 1);
    } else {
      var before := TokenFound(s, end + 1, comments);
      var next := Token(s, end + 1, comments).value;
      var rest := MembersFound(s, end + 1, before, next, depth, comments, Assign(done, key.0, v.0));
      members := MoreMembers(m, rest);
      var e := FieldsAt(s, i, depth, comments, done).value.1;
      Joined(s, p, end, end + 1);
      Joined(s, p, end + 1, e);
      assert MemberText(m) + [44] + (MembersText(rest) + [125]) == MembersText(members) + [125];
    }
  }

  lemma MemberFound(s: Text, p: nat, g: Gap, i: nat, colon: nat, depth: nat, comments: bool) returns (m: Member)
    requires p <= i < colon < |s| && GapText(g) == s[p..i] && GapFits(g, comments, false) && s[i] == 34
    requires StringFrom(s, i + 1, [], -1).Some? && s[colon] == 58
    requires Token(s, StringFrom(s, i + 1, [], -1).value.1, comments) == Some(colon)
    requires ValueAt(s, colon + 1, depth, comments).Some?
    requires Token(s, ValueAt(s, colon + 1, depth, comments).value.1, comments).Some?
    ensures MemberFits(m, comments) && depth + Depth(m.slot.value) <= 200
    ensures MemberText(m) == s[p..Token(s, ValueAt(s, colon + 1, depth, comments).value.1, comments).value]
    decreases |s| - i, 4
  {
    hide Token, TokenAt, GapText, GapFits, Fits, TreeText, Depth, StringFrom, CharsFit, StringText, SlotText, SlotFits;
    var close := StringFrom(s, i + 1, [], -1).value.1;
    var key := StringFound(s, i);
    var after := TokenFound(s, close, comments);
    var before := TokenFound(s, colon + 1, comments);
    var start := Token(s, colon + 1, comments).value;
    var x := SlotFound(s, colon + 1, before, start, depth, comments);
    m := Member(g, key, after, x);
    var end := Token(s, ValueAt(s, start, depth, comments).value.1, comments).value;
    OneByte(s, colon);
    Joined(s, p, i, close);
    Joined(s, p, close, colon);
    Joined(s, p, colon, colon + 1);
    Joined(s, p, colon + 1, end);
  }

  lemma TextFound(s: Text, comments: bool) returns (x: Slot)
    requires Parse(s, comments).Some?
    ensures TextFits(x, comments) && SlotText(x) == s && Depth(x.value) <= 200
  {
    hide ValueAt, Garbage, GapText, GapFits, Fits, TreeText, Depth;
    var before, t := ValueFound(s, 0, 0, comments);
    var end := ValueAt(s, 0, 0, comments).value.1;
    var after := GapFound(s, end, comments);
    x := Slot(before, t, after);
    Joined(s, 0, end, |s|);
    assert s[0..|s|] == s;
  }

  /** The parser reads the texts of RFC 8259 with not more than 200 arrays and objects around a value, with the
      comments of json11 if they are allowed, and no others; and it makes of them what they say. */
  lemma ParsesExactly(s: Text, comments: bool, v: Json)
    ensures Parse(s, comments) == Some(v) <==>
            exists x :: TextFits(x, comments) && SlotText(x) == s && Depth(x.value) <= 200 && TreeValue(x.value) == v
  {
    hide Parse, TextFits, SlotText, Depth, TreeValue;
    if Parse(s, comments) == Some(v) {
      var x := TextFound(s, comments);
      TextRead(x, comments);
    }
    forall x | TextFits(x, comments) && SlotText(x) == s && Depth(x.value) <= 200 && TreeValue(x.value) == v
      ensures Parse(s, comments) == Some(v)
    {
      TextRead(x, comments);
    }
  }

  /** What is printed is such a text without comments, and says a value equal to the one printed. */
  lemma DumpConforms(v: Json)
    requires Plain(v) && Within(v, 200)
    ensures exists x ::
              TextFits(x, false) && SlotText(x) == Dump(v) && JsonRoundTrip.Equal(v, TreeValue(x.value))
  {
    hide Parse, Plain, Within, TextFits, SlotText, TreeValue, Depth, Dump, JsonRoundTrip.Equal;
    JsonRoundTrip.ParseOfDump(v, false);
    var x := TextFound(Dump(v), false);
    TextRead(x, false);
  }
}
