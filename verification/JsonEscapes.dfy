/** Code points that are written as \u escapes, one or two each, come out in UTF-8. */
module JsonEscapes {
  import opened BitStrings
  import opened JsonValues
  import opened JsonGrammar
  import opened JsonRoundTrip

  /** A code point that is not half of a surrogate pair. */
  predicate Scalar(pt: int) {
    0 <= pt < 0x11_0000 && !LeadSurrogate(pt) && !TrailSurrogate(pt)
  }

  /** `\u` and four hexadecimal digits */
  function Unit(a: nat, b: nat, c: nat, d: nat): Text
    requires a < 16 && b < 16 && c < 16 && d < 16
  {
    [BACKSLASH, 117, HexDigit(a), HexDigit(b), HexDigit(c), HexDigit(d)]
  }

  function UnitOf(n: nat): Text
    requires n < 0x1_0000
  {
    Unit(n / 0x1000, n / 0x100 % 0x10, n / 0x10 % 0x10, n % 0x10)
  }

  /** Above the basic plane a code point takes a pair. */
  function Escape(pt: int): Text
    requires Scalar(pt)
  {
    if pt < 0x1_0000 then UnitOf(pt)
    else UnitOf(0xD800 + (pt - 0x1_0000) / 0x400) + UnitOf(0xDC00 + (pt - 0x1_0000) % 0x400)
  }

  predicate Scalars(pts: seq<int>) {
    forall k :: 0 <= k < |pts| ==> Scalar(pts[k])
  }

  function Escapes(pts: seq<int>): Text
    requires Scalars(pts)
  {
    if pts == [] then [] else Escape(pts[0]) + Escapes(pts[1..])
  }

  function Utf8(pts: seq<int>): Text {
    if pts == [] then [] else EncodeUtf8(pts[0]) + Utf8(pts[1..])
  }

  lemma HexDigitValue(n: nat)
    requires n < 16
    ensures HexValue(HexDigit(n)) == n
  {
  }

  /** One escape is held back, and lets go of the one before it, unless the two are a pair. */
  lemma UnitReads(s: Text, i: nat, n: nat, out: Text, last: int)
    requires n < 0x1_0000 && At(s, i, UnitOf(n)) && !(LeadSurrogate(last) && TrailSurrogate(n))
    ensures i + 6 <= |s| && StringFrom(s, i, out, last) == StringFrom(s, i + 6, out + EncodeUtf8(last), n)
  {
    UnitIs(s, i, n);
  }

  lemma PairReads(s: Text, i: nat, pt: int, out: Text, last: int)
    requires 0x1_0000 <= pt < 0x11_0000 && last == 0xD800 + (pt - 0x1_0000) / 0x400
    requires At(s, i, UnitOf(0xDC00 + (pt - 0x1_0000) % 0x400))
    ensures i + 6 <= |s| && StringFrom(s, i, out, last) == StringFrom(s, i + 6, out + EncodeUtf8(pt), -1)
  {
    UnitIs(s, i, 0xDC00 + (pt - 0x1_0000) % 0x400);
  }

  lemma UnitIs(s: Text, i: nat, n: nat)
    requires n < 0x1_0000 && At(s, i, UnitOf(n))
    ensures i + 6 <= |s| && s[i] == BACKSLASH && s[i + 1] == 117 && HexAt(s, i + 2) && CodePointAt(s, i + 2) == n
  {
    hide HexAt, CodePointAt;
    DigitsMakeUp(n);
    DigitsOf(s, i, n / 0x1000, n / 0x100 % 0x10, n / 0x10 % 0x10, n % 0x10);
  }

  lemma DigitsMakeUp(n: nat)
    requires n < 0x1_0000
    ensures n == 0x1000 * (n / 0x1000) + 0x100 * (n / 0x100 % 0x10) + 0x10 * (n / 0x10 % 0x10) + n % 0x10
    ensures n / 0x1000 < 16
  {
    var a, b := n / 0x10, n / 0x100;
    assert n == 0x10 * a + n % 0x10 && a == 0x10 * (a / 0x10) + a % 0x10 && b == 0x10 * (b / 0x10) + b % 0x10;
    assert a / 0x10 == b && b / 0x10 == n / 0x1000;
  }

  lemma DigitsOf(s: Text, i: nat, a: nat, b: nat, c: nat, d: nat)
    requires a < 16 && b < 16 && c < 16 && d < 16 && At(s, i, Unit(a, b, c, d))
    ensures i + 6 <= |s| && s[i] == BACKSLASH && s[i + 1] == 117
    ensures HexAt(s, i + 2) && CodePointAt(s, i + 2) == 0x1000 * a + 0x100 * b + 0x10 * c + d
  {
    hide HexDigit, HexValue;
    var u := Unit(a, b, c, d);
    AtByte(s, i, u, 0);
    AtByte(s, i, u, 1);
    AtByte(s, i, u, 2);
    AtByte(s, i, u, 3);
    AtByte(s, i, u, 4);
    AtByte(s, i, u, 5);
    HexDigitValue(a);
    HexDigitValue(b);
    HexDigitValue(c);
    HexDigitValue(d);
  }

  /** Whatever code points are escaped in a string, what is read is their UTF-8. */
  lemma {:induction false} EscapesRead(s: Text, i: nat, pts: seq<int>, out: Text, last: int)
    requires Scalars(pts) && !LeadSurrogate(last) && At(s, i, Escapes(pts) + [QUOTE])
    ensures StringFrom(s, i, out, last)
         == Some((out + EncodeUtf8(last) + Utf8(pts), i + |Escapes(pts)| + 1))
    decreases |pts|
  {
    hide EncodeUtf8, UnitOf, StringFrom;
    if pts == [] {
      assert Escapes(pts) + [QUOTE] == [QUOTE];
      AtByte(s, i, [QUOTE], 0);
      StringEnds(s, i, out, last);
      assert out + EncodeUtf8(last) + Utf8(pts) == out + EncodeUtf8(last);
    } else {
      var pt, rest := pts[0], Escapes(pts[1..]) + [QUOTE];
      assert Escapes(pts) + [QUOTE] == Escape(pt) + rest;
      AtParts(s, i, Escape(pt), rest);
      EscapeReads(s, i, pt, out, last);
      var flushed := out + EncodeUtf8(last);
      if pt < 0x1_0000 {
        EscapesRead(s, i + |Escape(pt)|, pts[1..], flushed, pt);
      } else {
        EscapesRead(s, i + |Escape(pt)|, pts[1..], flushed + EncodeUtf8(pt), -1);
        NoCodePoint(flushed + EncodeUtf8(pt));
      }
      assert flushed + EncodeUtf8(pt) + Utf8(pts[1..]) == flushed + Utf8(pts);
    }
  }

  lemma NoCodePoint(out: Text)
    ensures out + EncodeUtf8(-1) == out
  {
  }

  lemma StringEnds(s: Text, i: nat, out: Text, last: int)
    requires i < |s| && s[i] == QUOTE
    ensures StringFrom(s, i, out, last) == Some((out + EncodeUtf8(last), i + 1))
  {
  }

  lemma EscapeReads(s: Text, i: nat, pt: int, out: Text, last: int)
    requires Scalar(pt) && !LeadSurrogate(last) && At(s, i, Escape(pt))
    ensures i + |Escape(pt)| <= |s|
    ensures StringFrom(s, i, out, last) ==
            if pt < 0x1_0000 then StringFrom(s, i + |Escape(pt)|, out + EncodeUtf8(last), pt)
            else StringFrom(s, i + |Escape(pt)|, out + EncodeUtf8(last) + EncodeUtf8(pt), -1)
  {
    hide EncodeUtf8, StringFrom;
    if pt < 0x1_0000 {
      UnitReads(s, i, pt, out, last);
    } else {
      var lead, trail := 0xD800 + (pt - 0x1_0000) / 0x400, 0xDC00 + (pt - 0x1_0000) % 0x400;
      AtParts(s, i, UnitOf(lead), UnitOf(trail));
      UnitReads(s, i, lead, out, last);
      PairReads(s, i + 6, pt, out + EncodeUtf8(last), lead);
    }
  }
}
