/** A header that FSE_readNCount accepts with counts other than those its bits spell. */
module NCountMisread {
  import opened Bits
  import opened BitStrings
  import opened FseTable
  import opened NCount
  import opened NCountPlain

  /** Powers of two up to 2^16, and a few more. */
  lemma SmallPowers()
    ensures Pow2(1) == 2 && Pow2(2) == 4 && Pow2(4) == 0x10 && Pow2(5) == 0x20 && Pow2(6) == 0x40 && Pow2(10) == 0x400
    ensures Pow2(12) == 0x1000 && Pow2(14) == 0x4000 && Pow2(16) == 0x1_0000 && Pow2(28) == 0x1000_0000
    ensures Pow2(42) == 0x400_0000_0000
  {
    assert Pow2(2) == 4 && Pow2(4) == 0x10 && Pow2(5) == 0x20 && Pow2(6) == 0x40;
    Pow2Add(4, 6);
    Pow2Add(2, 10);
    Pow2Add(2, 12);
    Pow2Add(12, 4);
    Pow2Add(12, 16);
    Pow2Add(28, 14);
  }

  lemma WidthsOfRemaining()
    ensures HighBit(33) == 5 && HighBit(2) == 1
  {
    SmallPowers();
    HighBitIs(33, 5);
    HighBitIs(2, 1);
  }

  /** The counts 31 and 0 that come before the run. */
  lemma FirstCodes(x: nat, y: nat)
    requires x % 0x40 == 62 && y % 4 == 1
    ensures CountCode(x, 5, 33) == Code(31, 6) && CountCode(y, 1, 2) == Code(0, 2)
  {
    SmallPowers();
    ShrLowAre(x, 5, 0x20);
    ShrLowAre(x, 6, 0x40);
    ShrLowAre(y, 1, 2);
    ShrLowAre(y, 2, 4);
  }

  /** The count -1 that follows it. */
  lemma LastCode()
    ensures CountCode(0, 1, 2) == Code(-1, 1)
  {
    LowBound(0, 1);
  }

  /** All ones below bit `2 * k`, and then `top`: `k` flags of three, and one more. */
  lemma RunOf(x: nat, k: nat, d: nat, top: nat)
    requires d == Pow2(2 * k) && x == top * d + (d - 1) && top < 3
    ensures ZeroRun(x) == Run(3 * k + top, 2 * k + 2)
  {
    hide Pow2, Shr, Low;
    ShrLowAre(x, 2 * k, d);
    DivModIs(x, d, top, d - 1);
    RunContinues(x, k);
  }

  /** The header E0 F7 FF FF FF 01. */
  predicate IsHeader(buf: seq<Byte>) {
    |buf| == 6 && buf[0] == 0xE0 && buf[1] == 0xF7 && buf[2] == buf[3] == buf[4] == 0xFF && buf[5] == 1
  }

  /** The states of the loop over the symbols. */
  lemma FirstSymbol(buf: seq<Byte>, s: State)
    requires IsHeader(buf) && s == State(0, 4, 33, [], false) && Good(buf, s, 5, 255)
    ensures ReadSymbol(buf, s, 5, 255) == Some(State(1, 2, 2, [31], false))
  {
    SmallPowers();
    WidthsOfRemaining();
    var c := Window(buf, 0, 4);
    ShrLowAre(ReadLE32(buf, 0), 4, 0x10);
    FirstCodes(c.stream, 1);
    TakeCountIs(buf, c, s, 31, 6);
    assert s.counts + [31] == [31];
  }

  lemma TakeCountIs(buf: seq<Byte>, c: Cursor, s: State, count: int, bits: nat)
    requires c.ip + 4 <= |buf| && (c.ip + 6 <= |buf| ==> c.bitCount <= 7)
    requires s.remaining > 1 && HighBit(s.remaining) <= MAX_HEADER_LOG
    requires CountCode(c.stream, HighBit(s.remaining), s.remaining) == Code(count, bits) && Cells(count) < s.remaining
    ensures var at := Advance(buf, c.ip, c.bitCount + bits);
            TakeCount(buf, c, s) == State(at.0, at.1, s.remaining - Cells(count), s.counts + [count], count == 0)
  {
  }

  lemma SecondSymbol(buf: seq<Byte>, s: State)
    requires IsHeader(buf) && s == State(1, 2, 2, [31], false) && Good(buf, s, 5, 255)
    ensures ReadSymbol(buf, s, 5, 255) == Some(State(1, 4, 2, [31, 0], true))
  {
    SmallPowers();
    WidthsOfRemaining();
    var c := Window(buf, 1, 2);
    ShrLowAre(ReadLE32(buf, 1), 2, 4);
    FirstCodes(62, c.stream);
    TakeCountIs(buf, c, s, 0, 2);
    assert s.counts + [0] == [31, 0];
  }

  lemma OnesInWindow(buf: seq<Byte>, c: Cursor, c1: Cursor)
    requires IsHeader(buf) && c == Window(buf, 1, 4) && c1 == Cursor(1, 20, Shr(c.stream, 16))
    ensures c1.stream == 0x1000 - 1 && SkipOnes(buf, c, 2) == (c1, 26)
  {
    SmallPowers();
    ShrLowAre(ReadLE32(buf, 1), 4, 0x10);
    ShrLowAre(c.stream, 16, 0x1_0000);
    ShrLowAre(c1.stream, 16, 0x1_0000);
    assert SkipOnes(buf, c1, 26) == (c1, 26);
  }

  /** The run leaves the window before its last flag, which is taken for zero. */
  lemma WindowRun(buf: seq<Byte>, c: Cursor)
    requires IsHeader(buf) && c == Window(buf, 1, 4)
    ensures SkipZeros(buf, c, 2) == (Cursor(1, 34, 0), 44)
  {
    var c1 := Cursor(1, 20, Shr(c.stream, 16));
    OnesInWindow(buf, c, c1);
    SmallPowers();
    RunOf(c1.stream, 6, 0x1000, 0);
    ShrBound(c1.stream, 14);
  }

  lemma ThirdSymbol(buf: seq<Byte>, s: State)
    requires IsHeader(buf) && s == State(1, 4, 2, [31, 0], true) && Good(buf, s, 5, 255)
    ensures ReadSymbol(buf, s, 5, 255) == Some(State(2, 27, 1, [31, 0] + Zeros(42) + [-1], false))
  {
    SmallPowers();
    WidthsOfRemaining();
    WindowRun(buf, Window(buf, 1, 4));
    LastCode();
    TakeCountIs(buf, Cursor(1, 34, 0), WithZeros(s, 44), -1, 1);
  }

  lemma WindowReading(buf: seq<Byte>)
    requires IsHeader(buf)
    ensures ReadNCount(buf, 255) == Counts([31, 0] + Zeros(42) + [-1], 5, 6)
  {
    hide ReadNCount, Low, Pow2, ReadSymbol, CellSum;
    SmallPowers();
    ShrLowAre(ReadLE32(buf, 0), 4, 0x10);
    BeginGood(buf, 5, 255);
    var s0, s1, s2 := Begin(5), State(1, 2, 2, [31], false), State(1, 4, 2, [31, 0], true);
    var s3 := State(2, 27, 1, [31, 0] + Zeros(42) + [-1], false);
    FirstSymbol(buf, s0);
    SymbolsIs(buf, s0, 5, 255);
    SecondSymbol(buf, s1);
    SymbolsIs(buf, s1, 5, 255);
    ThirdSymbol(buf, s2);
    SymbolsIs(buf, s2, 5, 255);
    HeaderIs(buf, 255, 5, Some(s3));
  }

  lemma PlainCountOf(w: nat, p: Plain, count: int, bits: nat)
    requires p.remaining > 1 && CountCode(Shr(w, p.pos), HighBit(p.remaining), p.remaining) == Code(count, bits)
    ensures Cells(count) < p.remaining
    ensures PlainCount(w, p)
         == Plain(p.pos + bits, p.remaining - Cells(count), p.counts + [count], count == 0)
  {
    CountInRange(Shr(w, p.pos), HighBit(p.remaining), p.remaining);
  }

  lemma HeaderNumber(buf: seq<Byte>)
    requires IsHeader(buf)
    ensures LittleEndian(buf) == ReadLE32(buf, 0) + 0x1_0000_0000 * (0xFF + 0x100)
  {
    hide Join, Pow2;
    KnownPowers();
    var w, high := LittleEndian(buf), buf[4..];
    ReadIs(buf, 0);
    LittleEndianSplit(buf, 4);
    ShrLowAre(w, 32, 0x1_0000_0000);
    assert high[1..] == [buf[5]] && high[1..][1..] == [];
    assert LittleEndian(high[1..]) == Join(buf[5], 8, 0);
    JoinIs(buf[5], 8, 0);
    JoinIs(buf[4], 8, buf[5]);
  }

  /** The three symbols as the bits of the header spell them. */
  lemma PlainSteps(w: nat, p0: Plain, p1: Plain, p2: Plain)
    requires Shr(w, 4) % 0x40 == 62 && Shr(w, 10) % 4 == 1 && Shr(w, 42) == 0
    requires ZeroRun(Shr(w, 12)) == Run(43, 30)
    requires p0 == Plain(4, 33, [], false) && p1 == Plain(10, 2, [31], false) && p2 == Plain(12, 2, [31, 0], true)
    ensures PlainSymbol(w, p0, 255) == Some(p1) && PlainSymbol(w, p1, 255) == Some(p2)
    ensures PlainSymbol(w, p2, 255) == Some(Plain(43, 1, [31, 0] + Zeros(43) + [-1], false))
  {
    WidthsOfRemaining();
    FirstCodes(Shr(w, 4), Shr(w, 10));
    LastCode();
    PlainCountOf(w, p0, 31, 6);
    PlainCountOf(w, p1, 0, 2);
    PlainCountOf(w, Plain(42, 2, [31, 0] + Zeros(43), true), -1, 1);
    assert [] + [31] == [31] && [31] + [0] == [31, 0];
  }

  lemma HeaderShifts(buf: seq<Byte>, w: nat)
    requires IsHeader(buf) && w == LittleEndian(buf)
    ensures Low(w, 4) == 0 && Shr(w, 4) % 0x40 == 62 && Shr(w, 10) % 4 == 1 && Shr(w, 42) == 0
    ensures ZeroRun(Shr(w, 12)) == Run(43, 30)
  {
    hide Low, Pow2;
    SmallPowers();
    HeaderNumber(buf);
    ShrLowAre(w, 4, 0x10);
    ShrLowAre(w, 10, 0x400);
    ShrLowAre(w, 12, 0x1000);
    ShrLowAre(w, 42, 0x400_0000_0000);
    RunOf(Shr(w, 12), 14, 0x1000_0000, 1);
  }

  lemma PlainReading(w: nat)
    requires Low(w, 4) == 0 && Shr(w, 4) % 0x40 == 62 && Shr(w, 10) % 4 == 1 && Shr(w, 42) == 0
    requires ZeroRun(Shr(w, 12)) == Run(43, 30)
    ensures PlainNCount(w, 255) == Counts([31, 0] + Zeros(43) + [-1], 5, 6)
  {
    SmallPowers();
    var p0, p1, p2 := PlainBegin(5), Plain(10, 2, [31], false), Plain(12, 2, [31, 0], true);
    var p3 := Plain(43, 1, [31, 0] + Zeros(43) + [-1], false);
    PlainSteps(w, p0, p1, p2);
    PlainNext(w, p0, p1, 255);
    PlainNext(w, p1, p2, 255);
    PlainNext(w, p2, p3, 255);
    PlainIs(w, 255, 5, Some(p3));
  }

  /** The code accepts the input with counts other than those its bits spell. */
  predicate Misread(buf: seq<Byte>) {
    var r, p := ReadNCount(buf, 255), PlainNCount(LittleEndian(buf), 255);
    r.Counts? && p.Counts? && r.length == p.length == |buf| && |r.counts| != |p.counts|
  }

  /** With no byte behind it a header can be accepted and misread: a run of 43 zeros whose last flag lies
      behind the window is read as 42. */
  lemma MisreadAtTheEnd(buf: seq<Byte>)
    requires IsHeader(buf)
    ensures Misread(buf)
  {
    WindowReading(buf);
    HeaderShifts(buf, LittleEndian(buf));
    PlainReading(LittleEndian(buf));
  }

  /* The boundary */

  /** By either reading, `buf` is a header and `k` bytes. */
  predicate HeaderAnd(buf: seq<Byte>, maxSymbol: nat, k: nat) {
    || (k <= |buf| && EndsAt(ReadNCount(buf, maxSymbol), |buf| - k))
    || (k <= |buf| && EndsAt(PlainNCount(LittleEndian(buf), maxSymbol), |buf| - k))
  }

  predicate AsSpelled(buf: seq<Byte>, maxSymbol: nat) {
    ReadNCount(buf, maxSymbol) == PlainNCount(LittleEndian(buf), maxSymbol)
  }

  lemma NoneBehind(buf: seq<Byte>)
    requires IsHeader(buf)
    ensures HeaderAnd(buf, 255, 0) && !AsSpelled(buf, 255)
  {
    hide ReadNCount, PlainNCount, LittleEndian, IsHeader;
    MisreadAtTheEnd(buf);
  }

  lemma SomeBehind(buf: seq<Byte>, maxSymbol: nat, k: nat)
    requires k >= 1 && HeaderAnd(buf, maxSymbol, k)
    ensures AsSpelled(buf, maxSymbol)
  {
    hide ReadNCount, PlainNCount, LittleEndian;
    AgreesWithPlain(buf, maxSymbol, |buf| - k);
  }

  /** Every header with `k` bytes behind it is read as it spells exactly if there is such a byte. */
  lemma OneByteBehind(k: nat)
    ensures (forall buf, maxSymbol :: HeaderAnd(buf, maxSymbol, k) ==> AsSpelled(buf, maxSymbol)) <==> k >= 1
  {
    hide HeaderAnd, AsSpelled;
    if k == 0 {
      NoneBehind([0xE0, 0xF7, 0xFF, 0xFF, 0xFF, 1]);
    } else {
      forall buf, maxSymbol | HeaderAnd(buf, maxSymbol, k) ensures AsSpelled(buf, maxSymbol) {
        SomeBehind(buf, maxSymbol, k);
      }
    }
  }
}
