/** The header read bit by bit, without a window, and how far FSE_readNCount agrees with it. */
module NCountPlain {
  import opened Bits
  import opened BitStrings
  import opened FseTable
  import opened NCount

  /** The whole header is the number `w`, of which `pos` bits are read. */
  datatype Plain = Plain(pos: nat, remaining: nat, counts: seq<int>, previous0: bool)

  function PlainCount(w: nat, p: Plain): Plain
    requires p.remaining > 1
  {
    var code := CountCode(Shr(w, p.pos), HighBit(p.remaining), p.remaining);
    CountInRange(Shr(w, p.pos), HighBit(p.remaining), p.remaining);
    Plain(p.pos + code.bits, p.remaining - Cells(code.count), p.counts + [code.count], code.count == 0)
  }

  function PlainZeros(w: nat, p: Plain): Plain {
    var run := ZeroRun(Shr(w, p.pos));
    p.(pos := p.pos + run.bits, counts := p.counts + Zeros(run.zeros))
  }

  function PlainSymbol(w: nat, p: Plain, maxSymbol: nat): Option<Plain>
    requires p.remaining > 1
  {
    var z := if p.previous0 then PlainZeros(w, p) else p;
    if p.previous0 && |z.counts| > maxSymbol then None else Some(PlainCount(w, z))
  }

  function PlainSymbols(w: nat, p: Plain, maxSymbol: nat): Option<Plain>
    requires p.remaining >= 1
    decreases maxSymbol + 1 - |p.counts|
  {
    if p.remaining == 1 || |p.counts| > maxSymbol then Some(p) else
    var next := PlainSymbol(w, p, maxSymbol);
    if next.None? then None else
    PlainForward(w, p, maxSymbol);
    PlainSymbols(w, next.value, maxSymbol)
  }

  lemma PlainForward(w: nat, p: Plain, maxSymbol: nat)
    requires p.remaining > 1 && PlainSymbol(w, p, maxSymbol).Some?
    ensures var p' := PlainSymbol(w, p, maxSymbol).value;
            |p.counts| < |p'.counts| && p'.remaining >= 1 && p.pos <= p'.pos
  {
    var z := if p.previous0 then PlainZeros(w, p) else p;
    CountInRange(Shr(w, z.pos), HighBit(z.remaining), z.remaining);
  }

  lemma PlainNext(w: nat, p: Plain, next: Plain, maxSymbol: nat)
    requires p.remaining > 1 && |p.counts| <= maxSymbol && PlainSymbol(w, p, maxSymbol) == Some(next)
    ensures next.remaining >= 1 && PlainSymbols(w, p, maxSymbol) == PlainSymbols(w, next, maxSymbol)
  {
    PlainForward(w, p, maxSymbol);
  }

  function PlainNCount(w: nat, maxSymbol: nat): Outcome {
    var log := Low(w, 4) + MIN_TABLELOG;
    if log > MAX_HEADER_LOG then Failed(LogTooLarge) else
    PlainVerdict(PlainSymbols(w, PlainBegin(log), maxSymbol), log)
  }

  function PlainBegin(log: nat): Plain {
    Plain(4, Pow2(log) + 1, [], false)
  }

  function PlainVerdict(last: Option<Plain>, log: nat): Outcome {
    if last.None? then Failed(SymbolTooLarge)
    else if last.value.remaining != 1 then Failed(Corruption)
    else Counts(last.value.counts, log, (last.value.pos + 7) / 8)
  }

  /* The window and the number */

  /** The stream shows the bits of `w` from the cursor's position to the end of its window. */
  predicate Sees(w: nat, c: Cursor) {
    c.bitCount <= 32 && c.stream == Low(Shr(w, 8 * c.ip + c.bitCount), 32 - c.bitCount)
  }

  lemma FourBytes(s: seq<Byte>)
    requires |s| == 4
    ensures LittleEndian(s) == ReadLE32(s, 0)
  {
    KnownPowers();
    assert s[1..][1..] == s[2..] && s[2..][1..] == s[3..] && s[3..][1..] == [];
    assert LittleEndian(s[3..]) == Join(s[3], 8, 0);
    assert LittleEndian(s[2..]) == Join(s[2], 8, LittleEndian(s[3..]));
    assert LittleEndian(s[1..]) == Join(s[1], 8, LittleEndian(s[2..]));
    JoinIs(s[3], 8, 0);
    JoinIs(s[2], 8, LittleEndian(s[3..]));
    JoinIs(s[1], 8, LittleEndian(s[2..]));
    JoinIs(s[0], 8, LittleEndian(s[1..]));
  }

  lemma ReadIs(buf: seq<Byte>, ip: nat)
    requires ip + 4 <= |buf|
    ensures ReadLE32(buf, ip) == Low(Shr(LittleEndian(buf), 8 * ip), 32)
  {
    FourBytes(buf[ip..ip + 4]);
    WordAt(buf, ip, 4);
  }

  lemma FreshWindow(buf: seq<Byte>, ip: nat, b: nat)
    requires ip + 4 <= |buf| && b <= 32
    ensures Sees(LittleEndian(buf), Cursor(ip, b, Shr(ReadLE32(buf, ip), b)))
  {
    ReadIs(buf, ip);
    ShiftedWord(LittleEndian(buf), 8 * ip, 32, b);
  }

  lemma UsedWindow(w: nat, c: Cursor, used: nat)
    requires Sees(w, c) && c.bitCount + used <= 32
    ensures Sees(w, Cursor(c.ip, c.bitCount + used, Shr(c.stream, used)))
  {
    var at := 8 * c.ip + c.bitCount;
    ShrLow(Shr(w, at), used, 32 - c.bitCount - used);
    ShrShr(w, at, used);
  }

  lemma SeesLow(w: nat, c: Cursor)
    requires Sees(w, c)
    ensures Low(c.stream, 32 - c.bitCount) == Low(Shr(w, 8 * c.ip + c.bitCount), 32 - c.bitCount)
  {
    LowLow(Shr(w, 8 * c.ip + c.bitCount), 32 - c.bitCount, 32 - c.bitCount);
  }

  lemma OnesAreInside(w: nat, c: Cursor)
    requires Sees(w, c) && Low(c.stream, 16) == 0xFFFF
    ensures c.bitCount <= 16 && Low(Shr(w, 8 * c.ip + c.bitCount), 16) == 0xFFFF
  {
    hide Low;
    var m := 32 - c.bitCount;
    SeesLow(w, c);
    LowBound(Shr(w, 8 * c.ip + c.bitCount), m);
    LowBound(c.stream, 16);
    KnownPowers();
    if m < 16 { Pow2LessEq(m + 1, 16); }
    LowLow(Shr(w, 8 * c.ip + c.bitCount), m, 16);
    LowLow(c.stream, m, 16);
  }

  function At(c: Cursor): nat {
    8 * c.ip + c.bitCount
  }

  /** From `c` on, with `n` zeros counted, the plain run leads to `zeros` and ends at bit `end`. */
  predicate LeadsTo(w: nat, c: Cursor, n: nat, zeros: nat, end: nat) {
    n + ZeroRun(Shr(w, At(c))).zeros == zeros && At(c) + ZeroRun(Shr(w, At(c))).bits == end
  }

  lemma OnesStep(w: nat, c: Cursor, c': Cursor, n: nat, zeros: nat, end: nat)
    requires Sees(w, c) && Low(c.stream, 16) == 0xFFFF && LeadsTo(w, c, n, zeros, end) && At(c') == At(c) + 16
    ensures LeadsTo(w, c', n + 24, zeros, end)
  {
    OnesAreInside(w, c);
    KnownPowers();
    RunContinues(Shr(w, At(c)), 8);
    ShrShr(w, At(c), 16);
  }

  lemma FreshStep(buf: seq<Byte>, w: nat, c: Cursor, c': Cursor, n: nat, zeros: nat, end: nat)
    requires w == LittleEndian(buf) && Sees(w, c) && Low(c.stream, 16) == 0xFFFF && LeadsTo(w, c, n, zeros, end)
    requires c.ip + 6 <= |buf| && c' == Cursor(c.ip + 2, c.bitCount, Shr(ReadLE32(buf, c.ip + 2), c.bitCount))
    ensures Sees(w, c') && LeadsTo(w, c', n + 24, zeros, end)
  {
    FreshWindow(buf, c.ip + 2, c.bitCount);
    OnesStep(w, c, c', n, zeros, end);
  }

  lemma UsedStep(w: nat, c: Cursor, c': Cursor, n: nat, zeros: nat, end: nat)
    requires Sees(w, c) && Low(c.stream, 16) == 0xFFFF && LeadsTo(w, c, n, zeros, end)
    requires c' == Cursor(c.ip, c.bitCount + 16, Shr(c.stream, 16))
    ensures Sees(w, c') && LeadsTo(w, c', n + 24, zeros, end)
  {
    OnesAreInside(w, c);
    UsedWindow(w, c, 16);
    OnesStep(w, c, c', n, zeros, end);
  }

  /** Skipping sixteen bits at a time skips flags of the plain run. */
  lemma {:induction false} SkipOnesAgrees(buf: seq<Byte>, w: nat, c: Cursor, n0: nat, zeros: nat, end: nat)
    requires w == LittleEndian(buf) && Sees(w, c) && (Placed(buf, c.ip, c.bitCount) || |buf| == c.ip + 5)
    requires LeadsTo(w, c, n0, zeros, end)
    ensures var (c1, n1) := SkipOnes(buf, c, n0); Sees(w, c1) && LeadsTo(w, c1, n1, zeros, end)
    decreases |buf| - c.ip, c.stream
  {
    hide Low, Shr, Pow2, LittleEndian, Sees, LeadsTo;
    if Low(c.stream, 16) == 0xFFFF {
      if c.ip + 5 < |buf| {
        var c' := Cursor(c.ip + 2, c.bitCount, Shr(ReadLE32(buf, c.ip + 2), c.bitCount));
        FreshStep(buf, w, c, c', n0, zeros, end);
        SkipOnesAgrees(buf, w, c', n0 + 24, zeros, end);
      } else {
        var c' := Cursor(c.ip, c.bitCount + 16, Shr(c.stream, 16));
        ShrinksBy16(c.stream);
        UsedStep(w, c, c', n0, zeros, end);
        SkipOnesAgrees(buf, w, c', n0 + 24, zeros, end);
      }
    }
  }

  /** The bits that can be read without looking past a window: all but the last byte. */
  function Limit(buf: seq<Byte>): int {
    8 * (|buf| - 1)
  }

  /** A run that ends within the limit, in the window or in the number, is the same in both. */
  lemma RunAgrees(buf: seq<Byte>, w: nat, c: Cursor)
    requires Sees(w, c) && Low(c.stream, 16) != 0xFFFF && c.ip + 4 <= |buf| && (c.ip + 6 <= |buf| ==> c.bitCount <= 7)
    requires var at := 8 * c.ip + c.bitCount;
             at + ZeroRun(c.stream).bits <= Limit(buf) || at + ZeroRun(Shr(w, at)).bits <= Limit(buf)
    ensures ZeroRun(c.stream) == ZeroRun(Shr(w, 8 * c.ip + c.bitCount))
    ensures c.bitCount + ZeroRun(c.stream).bits <= 32
  {
    var x, m := Shr(w, 8 * c.ip + c.bitCount), 32 - c.bitCount;
    SeesLow(w, c);
    KnownPowers();
    RunEnds(c.stream, 8);
    if ZeroRun(c.stream).bits <= m { SameRun(c.stream, x, m); } else { SameRun(x, c.stream, m); }
  }

  lemma CodeAgrees(buf: seq<Byte>, w: nat, c: Cursor, log: nat, remaining: nat)
    requires Sees(w, c) && c.ip + 4 <= |buf| && (c.ip + 6 <= |buf| ==> c.bitCount <= 7) && log <= MAX_HEADER_LOG
    requires var at := 8 * c.ip + c.bitCount;
             || at + CountCode(c.stream, log, remaining).bits <= Limit(buf)
             || at + CountCode(Shr(w, at), log, remaining).bits <= Limit(buf)
    ensures CountCode(c.stream, log, remaining) == CountCode(Shr(w, 8 * c.ip + c.bitCount), log, remaining)
  {
    var x, m := Shr(w, 8 * c.ip + c.bitCount), 32 - c.bitCount;
    SeesLow(w, c);
    if CountCode(c.stream, log, remaining).bits <= m {
      SameCode(c.stream, x, m, log, remaining);
    } else {
      SameCode(x, c.stream, m, log, remaining);
    }
  }

  lemma RefillAt(buf: seq<Byte>, c: Cursor, used: nat)
    requires c.ip + 4 <= |buf| && (c.ip + 6 <= |buf| ==> c.bitCount + used <= 23)
    ensures At(Refill(buf, c, used)) == At(c) + used
  {
  }

  lemma RefillSees(buf: seq<Byte>, w: nat, c: Cursor, used: nat)
    requires w == LittleEndian(buf) && Sees(w, c) && c.bitCount + used <= 32
    requires c.ip + 4 <= |buf| && (c.ip + 6 <= |buf| ==> c.bitCount + used <= 23)
    ensures Sees(w, Refill(buf, c, used))
  {
    var b := c.bitCount + used;
    if c.ip + 7 <= |buf| || c.ip + b / 8 + 4 <= |buf| {
      FreshWindow(buf, c.ip + b / 8, b % 8);
    } else {
      UsedWindow(w, c, used);
    }
  }

  function Position(s: State): nat {
    8 * s.ip + s.bitCount
  }

  predicate Matches(s: State, p: Plain) {
    p == Plain(Position(s), s.remaining, s.counts, s.previous0)
  }

  lemma CountMovesOn(buf: seq<Byte>, c: Cursor, s: State, code: Code)
    requires c.ip + 4 <= |buf| && (c.ip + 6 <= |buf| ==> c.bitCount <= 7)
    requires s.remaining > 1 && HighBit(s.remaining) <= MAX_HEADER_LOG
    requires code == CountCode(c.stream, HighBit(s.remaining), s.remaining)
    ensures Position(TakeCount(buf, c, s)) == At(c) + code.bits
    ensures var s' := TakeCount(buf, c, s);
            && s'.remaining == s.remaining - Cells(code.count)
            && s'.counts == s.counts + [code.count] && (s'.previous0 <==> code.count == 0)
  {
  }

  lemma PlainCountIs(w: nat, p: Plain, code: Code)
    requires p.remaining > 1 && code == CountCode(Shr(w, p.pos), HighBit(p.remaining), p.remaining)
    ensures var p' := PlainCount(w, p);
            && p'.pos == p.pos + code.bits && p'.remaining == p.remaining - Cells(code.count)
            && p'.counts == p.counts + [code.count] && (p'.previous0 <==> code.count == 0)
  {
  }

  lemma CountAgrees(buf: seq<Byte>, w: nat, c: Cursor, s: State, p: Plain)
    requires w == LittleEndian(buf) && Sees(w, c) && c.ip + 4 <= |buf| && (c.ip + 6 <= |buf| ==> c.bitCount <= 7)
    requires s.remaining > 1 && HighBit(s.remaining) <= MAX_HEADER_LOG
    requires p == Plain(At(c), s.remaining, s.counts, s.previous0)
    requires Position(TakeCount(buf, c, s)) <= Limit(buf) || PlainCount(w, p).pos <= Limit(buf)
    ensures Matches(TakeCount(buf, c, s), PlainCount(w, p))
  {
    hide HighBit, Limit, LittleEndian, PlainCount, Cells, Low, Pow2;
    var log := HighBit(s.remaining);
    CountMovesOn(buf, c, s, CountCode(c.stream, log, s.remaining));
    PlainCountIs(w, p, CountCode(Shr(w, p.pos), log, s.remaining));
    CodeAgrees(buf, w, c, log, s.remaining);
  }

  /** Once the flags skipped at a time are behind, the runs in the window and in the number end alike. */
  lemma LastFlagsAgree(buf: seq<Byte>, w: nat, c1: Cursor, n1: nat, zeros: nat, end: nat, run: Run)
    requires w == LittleEndian(buf) && Sees(w, c1) && Low(c1.stream, 16) != 0xFFFF && c1.ip + 4 <= |buf|
    requires (c1.ip + 6 <= |buf| ==> c1.bitCount <= 7) && LeadsTo(w, c1, n1, zeros, end)
    requires run == ZeroRun(c1.stream) && (At(c1) + run.bits <= Limit(buf) || end <= Limit(buf))
    ensures n1 + run.zeros == zeros && At(c1) + run.bits == end && c1.bitCount + run.bits <= 32
    ensures c1.ip + 6 <= |buf| ==> c1.bitCount + run.bits <= 23
  {
    RunAgrees(buf, w, c1);
    KnownPowers();
    RunEnds(c1.stream, 8);
  }

  /** A run of zeros leads to the same symbol and bit in the window and in the number. */
  lemma ZerosAgree(buf: seq<Byte>, w: nat, c: Cursor, s: State, p: Plain, c2: Cursor, n0: nat)
    requires w == LittleEndian(buf) && Sees(w, c) && Placed(buf, c.ip, c.bitCount)
    requires p == Plain(At(c), s.remaining, s.counts, s.previous0) && (c2, n0) == SkipZeros(buf, c, |s.counts|)
    requires At(c2) <= Limit(buf) || PlainZeros(w, p).pos <= Limit(buf)
    ensures Sees(w, c2) && PlainZeros(w, p) == Plain(At(c2), s.remaining, WithZeros(s, n0).counts, s.previous0)
  {
    hide At, Sees, Shr, ZeroRun, Low, Pow2, Refill, Zeros;
    var (c1, n1) := SkipOnes(buf, c, |s.counts|);
    var run, end := ZeroRun(c1.stream), PlainZeros(w, p).pos;
    var zeros := |s.counts| + ZeroRun(Shr(w, At(c))).zeros;
    SkipOnesAgrees(buf, w, c, |s.counts|, zeros, end);
    KnownPowers();
    RunEnds(c1.stream, 8);
    RefillAt(buf, c1, run.bits);
    LastFlagsAgree(buf, w, c1, n1, zeros, end, run);
    RefillSees(buf, w, c1, run.bits);
  }

  /** Either reading ends within the limit. */
  predicate WithinLimit(buf: seq<Byte>, t: Option<State>, q: Option<Plain>) {
    (t.Some? && Position(t.value) <= Limit(buf)) || (q.Some? && q.value.pos <= Limit(buf))
  }

  lemma ZeroSymbolIs(buf: seq<Byte>, w: nat, s: State, p: Plain, log: nat, maxSymbol: nat, c2: Cursor, n0: nat)
    requires Good(buf, s, log, maxSymbol) && s.remaining > 1 && |s.counts| <= maxSymbol && Matches(s, p)
    requires s.previous0 && (c2, n0) == SkipZeros(buf, Window(buf, s.ip, s.bitCount), |s.counts|)
    requires HighBit(s.remaining) <= MAX_HEADER_LOG
    ensures var q := ReadSymbol(buf, s, log, maxSymbol);
            q.Some? ==> q.value == TakeCount(buf, c2, WithZeros(s, n0)) && At(c2) <= Position(q.value)
    ensures n0 <= maxSymbol ==> ReadSymbol(buf, s, log, maxSymbol).Some?
    ensures var r := PlainSymbol(w, p, maxSymbol);
            r.Some? ==> r.value == PlainCount(w, PlainZeros(w, p)) && PlainZeros(w, p).pos <= r.value.pos
  {
    CountMovesOn(buf, c2, WithZeros(s, n0), CountCode(c2.stream, HighBit(s.remaining), s.remaining));
  }

  lemma WindowSees(buf: seq<Byte>, w: nat, ip: nat, bitCount: nat, c: Cursor)
    requires w == LittleEndian(buf) && Placed(buf, ip, bitCount) && 8 * ip + bitCount <= Limit(buf)
    requires c == Window(buf, ip, bitCount)
    ensures Sees(w, c)
  {
    SmallDivMod(bitCount, 32);
    FreshWindow(buf, ip, bitCount);
  }

  /** A symbol that ends within the limit, by either reading, is read the same by both. */
  lemma SymbolAgrees(buf: seq<Byte>, w: nat, s: State, p: Plain, log: nat, maxSymbol: nat)
    requires w == LittleEndian(buf) && Good(buf, s, log, maxSymbol) && Matches(s, p)
    requires s.remaining > 1 && |s.counts| <= maxSymbol && Position(s) <= Limit(buf)
    requires WithinLimit(buf, ReadSymbol(buf, s, log, maxSymbol), PlainSymbol(w, p, maxSymbol))
    ensures var q, r := ReadSymbol(buf, s, log, maxSymbol), PlainSymbol(w, p, maxSymbol);
            q.Some? && r.Some? && Matches(q.value, r.value)
  {
    WidthIsSmall(s.remaining, log);
    var c := Window(buf, s.ip, s.bitCount);
    WindowSees(buf, w, s.ip, s.bitCount, c);
    if s.previous0 {
      var (c1, n0) := SkipZeros(buf, c, |s.counts|);
      ZeroSymbolAgrees(buf, w, s, p, log, maxSymbol, c, c1, n0);
    } else {
      PlainSymbolAgrees(buf, w, s, p, log, maxSymbol, c);
    }
  }

  lemma PlainSymbolAgrees(buf: seq<Byte>, w: nat, s: State, p: Plain, log: nat, maxSymbol: nat, c: Cursor)
    requires w == LittleEndian(buf) && Good(buf, s, log, maxSymbol) && Matches(s, p) && Sees(w, c)
    requires s.remaining > 1 && |s.counts| <= maxSymbol && HighBit(s.remaining) <= MAX_HEADER_LOG
    requires c == Window(buf, s.ip, s.bitCount) && !s.previous0
    requires WithinLimit(buf, ReadSymbol(buf, s, log, maxSymbol), PlainSymbol(w, p, maxSymbol))
    ensures var q, r := ReadSymbol(buf, s, log, maxSymbol), PlainSymbol(w, p, maxSymbol);
            q.Some? && r.Some? && Matches(q.value, r.value)
  {
    assert ReadSymbol(buf, s, log, maxSymbol) == Some(TakeCount(buf, c, s));
    CountAgrees(buf, w, c, s, p);
  }

  lemma ZeroSymbolAgrees(buf: seq<Byte>, w: nat, s: State, p: Plain, log: nat, maxSymbol: nat, c: Cursor,
                         c2: Cursor, n0: nat)
    requires w == LittleEndian(buf) && Good(buf, s, log, maxSymbol) && Matches(s, p) && Sees(w, c)
    requires s.remaining > 1 && |s.counts| <= maxSymbol && HighBit(s.remaining) <= MAX_HEADER_LOG
    requires c == Window(buf, s.ip, s.bitCount) && s.previous0 && (c2, n0) == SkipZeros(buf, c, |s.counts|)
    requires WithinLimit(buf, ReadSymbol(buf, s, log, maxSymbol), PlainSymbol(w, p, maxSymbol))
    ensures var q, r := ReadSymbol(buf, s, log, maxSymbol), PlainSymbol(w, p, maxSymbol);
            q.Some? && r.Some? && Matches(q.value, r.value)
  {
    ZeroSymbolIs(buf, w, s, p, log, maxSymbol, c2, n0);
    ZerosAgree(buf, w, c, s, p, c2, n0);
    CountAgrees(buf, w, c2, WithZeros(s, n0), PlainZeros(w, p));
  }

  lemma {:induction false} PlainMovesOn(w: nat, p: Plain, maxSymbol: nat)
    requires p.remaining >= 1 && PlainSymbols(w, p, maxSymbol).Some?
    ensures p.pos <= PlainSymbols(w, p, maxSymbol).value.pos
    decreases maxSymbol + 1 - |p.counts|
  {
    if p.remaining > 1 && |p.counts| <= maxSymbol {
      PlainForward(w, p, maxSymbol);
      PlainMovesOn(w, PlainSymbol(w, p, maxSymbol).value, maxSymbol);
    }
  }

  lemma SymbolMovesOn(buf: seq<Byte>, s: State, log: nat, maxSymbol: nat)
    requires Good(buf, s, log, maxSymbol) && s.remaining > 1 && ReadSymbol(buf, s, log, maxSymbol).Some?
    ensures Position(s) <= Position(ReadSymbol(buf, s, log, maxSymbol).value)
  {
    WidthIsSmall(s.remaining, log);
    var c := Window(buf, s.ip, s.bitCount);
    if s.previous0 {
      var (c1, n1) := SkipOnes(buf, c, |s.counts|);
      KnownPowers();
      RunEnds(c1.stream, 8);
      OnesMoveOn(buf, c, |s.counts|);
      RefillAt(buf, c1, ZeroRun(c1.stream).bits);
      var (c2, n0) := SkipZeros(buf, c, |s.counts|);
      CountMovesOn(buf, c2, WithZeros(s, n0), CountCode(c2.stream, HighBit(s.remaining), s.remaining));
    } else {
      CountMovesOn(buf, c, s, CountCode(c.stream, HighBit(s.remaining), s.remaining));
    }
  }

  lemma {:induction false} OnesMoveOn(buf: seq<Byte>, c: Cursor, n0: nat)
    requires Placed(buf, c.ip, c.bitCount) || |buf| == c.ip + 5
    ensures At(c) <= At(SkipOnes(buf, c, n0).0)
    decreases |buf| - c.ip, c.stream
  {
    if Low(c.stream, 16) == 0xFFFF {
      if c.ip + 5 < |buf| {
        OnesMoveOn(buf, Cursor(c.ip + 2, c.bitCount, Shr(ReadLE32(buf, c.ip + 2), c.bitCount)), n0 + 24);
      } else {
        ShrinksBy16(c.stream);
        OnesMoveOn(buf, Cursor(c.ip, c.bitCount + 16, Shr(c.stream, 16)), n0 + 24);
      }
    }
  }

  lemma {:induction false} SymbolsMoveOn(buf: seq<Byte>, s: State, log: nat, maxSymbol: nat)
    requires Good(buf, s, log, maxSymbol) && ReadSymbols(buf, s, log, maxSymbol).Some?
    ensures Position(s) <= Position(ReadSymbols(buf, s, log, maxSymbol).value)
    decreases maxSymbol + 1 - |s.counts|
  {
    if s.remaining > 1 && |s.counts| <= maxSymbol {
      SymbolsIs(buf, s, log, maxSymbol);
      SymbolMovesOn(buf, s, log, maxSymbol);
      SymbolsMoveOn(buf, ReadSymbol(buf, s, log, maxSymbol).value, log, maxSymbol);
    }
  }

  lemma {:induction false} SymbolsAgree(buf: seq<Byte>, w: nat, s: State, p: Plain, log: nat, maxSymbol: nat)
    requires w == LittleEndian(buf) && Good(buf, s, log, maxSymbol) && Matches(s, p)
    requires WithinLimit(buf, ReadSymbols(buf, s, log, maxSymbol), PlainSymbols(w, p, maxSymbol))
    ensures var t, q := ReadSymbols(buf, s, log, maxSymbol), PlainSymbols(w, p, maxSymbol);
            t.Some? && q.Some? && Matches(t.value, q.value)
    decreases maxSymbol + 1 - |s.counts|
  {
    if s.remaining > 1 && |s.counts| <= maxSymbol {
      StaysWithin(buf, w, s, p, log, maxSymbol);
      SymbolAgrees(buf, w, s, p, log, maxSymbol);
      SymbolsIs(buf, s, log, maxSymbol);
      SymbolsAgree(buf, w, ReadSymbol(buf, s, log, maxSymbol).value, PlainSymbol(w, p, maxSymbol).value,
                   log, maxSymbol);
    }
  }

  lemma StaysWithin(buf: seq<Byte>, w: nat, s: State, p: Plain, log: nat, maxSymbol: nat)
    requires Good(buf, s, log, maxSymbol) && Matches(s, p) && s.remaining > 1 && |s.counts| <= maxSymbol
    requires WithinLimit(buf, ReadSymbols(buf, s, log, maxSymbol), PlainSymbols(w, p, maxSymbol))
    ensures WithinLimit(buf, ReadSymbol(buf, s, log, maxSymbol), PlainSymbol(w, p, maxSymbol))
    ensures Position(s) <= Limit(buf)
  {
    var t, q := ReadSymbols(buf, s, log, maxSymbol), PlainSymbols(w, p, maxSymbol);
    if t.Some? && Position(t.value) <= Limit(buf) {
      SymbolsIs(buf, s, log, maxSymbol);
      SymbolMovesOn(buf, s, log, maxSymbol);
      SymbolsMoveOn(buf, ReadSymbol(buf, s, log, maxSymbol).value, log, maxSymbol);
    } else {
      PlainForward(w, p, maxSymbol);
      PlainMovesOn(w, PlainSymbol(w, p, maxSymbol).value, maxSymbol);
    }
  }

  lemma SameVerdict(buf: seq<Byte>, s: State, p: Plain, log: nat)
    requires Placed(buf, s.ip, s.bitCount) && Matches(s, p) && p.pos <= Limit(buf)
    ensures Verdict(Some(s), log) == PlainVerdict(Some(p), log)
  {
    assert (8 * s.ip + s.bitCount + 7) / 8 == s.ip + (s.bitCount + 7) / 8;
  }

  lemma FirstNibble(buf: seq<Byte>)
    requires |buf| >= 4
    ensures Low(ReadLE32(buf, 0), 4) == Low(LittleEndian(buf), 4)
  {
    ReadIs(buf, 0);
    LowLow(LittleEndian(buf), 32, 4);
  }

  lemma OutcomesAgree(buf: seq<Byte>, w: nat, t: Option<State>, q: Option<Plain>, maxSymbol: nat, log: nat, length: nat)
    requires |buf| >= 4 && length < |buf| && w == LittleEndian(buf) && Good(buf, Begin(log), log, maxSymbol)
    requires t == ReadSymbols(buf, Begin(log), log, maxSymbol) && q == PlainSymbols(w, PlainBegin(log), maxSymbol)
    requires (Verdict(t, log).Counts? && Verdict(t, log).length == length)
          || (PlainVerdict(q, log).Counts? && PlainVerdict(q, log).length == length)
    ensures Verdict(t, log) == PlainVerdict(q, log)
  {
    SymbolsAgree(buf, w, Begin(log), PlainBegin(log), log, maxSymbol);
    SymbolsKeep(buf, Begin(log), log, maxSymbol);
    SameVerdict(buf, t.value, q.value, log);
  }

  lemma HeaderIs(buf: seq<Byte>, maxSymbol: nat, log: nat, t: Option<State>)
    requires |buf| >= 4 && log == Low(ReadLE32(buf, 0), 4) + MIN_TABLELOG && log <= MAX_HEADER_LOG
    requires Good(buf, Begin(log), log, maxSymbol) && t == ReadSymbols(buf, Begin(log), log, maxSymbol)
    ensures ReadNCount(buf, maxSymbol) == Verdict(t, log)
  {
    hide Shr, Low, ReadSymbols, Good, Begin;
  }

  lemma PlainIs(w: nat, maxSymbol: nat, log: nat, q: Option<Plain>)
    requires log == Low(w, 4) + MIN_TABLELOG && log <= MAX_HEADER_LOG
    requires q == PlainSymbols(w, PlainBegin(log), maxSymbol)
    ensures PlainNCount(w, maxSymbol) == PlainVerdict(q, log)
  {
    hide Low, Shr, PlainSymbols;
  }

  lemma LogsTooLarge(buf: seq<Byte>, w: nat, maxSymbol: nat, log: nat)
    requires |buf| >= 4 && log == Low(ReadLE32(buf, 0), 4) + MIN_TABLELOG == Low(w, 4) + MIN_TABLELOG
    requires log > MAX_HEADER_LOG
    ensures ReadNCount(buf, maxSymbol) == PlainNCount(w, maxSymbol)
  {
  }

  lemma AgreesFromFour(buf: seq<Byte>, maxSymbol: nat, length: nat)
    requires 4 <= |buf| && length < |buf|
    ensures var r, p := ReadNCount(buf, maxSymbol), PlainNCount(LittleEndian(buf), maxSymbol);
            EndsAt(r, length) || EndsAt(p, length) ==> r == p
  {
    hide Good, Placed, ReadLE32, Low, Shr, Pow2, LittleEndian;
    var w := LittleEndian(buf);
    var r, p := ReadNCount(buf, maxSymbol), PlainNCount(w, maxSymbol);
    FirstNibble(buf);
    var log := Low(w, 4) + MIN_TABLELOG;
    if log <= MAX_HEADER_LOG {
      BeginGood(buf, log, maxSymbol);
      var t, q := ReadSymbols(buf, Begin(log), log, maxSymbol), PlainSymbols(w, PlainBegin(log), maxSymbol);
      HeaderIs(buf, maxSymbol, log, t);
      PlainIs(w, maxSymbol, log, q);
      if EndsAt(r, length) || EndsAt(p, length) {
        OutcomesAgree(buf, w, t, q, maxSymbol, log, length);
      }
    } else {
      LogsTooLarge(buf, w, maxSymbol, log);
    }
  }

  lemma {:induction false} ZeroBytes(n: nat)
    ensures LittleEndian(seq(n, _ => 0)) == 0
  {
    if n > 0 {
      var zeros: seq<Byte> := seq(n, _ => 0);
      assert zeros[1..] == seq(n - 1, _ => 0);
      ZeroBytes(n - 1);
      JoinIs(0, 8, 0);
    }
  }

  /** The zeros that pad a short header add nothing to its number. */
  lemma PaddedNumber(buf: seq<Byte>)
    requires |buf| < 4
    ensures LittleEndian(Padded(buf)) == LittleEndian(buf)
  {
    var zeros: seq<Byte> := seq(4 - |buf|, _ => 0);
    LittleEndianAppend(buf, zeros);
    ZeroBytes(4 - |buf|);
    LittleEndianBound(buf);
    JoinIs(LittleEndian(buf), 8 * |buf|, 0);
  }

  predicate EndsAt(r: Outcome, length: nat) {
    r.Counts? && r.length == length
  }

  /** A header with a byte behind it is read as its bits say: accepted by one reading exactly when it
      is accepted by the other, with the same counts and length. */
  lemma AgreesWithPlain(buf: seq<Byte>, maxSymbol: nat, length: nat)
    requires length < |buf|
    ensures var r, p := ReadNCount(buf, maxSymbol), PlainNCount(LittleEndian(buf), maxSymbol);
            EndsAt(r, length) || EndsAt(p, length) ==> r == p
  {
    if |buf| >= 4 {
      AgreesFromFour(buf, maxSymbol, length);
    } else {
      PaddedNumber(buf);
      AgreesFromFour(Padded(buf), maxSymbol, length);
    }
  }
}
