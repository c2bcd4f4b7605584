/** Reading the normalized counts of a Finite State Entropy table (section 4.1.1 of RFC 8878). */
module NCount {
  import opened Bits
  import opened BitStrings
  import opened FseTable

  const MAX_HEADER_LOG: nat := 15

  datatype Failure = LogTooLarge | SymbolTooLarge | Corruption

  datatype Outcome = Counts(counts: seq<int>, log: nat, length: nat) | Failed(failure: Failure)

  /* The parts of one symbol: a run of zero counts, told in flags of two bits, and a count */

  datatype Run = Run(zeros: nat, bits: nat)

  /** Flags of two bits, lowest first: each 3 stands for three zeros and is followed by another flag. */
  function ZeroRun(x: nat): Run {
    if x % 4 == 3 then var rest := ZeroRun(x / 4); Run(rest.zeros + 3, rest.bits + 2) else Run(x % 4, 2)
  }

  datatype Code = Code(count: int, bits: nat)

  /** A count below `remaining`, in `log` bits or one more: the lowest values take the shorter code. */
  function CountCode(x: nat, log: nat, remaining: nat): Code {
    var max := 2 * Pow2(log) - 1 - remaining;
    var long := Low(x, log + 1);
    if Low(x, log) < max then Code(Low(x, log) - 1, log)
    else Code((if long >= Pow2(log) then long - max else long) - 1, log + 1)
  }

  lemma CountInRange(x: nat, log: nat, remaining: nat)
    requires Pow2(log) <= remaining < 2 * Pow2(log)
    ensures -1 <= CountCode(x, log, remaining).count < remaining
  {
    LowBound(x, log);
    LowBound(x, log + 1);
  }

  /** Only the bits a code takes decide about it. */
  lemma SameCode(x: nat, y: nat, m: nat, log: nat, remaining: nat)
    requires Low(x, m) == Low(y, m) && CountCode(x, log, remaining).bits <= m
    ensures CountCode(y, log, remaining) == CountCode(x, log, remaining)
  {
    hide Low;
    var k := CountCode(x, log, remaining).bits;
    LowLow(x, m, log);
    LowLow(y, m, log);
    LowLow(x, m, k);
    LowLow(y, m, k);
  }

  lemma TwoBits(x: nat, m: nat)
    requires m >= 2
    ensures Low(x, m) == x % 4 + 4 * Low(x / 4, m - 2) && Shr(x, m) == Shr(x / 4, m - 2)
    ensures Pow2(m) == 4 * Pow2(m - 2)
  {
    assert Low(x, m) == x % 2 + 2 * (x / 2 % 2 + 2 * Low(x / 2 / 2, m - 2));
    assert Shr(x, m) == Shr(x / 2 / 2, m - 2);
  }

  lemma {:induction false} SameRun(x: nat, y: nat, m: nat)
    requires Low(x, m) == Low(y, m) && ZeroRun(x).bits <= m
    ensures ZeroRun(y) == ZeroRun(x)
    decreases x
  {
    TwoBits(x, m);
    TwoBits(y, m);
    if x % 4 == 3 {
      SameRun(x / 4, y / 4, m - 2);
    }
  }

  /** A run whose flags are not all 3 within `2 * k` bits ends there. */
  lemma {:induction false} RunEnds(x: nat, k: nat)
    requires k > 0 && Low(x, 2 * k) != Pow2(2 * k) - 1
    ensures ZeroRun(x).bits <= 2 * k
    decreases k
  {
    TwoBits(x, 2 * k);
    if x % 4 == 3 && k > 1 {
      RunEnds(x / 4, k - 1);
    }
  }

  /** Flags that are all 3 can be skipped at once. */
  lemma {:induction false} RunContinues(x: nat, k: nat)
    requires Low(x, 2 * k) == Pow2(2 * k) - 1
    ensures ZeroRun(x) == Run(ZeroRun(Shr(x, 2 * k)).zeros + 3 * k, ZeroRun(Shr(x, 2 * k)).bits + 2 * k)
    decreases k
  {
    if k > 0 {
      TwoBits(x, 2 * k);
      RunContinues(x / 4, k - 1);
    }
  }

  /* The cursor: four bytes at `ip`, of which `bitCount` bits are used up */

  datatype Cursor = Cursor(ip: nat, bitCount: nat, stream: nat)

  function ReadLE32(buf: seq<Byte>, ip: nat): nat
    requires ip + 4 <= |buf|
  {
    var b0: int, b1: int, b2: int, b3: int := buf[ip], buf[ip + 1], buf[ip + 2], buf[ip + 3];
    b0 + 0x100 * b1 + 0x1_0000 * b2 + 0x100_0000 * b3
  }

  predicate Placed(buf: seq<Byte>, ip: nat, bitCount: nat) {
    ip + 4 <= |buf| && (ip + 4 < |buf| ==> bitCount <= 7)
  }

  /** Skips sixteen bits of flags 3 at a time. */
  function SkipOnes(buf: seq<Byte>, c: Cursor, n0: nat): (r: (Cursor, nat))
    requires Placed(buf, c.ip, c.bitCount) || |buf| == c.ip + 5
    ensures r.0.ip + 4 <= |buf| && r.0.bitCount >= c.bitCount && r.1 >= n0
    ensures r.0.ip + 6 <= |buf| ==> r.0.bitCount == c.bitCount
    ensures Low(r.0.stream, 16) != 0xFFFF
    decreases |buf| - c.ip, c.stream
  {
    if Low(c.stream, 16) != 0xFFFF then (c, n0)
    else if c.ip + 5 < |buf|
    then SkipOnes(buf, Cursor(c.ip + 2, c.bitCount, Shr(ReadLE32(buf, c.ip + 2), c.bitCount)), n0 + 24)
    else ShrinksBy16(c.stream); SkipOnes(buf, Cursor(c.ip, c.bitCount + 16, Shr(c.stream, 16)), n0 + 24)
  }

  lemma ShrinksBy16(x: nat)
    requires Low(x, 16) == 0xFFFF
    ensures Shr(x, 16) < x
  {
    ShrBound(x / 2, 15);
    LowBound(x, 16);
  }

  /** Moves whole used bytes out of the window where the buffer allows. */
  function Refill(buf: seq<Byte>, c: Cursor, used: nat): (r: Cursor)
    requires c.ip + 4 <= |buf| && (c.ip + 6 <= |buf| ==> c.bitCount + used <= 23)
    ensures r.ip + 4 <= |buf| && (r.ip + 6 <= |buf| ==> r.bitCount <= 7)
  {
    var b := c.bitCount + used;
    if c.ip + 7 <= |buf| || c.ip + b / 8 + 4 <= |buf|
    then Cursor(c.ip + b / 8, b % 8, Shr(ReadLE32(buf, c.ip + b / 8), b % 8))
    else Cursor(c.ip, b, Shr(c.stream, used))
  }

  /** A run of zero counts: the cursor after it and the symbol it leads to. */
  function SkipZeros(buf: seq<Byte>, c: Cursor, charnum: nat): (r: (Cursor, nat))
    requires Placed(buf, c.ip, c.bitCount)
    ensures r.0.ip + 4 <= |buf| && (r.0.ip + 6 <= |buf| ==> r.0.bitCount <= 7) && r.1 >= charnum
  {
    var (c1, n1) := SkipOnes(buf, c, charnum);
    var run := ZeroRun(c1.stream);
    KnownPowers();
    RunEnds(c1.stream, 8);
    (Refill(buf, c1, run.bits), n1 + run.zeros)
  }

  function Advance(buf: seq<Byte>, ip: nat, b: nat): (r: (nat, nat))
    requires ip + 4 <= |buf| && (ip + 6 <= |buf| ==> b <= 23)
    ensures Placed(buf, r.0, r.1) && 8 * r.0 + r.1 == 8 * ip + b
  {
    if ip + 7 <= |buf| || ip + b / 8 + 4 <= |buf| then (ip + b / 8, b % 8)
    else (|buf| - 4, b - 8 * (|buf| - 4 - ip))
  }

  /* One symbol, and all of them */

  datatype Option<+T> = None | Some(value: T)

  datatype State = State(ip: nat, bitCount: nat, remaining: nat, counts: seq<int>, previous0: bool)

  /** `remaining` is what the counts leave of the table, plus one. */
  predicate Good(buf: seq<Byte>, s: State, log: nat, maxSymbol: nat) {
    && Placed(buf, s.ip, s.bitCount) && log <= MAX_HEADER_LOG
    && Countable(s.counts) && |s.counts| <= maxSymbol + 1
    && s.remaining >= 1 && CellSum(s.counts) + s.remaining == Pow2(log) + 1
  }

  lemma WidthIsSmall(remaining: nat, log: nat)
    requires 1 <= remaining <= Pow2(log) + 1 && log <= MAX_HEADER_LOG
    ensures HighBit(remaining) <= MAX_HEADER_LOG
  {
    Pow2LessEq(log, MAX_HEADER_LOG);
    if HighBit(remaining) > MAX_HEADER_LOG {
      Pow2LessEq(MAX_HEADER_LOG + 1, HighBit(remaining));
    }
  }

  function Window(buf: seq<Byte>, ip: nat, bitCount: nat): Cursor
    requires ip + 4 <= |buf|
  {
    Cursor(ip, bitCount, Shr(ReadLE32(buf, ip), bitCount % 32))
  }

  function TakeCount(buf: seq<Byte>, c: Cursor, s: State): State
    requires c.ip + 4 <= |buf| && (c.ip + 6 <= |buf| ==> c.bitCount <= 7)
    requires s.remaining > 1 && HighBit(s.remaining) <= MAX_HEADER_LOG
  {
    var code := CountCode(c.stream, HighBit(s.remaining), s.remaining);
    CountInRange(c.stream, HighBit(s.remaining), s.remaining);
    var (ip, bitCount) := Advance(buf, c.ip, c.bitCount + code.bits);
    State(ip, bitCount, s.remaining - Cells(code.count), s.counts + [code.count], code.count == 0)
  }

  function Zeros(n: nat): seq<int> {
    seq(n, _ => 0)
  }

  function WithZeros(s: State, n0: nat): State
    requires |s.counts| <= n0
  {
    s.(counts := s.counts + Zeros(n0 - |s.counts|))
  }

  /** One turn of the loop over the symbols; nothing if a run of zeros leads past the last symbol. */
  function ReadSymbol(buf: seq<Byte>, s: State, log: nat, maxSymbol: nat): Option<State>
    requires Good(buf, s, log, maxSymbol) && s.remaining > 1
  {
    WidthIsSmall(s.remaining, log);
    var c := Window(buf, s.ip, s.bitCount);
    if !s.previous0 then Some(TakeCount(buf, c, s)) else
    var (c1, n0) := SkipZeros(buf, c, |s.counts|);
    if n0 > maxSymbol then None else Some(TakeCount(buf, c1, WithZeros(s, n0)))
  }

  lemma {:induction false} ZerosAddNothing(counts: seq<int>, n: nat)
    ensures CellSum(counts + Zeros(n)) == CellSum(counts)
  {
    if n == 0 {
      assert counts + Zeros(0) == counts;
    } else {
      ZerosAddNothing(counts, n - 1);
      assert (counts + Zeros(n))[..|counts| + n - 1] == counts + Zeros(n - 1);
    }
  }

  lemma TakeCountKeeps(buf: seq<Byte>, c: Cursor, s: State, log: nat, maxSymbol: nat)
    requires c.ip + 4 <= |buf| && (c.ip + 6 <= |buf| ==> c.bitCount <= 7)
    requires Good(buf, s, log, maxSymbol) && s.remaining > 1 && |s.counts| <= maxSymbol
    requires HighBit(s.remaining) <= MAX_HEADER_LOG
    ensures Good(buf, TakeCount(buf, c, s), log, maxSymbol)
    ensures |TakeCount(buf, c, s).counts| == |s.counts| + 1
  {
    var code := CountCode(c.stream, HighBit(s.remaining), s.remaining);
    CountInRange(c.stream, HighBit(s.remaining), s.remaining);
    assert (s.counts + [code.count])[..|s.counts|] == s.counts;
  }

  /** Each symbol takes its cells from what is left, and leaves at least one. */
  lemma SymbolKeeps(buf: seq<Byte>, s: State, log: nat, maxSymbol: nat)
    requires Good(buf, s, log, maxSymbol) && s.remaining > 1 && |s.counts| <= maxSymbol
    requires ReadSymbol(buf, s, log, maxSymbol).Some?
    ensures var s' := ReadSymbol(buf, s, log, maxSymbol).value;
            Good(buf, s', log, maxSymbol) && |s.counts| < |s'.counts|
  {
    hide Shr, Low, CountCode, TakeCount, SkipZeros, Pow2;
    WidthIsSmall(s.remaining, log);
    var c := Window(buf, s.ip, s.bitCount);
    if s.previous0 {
      var (c1, n0) := SkipZeros(buf, c, |s.counts|);
      ZerosAddNothing(s.counts, n0 - |s.counts|);
      TakeCountKeeps(buf, c1, WithZeros(s, n0), log, maxSymbol);
    } else {
      TakeCountKeeps(buf, c, s, log, maxSymbol);
    }
  }

  function ReadSymbols(buf: seq<Byte>, s: State, log: nat, maxSymbol: nat): (r: Option<State>)
    requires Good(buf, s, log, maxSymbol)
    decreases maxSymbol + 1 - |s.counts|
  {
    if s.remaining == 1 || |s.counts| > maxSymbol then Some(s) else
    var next := ReadSymbol(buf, s, log, maxSymbol);
    if next.None? then None else
    SymbolKeeps(buf, s, log, maxSymbol);
    ReadSymbols(buf, next.value, log, maxSymbol)
  }

  lemma {:induction false} SymbolsKeep(buf: seq<Byte>, s: State, log: nat, maxSymbol: nat)
    requires Good(buf, s, log, maxSymbol) && ReadSymbols(buf, s, log, maxSymbol).Some?
    ensures Good(buf, ReadSymbols(buf, s, log, maxSymbol).value, log, maxSymbol)
    decreases maxSymbol + 1 - |s.counts|
  {
    if s.remaining > 1 && |s.counts| <= maxSymbol {
      SymbolKeeps(buf, s, log, maxSymbol);
      SymbolsKeep(buf, ReadSymbol(buf, s, log, maxSymbol).value, log, maxSymbol);
    }
  }

  function Begin(log: nat): State {
    State(0, 4, Pow2(log) + 1, [], false)
  }

  /** What the last state says about the whole header. */
  function Verdict(last: Option<State>, log: nat): Outcome {
    if last.None? then Failed(SymbolTooLarge)
    else if last.value.remaining != 1 || last.value.bitCount > 32 then Failed(Corruption)
    else Counts(last.value.counts, log, last.value.ip + (last.value.bitCount + 7) / 8)
  }

  /** FSE_readNCount for a header of at least four bytes. */
  function ReadHeader(buf: seq<Byte>, maxSymbol: nat): Outcome
    requires |buf| >= 4
  {
    var log := Low(ReadLE32(buf, 0), 4) + MIN_TABLELOG;
    if log > MAX_HEADER_LOG then Failed(LogTooLarge) else
    Verdict(ReadSymbols(buf, Begin(log), log, maxSymbol), log)
  }

  function Padded(buf: seq<Byte>): seq<Byte>
    requires |buf| < 4
  {
    buf + seq(4 - |buf|, _ => 0)
  }

  /** FSE_readNCount: a shorter header is read from a copy padded with zeros. */
  function ReadNCount(buf: seq<Byte>, maxSymbol: nat): Outcome {
    if |buf| >= 4 then ReadHeader(buf, maxSymbol) else
    var r := ReadHeader(Padded(buf), maxSymbol);
    if r.Counts? && r.length > |buf| then Failed(Corruption) else r
  }

  lemma LastFillsTable(buf: seq<Byte>, s: State, log: nat, maxSymbol: nat)
    requires Good(buf, s, log, maxSymbol) && Verdict(Some(s), log).Counts?
    ensures 1 <= |s.counts| <= maxSymbol + 1 && Countable(s.counts) && CellSum(s.counts) == Pow2(log)
    ensures Verdict(Some(s), log).length <= |buf|
  {
  }

  lemma HeaderFillsTable(buf: seq<Byte>, maxSymbol: nat)
    requires |buf| >= 4 && ReadHeader(buf, maxSymbol).Counts?
    ensures var r := ReadHeader(buf, maxSymbol);
            && MIN_TABLELOG <= r.log <= MAX_HEADER_LOG && 1 <= |r.counts| <= maxSymbol + 1
            && Countable(r.counts) && CellSum(r.counts) == Pow2(r.log)
            && r.length <= |buf|
  {
    hide SkipZeros, TakeCount;
    var log := Low(ReadLE32(buf, 0), 4) + MIN_TABLELOG;
    var last := ReadSymbols(buf, Begin(log), log, maxSymbol);
    SymbolsKeep(buf, Begin(log), log, maxSymbol);
    LastFillsTable(buf, last.value, log, maxSymbol);
  }

  /** Counts that are accepted fill their table exactly, and the header they came from is inside the input. */
  lemma CountsFillTable(buf: seq<Byte>, maxSymbol: nat)
    requires ReadNCount(buf, maxSymbol).Counts?
    ensures var r := ReadNCount(buf, maxSymbol);
            && MIN_TABLELOG <= r.log <= MAX_HEADER_LOG && 1 <= |r.counts| <= maxSymbol + 1
            && Countable(r.counts) && CellSum(r.counts) == Pow2(r.log)
            && r.length <= |buf|
  {
    HeaderFillsTable(if |buf| >= 4 then buf else Padded(buf), maxSymbol);
  }

  /* The loops of FSE_readNCount */

  /** The two flag loops and the flag that ends them. */
  method ReadFlags(buf: seq<Byte>, ip0: nat, bitCount0: nat, stream0: nat, charnum: nat)
    returns (ip: nat, bitCount: nat, bitStream: nat, n0: nat)
    requires Placed(buf, ip0, bitCount0)
    ensures var (c, n) := SkipOnes(buf, Cursor(ip0, bitCount0, stream0), charnum);
            var run := ZeroRun(c.stream);
            ip == c.ip && bitCount == c.bitCount + run.bits && n0 == n + run.zeros
            && bitStream == Shr(c.stream, run.bits - 2)
  {
    ip, bitCount, bitStream, n0 := ip0, bitCount0, stream0, charnum;
    while Low(bitStream, 16) == 0xFFFF
      invariant Placed(buf, ip, bitCount) || |buf| == ip + 5
      invariant SkipOnes(buf, Cursor(ip, bitCount, bitStream), n0)
             == SkipOnes(buf, Cursor(ip0, bitCount0, stream0), charnum)
      decreases |buf| - ip, bitStream
    {
      ShrinksBy16(bitStream);
      n0 := n0 + 24;
      if ip + 5 < |buf| {
        ip := ip + 2;
        bitStream := Shr(ReadLE32(buf, ip), bitCount);
      } else {
        bitStream := Shr(bitStream, 16);
        bitCount := bitCount + 16;
      }
    }
    ghost var c, run := Cursor(ip, bitCount, bitStream), ZeroRun(bitStream);
    ghost var n := n0;
    while bitStream % 4 == 3
      invariant n0 + ZeroRun(bitStream).zeros == n + run.zeros
      invariant bitCount >= c.bitCount && bitCount + ZeroRun(bitStream).bits == c.bitCount + run.bits
      invariant bitStream == Shr(c.stream, bitCount - c.bitCount)
      decreases bitStream
    {
      ShrShr(c.stream, bitCount - c.bitCount, 2);
      TwoBits(bitStream, 2);
      n0 := n0 + 3;
      bitStream := bitStream / 4;
      bitCount := bitCount + 2;
    }
    n0 := n0 + bitStream % 4;
    bitCount := bitCount + 2;
  }

  /** Reads one count and narrows the code to what is left. */
  method ReadCount(bitStream: nat, remaining0: nat, threshold0: nat, nbBits0: nat)
    returns (count: int, used: nat, remaining: nat, threshold: nat, nbBits: nat)
    requires remaining0 > 1 && nbBits0 == HighBit(remaining0) + 1 && threshold0 == Pow2(nbBits0 - 1)
    ensures Code(count, used) == CountCode(bitStream, HighBit(remaining0), remaining0)
    ensures remaining == remaining0 - Cells(count) && remaining >= 1
    ensures nbBits == HighBit(remaining) + 1 && threshold == Pow2(nbBits - 1)
  {
    var max := 2 * threshold0 - 1 - remaining0;
    if Low(bitStream, nbBits0 - 1) < max {
      count, used := Low(bitStream, nbBits0 - 1), nbBits0 - 1;
    } else {
      count, used := Low(bitStream, nbBits0), nbBits0;
      if count >= threshold0 { count := count - max; }
    }
    count := count - 1;
    CountInRange(bitStream, HighBit(remaining0), remaining0);
    remaining := remaining0 - (if count < 0 then -count else count);
    threshold, nbBits := threshold0, nbBits0;
    while remaining < threshold
      invariant nbBits >= 1 && threshold == Pow2(nbBits - 1) && 1 <= remaining < 2 * threshold
    {
      nbBits := nbBits - 1;
      threshold := threshold / 2;
    }
    HighBitIs(remaining, nbBits - 1);
  }

  method FillZeros(normalizedCounter: array<int>, charnum: nat, n0: nat)
    requires charnum <= n0 <= normalizedCounter.Length
    modifies normalizedCounter
    ensures normalizedCounter[..n0] == old(normalizedCounter[..charnum]) + Zeros(n0 - charnum)
    ensures normalizedCounter[n0..] == old(normalizedCounter[n0..])
  {
    var i := charnum;
    while i < n0
      invariant charnum <= i <= n0
      invariant normalizedCounter[..i] == old(normalizedCounter[..charnum]) + Zeros(i - charnum)
      invariant normalizedCounter[i..] == old(normalizedCounter[i..])
    {
      normalizedCounter[i] := 0;
      i := i + 1;
    }
  }

  /** The reload after a run of zeros; the source asserts that at most three bytes are used up here. */
  method Reload(buf: seq<Byte>, ip0: nat, bitCount0: nat, bitStream0: nat, ghost c: Cursor, ghost used: nat)
    returns (ip: nat, bitCount: nat, bitStream: nat)
    requires c.ip + 4 <= |buf| && (c.ip + 6 <= |buf| ==> c.bitCount + used <= 23) && used >= 2
    requires ip0 == c.ip && bitCount0 == c.bitCount + used && bitStream0 == Shr(c.stream, used - 2)
    ensures Cursor(ip, bitCount, bitStream) == Refill(buf, c, used)
  {
    ip, bitCount := ip0, bitCount0;
    if ip + 7 <= |buf| || ip + bitCount / 8 + 4 <= |buf| {
      assert ip + 6 <= |buf| ==> bitCount / 8 <= 3;
      ip := ip + bitCount / 8;
      bitCount := bitCount % 8;
      bitStream := Shr(ReadLE32(buf, ip), bitCount);
    } else {
      ShrShr(c.stream, used - 2, 2);
      bitStream := Shr(bitStream0, 2);
    }
  }

  /** The branch taken after a zero count. */
  method ReadZeros(normalizedCounter: array<int>, maxSymbolValue: nat, buf: seq<Byte>,
                   ip0: nat, bitCount0: nat, bitStream0: nat, charnum0: nat)
    returns (ok: bool, ip: nat, bitCount: nat, bitStream: nat, charnum: nat)
    requires Placed(buf, ip0, bitCount0) && charnum0 <= maxSymbolValue < normalizedCounter.Length
    modifies normalizedCounter
    ensures var (c, n) := SkipZeros(buf, Cursor(ip0, bitCount0, bitStream0), charnum0);
            && (ok <==> n <= maxSymbolValue)
            && (ok ==> Cursor(ip, bitCount, bitStream) == c && charnum == n)
    ensures ok ==> charnum0 <= charnum <= maxSymbolValue
    ensures ok ==> normalizedCounter[..charnum] == old(normalizedCounter[..charnum0]) + Zeros(charnum - charnum0)
    ensures ok ==> normalizedCounter[charnum..] == old(normalizedCounter[charnum..])
  {
    hide Zeros, Low, Pow2, Shr;
    charnum := charnum0;
    ghost var (c, n) := SkipOnes(buf, Cursor(ip0, bitCount0, bitStream0), charnum0);
    KnownPowers();
    RunEnds(c.stream, 8);
    var n0;
    ip, bitCount, bitStream, n0 := ReadFlags(buf, ip0, bitCount0, bitStream0, charnum0);
    ok := n0 <= maxSymbolValue;
    if ok {
      FillZeros(normalizedCounter, charnum0, n0);
      charnum := n0;
      ip, bitCount, bitStream := Reload(buf, ip, bitCount, bitStream, c, ZeroRun(c.stream).bits);
    }
  }

  /** The end of a turn. */
  method MoveOn(buf: seq<Byte>, ip0: nat, bitCount0: nat) returns (ip: nat, bitCount: nat, bitStream: nat)
    requires ip0 + 4 <= |buf| && (ip0 + 6 <= |buf| ==> bitCount0 <= 23)
    ensures (ip, bitCount) == Advance(buf, ip0, bitCount0)
    ensures bitStream == Window(buf, ip, bitCount).stream
  {
    ip, bitCount := ip0, bitCount0;
    if ip + 7 <= |buf| || ip + bitCount / 8 + 4 <= |buf| {
      ip, bitCount := ip + bitCount / 8, bitCount % 8;
    } else {
      bitCount := bitCount - 8 * (|buf| - 4 - ip);
      ip := |buf| - 4;
    }
    bitStream := Shr(ReadLE32(buf, ip), bitCount % 32);
  }

  /** Where the next symbol is read from: at once, or after a run of zeros. */
  function BeforeCount(buf: seq<Byte>, c: Cursor, s: State): (r: (Cursor, State))
    requires Placed(buf, c.ip, c.bitCount)
    ensures r.0.ip + 4 <= |buf| && (r.0.ip + 6 <= |buf| ==> r.0.bitCount <= 7)
    ensures r.1.remaining == s.remaining
  {
    if s.previous0 then var (c1, n0) := SkipZeros(buf, c, |s.counts|); (c1, WithZeros(s, n0)) else (c, s)
  }

  lemma SymbolIs(buf: seq<Byte>, s: State, log: nat, maxSymbol: nat)
    requires Good(buf, s, log, maxSymbol) && s.remaining > 1 && |s.counts| <= maxSymbol
    ensures HighBit(s.remaining) <= MAX_HEADER_LOG
    ensures var (c, z) := BeforeCount(buf, Window(buf, s.ip, s.bitCount), s);
            ReadSymbol(buf, s, log, maxSymbol) == if |z.counts| > maxSymbol then None else Some(TakeCount(buf, c, z))
  {
    WidthIsSmall(s.remaining, log);
  }

  lemma SymbolsIs(buf: seq<Byte>, s: State, log: nat, maxSymbol: nat)
    requires Good(buf, s, log, maxSymbol) && s.remaining > 1 && |s.counts| <= maxSymbol
    ensures var next := ReadSymbol(buf, s, log, maxSymbol);
            if next.None? then ReadSymbols(buf, s, log, maxSymbol).None?
            else Good(buf, next.value, log, maxSymbol) && |s.counts| < |next.value.counts|
                 && ReadSymbols(buf, s, log, maxSymbol) == ReadSymbols(buf, next.value, log, maxSymbol)
  {
    if ReadSymbol(buf, s, log, maxSymbol).Some? {
      SymbolKeeps(buf, s, log, maxSymbol);
    }
  }

  /** The loop's local variables, other than the number of symbols read. */
  datatype Locals = Locals(
    ip: nat, bitCount: nat, bitStream: nat, remaining: nat, threshold: nat, nbBits: nat, previous0: bool)

  /** The variables agree with `s`; `threshold` is the power of two at or below `remaining`. */
  predicate Tracks(l: Locals, buf: seq<Byte>, s: State)
    requires s.ip + 4 <= |buf| && s.remaining >= 1
  {
    && l.ip == s.ip && l.bitCount == s.bitCount && l.remaining == s.remaining && l.previous0 == s.previous0
    && l.bitStream == Window(buf, s.ip, s.bitCount).stream
    && l.nbBits == HighBit(s.remaining) + 1 && l.threshold == Pow2(l.nbBits - 1)
    && l.threshold <= l.remaining < 2 * l.threshold
  }

  /** The rest of a turn, once a run of zeros is skipped. */
  method ReadTurn(buf: seq<Byte>, l: Locals, ghost c: Cursor, ghost z: State) returns (count: int, l': Locals)
    requires c.ip + 4 <= |buf| && (c.ip + 6 <= |buf| ==> c.bitCount <= 7)
    requires z.remaining > 1 && HighBit(z.remaining) <= MAX_HEADER_LOG
    requires c == Cursor(l.ip, l.bitCount, l.bitStream) && l.remaining == z.remaining
    requires l.nbBits == HighBit(z.remaining) + 1 && l.threshold == Pow2(l.nbBits - 1)
    ensures var z' := TakeCount(buf, c, z);
            z'.remaining >= 1 && Tracks(l', buf, z') && z'.counts == z.counts + [count]
  {
    hide HighBit, Advance, Cells, Window, Placed, Low;
    var used, remaining, threshold, nbBits;
    count, used, remaining, threshold, nbBits := ReadCount(l.bitStream, l.remaining, l.threshold, l.nbBits);
    var ip, bitCount, bitStream := MoveOn(buf, l.ip, l.bitCount + used);
    l' := Locals(ip, bitCount, bitStream, remaining, threshold, nbBits, count == 0);
  }

  predicate ZeroFrom(xs: seq<int>, from: nat) {
    forall i :: from <= i < |xs| ==> xs[i] == 0
  }

  lemma StillZero(before: seq<int>, from: nat, after: seq<int>, from': nat)
    requires ZeroFrom(before, from) && from <= from' <= |before| == |after| && after[from'..] == before[from'..]
    ensures ZeroFrom(after, from')
  {
    forall i | from' <= i < |after| ensures after[i] == 0 {
      assert after[i] == after[from'..][i - from'] == before[from'..][i - from'] == before[i];
    }
  }

  /** One turn of the loop over the symbols. */
  method ReadSymbolInto(normalizedCounter: array<int>, maxSymbolValue: nat, buf: seq<Byte>, l: Locals, charnum: nat,
                        ghost s: State, ghost log: nat)
    returns (ok: bool, l': Locals, charnum': nat, ghost s': State)
    requires Good(buf, s, log, maxSymbolValue) && Tracks(l, buf, s) && s.remaining > 1
    requires charnum <= maxSymbolValue < normalizedCounter.Length && s.counts == normalizedCounter[..charnum]
    requires ZeroFrom(normalizedCounter[..], charnum)
    modifies normalizedCounter
    ensures ReadSymbol(buf, s, log, maxSymbolValue) == if ok then Some(s') else None
    ensures ok ==> s'.ip + 4 <= |buf| && s'.remaining >= 1 && Tracks(l', buf, s')
    ensures ok ==> charnum < charnum' <= maxSymbolValue + 1 && s'.counts == normalizedCounter[..charnum']
    ensures ok ==> ZeroFrom(normalizedCounter[..], charnum')
  {
    hide Pow2;
    SymbolIs(buf, s, log, maxSymbolValue);
    ghost var (c, z) := BeforeCount(buf, Window(buf, l.ip, l.bitCount), s);
    ok, l', charnum' := SkipInto(normalizedCounter, maxSymbolValue, buf, l, charnum, c, z, s);
    s' := s;
    if ok {
      ghost var before := normalizedCounter[..];
      var count;
      count, l' := ReadTurn(buf, l', c, z);
      s' := TakeCount(buf, c, z);
      normalizedCounter[charnum'] := count;
      assert normalizedCounter[..charnum' + 1] == before[..charnum'] + [count];
      StillZero(before, charnum', normalizedCounter[..], charnum' + 1);
      charnum' := charnum' + 1;
    }
  }

  /** A run of zeros, if the last count was zero. */
  method SkipInto(normalizedCounter: array<int>, maxSymbolValue: nat, buf: seq<Byte>, l: Locals, charnum: nat,
                  ghost c: Cursor, ghost z: State, ghost s: State)
    returns (ok: bool, l': Locals, charnum': nat)
    requires Placed(buf, s.ip, s.bitCount) && s.remaining >= 1 && Tracks(l, buf, s)
    requires (c, z) == BeforeCount(buf, Window(buf, s.ip, s.bitCount), s)
    requires charnum <= maxSymbolValue < normalizedCounter.Length && s.counts == normalizedCounter[..charnum]
    requires ZeroFrom(normalizedCounter[..], charnum)
    modifies normalizedCounter
    ensures ok <==> |z.counts| <= maxSymbolValue
    ensures ok ==> charnum <= charnum' <= maxSymbolValue && z.counts == normalizedCounter[..charnum']
    ensures ok ==> ZeroFrom(normalizedCounter[..], charnum')
    ensures ok ==> c == Cursor(l'.ip, l'.bitCount, l'.bitStream) && l'.remaining == l.remaining
    ensures ok ==> l'.nbBits == l.nbBits && l'.threshold == l.threshold
  {
    ok, l', charnum' := true, l, charnum;
    if l.previous0 {
      ghost var before := normalizedCounter[..];
      var ip, bitCount, bitStream;
      ok, ip, bitCount, bitStream, charnum' :=
        ReadZeros(normalizedCounter, maxSymbolValue, buf, l.ip, l.bitCount, l.bitStream, charnum);
      if ok {
        l' := l.(ip := ip, bitCount := bitCount, bitStream := bitStream);
        StillZero(before, charnum, normalizedCounter[..], charnum');
      }
    }
  }

  /** The loop over the symbols. */
  method ReadSymbolsInto(normalizedCounter: array<int>, maxSymbolValue: nat, buf: seq<Byte>, l0: Locals,
                         ghost s0: State, ghost log: nat)
    returns (ok: bool, l: Locals, symbols: nat, ghost s: State)
    requires Good(buf, s0, log, maxSymbolValue) && Tracks(l0, buf, s0) && s0.counts == []
    requires maxSymbolValue < normalizedCounter.Length && ZeroFrom(normalizedCounter[..], 0)
    modifies normalizedCounter
    ensures ReadSymbols(buf, s0, log, maxSymbolValue) == if ok then Some(s) else None
    ensures ok ==> s.ip + 4 <= |buf| && s.remaining >= 1 && Tracks(l, buf, s)
    ensures ok ==> symbols <= maxSymbolValue + 1 && s.counts == normalizedCounter[..symbols]
    ensures ok ==> ZeroFrom(normalizedCounter[..], symbols)
  {
    ok, l, symbols, s := true, l0, 0, s0;
    while l.remaining > 1 && symbols <= maxSymbolValue
      invariant symbols <= maxSymbolValue + 1 && s.counts == normalizedCounter[..symbols]
      invariant ZeroFrom(normalizedCounter[..], symbols)
      invariant Good(buf, s, log, maxSymbolValue) && Tracks(l, buf, s)
      invariant ReadSymbols(buf, s, log, maxSymbolValue) == ReadSymbols(buf, s0, log, maxSymbolValue)
      decreases maxSymbolValue + 1 - symbols
    {
      SymbolsIs(buf, s, log, maxSymbolValue);
      ok, l, symbols, s := ReadSymbolInto(normalizedCounter, maxSymbolValue, buf, l, symbols, s, log);
      if !ok { return; }
    }
  }

  /** The values FSE_readNCount leaves for its caller. */
  function Report(failure: Option<Failure>, normalizedCounter: seq<int>, symbols: nat, log: nat, length: nat): Outcome
    requires failure.None? ==> symbols <= |normalizedCounter|
  {
    if failure.Some? then Failed(failure.value) else Counts(normalizedCounter[..symbols], log, length)
  }

  lemma FirstWidth(log: nat, size: nat)
    requires 1 <= log && size == Pow2(log)
    ensures size >= 2 && HighBit(size + 1) == log
  {
    Pow2LessEq(1, log);
    HighBitIs(size + 1, log);
  }

  lemma BeginGood(buf: seq<Byte>, log: nat, maxSymbol: nat)
    requires |buf| >= 4 && log <= MAX_HEADER_LOG
    ensures Good(buf, Begin(log), log, maxSymbol)
  {
  }

  lemma BeginTracks(buf: seq<Byte>, l: Locals, s: State, log: nat, size: nat)
    requires |buf| >= 4 && size == Pow2(log) >= 2 && HighBit(size + 1) == log
    requires s == State(0, 4, size + 1, [], false)
    requires l == Locals(0, 4, Shr(ReadLE32(buf, 0), 4), size + 1, size, log + 1, false)
    ensures Tracks(l, buf, s)
  {
    hide Shr, Low, Pow2, HighBit;
  }

  /** The variables before the loop. */
  method BeginInto(buf: seq<Byte>, bitStream: nat, tableLog: nat) returns (l: Locals)
    requires |buf| >= 4 && bitStream == ReadLE32(buf, 0) && 1 <= tableLog <= MAX_HEADER_LOG
    ensures Tracks(l, buf, Begin(tableLog))
  {
    var size := Pow2(tableLog);
    l := Locals(0, 4, Shr(bitStream, 4), size + 1, size, tableLog + 1, false);
    FirstWidth(tableLog, size);
    BeginTracks(buf, l, Begin(tableLog), tableLog, size);
  }

  /** The two checks after the loop. */
  method FinishInto(l: Locals, symbols: nat, tableLog: nat, buf: seq<Byte>, ghost s: State,
                    ghost normalizedCounter: seq<int>)
    returns (failure: Option<Failure>, length: nat)
    requires s.ip + 4 <= |buf| && s.remaining >= 1 && Tracks(l, buf, s)
    requires symbols <= |normalizedCounter| && s.counts == normalizedCounter[..symbols]
    ensures Report(failure, normalizedCounter, symbols, tableLog, length) == Verdict(Some(s), tableLog)
  {
    length := 0;
    if l.remaining != 1 { return Some(Corruption), length; }
    if l.bitCount > 32 { return Some(Corruption), length; }
    length := l.ip + (l.bitCount + 7) / 8;
    failure := None;
  }

  /** The array has one entry per symbol, as the source clears it. */
  method ReadHeaderInto(normalizedCounter: array<int>, maxSymbolValue: nat, buf: seq<Byte>)
    returns (failure: Option<Failure>, symbols: nat, tableLog: nat, length: nat)
    requires |buf| >= 4 && maxSymbolValue + 1 == normalizedCounter.Length
    modifies normalizedCounter
    ensures failure.None? ==> symbols <= maxSymbolValue + 1 && ZeroFrom(normalizedCounter[..], symbols)
    ensures Report(failure, normalizedCounter[..], symbols, tableLog, length) == ReadHeader(buf, maxSymbolValue)
  {
    hide Good, Tracks, ReadLE32, Low, Shr, Pow2;
    symbols, length := 0, 0;
    var bitStream := ReadLE32(buf, 0);
    tableLog := Low(bitStream, 4) + MIN_TABLELOG;
    FillZeros(normalizedCounter, 0, maxSymbolValue + 1);
    if tableLog > MAX_HEADER_LOG { return Some(LogTooLarge), symbols, tableLog, length; }
    BeginGood(buf, tableLog, maxSymbolValue);
    var l := BeginInto(buf, bitStream, tableLog);
    var ok;
    ghost var s;
    ok, l, symbols, s := ReadSymbolsInto(normalizedCounter, maxSymbolValue, buf, l, Begin(tableLog), tableLog);
    if !ok { return Some(SymbolTooLarge), symbols, tableLog, length; }
    failure, length := FinishInto(l, symbols, tableLog, buf, s, normalizedCounter[..]);
  }

  /** FSE_readNCount; `symbols` is one more than the value it leaves in `*maxSVPtr`. */
  method Read(normalizedCounter: array<int>, maxSymbolValue: nat, header: seq<Byte>)
    returns (failure: Option<Failure>, symbols: nat, tableLog: nat, length: nat)
    requires maxSymbolValue + 1 == normalizedCounter.Length
    modifies normalizedCounter
    ensures failure.None? ==> symbols <= maxSymbolValue + 1 && ZeroFrom(normalizedCounter[..], symbols)
    ensures Report(failure, normalizedCounter[..], symbols, tableLog, length) == ReadNCount(header, maxSymbolValue)
  {
    if |header| < 4 {
      failure, symbols, tableLog, length := ReadHeaderInto(normalizedCounter, maxSymbolValue, Padded(header));
      if failure.None? && length > |header| {
        failure := Some(Corruption);
      }
    } else {
      failure, symbols, tableLog, length := ReadHeaderInto(normalizedCounter, maxSymbolValue, header);
    }
  }

  /* Reading the counts and building the table, as FSE_decompress_wksp does */

  datatype Prepared = Ready(length: nat) | ReadFailed(failure: Failure) | LogAboveMax | BuildFailed(error: Error)

  lemma FillingBuilds(counts: seq<int>, log: nat)
    requires MIN_TABLELOG <= log && Countable(counts) && CellSum(counts) == Pow2(log)
    ensures Buildable(counts, log) && Accepted(counts, log)
  {
    SumOfParts(counts);
    FillingIsAccepted(counts, log);
  }

  /** Counts that are read fill their table, so building it cannot fail. */
  method Prepare(workSpace: DTable, source: seq<Byte>, maxLog: nat) returns (r: Prepared, ghost layout: seq<int>)
    requires maxLog <= MAX_TABLELOG && Pow2(maxLog) <= workSpace.cells.Length && Bytes(workSpace.cells[..])
    modifies workSpace, workSpace.cells
    ensures r == match ReadNCount(source, MAX_SYMBOL_VALUE)
                 case Failed(failure) => ReadFailed(failure)
                 case Counts(_, log, length) => if log > maxLog then LogAboveMax else Ready(length)
    ensures r.Ready? ==>
              var counts, log := ReadNCount(source, MAX_SYMBOL_VALUE).counts, ReadNCount(source, MAX_SYMBOL_VALUE).log;
              && workSpace.tableLog == log && Built(workSpace.cells[..], counts, log, layout)
              && (workSpace.fastMode <==> Balanced(counts, log))
  {
    hide Pow2, CellSum, Countable, Buildable, Accepted, Built, Balanced, Bytes, ReadNCount;
    layout := [];
    var counting := new int[MAX_SYMBOL_VALUE + 1];
    var failure, symbols, tableLog, length := Read(counting, MAX_SYMBOL_VALUE, source);
    if failure.Some? { return ReadFailed(failure.value), layout; }
    CountsFillTable(source, MAX_SYMBOL_VALUE);
    if tableLog > maxLog { return LogAboveMax, layout; }
    Pow2LessEq(tableLog, maxLog);
    FillingBuilds(counting[..symbols], tableLog);
    var error;
    error, layout := workSpace.BuildDTable(counting[..], symbols - 1, tableLog);
    if error != Error.Ok { return BuildFailed(error), layout; }
    return Ready(length), layout;
  }
}
