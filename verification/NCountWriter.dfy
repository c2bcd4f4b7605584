/** The header of counts as section 4.1.1 of RFC 8878 writes it, and that it is read back. */
module NCountWriter {
  import opened Bits
  import opened BitStrings
  import opened FseTable
  import opened NCount
  import opened NCountPlain

  /** `bits` bits that make up the number `value`. */
  datatype Field = Field(value: nat, bits: nat)

  /** A count below `remaining`, which is between 2^log and 2^(log + 1): of the values 0 to `remaining` the first few
      take one bit less, so that the others have room in log + 1 bits. */
  function WrittenCount(count: int, log: nat, remaining: nat): Field
    requires -1 <= count < remaining && Pow2(log) <= remaining < 2 * Pow2(log)
  {
    var value, few := count + 1, 2 * Pow2(log) - 1 - remaining;
    if value < few then Field(value, log)
    else if value < Pow2(log) then Field(value, log + 1)
    else Field(value + few, log + 1)
  }

  /** How many counts behind a zero are zero too, in flags of two bits: 3 says that another flag follows. */
  function WrittenZeros(zeros: nat): Field {
    if zeros < 3 then Field(zeros, 2) else
    var rest := WrittenZeros(zeros - 3);
    Field(3 + 4 * rest.value, rest.bits + 2)
  }

  function LeadingZeros(counts: seq<int>): (n: nat)
    ensures n <= |counts|
  {
    if counts != [] && counts[0] == 0 then 1 + LeadingZeros(counts[1..]) else 0
  }

  /** The fields one after the other, the first one in the lowest bits. */
  function Then(first: Field, rest: Field): Field {
    Field(first.value + Pow2(first.bits) * rest.value, first.bits + rest.bits)
  }

  /** Counts whose cells are one less than `remaining`, with a last one that is not zero. */
  predicate Writable(counts: seq<int>, remaining: nat) {
    && Countable(counts) && CellSum(counts) + 1 == remaining
    && (counts != [] ==> counts[|counts| - 1] != 0)
  }

  function WrittenCounts(counts: seq<int>, remaining: nat): Field
    requires Writable(counts, remaining)
    decreases |counts|
  {
    if counts == [] then Field(0, 0) else
    FirstLeaves(counts, remaining);
    var first := WrittenCount(counts[0], HighBit(remaining), remaining);
    if counts[0] != 0 then Then(first, WrittenCounts(counts[1..], remaining - Cells(counts[0]))) else
    var zeros := LeadingZeros(counts[1..]);
    ZerosLeave(counts[1..], remaining);
    Then(first, Then(WrittenZeros(zeros), WrittenCounts(counts[1 + zeros..], remaining)))
  }

  /** The header as one number: the table log less five in four bits, and the counts. */
  function WrittenHeader(counts: seq<int>, log: nat): Field
    requires 5 <= log <= 15 && Writable(counts, Pow2(log) + 1)
  {
    Then(Field(log - 5, 4), WrittenCounts(counts, Pow2(log) + 1))
  }

  function HeaderBytes(counts: seq<int>, log: nat): seq<Byte>
    requires 5 <= log <= 15 && Writable(counts, Pow2(log) + 1)
  {
    var header := WrittenHeader(counts, log);
    BytesOf(header.value, (header.bits + 7) / 8)
  }

  /* That the functions are defined */

  lemma {:induction false} SumFromFirst(counts: seq<int>)
    requires counts != []
    ensures CellSum(counts) == Cells(counts[0]) + CellSum(counts[1..])
    decreases |counts|
  {
    var last := |counts| - 1;
    if last == 0 {
      assert counts[..0] == [] && counts[1..] == [];
    } else {
      SumFromFirst(counts[..last]);
      assert counts[..last][1..] == counts[1..][..last - 1];
    }
  }

  lemma FirstLeaves(counts: seq<int>, remaining: nat)
    requires Writable(counts, remaining) && counts != []
    ensures remaining > 0 && -1 <= counts[0] < remaining
    ensures counts[0] != 0 ==> remaining >= Cells(counts[0]) && Writable(counts[1..], remaining - Cells(counts[0]))
    ensures counts[0] == 0 ==> Writable(counts[1..], remaining) && counts[1..] != []
  {
    SumFromFirst(counts);
  }

  lemma {:induction false} ZerosFirst(counts: seq<int>)
    ensures counts == Zeros(LeadingZeros(counts)) + counts[LeadingZeros(counts)..]
    ensures LeadingZeros(counts) < |counts| ==> counts[LeadingZeros(counts)] != 0
    decreases |counts|
  {
    if counts != [] && counts[0] == 0 {
      ZerosFirst(counts[1..]);
      var n := LeadingZeros(counts[1..]);
      assert counts[1..][n..] == counts[n + 1..];
      assert counts == [0] + counts[1..] && Zeros(n + 1) == [0] + Zeros(n);
    } else {
      assert counts[0..] == counts && Zeros(0) + counts == counts;
    }
  }

  lemma {:induction false} ZerosLeave(counts: seq<int>, remaining: nat)
    requires Writable(counts, remaining)
    ensures Writable(counts[LeadingZeros(counts)..], remaining)
    ensures counts != [] ==> LeadingZeros(counts) < |counts|
    decreases |counts|
  {
    hide CellSum, Countable;
    if counts != [] && counts[0] == 0 {
      FirstLeaves(counts, remaining);
      ZerosLeave(counts[1..], remaining);
      assert counts[1..][LeadingZeros(counts[1..])..] == counts[LeadingZeros(counts[1..]) + 1..];
    } else {
      assert counts[0..] == counts;
    }
  }

  /* What the readers make of the parts */

  /** Reading a count that is written gives it back, whatever follows. */
  lemma CountReads(count: int, log: nat, remaining: nat, x: nat)
    requires -1 <= count < remaining && Pow2(log) <= remaining < 2 * Pow2(log)
    requires var w := WrittenCount(count, log, remaining); Low(x, w.bits) == w.value
    ensures CountCode(x, log, remaining) == Code(count, WrittenCount(count, log, remaining).bits)
  {
    var w := WrittenCount(count, log, remaining);
    var value, few := count + 1, 2 * Pow2(log) - 1 - remaining;
    if value >= few {
      LowLow(x, log + 1, log);
      ShrLowAre(Low(x, log + 1), log, Pow2(log));
      if value < Pow2(log) {
        SmallDivMod(value, Pow2(log));
      } else {
        DivModIs(value + few, Pow2(log), 1, value + few - Pow2(log));
      }
    }
  }

  lemma {:induction false} ZerosRead(zeros: nat, x: nat)
    requires var w := WrittenZeros(zeros); Low(x, w.bits) == w.value
    ensures ZeroRun(x) == Run(zeros, WrittenZeros(zeros).bits)
    decreases zeros
  {
    var w := WrittenZeros(zeros);
    TwoBits(x, w.bits);
    assert Low(x / 4, 0) == 0;
    if zeros >= 3 {
      ZerosRead(zeros - 3, x / 4);
    }
  }

  lemma CountFits(count: int, log: nat, remaining: nat)
    requires -1 <= count < remaining && Pow2(log) <= remaining < 2 * Pow2(log)
    ensures var w := WrittenCount(count, log, remaining); w.value < Pow2(w.bits)
  {
  }

  lemma {:induction false} ZerosFit(zeros: nat)
    ensures WrittenZeros(zeros).value < Pow2(WrittenZeros(zeros).bits)
    decreases zeros
  {
    assert Pow2(2) == 4;
    if zeros >= 3 {
      ZerosFit(zeros - 3);
      var bits := WrittenZeros(zeros - 3).bits;
      assert Pow2(bits + 2) == 2 * Pow2(bits + 1) == 4 * Pow2(bits);
    }
  }

  /** Reading the first of two fields leaves the second. */
  lemma ThenReads(x: nat, first: Field, rest: Field)
    requires first.value < Pow2(first.bits) && Low(x, Then(first, rest).bits) == Then(first, rest).value
    ensures Low(x, first.bits) == first.value && Low(Shr(x, first.bits), rest.bits) == rest.value
  {
    JoinIs(first.value, first.bits, rest.value);
    JoinSplit(first.value, first.bits, rest.value);
    LowLow(x, first.bits + rest.bits, first.bits);
    LowBound(first.value, first.bits);
    ShrLow(x, first.bits, rest.bits);
  }

  lemma {:induction false} CountsFit(counts: seq<int>, remaining: nat)
    requires Writable(counts, remaining)
    ensures var w := WrittenCounts(counts, remaining); w.value < Pow2(w.bits)
    decreases |counts|
  {
    hide CellSum, Countable, WrittenCount, WrittenZeros, Then;
    if counts != [] {
      FirstLeaves(counts, remaining);
      var first := WrittenCount(counts[0], HighBit(remaining), remaining);
      CountFits(counts[0], HighBit(remaining), remaining);
      if counts[0] != 0 {
        CountsFit(counts[1..], remaining - Cells(counts[0]));
        ThenFits(first, WrittenCounts(counts[1..], remaining - Cells(counts[0])));
      } else {
        var zeros := LeadingZeros(counts[1..]);
        ZerosLeave(counts[1..], remaining);
        assert counts[1..][zeros..] == counts[1 + zeros..];
        CountsFit(counts[1 + zeros..], remaining);
        ZerosFit(zeros);
        ThenFits(WrittenZeros(zeros), WrittenCounts(counts[1 + zeros..], remaining));
        ThenFits(first, Then(WrittenZeros(zeros), WrittenCounts(counts[1 + zeros..], remaining)));
      }
    }
  }

  lemma ThenFits(first: Field, rest: Field)
    requires first.value < Pow2(first.bits) && rest.value < Pow2(rest.bits)
    ensures Then(first, rest).value < Pow2(Then(first, rest).bits)
  {
    JoinIs(first.value, first.bits, rest.value);
    JoinBound(first.value, first.bits, rest.value, rest.bits);
  }

  /* Reading bit by bit */

  /** One count. */
  lemma FirstReads(w: nat, pos: nat, count: int, remaining: nat, done: seq<int>, maxSymbol: nat)
    requires remaining > 1 && -1 <= count < remaining && |done| <= maxSymbol
    requires var f := WrittenCount(count, HighBit(remaining), remaining); Low(Shr(w, pos), f.bits) == f.value
    ensures remaining - Cells(count) >= 1
    ensures var f := WrittenCount(count, HighBit(remaining), remaining);
            PlainSymbols(w, Plain(pos, remaining, done, false), maxSymbol)
            == PlainSymbols(w, Plain(pos + f.bits, remaining - Cells(count), done + [count], count == 0), maxSymbol)
  {
    hide WrittenCount, CountCode, Low, Shr;
    var f := WrittenCount(count, HighBit(remaining), remaining);
    CountReads(count, HighBit(remaining), remaining, Shr(w, pos));
    PlainNext(w, Plain(pos, remaining, done, false),
              Plain(pos + f.bits, remaining - Cells(count), done + [count], count == 0), maxSymbol);
  }

  /** A run of zeros and the count behind it are read as if the zeros had been read one by one. */
  lemma RunReads(w: nat, pos: nat, zeros: nat, remaining: nat, done: seq<int>, maxSymbol: nat)
    requires remaining > 1 && |done| + zeros <= maxSymbol
    requires var f := WrittenZeros(zeros); Low(Shr(w, pos), f.bits) == f.value
    ensures var f := WrittenZeros(zeros);
            PlainSymbols(w, Plain(pos, remaining, done, true), maxSymbol)
            == PlainSymbols(w, Plain(pos + f.bits, remaining, done + Zeros(zeros), false), maxSymbol)
  {
    hide WrittenZeros, CountCode, Low, Shr, ZeroRun;
    var f := WrittenZeros(zeros);
    ZerosRead(zeros, Shr(w, pos));
    var p, q := Plain(pos, remaining, done, true), Plain(pos + f.bits, remaining, done + Zeros(zeros), false);
    var next := PlainCount(w, q);
    assert PlainSymbol(w, p, maxSymbol) == Some(next) == PlainSymbol(w, q, maxSymbol);
    PlainNext(w, p, next, maxSymbol);
    PlainNext(w, q, next, maxSymbol);
  }

  /** The counts of a header are read back bit by bit. */
  lemma {:induction false} CountsRead(w: nat, pos: nat, counts: seq<int>, remaining: nat, done: seq<int>,
                                      maxSymbol: nat)
    requires Writable(counts, remaining) && |done| + |counts| <= maxSymbol + 1
    requires var f := WrittenCounts(counts, remaining); Low(Shr(w, pos), f.bits) == f.value
    ensures remaining >= 1
    ensures var f := WrittenCounts(counts, remaining);
            PlainSymbols(w, Plain(pos, remaining, done, false), maxSymbol)
            == Some(Plain(pos + f.bits, 1, done + counts, false))
    decreases |counts|
  {
    hide CellSum, Countable, WrittenCount, WrittenZeros, Then, Low, Shr, PlainSymbol;
    if counts == [] {
      EmptyIs(counts, remaining);
      assert done + [] == done;
    } else {
      FirstLeaves(counts, remaining);
      SomeRemain(counts, remaining);
      var count, first := counts[0], WrittenCount(counts[0], HighBit(remaining), remaining);
      CountFits(count, HighBit(remaining), remaining);
      if count != 0 {
        var rest := WrittenCounts(counts[1..], remaining - Cells(count));
        ThenReads(Shr(w, pos), first, rest);
        ShrShr(w, pos, first.bits);
        FirstReads(w, pos, count, remaining, done, maxSymbol);
        CountsRead(w, pos + first.bits, counts[1..], remaining - Cells(count), done + [count], maxSymbol);
        assert done + [count] + counts[1..] == done + counts;
        ThenBits(first, rest);
      } else {
        ZerosThenRest(w, pos, counts, remaining, done, maxSymbol, first);
      }
    }
  }

  lemma ThenBits(first: Field, rest: Field)
    ensures Then(first, rest).bits == first.bits + rest.bits
  {
  }

  lemma EmptyIs(counts: seq<int>, remaining: nat)
    requires Writable(counts, remaining) && counts == []
    ensures remaining == 1
  {
  }

  lemma SomeRemain(counts: seq<int>, remaining: nat)
    requires Writable(counts, remaining) && counts != []
    ensures remaining > 1
  {
  }

  /** Where the flags of a run of zeros lie, and what is written behind them. */
  lemma ZerosInPlace(w: nat, pos: nat, counts: seq<int>, remaining: nat, first: Field)
    requires Writable(counts, remaining) && counts != [] && counts[0] == 0
    requires remaining > 1 && first == WrittenCount(0, HighBit(remaining), remaining)
    requires first.value < Pow2(first.bits)
    requires var f := WrittenCounts(counts, remaining); Low(Shr(w, pos), f.bits) == f.value
    ensures var zeros := LeadingZeros(counts[1..]);
            && zeros < |counts| && counts == [0] + Zeros(zeros) + counts[1 + zeros..]
            && Writable(counts[1 + zeros..], remaining)
            && var flags, rest := WrittenZeros(zeros), WrittenCounts(counts[1 + zeros..], remaining);
               var at := pos + first.bits + flags.bits;
               && WrittenCounts(counts, remaining).bits == first.bits + flags.bits + rest.bits
               && Low(Shr(w, pos), first.bits) == first.value
               && Low(Shr(w, pos + first.bits), flags.bits) == flags.value && Low(Shr(w, at), rest.bits) == rest.value
  {
    hide CellSum, Countable, WrittenCount, WrittenZeros, Then, Low, Shr;
    FirstLeaves(counts, remaining);
    ZerosLeave(counts[1..], remaining);
    ZerosFirst(counts[1..]);
    var zeros := LeadingZeros(counts[1..]);
    var flags, rest := WrittenZeros(zeros), WrittenCounts(counts[1 + zeros..], remaining);
    assert counts[1..][zeros..] == counts[1 + zeros..];
    ZerosFit(zeros);
    ThenReads(Shr(w, pos), first, Then(flags, rest));
    ShrShr(w, pos, first.bits);
    ThenReads(Shr(w, pos + first.bits), flags, rest);
    ShrShr(w, pos + first.bits, flags.bits);
    assert counts == [0] + counts[1..];
    ThenBits(first, Then(flags, rest));
    ThenBits(flags, rest);
  }

  lemma {:induction false} ZerosThenRest(w: nat, pos: nat, counts: seq<int>, remaining: nat, done: seq<int>,
                                         maxSymbol: nat, first: Field)
    requires Writable(counts, remaining) && |done| + |counts| <= maxSymbol + 1 && counts != [] && counts[0] == 0
    requires remaining > 1 && first == WrittenCount(0, HighBit(remaining), remaining)
    requires first.value < Pow2(first.bits)
    requires var f := WrittenCounts(counts, remaining); Low(Shr(w, pos), f.bits) == f.value
    ensures var f := WrittenCounts(counts, remaining);
            PlainSymbols(w, Plain(pos, remaining, done, false), maxSymbol)
            == Some(Plain(pos + f.bits, 1, done + counts, false))
    decreases |counts|, 0
  {
    hide Writable, WrittenCounts, WrittenCount, WrittenZeros, Low, Shr, PlainSymbol, PlainSymbols;
    ZerosInPlace(w, pos, counts, remaining, first);
    var zeros := LeadingZeros(counts[1..]);
    var flags, rest := WrittenZeros(zeros), counts[1 + zeros..];
    FirstReads(w, pos, 0, remaining, done, maxSymbol);
    assert Zeros(zeros) == counts[1..1 + zeros];
    if rest == [] { EmptyIs(rest, remaining); }
    RunReads(w, pos + first.bits, zeros, remaining, done + [0], maxSymbol);
    CountsRead(w, pos + first.bits + flags.bits, rest, remaining, done + [0] + Zeros(zeros), maxSymbol);
    assert done + [0] + Zeros(zeros) + rest == done + counts;
  }

  /* The header */

  lemma HeaderIsPlain(w: nat, counts: seq<int>, log: nat, maxSymbol: nat)
    requires 5 <= log <= 15 && Writable(counts, Pow2(log) + 1) && |counts| <= maxSymbol + 1
    requires var f := WrittenHeader(counts, log); Low(w, f.bits) == f.value
    ensures PlainNCount(w, maxSymbol) == Counts(counts, log, (WrittenHeader(counts, log).bits + 7) / 8)
  {
    hide WrittenCounts, Low, Shr, PlainSymbols, Then, Writable;
    var rest := WrittenCounts(counts, Pow2(log) + 1);
    assert Pow2(4) == 16;
    ThenReads(w, Field(log - 5, 4), rest);
    ThenBits(Field(log - 5, 4), rest);
    CountsRead(w, 4, counts, Pow2(log) + 1, [], maxSymbol);
    assert [] + counts == counts;
    PlainIs(w, maxSymbol, log, Some(Plain(4 + rest.bits, 1, counts, false)));
  }

  lemma HeaderInPlace(counts: seq<int>, log: nat, rest: seq<Byte>)
    requires 5 <= log <= 15 && Writable(counts, Pow2(log) + 1)
    ensures var f := WrittenHeader(counts, log); Low(LittleEndian(HeaderBytes(counts, log) + rest), f.bits) == f.value
  {
    hide WrittenCounts, Low, Shr, Then, Writable, LittleEndian, BytesOf;
    var f := WrittenHeader(counts, log);
    var n := (f.bits + 7) / 8;
    assert Pow2(4) == 16;
    CountsFit(counts, Pow2(log) + 1);
    ThenFits(Field(log - 5, 4), WrittenCounts(counts, Pow2(log) + 1));
    Pow2LessEq(f.bits, 8 * n);
    BytesOfIs(f.value, n);
    LowBound(f.value, 8 * n);
    LowBound(f.value, f.bits);
    LittleEndianAppend(HeaderBytes(counts, log), rest);
    JoinSplit(f.value, 8 * n, LittleEndian(rest));
    LowLow(LittleEndian(HeaderBytes(counts, log) + rest), 8 * n, f.bits);
  }

  /** Every list of counts that fills its table is read back from the header that is written of it, whatever stands
      behind it, as long as something does. */
  lemma HeaderReadBack(counts: seq<int>, log: nat, rest: seq<Byte>, maxSymbol: nat)
    requires 5 <= log <= 15 && Writable(counts, Pow2(log) + 1) && |counts| <= maxSymbol + 1 && rest != []
    ensures ReadNCount(HeaderBytes(counts, log) + rest, maxSymbol)
         == Counts(counts, log, |HeaderBytes(counts, log)|)
  {
    hide WrittenHeader, Low, LittleEndian, ReadNCount, PlainNCount, Writable;
    var buf := HeaderBytes(counts, log) + rest;
    HeaderInPlace(counts, log, rest);
    HeaderIsPlain(LittleEndian(buf), counts, log, maxSymbol);
    AgreesWithPlain(buf, maxSymbol, |HeaderBytes(counts, log)|);
  }

  /** So does the reader with its loops and its array, which is zero behind the counts. */
  method ReadWritten(normalizedCounter: array<int>, maxSymbolValue: nat, counts: seq<int>, log: nat, rest: seq<Byte>)
    requires 5 <= log <= 15 && Writable(counts, Pow2(log) + 1) && |counts| <= maxSymbolValue + 1 && rest != []
    requires maxSymbolValue + 1 == normalizedCounter.Length
    modifies normalizedCounter
    ensures normalizedCounter[..] == counts + Zeros(normalizedCounter.Length - |counts|)
  {
    hide HeaderBytes, ReadNCount, Writable;
    HeaderReadBack(counts, log, rest, maxSymbolValue);
    var failure, symbols, tableLog, length := Read(normalizedCounter, maxSymbolValue, HeaderBytes(counts, log) + rest);
    assert normalizedCounter[..symbols] == normalizedCounter[..][..symbols] == counts;
    assert normalizedCounter[..] == counts + normalizedCounter[..][symbols..];
  }
}
