/** Running the decoding automaton on a bit stream. */
module FseDState {
  import opened Bits
  import opened BitStrings
  import opened FseTable
  import opened FseDecoder
  import Stream = BitStream

  /** The class FSE_DState_t: a state and the table it indexes. */
  class DState {
    var state: nat
    var table: seq<Cell>

    /** FSE_initDState */
    constructor (bitD: Stream.DStream, dt: DTable)
      requires bitD.Valid() && dt.tableLog < Stream.WORD && bitD.bitsConsumed + dt.tableLog <= Stream.WORD
      modifies bitD
      ensures bitD.Valid() && bitD.bitsConsumed <= Stream.WORD && bitD.src == old(bitD.src)
      ensures bitD.Unread() == old(bitD.Unread()) - dt.tableLog
      ensures state == Low(Shr(LittleEndian(bitD.src), bitD.Unread()), dt.tableLog)
      ensures table == dt.cells[..]
    {
      var value := bitD.ReadBits(dt.tableLog);
      var status := bitD.Reload();
      state, table := value, dt.cells[..];
    }

    method DecodeSymbol(bitD: Stream.DStream) returns (symbol: nat)
      requires bitD.Valid() && state < |table| && table[state].nbBits < Stream.WORD
      requires bitD.bitsConsumed + table[state].nbBits <= Stream.WORD
      modifies this`state, bitD
      ensures bitD.Valid() && bitD.bitsConsumed <= Stream.WORD && bitD.src == old(bitD.src)
      ensures bitD.Unread() == old(bitD.Unread()) - table[old(state)].nbBits
      ensures symbol == table[old(state)].symbol
      ensures state == table[old(state)].newState
                     + Low(Shr(LittleEndian(bitD.src), bitD.Unread()), table[old(state)].nbBits)
    {
      var info := table[state];
      var lowBits := bitD.ReadBits(info.nbBits);
      symbol := info.symbol;
      state := info.newState + lowBits;
    }

    /** Does the same, where the cell reads at least one bit. */
    method DecodeSymbolFast(bitD: Stream.DStream) returns (symbol: nat)
      requires bitD.Valid() && state < |table| && 1 <= table[state].nbBits < Stream.WORD
      requires bitD.bitsConsumed + table[state].nbBits <= Stream.WORD
      modifies this`state, bitD
      ensures bitD.Valid() && bitD.bitsConsumed <= Stream.WORD && bitD.src == old(bitD.src)
      ensures bitD.Unread() == old(bitD.Unread()) - table[old(state)].nbBits
      ensures symbol == table[old(state)].symbol
      ensures state == table[old(state)].newState
                     + Low(Shr(LittleEndian(bitD.src), bitD.Unread()), table[old(state)].nbBits)
    {
      var info := table[state];
      var lowBits := bitD.LookBitsFast(info.nbBits);
      bitD.SkipBits(info.nbBits);
      symbol := info.symbol;
      state := info.newState + lowBits;
    }
  }

  /** The fields of a run as they are written: the last one read first. */
  function Backward(cells: seq<Cell>, state: nat, fields: seq<nat>): seq<Stream.Field>
    requires Readable(cells, state, fields)
    decreases |fields|
  {
    if fields == [] then [] else
    Backward(cells, cells[state].newState + fields[0], fields[1..]) + [Stream.Field(fields[0], cells[state].nbBits)]
  }

  /** A stream that ends with the fields of a run from `state`, below the bits `high` already read. */
  ghost predicate Encodes(w: nat, unread: int, cells: seq<Cell>, state: nat, fields: seq<nat>, high: nat) {
    Readable(cells, state, fields) &&
    var written := Backward(cells, state, fields);
    unread == Stream.Length(written) && w == Join(Stream.Packed(written), Stream.Length(written), high)
  }

  /** Reading the field on top leaves the rest of the run. */
  lemma NextField(w: nat, unread: int, cells: seq<Cell>, state: nat, fields: seq<nat>, high: nat, width: nat, next: nat)
    requires Encodes(w, unread, cells, state, fields, high) && fields != []
    requires width == cells[state].nbBits && next == cells[state].newState + fields[0]
    ensures width <= unread && Low(Shr(w, unread - width), width) == fields[0]
    ensures Encodes(w, unread - width, cells, next, fields[1..], Join(fields[0], width, high))
  {
    var written := Backward(cells, state, fields);
    var front := Backward(cells, next, fields[1..]);
    assert written[..|written| - 1] == front;
    LowBound(fields[0], width);
    Stream.TopField(Stream.Packed(front), Stream.Length(front), fields[0], width, high, w);
  }

  /** What reloading before a field of at most 57 bits leaves room for. */
  lemma ReloadMakesRoom(ptr: nat, consumed: nat, width: nat)
    requires consumed <= Stream.WORD && width <= 57 && width <= 8 * ptr + Stream.WORD - consumed
    ensures Stream.Reloaded(ptr, consumed).1 + width <= Stream.WORD
  {
  }

  /** One symbol, with a reload before it. */
  method DecodeNext(bitD: Stream.DStream, d: DState, fast: bool, ghost counts: seq<int>, ghost log: nat,
                    ghost layout: seq<int>, ghost rest: seq<nat>, ghost high: nat)
    returns (symbol: nat)
    requires bitD.Valid() && bitD.bitsConsumed <= Stream.WORD
    requires 1 <= log <= MAX_TABLELOG && Built(d.table, counts, log, layout) && Countable(counts) && d.state < Pow2(log)
    requires fast ==> Balanced(counts, log)
    requires Encodes(LittleEndian(bitD.src), bitD.Unread(), d.table, d.state, rest, high) && rest != []
    modifies bitD, d`state
    ensures bitD.Valid() && bitD.bitsConsumed <= Stream.WORD && bitD.src == old(bitD.src)
    ensures symbol == d.table[old(d.state)].symbol && d.state == d.table[old(d.state)].newState + rest[0] < Pow2(log)
    ensures Encodes(LittleEndian(bitD.src), bitD.Unread(), d.table, d.state, rest[1..],
                    Join(rest[0], d.table[old(d.state)].nbBits, high))
  {
    hide Pow2, Low, SpreadOut, Stream.Length, NumberedTo;
    ghost var width, next := d.table[d.state].nbBits, d.table[d.state].newState + rest[0];
    ghost var w := LittleEndian(bitD.src);
    NextField(w, bitD.Unread(), d.table, d.state, rest, high, width, next);
    StaysInTable(d.table, counts, log, layout, d.state, rest[0]);
    ReloadMakesRoom(bitD.ptr, bitD.bitsConsumed, width);
    var status := bitD.Reload();
    if fast { FastModeIsSafe(d.table, counts, log, layout, d.state); }
    symbol := DecodeEither(bitD, d, fast);
  }

  /** FSE_GETSYMBOL: the two forms give the same. */
  method DecodeEither(bitD: Stream.DStream, d: DState, fast: bool) returns (symbol: nat)
    requires bitD.Valid() && d.state < |d.table| && d.table[d.state].nbBits < Stream.WORD
    requires fast ==> d.table[d.state].nbBits >= 1
    requires bitD.bitsConsumed + d.table[d.state].nbBits <= Stream.WORD
    modifies d`state, bitD
    ensures bitD.Valid() && bitD.bitsConsumed <= Stream.WORD && bitD.src == old(bitD.src)
    ensures bitD.Unread() == old(bitD.Unread()) - d.table[old(d.state)].nbBits
    ensures symbol == d.table[old(d.state)].symbol
    ensures d.state == d.table[old(d.state)].newState
                     + Low(Shr(LittleEndian(bitD.src), bitD.Unread()), d.table[old(d.state)].nbBits)
  {
    if fast {
      symbol := d.DecodeSymbolFast(bitD);
    } else {
      symbol := d.DecodeSymbol(bitD);
    }
  }

  /** Decodes the run a stream encodes, in the normal or in the fast form. */
  method DecodeRun(bitD: Stream.DStream, d: DState, count: nat, fast: bool,
                   ghost counts: seq<int>, ghost log: nat, ghost layout: seq<int>, ghost fields: seq<nat>,
                   ghost high: nat)
    returns (symbols: seq<nat>)
    requires bitD.Valid() && bitD.bitsConsumed <= Stream.WORD
    requires 1 <= log <= MAX_TABLELOG && Built(d.table, counts, log, layout) && Countable(counts) && d.state < Pow2(log)
    requires fast ==> Balanced(counts, log)
    requires Encodes(LittleEndian(bitD.src), bitD.Unread(), d.table, d.state, fields, high) && count == |fields|
    modifies bitD, d`state
    ensures symbols == Symbols(d.table, old(d.state), fields)
    ensures d.state == FinalState(d.table, old(d.state), fields)
    ensures bitD.bitsConsumed <= Stream.WORD && bitD.Unread() == 0
  {
    symbols := [];
    ghost var rest, above := fields, high;
    var i := 0;
    while i < count
      invariant 0 <= i <= count && |rest| == count - i
      invariant bitD.Valid() && bitD.bitsConsumed <= Stream.WORD
      invariant d.state < Pow2(log) && Encodes(LittleEndian(bitD.src), bitD.Unread(), d.table, d.state, rest, above)
      invariant symbols + Symbols(d.table, d.state, rest) == Symbols(d.table, old(d.state), fields)
      invariant FinalState(d.table, d.state, rest) == FinalState(d.table, old(d.state), fields)
    {
      ghost var width, next := d.table[d.state].nbBits, d.table[d.state].newState + rest[0];
      FirstField(d.table, d.state, rest, next);
      var symbol := DecodeNext(bitD, d, fast, counts, log, layout, rest, above);
      Reassociate(symbols, symbol, Symbols(d.table, next, rest[1..]));
      symbols := symbols + [symbol];
      rest, above := rest[1..], Join(rest[0], width, above);
      i := i + 1;
    }
  }

  lemma Reassociate(a: seq<nat>, b: nat, c: seq<nat>)
    ensures a + ([b] + c) == a + [b] + c
  {
  }

  /** A closed stream holding the fields of a run, and on top the state it starts from. */
  ghost predicate Closed(src: seq<Byte>, cells: seq<Cell>, log: nat, start: nat, fields: seq<nat>) {
    Readable(cells, start, fields) &&
    var n := Stream.Length(Backward(cells, start, fields)) + log;
    && |src| == n / 8 + 1
    && LittleEndian(src) == Join(Join(Stream.Packed(Backward(cells, start, fields)), n - log, start), n, 1)
  }

  lemma TopState(src: seq<Byte>, cells: seq<Cell>, log: nat, start: nat, fields: seq<nat>, n: nat)
    requires Closed(src, cells, log, start, fields) && start < Pow2(log)
    requires n == Stream.Length(Backward(cells, start, fields)) + log
    ensures src[|src| - 1] != 0 && LittleEndian(src) > 0 && HighBit(LittleEndian(src)) == n
    ensures Low(Shr(LittleEndian(src), n - log), log) == start
    ensures Encodes(LittleEndian(src), n - log, cells, start, fields, Join(start, log, 1))
  {
    var written := Backward(cells, start, fields);
    Stream.LastByteMarked(src, Join(Stream.Packed(written), n - log, start), n);
    Stream.TopField(Stream.Packed(written), n - log, start, log, 1, LittleEndian(src));
  }

  /** BIT_initDStream and FSE_initDState on a closed stream. */
  method Open(src: seq<Byte>, dt: DTable, ghost start: nat, ghost fields: seq<nat>)
    returns (bitD: Stream.DStream, d: DState, ghost high: nat)
    requires dt.tableLog <= MAX_TABLELOG && start < Pow2(dt.tableLog)
    requires Closed(src, dt.cells[..], dt.tableLog, start, fields)
    ensures fresh(bitD) && fresh(d) && bitD.Valid() && bitD.bitsConsumed <= Stream.WORD
    ensures d.table == dt.cells[..] && d.state == start
    ensures Encodes(LittleEndian(bitD.src), bitD.Unread(), d.table, start, fields, high)
  {
    hide Backward, LittleEndian, HighBit, Low;
    ghost var n := Stream.Length(Backward(dt.cells[..], start, fields)) + dt.tableLog;
    TopState(src, dt.cells[..], dt.tableLog, start, fields, n);
    bitD := new Stream.DStream();
    var error := bitD.Init(src);
    d := new DState(bitD, dt);
    high := Join(start, dt.tableLog, 1);
  }

  /** Opens a closed stream and decodes its run; the fast form is chosen by the table, and gives the same. */
  method Decompress(src: seq<Byte>, dt: DTable, count: nat, ghost counts: seq<int>, ghost layout: seq<int>,
                    ghost start: nat, ghost fields: seq<nat>)
    returns (symbols: seq<nat>, ended: bool)
    requires 1 <= dt.tableLog <= MAX_TABLELOG && Countable(counts) && Built(dt.cells[..], counts, dt.tableLog, layout)
    requires dt.fastMode ==> Balanced(counts, dt.tableLog)
    requires start < Pow2(dt.tableLog) && Closed(src, dt.cells[..], dt.tableLog, start, fields) && count == |fields|
    ensures symbols == Symbols(dt.cells[..], start, fields) && ended
  {
    var bitD, d;
    ghost var high;
    bitD, d, high := Open(src, dt, start, fields);
    symbols := DecodeRun(bitD, d, count, dt.fastMode, counts, dt.tableLog, layout, fields, high);
    ended := bitD.EndOfDStream();
  }

  /* From a text to a stream and back */

  lemma {:induction false} PackedBound(fields: seq<Stream.Field>)
    ensures Stream.Packed(fields) < Pow2(Stream.Length(fields))
  {
    if fields != [] {
      var front, last := fields[..|fields| - 1], fields[|fields| - 1];
      PackedBound(front);
      LowBound(last.value, last.width);
      JoinBound(Stream.Packed(front), Stream.Length(front), Low(last.value, last.width), last.width);
    }
  }

  /** Every run can be closed into a stream. */
  lemma ClosedStream(cells: seq<Cell>, log: nat, start: nat, fields: seq<nat>) returns (src: seq<Byte>)
    requires Readable(cells, start, fields) && start < Pow2(log)
    ensures Closed(src, cells, log, start, fields)
  {
    hide Low, Shr, Stream.Packed, Stream.Length, Readable, Backward;
    var written := Backward(cells, start, fields);
    var m, n := Stream.Length(written), Stream.Length(written) + log;
    var low := Join(Stream.Packed(written), m, start);
    var w := Join(low, n, 1);
    PackedBound(written);
    JoinBound(Stream.Packed(written), m, start, log);
    assert Pow2(1) == 2;
    JoinBound(low, n, 1, 1);
    src := BytesOf(w, n / 8 + 1);
    BytesOfIs(w, n / 8 + 1);
    Pow2LessEq(n + 1, 8 * (n / 8 + 1));
    LowBound(w, 8 * (n / 8 + 1));
  }

  /** `src` is a closed stream that stands for the symbols of `text`. */
  ghost predicate StandsFor(src: seq<Byte>, cells: seq<Cell>, log: nat, text: seq<nat>) {
    exists start, fields :: RunOf(src, cells, log, start, fields, text)
  }

  ghost predicate RunOf(src: seq<Byte>, cells: seq<Cell>, log: nat, start: nat, fields: seq<nat>, text: seq<nat>) {
    && start < Pow2(log) && Readable(cells, start, fields) && |fields| == |text|
    && Symbols(cells, start, fields) == text && Closed(src, cells, log, start, fields)
  }

  /** For every sequence of symbols that are present there is a stream that stands for it. */
  lemma EveryTextHasStream(cells: seq<Cell>, counts: seq<int>, log: nat, layout: seq<int>, text: seq<nat>)
    returns (src: seq<Byte>)
    requires Built(cells, counts, log, layout)
    requires forall i :: 0 <= i < |text| ==> text[i] < |counts| && counts[text[i]] != 0
    ensures StandsFor(src, cells, log, text)
  {
    hide Built, Closed, Readable, Symbols;
    var start, fields := CanEncode(cells, counts, log, layout, text, 0);
    src := ClosedStream(cells, log, start, fields);
    assert RunOf(src, cells, log, start, fields, text);
  }

  /** And decoding it gives the sequence back. */
  method DecompressText(src: seq<Byte>, dt: DTable, count: nat, ghost counts: seq<int>, ghost layout: seq<int>,
                        ghost text: seq<nat>)
    returns (symbols: seq<nat>, ended: bool)
    requires 1 <= dt.tableLog <= MAX_TABLELOG && Countable(counts) && Built(dt.cells[..], counts, dt.tableLog, layout)
    requires dt.fastMode ==> Balanced(counts, dt.tableLog)
    requires StandsFor(src, dt.cells[..], dt.tableLog, text) && count == |text|
    ensures symbols == text && ended
  {
    ghost var start, fields :| RunOf(src, dt.cells[..], dt.tableLog, start, fields, text);
    symbols, ended := Decompress(src, dt, count, counts, layout, start, fields);
  }
}
