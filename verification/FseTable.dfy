/** Building the decoding table of Finite State Entropy (section 4.1.1 of RFC 8878). */
module FseTable {
  import opened Bits
  import opened FseRounds
  import opened FseWalk

  const MAX_SYMBOL_VALUE: nat := 255
  const MAX_TABLELOG: nat := 12
  const MIN_TABLELOG: nat := 5
  const U32: nat := 0x1_0000_0000

  datatype Cell = Cell(newState: nat, symbol: nat, nbBits: nat)

  /** `Undefined` stands for a shift by more than the word, or of nothing. */
  datatype Error = Ok | MaxSymbolValueTooLarge | TableLogTooLarge | Generic | Undefined

  /* Normalized counts: -1 stands for a probability below one cell, which still gets one cell */

  function Cells(count: int): nat {
    if count < 0 then -count else count
  }

  function CellSum(counts: seq<int>): nat {
    if counts == [] then 0 else CellSum(counts[..|counts| - 1]) + Cells(counts[|counts| - 1])
  }

  /** The symbols of probability below one, in increasing order. */
  function LowSymbols(counts: seq<int>): seq<nat> {
    if counts == [] then [] else
    LowSymbols(counts[..|counts| - 1]) + (if counts[|counts| - 1] == -1 then [|counts| - 1] else [])
  }

  /** Every other symbol as often as it has cells, in increasing order. */
  function Expanded(counts: seq<int>): seq<nat> {
    if counts == [] then [] else
    var last := |counts| - 1;
    Expanded(counts[..last]) + (if counts[last] > 0 then Repeat(last, counts[last]) else [])
  }

  function Repeat(symbol: nat, times: nat): seq<nat> {
    seq(times, _ => symbol)
  }

  predicate Countable(counts: seq<int>) {
    forall s :: 0 <= s < |counts| ==> counts[s] >= -1
  }

  lemma {:induction false} SumOfParts(counts: seq<int>)
    requires Countable(counts)
    ensures CellSum(counts) == |LowSymbols(counts)| + |Expanded(counts)|
  {
    if counts != [] {
      SumOfParts(counts[..|counts| - 1]);
    }
  }

  lemma {:induction false} PrefixSums(counts: seq<int>, n: nat)
    requires n <= |counts|
    ensures CellSum(counts[..n]) <= CellSum(counts)
    ensures |LowSymbols(counts[..n])| <= |LowSymbols(counts)|
    ensures |Expanded(counts[..n])| <= |Expanded(counts)|
  {
    if n < |counts| {
      PrefixSums(counts[..|counts| - 1], n);
      assert counts[..|counts| - 1][..n] == counts[..n];
    } else {
      assert counts[..n] == counts;
    }
  }

  /* The layout of symbols over the table, cell by cell; NONE marks a cell not yet written */

  const NONE: int := -1

  function Count(xs: seq<int>, x: int): nat {
    if xs == [] then 0 else Count(xs[..|xs| - 1], x) + (if xs[|xs| - 1] == x then 1 else 0)
  }

  lemma {:induction false} CountUpdate(xs: seq<int>, i: nat, y: int, x: int)
    requires i < |xs|
    ensures Count(xs[i := y], x) == Count(xs, x) + (if y == x then 1 else 0) - (if xs[i] == x then 1 else 0)
  {
    var last := |xs| - 1;
    if i < last {
      CountUpdate(xs[..last], i, y, x);
      assert xs[i := y][..last] == xs[..last][i := y];
    } else {
      assert xs[i := y][..last] == xs[..last];
    }
  }

  lemma {:induction false} CountPositive(xs: seq<int>, i: nat)
    requires i < |xs|
    ensures Count(xs, xs[i]) >= 1
  {
    var last := |xs| - 1;
    if i < last {
      CountPositive(xs[..last], i);
    }
  }

  lemma {:induction false} CountAbsent(xs: seq<int>, x: int)
    requires forall i :: 0 <= i < |xs| ==> xs[i] != x
    ensures Count(xs, x) == 0
  {
    if xs != [] {
      CountAbsent(xs[..|xs| - 1], x);
    }
  }

  lemma {:induction false} CountBound(xs: seq<int>, x: int)
    ensures Count(xs, x) <= |xs|
  {
    if xs != [] {
      CountBound(xs[..|xs| - 1], x);
    }
  }

  /** The first `j` positions of the walk that are outside the low-probability area hold `placed`, in order. */
  ghost predicate InWalkOrder(layout: seq<int>, placed: seq<nat>, size: nat, step: nat, high: int, j: nat)
    requires size == |layout| > 0
  {
    forall i {:trigger Hits(size, step, high, i)} :: 0 <= i < j && Walk(size, step, i) <= high ==>
      Hits(size, step, high, i) < |placed| && layout[Walk(size, step, i)] == placed[Hits(size, step, high, i)]
  }

  /** The walk has made `j` moves and `placed` holds the symbols it wrote, in order. */
  ghost predicate Spreading(layout: seq<int>, placed: seq<nat>, size: nat, step: nat, high: int, j: nat) {
    && |layout| == size && 0 <= high < size && j <= size
    && |placed| == Hits(size, step, high, j)
    && (forall p :: high < p < size ==> layout[p] != NONE)
    && (forall p :: 0 <= p <= high && layout[p] != NONE ==> Reached(size, step, j, p))
    && InWalkOrder(layout, placed, size, step, high, j)
  }

  /** A full round writes every cell outside the low-probability area. */
  lemma WrittenAt(layout: seq<int>, placed: seq<nat>, bits: nat, size: nat, step: nat, high: int, p: nat)
    requires step % 2 == 1 && size == Pow2(bits) == |layout| && high < size
    requires InWalkOrder(layout, placed, size, step, high, size)
    ensures p <= high ==> exists h :: 0 <= h < |placed| && layout[p] == placed[h]
  {
    if p <= high {
      var i := WalkCovers(bits, step, p);
      var h := Hits(size, step, high, i);
      assert layout[p] == placed[h];
    }
  }

  /** While cells are missing, the walk has not gone round, and its position is a fresh cell. */
  lemma FreshCell(layout: seq<int>, placed: seq<nat>, bits: nat, step: nat, high: int, j: nat)
    requires step % 2 == 1 && Spreading(layout, placed, Pow2(bits), step, high, j)
    requires Count(layout, NONE) > 0
    ensures j < Pow2(bits)
    ensures Walk(Pow2(bits), step, j) <= high ==> layout[Walk(Pow2(bits), step, j)] == NONE
  {
    var size := Pow2(bits);
    if j == size {
      forall p | 0 <= p < size ensures layout[p] != NONE {
        WrittenAt(layout, placed, bits, size, step, high, p);
      }
      CountAbsent(layout, NONE);
    } else {
      var p := Walk(size, step, j);
      if p <= high && layout[p] != NONE {
        assert Reached(size, step, j, p);
        var i :| 0 <= i < j && Walk(size, step, i) == p;
        WalkInjective(bits, step, i, j);
      }
    }
  }

  lemma PlaceSymbol(layout: seq<int>, placed: seq<nat>, size: nat, step: nat, high: int, j: nat, p: nat, s: nat)
    requires Spreading(layout, placed, size, step, high, j)
    requires j < size && p == Walk(size, step, j) <= high && layout[p] == NONE
    ensures Spreading(layout[p := s], placed + [s], size, step, high, j + 1)
  {
    forall i | 0 <= i < j && Walk(size, step, i) <= high ensures Walk(size, step, i) != p {
      assert layout[Walk(size, step, i)] == placed[Hits(size, step, high, i)];
    }
    var layout' := layout[p := s];
    forall q | 0 <= q <= high && layout'[q] != NONE ensures Reached(size, step, j + 1, q) {
      ReachedLater(size, step, j, q);
    }
  }

  lemma WalkNext(size: nat, step: nat, j: nat)
    requires size > 0
    ensures Walk(size, step, j + 1) == Move(size, step, Walk(size, step, j))
  {
  }

  lemma ReachedLater(size: nat, step: nat, j: nat, p: nat)
    requires size > 0
    ensures Reached(size, step, j, p) ==> Reached(size, step, j + 1, p)
    ensures Walk(size, step, j) == p ==> Reached(size, step, j + 1, p)
  {
    if Reached(size, step, j, p) {
      var i :| 0 <= i < j && Walk(size, step, i) == p;
    }
  }

  lemma SkipCell(layout: seq<int>, placed: seq<nat>, size: nat, step: nat, high: int, j: nat)
    requires Spreading(layout, placed, size, step, high, j)
    requires j < size && Walk(size, step, j) > high
    ensures Spreading(layout, placed, size, step, high, j + 1)
  {
    forall q | 0 <= q <= high && layout[q] != NONE ensures Reached(size, step, j + 1, q) {
      ReachedLater(size, step, j, q);
    }
  }

  lemma {:induction false} SkipCells(layout: seq<int>, placed: seq<nat>, size: nat, step: nat, high: int,
                                     j: nat, j': nat)
    requires Spreading(layout, placed, size, step, high, j) && j <= j' <= size
    requires forall i :: j <= i < j' ==> Walk(size, step, i) > high
    ensures Spreading(layout, placed, size, step, high, j')
    decreases j' - j
  {
    if j < j' {
      SkipCell(layout, placed, size, step, high, j);
      SkipCells(layout, placed, size, step, high, j + 1, j');
    }
  }

  /** Once something was placed, the walk is back at cell 0 exactly when every cell is written. */
  lemma WalkEnds(layout: seq<int>, placed: seq<nat>, bits: nat, step: nat, high: int, j: nat)
    requires step % 2 == 1 && Spreading(layout, placed, Pow2(bits), step, high, j)
    requires Walk(Pow2(bits), step, j) <= high && 0 < j
    ensures Walk(Pow2(bits), step, j) == 0 <==> Count(layout, NONE) == 0
    ensures Count(layout, NONE) == 0 ==> j == Pow2(bits)
  {
    WalkReturns(bits, step);
    if Count(layout, NONE) > 0 {
      FreshCell(layout, placed, bits, step, high, j);
      WalkInjective(bits, step, 0, j);
    } else if j < Pow2(bits) {
      AlreadyReached(layout, placed, bits, step, high, j);
    }
  }

  /** Before a full round the position is new, so with no cell missing the round is complete. */
  lemma AlreadyReached(layout: seq<int>, placed: seq<nat>, bits: nat, step: nat, high: int, j: nat)
    requires step % 2 == 1 && Spreading(layout, placed, Pow2(bits), step, high, j)
    requires Walk(Pow2(bits), step, j) <= high && j < Pow2(bits)
    ensures Count(layout, NONE) > 0
  {
    var p := Walk(Pow2(bits), step, j);
    if layout[p] == NONE {
      CountPositive(layout, p);
    } else {
      assert Reached(Pow2(bits), step, j, p);
      var i :| 0 <= i < j && Walk(Pow2(bits), step, i) == p;
      WalkInjective(bits, step, i, j);
    }
  }

  /* What the finished table is */

  /** What FSE_buildDTable asks of its caller: there are cells for the symbols of probability below one. */
  predicate Buildable(counts: seq<int>, log: nat) {
    Countable(counts) && log >= 1 && |LowSymbols(counts)| <= Pow2(log)
  }

  /** The cells the walk stops at. Where the low-probability area is the whole table, highThreshold has wrapped
      around and nothing is passed over. */
  function Stops(counts: seq<int>, log: nat): (n: nat)
    requires Buildable(counts, log)
    ensures n > 0
  {
    if |LowSymbols(counts)| == Pow2(log) then Pow2(log) else Pow2(log) - |LowSymbols(counts)|
  }

  /** The check of the final position lets the counts pass. */
  predicate Accepted(counts: seq<int>, log: nat)
    requires Buildable(counts, log)
  {
    log == 1 || log == 3 || |Expanded(counts)| % Stops(counts, log) == 0
  }

  lemma FillingIsAccepted(counts: seq<int>, log: nat)
    requires Buildable(counts, log) && CellSum(counts) == Pow2(log)
    ensures Accepted(counts, log)
  {
    SumOfParts(counts);
    if Expanded(counts) == [] { SmallDivMod(0, Stops(counts, log)); }
    else { DivModIs(|Expanded(counts)|, Stops(counts, log), 1, 0); }
  }

  /** Twice the table is accepted. */
  lemma AcceptedTwice()
    ensures Buildable([32, 32], 5) && Accepted([32, 32], 5) && CellSum([32, 32]) == 64 && Pow2(5) == 32
  {
    assert Pow2(5) == 32;
    var counts := [32, 32];
    assert counts[..1] == [32] && [32][..0] == [];
    assert LowSymbols([32]) == LowSymbols([]) && Expanded([32]) == Expanded([]) + Repeat(0, 32);
    assert LowSymbols(counts) == [] && |Expanded(counts)| == 64;
    assert CellSum([32]) == 32;
  }

  /** So is a single cell of thirty-two, if it is one of probability below one. */
  lemma AcceptedEmpty()
    ensures Buildable([-1], 5) && Accepted([-1], 5) && CellSum([-1]) == 1 < Pow2(5)
  {
    assert Pow2(5) == 32;
    assert [-1][..0] == [];
    assert LowSymbols([-1]) == LowSymbols([]) + [0] && Expanded([-1]) == Expanded([]);
    SmallDivMod(0, 31);
  }

  /** No symbol has half of the table or more. */
  predicate Balanced(counts: seq<int>, log: nat) {
    forall s :: 0 <= s < |counts| ==> counts[s] < LargeLimit(log)
  }

  function LargeLimit(log: nat): nat {
    if log == 0 then 1 else Pow2(log - 1)
  }

  /** Symbols of probability below one fill the table from the top; the others are written, in order,
      to the remaining positions in the order of the walk. */
  ghost predicate SpreadOut(layout: seq<int>, counts: seq<int>, size: nat) {
    && Arranged(layout, LowSymbols(counts), Expanded(counts), size, TableStep(size))
    && (forall p :: 0 <= p < size ==> 0 <= layout[p] < |counts|)
    && (forall s :: 0 <= s < |counts| ==> Count(layout, s) == Cells(counts[s]))
  }

  ghost predicate Arranged(layout: seq<int>, low: seq<nat>, placed: seq<nat>, size: nat, step: nat) {
    && 0 < size == |layout| == |low| + |placed|
    && (forall p :: |placed| <= p < size ==> layout[p] == low[size - 1 - p])
    && InWalkOrder(layout, placed, size, step, |placed| - 1, size)
  }

  /** The number `x` of cell `u` among the states of its symbol: the cells of a symbol with `c` cells
      are numbered from `c` on, in table order. */
  function Number(counts: seq<int>, layout: seq<int>, u: nat): nat
    requires u < |layout| && 0 <= layout[u] < |counts|
  {
    Cells(counts[layout[u]]) + Count(layout[..u], layout[u])
  }

  function StateCell(counts: seq<int>, log: nat, layout: seq<int>, u: nat): Cell
    requires u < |layout| && 0 <= layout[u] < |counts| && 0 < Number(counts, layout, u) < 2 * Pow2(log)
  {
    NewCell(Number(counts, layout, u), log, layout[u])
  }

  /** The two assignments to a cell in "Build Decoding table", for `nextState == x`. */
  function NewCell(x: nat, log: nat, symbol: nat): (cell: Cell)
    requires 0 < x < 2 * Pow2(log)
  {
    var nbBits := BitsOf(x, log);
    StateBits(x, log);
    Cell(x * Pow2(nbBits) - Pow2(log), symbol, nbBits)
  }

  /** The width of a state's bit field, chosen so that its successors stay inside the table. */
  function BitsOf(x: nat, log: nat): (n: nat)
    requires 0 < x < 2 * Pow2(log)
    ensures n <= log
  {
    StateBits(x, log);
    log - HighBit(x)
  }

  lemma StateBits(x: nat, log: nat)
    requires 0 < x < 2 * Pow2(log)
    ensures HighBit(x) <= log
    ensures x * Pow2(log - HighBit(x)) >= Pow2(log)
    ensures (x + 1) * Pow2(log - HighBit(x)) <= 2 * Pow2(log)
  {
    var h := HighBit(x);
    if h > log { Pow2LessEq(log + 1, h); }
    Pow2Add(h, log - h);
    Pow2Add(h + 1, log - h);
    MulMonotone(Pow2(h), x, Pow2(log - h));
    MulMonotone(x + 1, Pow2(h + 1), Pow2(log - h));
  }

  /** The first `n` cells are filled in. */
  ghost predicate NumberedTo(cells: seq<Cell>, counts: seq<int>, log: nat, layout: seq<int>, n: nat) {
    && |layout| == Pow2(log) <= |cells| && n <= |layout|
    && (forall p :: 0 <= p < |layout| ==> 0 <= layout[p] < |counts|)
    && (forall p :: 0 <= p < n ==> 0 < Number(counts, layout, p) < 2 * Pow2(log))
    && (forall p :: 0 <= p < n ==> cells[p] == StateCell(counts, log, layout, p))
  }

  ghost predicate Numbered(cells: seq<Cell>, counts: seq<int>, log: nat, layout: seq<int>) {
    NumberedTo(cells, counts, log, layout, |layout|)
  }

  ghost predicate Built(cells: seq<Cell>, counts: seq<int>, log: nat, layout: seq<int>) {
    SpreadOut(layout, counts, Pow2(log)) && Numbered(cells, counts, log, layout)
  }

  lemma {:induction false} CountSlice(xs: seq<int>, n: nat, x: int)
    requires n <= |xs|
    ensures Count(xs[..n], x) <= Count(xs, x)
    ensures n < |xs| && xs[n] == x ==> Count(xs[..n], x) < Count(xs, x)
  {
    if n < |xs| {
      CountSlice(xs[..|xs| - 1], n, x);
      assert xs[..|xs| - 1][..n] == xs[..n];
    } else {
      assert xs[..n] == xs;
    }
  }

  lemma CountNext(xs: seq<int>, n: nat)
    requires n < |xs|
    ensures forall x :: Count(xs[..n + 1], x) == Count(xs[..n], x) + (if xs[n] == x then 1 else 0)
  {
    assert xs[..n + 1][..n] == xs[..n];
  }

  /** The numbers of a symbol with `c` cells lie in [c, 2c). */
  lemma NumberRange(counts: seq<int>, layout: seq<int>, u: nat)
    requires u < |layout| && 0 <= layout[u] < |counts| && Count(layout, layout[u]) == Cells(counts[layout[u]])
    ensures Cells(counts[layout[u]]) <= Number(counts, layout, u) < 2 * Cells(counts[layout[u]])
  {
    CountSlice(layout, u, layout[u]);
  }

  lemma StateInRange(counts: seq<int>, log: nat, layout: seq<int>, u: nat)
    requires u < |layout| == Pow2(log) && 0 <= layout[u] < |counts|
    requires Count(layout, layout[u]) == Cells(counts[layout[u]])
    ensures 0 < Number(counts, layout, u) < 2 * Pow2(log)
  {
    NumberRange(counts, layout, u);
    CountBound(layout, layout[u]);
  }

  lemma {:induction false} PartsInRange(counts: seq<int>)
    ensures forall i :: 0 <= i < |LowSymbols(counts)| ==> LowSymbols(counts)[i] < |counts|
    ensures forall i :: 0 <= i < |Expanded(counts)| ==> Expanded(counts)[i] < |counts|
  {
    if counts != [] {
      PartsInRange(counts[..|counts| - 1]);
    }
  }

  /* The three blocks of FSE_buildDTable */

  /** The cells symbol `x` has once the low-probability symbols are laid down, the symbols below `s`
      are spread, and `i` cells of `s` are written. */
  function Share(counts: seq<int>, s: nat, i: int, x: nat): nat
    requires x < |counts|
  {
    if counts[x] == -1 then 1
    else if x < s then Cells(counts[x])
    else if x == s && i > 0 then i
    else 0
  }

  ghost predicate Shared(layout: seq<int>, counts: seq<int>, s: nat, i: int) {
    forall x :: 0 <= x < |counts| ==> Count(layout, x) == Share(counts, s, i, x)
  }

  ghost predicate Shows(cells: seq<Cell>, layout: seq<int>) {
    && |layout| <= |cells|
    && forall p :: 0 <= p < |layout| && layout[p] != NONE ==> cells[p].symbol == layout[p]
  }

  /** The symbol of a cell is a byte. */
  predicate Bytes(cells: seq<Cell>) {
    forall k :: 0 <= k < |cells| ==> cells[k].symbol <= MAX_SYMBOL_VALUE
  }

  /** symbolNext once the cells of `done` are numbered. */
  ghost predicate Next(symbolNext: seq<int>, counts: seq<int>, done: seq<int>) {
    && |counts| <= |symbolNext|
    && forall s :: 0 <= s < |counts| ==> symbolNext[s] == Cells(counts[s]) + Count(done, s)
  }

  /** The symbols `low`, those of probability below one among the first `n`, fill the table from the top. */
  ghost predicate LowLaid(layout: seq<int>, low: seq<nat>, counts: seq<int>, n: nat, size: nat, high: int)
    requires n <= |counts|
  {
    && |layout| == size && high == size - 1 - |low| && -1 <= high
    && (forall p :: 0 <= p <= high ==> layout[p] == NONE)
    && (forall p :: high < p < size ==> layout[p] == low[size - 1 - p])
    && Count(layout, NONE) == high + 1
    && (forall x :: 0 <= x < |counts| ==> Count(layout, x) == if x < n && counts[x] == -1 then 1 else 0)
  }

  function Blank(size: nat): seq<int> {
    seq(size, _ => NONE)
  }

  lemma {:induction false} CountBlank(size: nat, x: int)
    ensures Count(Blank(size), x) == if x == NONE then size else 0
  {
    if size > 0 {
      CountBlank(size - 1, x);
      assert Blank(size)[..size - 1] == Blank(size - 1);
    }
  }

  lemma LowLaidNothing(counts: seq<int>, size: nat)
    ensures LowLaid(Blank(size), [], counts, 0, size, size - 1)
  {
    CountBlank(size, NONE);
    forall x | 0 <= x < |counts| ensures Count(Blank(size), x) == 0 {
      CountBlank(size, x);
    }
  }

  lemma LowLaidOne(layout: seq<int>, low: seq<nat>, counts: seq<int>, n: nat, size: nat, high: int)
    requires n < |counts| && LowLaid(layout, low, counts, n, size, high) && (counts[n] == -1 ==> high >= 0)
    ensures counts[n] == -1 ==> LowLaid(layout[high := n], low + [n], counts, n + 1, size, high - 1)
    ensures counts[n] != -1 ==> LowLaid(layout, low, counts, n + 1, size, high)
  {
    if counts[n] == -1 {
      var layout' := layout[high := n];
      CountUpdate(layout, high, n, NONE);
      forall x | 0 <= x < |counts| ensures Count(layout', x) == if x < n + 1 && counts[x] == -1 then 1 else 0 {
        CountUpdate(layout, high, n, x);
      }
    }
  }

  lemma LowPrefix(counts: seq<int>, n: nat)
    requires n < |counts|
    ensures LowSymbols(counts[..n + 1]) == LowSymbols(counts[..n]) + (if counts[n] == -1 then [n] else [])
    ensures |LowSymbols(counts[..n + 1])| <= |LowSymbols(counts)|
  {
    assert counts[..n + 1][..n] == counts[..n];
    PrefixSums(counts, n + 1);
  }

  class DTable {
    var tableLog: nat
    var fastMode: bool
    const cells: array<Cell>

    constructor (size: nat)
      ensures cells.Length == size && fresh(cells) && Bytes(cells[..])
    {
      cells := new Cell[size](_ => Cell(0, 0, 0));
    }

    /** "Init, lay down lowprob symbols" */
    method LayLowProbability(counts: seq<int>, log: nat, symbolNext: array<int>)
      returns (highThreshold: int, ghost layout: seq<int>, ghost low: seq<nat>)
      requires log >= 1 && |counts| <= symbolNext.Length && Pow2(log) <= cells.Length
      requires Countable(counts) && |LowSymbols(counts)| <= Pow2(log)
      requires |counts| <= MAX_SYMBOL_VALUE + 1 && Bytes(cells[..])
      modifies this`tableLog, this`fastMode, cells, symbolNext
      ensures tableLog == log && (fastMode <==> Balanced(counts, log))
      ensures low == LowSymbols(counts) && LowLaid(layout, low, counts, |counts|, Pow2(log), highThreshold)
      ensures Shows(cells[..], layout) && Bytes(cells[..])
      ensures forall s :: 0 <= s < |counts| ==> symbolNext[s] == Cells(counts[s])
    {
      hide Count;
      var size, largeLimit := Pow2(log), LargeLimit(log);
      highThreshold := size - 1;
      tableLog, fastMode := log, true;
      layout, low := Blank(size), [];
      LowLaidNothing(counts, size);
      var s := 0;
      while s < |counts|
        invariant 0 <= s <= |counts|
        invariant tableLog == log && (fastMode <==> forall x :: 0 <= x < s ==> counts[x] < largeLimit)
        invariant low == LowSymbols(counts[..s]) && LowLaid(layout, low, counts, s, size, highThreshold)
        invariant Shows(cells[..], layout) && Bytes(cells[..])
        invariant forall x :: 0 <= x < s ==> symbolNext[x] == Cells(counts[x])
      {
        LowPrefix(counts, s);
        highThreshold, layout, low := LayLowTurn(s, counts, size, highThreshold, layout, low);
        if counts[s] != -1 && counts[s] >= largeLimit {
          fastMode := false;
        }
        symbolNext[s] := if counts[s] == -1 then 1 else counts[s];
        s := s + 1;
      }
      assert counts[..s] == counts;
    }

    /** The cell a symbol of probability below one gets. */
    method LayLowTurn(s: nat, counts: seq<int>, size: nat, high: int, ghost layout0: seq<int>, ghost low0: seq<nat>)
      returns (highThreshold: int, ghost layout: seq<int>, ghost low: seq<nat>)
      requires s < |counts| && LowLaid(layout0, low0, counts, s, size, high) && Shows(cells[..], layout0)
      requires counts[s] == -1 ==> high >= 0
      requires |counts| <= MAX_SYMBOL_VALUE + 1 && Bytes(cells[..])
      modifies cells
      ensures low == low0 + (if counts[s] == -1 then [s] else [])
      ensures LowLaid(layout, low, counts, s + 1, size, highThreshold)
      ensures Shows(cells[..], layout) && Bytes(cells[..])
    {
      highThreshold, layout, low := high, layout0, low0;
      LowLaidOne(layout0, low0, counts, s, size, high);
      if counts[s] == -1 {
        WriteSymbol(high, s, layout0);
        highThreshold, layout, low := high - 1, layout0[high := s], low0 + [s];
      }
    }

    /** `position = (position + step) & tableMask`, then again while in the low-probability area. */
    static method NextPosition(position: nat, size: nat, step: nat, highThreshold: nat, ghost bits: nat, ghost j: nat)
      returns (next: nat, ghost j': nat)
      requires size == Pow2(bits) && position == Walk(size, step, j)
      ensures j < j' && (j < size ==> j' <= size) && next == Walk(size, step, j') && next <= highThreshold
      ensures forall i :: j < i < j' ==> Walk(size, step, i) > highThreshold
    {
      ghost var round := NextRound(bits, step, j);
      WalkNext(size, step, j);
      next, j' := Move(size, step, position), j + 1;
      while next > highThreshold
        invariant j < j' <= round && next == Walk(size, step, j')
        invariant forall i :: j < i < j' ==> Walk(size, step, i) > highThreshold
        decreases round - j'
      {
        WalkNext(size, step, j');
        next, j' := Move(size, step, next), j' + 1;
      }
    }

    /** `tableDecode[at].symbol = s` */
    method WriteSymbol(at: nat, s: nat, ghost layout: seq<int>)
      requires at < |layout| && Shows(cells[..], layout) && s <= MAX_SYMBOL_VALUE && Bytes(cells[..])
      modifies cells
      ensures Shows(cells[..], layout[at := s]) && Bytes(cells[..])
    {
      cells[at] := cells[at].(symbol := s);
    }

    /** The body of the "Spread symbols" block: writes one cell and finds the next. What becomes of the layout is
        followed for counts that fit the table, the position for all. */
    method SpreadCell(s: nat, i: nat, counts: seq<int>, at: nat, size: nat, step: nat, highThreshold: nat,
                      ghost bits: nat, ghost layout: seq<int>, ghost placed: seq<nat>, ghost j: nat, ghost fits: bool)
      returns (position: nat, ghost layout': seq<int>, ghost j': nat)
      requires size == Pow2(bits) && s < |counts| <= MAX_SYMBOL_VALUE + 1 && i < counts[s]
      requires Standing(size, step, highThreshold, j, at, |placed|)
      requires |layout| == size && Shows(cells[..], layout) && Bytes(cells[..])
      requires fits ==> step % 2 == 1 && Spreading(layout, placed, size, step, highThreshold, j)
      requires fits ==> Shared(layout, counts, s, i) && Count(layout, NONE) > 0
      modifies cells
      ensures Standing(size, step, highThreshold, j', position, |placed| + 1) && 0 < j'
      ensures |layout'| == size && Shows(cells[..], layout') && Bytes(cells[..])
      ensures fits ==> Spreading(layout', placed + [s], size, step, highThreshold, j')
      ensures fits ==> Shared(layout', counts, s, i + 1)
      ensures fits && i + 1 == counts[s] ==> Shared(layout', counts, s + 1, 0)
      ensures fits ==> Count(layout', NONE) == Count(layout, NONE) - 1
      ensures fits ==> layout'[highThreshold + 1..] == layout[highThreshold + 1..]
    {
      hide Walk, Hits, Spreading, Shared, Count, Pow2, Shows, Bytes;
      layout' := layout[at := s];
      ghost var placed' := placed + [s];
      StandingIs(size, step, highThreshold, j, at, |placed|);
      WriteSymbol(at, s, layout);
      if fits { PlaceOne(layout, placed, layout', placed', counts, bits, size, step, highThreshold, j, at, s, i); }
      position, j' := NextPosition(at, size, step, highThreshold, bits, j);
      HitsSkip(size, step, highThreshold, j, j');
      StandingSet(size, step, highThreshold, j', position, |placed| + 1);
      if fits { SkipCells(layout', placed', size, step, highThreshold, j + 1, j'); }
    }

    /** The cells of one symbol of that block. */
    method SpreadSymbol(s: nat, counts: seq<int>, start: nat, size: nat, step: nat, highThreshold: nat, ghost bits: nat,
                        ghost layout0: seq<int>, ghost placed0: seq<nat>, ghost j0: nat, ghost fits: bool)
      returns (position: nat, ghost layout: seq<int>, ghost placed: seq<nat>, ghost j: nat)
      requires size == Pow2(bits) && s < |counts| <= MAX_SYMBOL_VALUE + 1 && counts[s] > 0
      requires Standing(size, step, highThreshold, j0, start, |placed0|)
      requires |layout0| == size && Shows(cells[..], layout0) && Bytes(cells[..])
      requires fits ==> step % 2 == 1 && Spreading(layout0, placed0, size, step, highThreshold, j0)
      requires fits ==> Shared(layout0, counts, s, 0) && counts[s] <= Count(layout0, NONE)
      modifies cells
      ensures Standing(size, step, highThreshold, j, position, |placed|) && 0 < j
      ensures |layout| == size && Shows(cells[..], layout) && Bytes(cells[..])
      ensures placed == placed0 + Repeat(s, counts[s])
      ensures fits ==> Spreading(layout, placed, size, step, highThreshold, j) && Shared(layout, counts, s + 1, 0)
      ensures fits ==> Count(layout, NONE) == Count(layout0, NONE) - counts[s]
      ensures fits ==> layout[highThreshold + 1..] == layout0[highThreshold + 1..]
    {
      hide Walk, Hits, Shared, Count, Pow2, Shows, Bytes, Standing;
      position, layout, placed, j := start, layout0, placed0, j0;
      var i := 0;
      while i < counts[s]
        invariant 0 <= i <= counts[s] && (i > 0 ==> 0 < j)
        invariant Standing(size, step, highThreshold, j, position, |placed|)
        invariant |layout| == size && Shows(cells[..], layout) && Bytes(cells[..])
        invariant placed == placed0 + Repeat(s, i)
        invariant fits ==> Spreading(layout, placed, size, step, highThreshold, j)
        invariant fits ==> Shared(layout, counts, s, i) && (i == counts[s] ==> Shared(layout, counts, s + 1, 0))
        invariant fits ==> Count(layout, NONE) == Count(layout0, NONE) - i
        invariant fits ==> layout[highThreshold + 1..] == layout0[highThreshold + 1..]
      {
        RepeatOne(placed0, s, i);
        position, layout, j :=
          SpreadCell(s, i, counts, position, size, step, highThreshold, bits, layout, placed, j, fits);
        placed := placed + [s];
        i := i + 1;
      }
    }

    /** One turn of the loop over the symbols. */
    method SpreadTurn(s: nat, counts: seq<int>, start: nat, size: nat, step: nat, highThreshold: nat, ghost bits: nat,
                      ghost layout0: seq<int>, ghost layout: seq<int>, ghost placed: seq<nat>, ghost j: nat,
                      ghost fits: bool, ghost high: int)
      returns (position: nat, ghost layout': seq<int>, ghost placed': seq<nat>, ghost j': nat)
      requires size == Pow2(bits) && s < |counts| <= MAX_SYMBOL_VALUE + 1 && counts[s] >= -1
      requires Standing(size, step, highThreshold, j, start, |placed|)
      requires |layout| == size && Shows(cells[..], layout) && Bytes(cells[..])
      requires high >= 0 ==> high == highThreshold
      requires fits ==> step % 2 == 1 && Spread(layout0, layout, placed, size, step, high, j, start)
      requires fits ==> Shared(layout, counts, s, 0) && (counts[s] > 0 ==> |placed| + counts[s] <= high + 1)
      modifies cells
      ensures placed' == placed + (if counts[s] > 0 then Repeat(s, counts[s]) else [])
      ensures Standing(size, step, highThreshold, j', position, |placed'|)
      ensures |layout'| == size && Shows(cells[..], layout') && Bytes(cells[..])
      ensures fits ==> Spread(layout0, layout', placed', size, step, high, j', position)
      ensures fits ==> Shared(layout', counts, s + 1, 0)
    {
      hide Walk, Hits, Spreading, Shared, Count, Pow2, Shows, Bytes, Standing, Spread;
      position, layout', placed', j' := start, layout, placed, j;
      if counts[s] > 0 {
        if fits {
          SpreadSizes(layout0, layout, placed, size, step, high, j, start);
          SpreadBefore(layout0, layout, placed, size, step, high, j, start, counts[s]);
        }
        position, layout', placed', j' :=
          SpreadSymbol(s, counts, start, size, step, highThreshold, bits, layout, placed, j, fits);
        if fits {
          StandingIs(size, step, highThreshold, j', position, |placed'|);
          SpreadAfter(layout0, layout, placed, layout', placed', size, step, high, j', position, counts[s]);
        }
      } else if fits {
        ShareNone(layout, counts, s);
      }
    }

    /** "Spread symbols": for all counts, the check of the position finds whether the symbols go round a whole number
        of times; if they fill the table, every cell holds its symbol. */
    method SpreadSymbols(counts: seq<int>, size: nat, highThreshold: int, ghost bits: nat, ghost layout0: seq<int>)
      returns (position: nat, ghost layout: seq<int>)
      requires size == Pow2(bits) && Buildable(counts, bits) && |counts| <= MAX_SYMBOL_VALUE + 1
      requires LowLaid(layout0, LowSymbols(counts), counts, |counts|, size, highThreshold)
      requires Shows(cells[..], layout0) && Bytes(cells[..]) && size < U32
      modifies cells
      ensures |layout| == size && Shows(cells[..], layout) && Bytes(cells[..])
      ensures position == 0 <==> Accepted(counts, bits)
      ensures CellSum(counts) == size && bits != 1 && bits != 3 ==> SpreadOut(layout, counts, size)
    {
      hide Walk, Hits, Spreading, Shared, Count, Pow2, Shows, Bytes, Standing, Spread, LowLaid, SpreadOut, Accepted;
      var step, threshold := TableStep(size), highThreshold % U32;
      ghost var fits := CellSum(counts) <= size && bits != 1 && bits != 3;
      StepIsOdd(bits);
      ThresholdIs(layout0, LowSymbols(counts), counts, size, highThreshold);
      ghost var j, placed := 0, [];
      position, layout := 0, layout0;
      StandingStart(size, step, threshold);
      SpreadNothing(layout0, counts, size, step, highThreshold);
      var s := 0;
      while s < |counts|
        invariant 0 <= s <= |counts| && placed == Expanded(counts[..s])
        invariant |layout| == size && Shows(cells[..], layout) && Bytes(cells[..])
        invariant Standing(size, step, threshold, j, position, |placed|)
        invariant fits ==> Shared(layout, counts, s, 0)
        invariant fits ==> Spread(layout0, layout, placed, size, step, highThreshold, j, position)
      {
        ExpandedPrefix(counts, s);
        SumOfParts(counts);
        position, layout, placed, j :=
          SpreadTurn(s, counts, position, size, step, threshold, bits, layout0, layout, placed, j, fits, highThreshold);
        s := s + 1;
      }
      assert counts[..s] == counts;
      EndsAtZero(counts, bits, threshold, j, position);
      if fits && CellSum(counts) == size {
        FillingIsAccepted(counts, bits);
        SpreadOver(layout0, layout, counts, LowSymbols(counts), placed, bits, size, highThreshold, j, position);
      }
    }

    /** One turn of the loop over the cells; `right` if the table holds the layout it should. */
    method BuildState(u: nat, counts: seq<int>, log: nat, symbolNext: array<int>, ghost layout: seq<int>,
                      ghost right: bool)
      returns (defined: bool)
      requires Pow2(log) <= cells.Length && u < Pow2(log) && symbolNext.Length == MAX_SYMBOL_VALUE + 1
      requires Bytes(cells[..])
      requires right ==> NumberedTo(cells[..], counts, log, layout, u) && u < |layout| && Shows(cells[..], layout)
      requires right ==> |counts| <= symbolNext.Length && Count(layout, layout[u]) == Cells(counts[layout[u]])
      requires right ==> Next(symbolNext[..], counts, layout[..u])
      modifies cells, symbolNext
      ensures Bytes(cells[..]) && (right ==> defined)
      ensures right ==> NumberedTo(cells[..], counts, log, layout, u + 1) && Shows(cells[..], layout)
      ensures right ==> Next(symbolNext[..], counts, layout[..u + 1])
    {
      hide Pow2, Countable;
      if right {
        StateInRange(counts, log, layout, u);
        CountNext(layout, u);
      }
      var symbol := cells[u].symbol;
      var nextState := symbolNext[symbol];
      symbolNext[symbol] := symbolNext[symbol] + 1;
      if !(0 < nextState < 2 * Pow2(log)) { return false; }
      cells[u] := NewCell(nextState, log, symbol);
      defined := true;
    }

    /** "Build Decoding table" */
    method BuildStates(counts: seq<int>, log: nat, symbolNext: array<int>, ghost layout: seq<int>, ghost right: bool)
      returns (defined: bool)
      requires Pow2(log) <= cells.Length && symbolNext.Length == MAX_SYMBOL_VALUE + 1 && Bytes(cells[..])
      requires right ==> Shows(cells[..], layout) && |layout| == Pow2(log) && |counts| <= symbolNext.Length
      requires right ==> forall p :: 0 <= p < |layout| ==> 0 <= layout[p] < |counts|
      requires right ==> forall s :: 0 <= s < |counts| ==> symbolNext[s] == Cells(counts[s])
      requires right ==> forall s :: 0 <= s < |counts| ==> Count(layout, s) == Cells(counts[s])
      modifies cells, symbolNext
      ensures right ==> defined && Numbered(cells[..], counts, log, layout)
    {
      var size := Pow2(log);
      var u := 0;
      while u < size
        invariant 0 <= u <= size && Bytes(cells[..])
        invariant right ==> Shows(cells[..], layout) && NumberedTo(cells[..], counts, log, layout, u)
        invariant right ==> Next(symbolNext[..], counts, layout[..u])
      {
        defined := BuildState(u, counts, log, symbolNext, layout, right);
        if !defined { return; }
        u := u + 1;
      }
      defined := true;
    }

    /** The table is built if and only if the counts fill it. Others are accepted too, if their symbols go round the
        table a whole number of times, and then the table is wrong. */
    method BuildDTable(normalizedCounter: seq<int>, maxSymbolValue: nat, log: nat)
      returns (error: Error, ghost layout: seq<int>)
      requires maxSymbolValue <= MAX_SYMBOL_VALUE && log <= MAX_TABLELOG ==>
                 && maxSymbolValue < |normalizedCounter| && Pow2(log) <= cells.Length
                 && Buildable(normalizedCounter[..maxSymbolValue + 1], log)
      requires Bytes(cells[..])
      modifies this`tableLog, this`fastMode, cells
      ensures error.MaxSymbolValueTooLarge? <==> maxSymbolValue > MAX_SYMBOL_VALUE
      ensures error.TableLogTooLarge? <==> maxSymbolValue <= MAX_SYMBOL_VALUE && log > MAX_TABLELOG
      ensures maxSymbolValue <= MAX_SYMBOL_VALUE && log <= MAX_TABLELOG ==>
                var counts := normalizedCounter[..maxSymbolValue + 1];
                && (error.Generic? <==> !Accepted(counts, log))
                && (CellSum(counts) == Pow2(log) && log != 1 && log != 3 ==>
                      error.Ok? && Built(cells[..], counts, log, layout))
                && (CellSum(counts) != Pow2(log) ==> forall l :: !Built(cells[..], counts, log, l))
      ensures error.Ok? ==> tableLog == log
      ensures error.Ok? ==> (fastMode <==> Balanced(normalizedCounter[..maxSymbolValue + 1], log))
    {
      hide Pow2, Shows, Bytes, LowLaid, SpreadOut, Accepted, Countable, Balanced;
      layout := [];
      if maxSymbolValue > MAX_SYMBOL_VALUE { return MaxSymbolValueTooLarge, layout; }
      if log > MAX_TABLELOG { return TableLogTooLarge, layout; }
      var counts, size := normalizedCounter[..maxSymbolValue + 1], Pow2(log);
      SmallTable(log);
      var symbolNext := new int[MAX_SYMBOL_VALUE + 1];
      ghost var low;
      var highThreshold, position;
      highThreshold, layout, low := LayLowProbability(counts, log, symbolNext);
      position, layout := SpreadSymbols(counts, size, highThreshold, log, layout);
      ghost var right := CellSum(counts) == size && log != 1 && log != 3;
      if right { FillingIsAccepted(counts, log); }
      if position != 0 { error := Generic; }
      else {
        if right { SpreadOutIs(layout, counts, size); }
        var defined := BuildStates(counts, log, symbolNext, layout, right);
        error := if defined then Ok else Undefined;
      }
      if CellSum(counts) != size { NotBuilt(cells[..], counts, log); }
    }
  }

  lemma SmallTable(log: nat)
    requires log <= MAX_TABLELOG
    ensures Pow2(log) < U32
  {
    KnownPowers();
    Pow2Less(log, 32);
  }

  lemma SpreadOutIs(layout: seq<int>, counts: seq<int>, size: nat)
    requires SpreadOut(layout, counts, size)
    ensures |layout| == size
    ensures forall p :: 0 <= p < size ==> 0 <= layout[p] < |counts|
    ensures forall s :: 0 <= s < |counts| ==> Count(layout, s) == Cells(counts[s])
  {
  }

  /** A table holds as many cells as its counts say, and so it is not built for counts of another sum. */
  lemma NotBuilt(cells: seq<Cell>, counts: seq<int>, log: nat)
    requires Countable(counts) && CellSum(counts) != Pow2(log)
    ensures forall l :: !Built(cells, counts, log, l)
  {
    SumOfParts(counts);
  }

  /** A multiple of the table's size at which the walk is back at cell 0. */
  lemma NextRound(bits: nat, step: nat, j: nat) returns (round: nat)
    ensures j < round && Walk(Pow2(bits), step, round) == 0
    ensures j < Pow2(bits) ==> round == Pow2(bits)
    decreases j
  {
    var size := Pow2(bits);
    WalkReturns(bits, step);
    if j < size {
      round := size;
    } else {
      var before := NextRound(bits, step, j - size);
      WalkAgain(bits, step, before);
      round := before + size;
    }
  }

  /** The walk stands at `position`, having stopped outside the low-probability area `placed` times before. */
  predicate Standing(size: nat, step: nat, highThreshold: nat, j: nat, position: nat, placed: nat) {
    && size > 0 && position == Walk(size, step, j) && position <= highThreshold
    && placed == Hits(size, step, highThreshold, j)
  }

  lemma StandingIs(size: nat, step: nat, highThreshold: nat, j: nat, position: nat, placed: nat)
    requires Standing(size, step, highThreshold, j, position, placed)
    ensures size > 0 && position == Walk(size, step, j) && position <= highThreshold
    ensures position < size && placed == Hits(size, step, highThreshold, j)
  {
  }

  lemma StandingSet(size: nat, step: nat, highThreshold: nat, j: nat, position: nat, placed: nat)
    requires size > 0 && position == Walk(size, step, j) && position <= highThreshold
    requires placed == Hits(size, step, highThreshold, j)
    ensures Standing(size, step, highThreshold, j, position, placed)
  {
  }

  lemma StandingStart(size: nat, step: nat, highThreshold: nat)
    requires size > 0
    ensures Standing(size, step, highThreshold, 0, 0, 0)
  {
  }

  /** As a word, a threshold below zero is above every cell. */
  lemma ThresholdIs(layout: seq<int>, low: seq<nat>, counts: seq<int>, size: nat, high: int)
    requires 0 < size < U32 && LowLaid(layout, low, counts, |counts|, size, high)
    ensures high == size - 1 - |low| && -1 <= high && |layout| == size
    ensures if high >= 0 then high % U32 == high else high % U32 == U32 - 1
  {
  }

  /** The final position is 0 if the symbols go round a whole number of times. */
  lemma EndsAtZero(counts: seq<int>, bits: nat, highThreshold: nat, j: nat, position: nat)
    requires Buildable(counts, bits) && Pow2(bits) < U32
    requires highThreshold == (Pow2(bits) - 1 - |LowSymbols(counts)|) % U32
    requires Standing(Pow2(bits), TableStep(Pow2(bits)), highThreshold, j, position, |Expanded(counts)|)
    ensures position == 0 <==> Accepted(counts, bits)
  {
    hide Buildable, Expanded, Pow2, TableStep, Hits, Walk;
    var size, step := Pow2(bits), TableStep(Pow2(bits));
    StepIsOdd(bits);
    if bits == 1 || bits == 3 {
      WalkIsStuck(bits, j);
    } else {
      var stops := Stops(counts, bits);
      if |LowSymbols(counts)| == size { SameHits(size, step, size - 1, highThreshold, j); }
      AtZeroExactly(bits, step, stops - 1, j);
    }
  }

  /** No threshold above the last cell makes a difference. */
  lemma {:induction false} SameHits(size: nat, step: nat, high: int, higher: int, j: nat)
    requires 0 < size <= high + 1 && high <= higher
    ensures Hits(size, step, high, j) == Hits(size, step, higher, j)
  {
    if j > 0 { SameHits(size, step, high, higher, j - 1); }
  }

  lemma RepeatOne(placed: seq<nat>, s: nat, i: nat)
    ensures placed + Repeat(s, i) + [s] == placed + Repeat(s, i + 1)
  {
  }

  lemma ExpandedPrefix(counts: seq<int>, s: nat)
    requires s < |counts|
    ensures Expanded(counts[..s + 1]) == Expanded(counts[..s]) + (if counts[s] > 0 then Repeat(s, counts[s]) else [])
    ensures |Expanded(counts[..s + 1])| <= |Expanded(counts)|
  {
    assert counts[..s + 1][..s] == counts[..s];
    PrefixSums(counts, s + 1);
  }

  /** After `j` moves the walk has placed the symbols `placed` and will place the next one at `position`. */
  ghost predicate Spread(layout0: seq<int>, layout: seq<int>, placed: seq<nat>, size: nat, step: nat, high: int,
                         j: nat, position: nat)
  {
    && size > 0 && -1 <= high < size && |layout| == |layout0| == size
    && Count(layout, NONE) == high + 1 - |placed|
    && layout[high + 1..] == layout0[high + 1..]
    && (placed == [] ==> position == 0 && j == 0)
    && (placed != [] ==> 0 < j)
    && (high >= 0 ==> Spreading(layout, placed, size, step, high, j)
                      && position == Walk(size, step, j) && position <= high)
  }

  lemma NothingPlaced(layout: seq<int>, low: seq<nat>, counts: seq<int>, size: nat, step: nat, high: int)
    requires high >= 0 && LowLaid(layout, low, counts, |counts|, size, high)
    ensures Spreading(layout, [], size, step, high, 0) && Walk(size, step, 0) == 0
  {
    hide Count;
    assert forall p :: high < p < size ==> layout[p] == low[size - 1 - p];
  }

  lemma SpreadNothing(layout0: seq<int>, counts: seq<int>, size: nat, step: nat, high: int)
    requires size > 0 && LowLaid(layout0, LowSymbols(counts), counts, |counts|, size, high)
    ensures Spread(layout0, layout0, [], size, step, high, 0, 0) && Shared(layout0, counts, 0, 0)
  {
    hide Walk, Count, Pow2, Spreading, LowSymbols;
    if high >= 0 { NothingPlaced(layout0, LowSymbols(counts), counts, size, step, high); }
    forall x | 0 <= x < |counts| ensures Count(layout0, x) == Share(counts, 0, 0, x) {
    }
  }

  lemma SpreadSizes(layout0: seq<int>, layout: seq<int>, placed: seq<nat>, size: nat, step: nat, high: int, j: nat,
                    position: nat)
    requires Spread(layout0, layout, placed, size, step, high, j, position)
    ensures size > 0 && -1 <= high < size && |layout| == |layout0| == size
    ensures Count(layout, NONE) == high + 1 - |placed| && layout[high + 1..] == layout0[high + 1..]
  {
  }

  lemma SpreadBefore(layout0: seq<int>, layout: seq<int>, placed: seq<nat>, size: nat, step: nat, high: int, j: nat,
                     position: nat, n: nat)
    requires Spread(layout0, layout, placed, size, step, high, j, position)
    requires 0 < n && |placed| + n <= high + 1
    ensures Spreading(layout, placed, size, step, high, j) && position == Walk(size, step, j) && position <= high
    ensures n <= Count(layout, NONE)
  {
  }

  lemma SpreadAfter(layout0: seq<int>, layout: seq<int>, placed: seq<nat>, layout': seq<int>, placed': seq<nat>,
                    size: nat, step: nat, high: int, j': nat, position: nat, n: nat)
    requires 0 < n && size > 0 && -1 <= high < size && |layout| == |layout0| == size
    requires Count(layout, NONE) == high + 1 - |placed| && layout[high + 1..] == layout0[high + 1..]
    requires Spreading(layout', placed', size, step, high, j') && 0 < j'
    requires position == Walk(size, step, j') && position <= high
    requires |placed'| == |placed| + n && layout'[high + 1..] == layout[high + 1..]
    requires Count(layout', NONE) == Count(layout, NONE) - n
    ensures Spread(layout0, layout', placed', size, step, high, j', position)
  {
  }

  /** The final position tells whether the cells are all written. */
  lemma SpreadOver(layout0: seq<int>, layout: seq<int>, counts: seq<int>, low: seq<nat>, placed: seq<nat>, bits: nat,
                   size: nat, high: int, j: nat, position: nat)
    requires bits != 1 && bits != 3 && size == Pow2(bits) && Buildable(counts, bits) && CellSum(counts) == size
    requires low == LowSymbols(counts) && placed == Expanded(counts)
    requires LowLaid(layout0, low, counts, |counts|, size, high)
    requires Spread(layout0, layout, placed, size, TableStep(size), high, j, position)
    requires Shared(layout, counts, |counts|, 0)
    ensures SpreadOut(layout, counts, size)
  {
    StepIsOdd(bits);
    SumOfParts(counts);
    if placed != [] {
      CountBound(layout, NONE);
      WalkEnds(layout, placed, bits, TableStep(size), high, j);
    }
    forall p | high < p < size ensures layout[p] == layout0[p] {
      assert layout[high + 1..][p - high - 1] == layout0[high + 1..][p - high - 1];
    }
    SpreadComplete(layout, counts, low, placed, bits, size);
  }

  lemma LayoutInRange(layout: seq<int>, low: seq<nat>, placed: seq<nat>, n: nat, bits: nat, size: nat, step: nat)
    requires step % 2 == 1 && size == Pow2(bits) && Arranged(layout, low, placed, size, step)
    requires (forall i :: 0 <= i < |low| ==> low[i] < n) && (forall i :: 0 <= i < |placed| ==> placed[i] < n)
    ensures forall p :: 0 <= p < size ==> 0 <= layout[p] < n
  {
    forall p | 0 <= p < size ensures 0 <= layout[p] < n {
      if p < |placed| {
        WrittenAt(layout, placed, bits, size, step, |placed| - 1, p);
      } else {
        assert layout[p] == low[size - 1 - p];
      }
    }
  }

  lemma SharedAll(layout: seq<int>, counts: seq<int>)
    requires Countable(counts) && Shared(layout, counts, |counts|, 0)
    ensures forall s :: 0 <= s < |counts| ==> Count(layout, s) == Cells(counts[s])
  {
    forall s | 0 <= s < |counts| ensures Count(layout, s) == Cells(counts[s]) {
      assert Count(layout, s) == Share(counts, |counts|, 0, s);
    }
  }

  /** A full round of the walk finishes the layout. */
  lemma SpreadComplete(layout: seq<int>, counts: seq<int>, low: seq<nat>, placed: seq<nat>, bits: nat, size: nat)
    requires bits != 1 && bits != 3 && size == Pow2(bits) && Arranged(layout, low, placed, size, TableStep(size))
    requires low == LowSymbols(counts) && placed == Expanded(counts)
    requires Countable(counts) && Shared(layout, counts, |counts|, 0)
    ensures SpreadOut(layout, counts, size)
  {
    StepIsOdd(bits);
    PartsInRange(counts);
    SharedAll(layout, counts);
    LayoutInRange(layout, low, placed, |counts|, bits, size, TableStep(size));
  }

  lemma PlaceOne(layout: seq<int>, placed: seq<nat>, layout': seq<int>, placed': seq<nat>, counts: seq<int>,
                 bits: nat, size: nat, step: nat, high: int, j: nat, p: nat, s: nat, i: nat)
    requires size == Pow2(bits) && step % 2 == 1 && Spreading(layout, placed, size, step, high, j)
    requires Count(layout, NONE) > 0 && p == Walk(size, step, j) && p <= high
    requires s < |counts| && i < counts[s] && Shared(layout, counts, s, i)
    requires layout' == layout[p := s] && placed' == placed + [s]
    ensures j < size && Spreading(layout', placed', size, step, high, j + 1)
    ensures Shared(layout', counts, s, i + 1)
    ensures i + 1 == counts[s] ==> Shared(layout', counts, s + 1, 0)
    ensures Count(layout', NONE) == Count(layout, NONE) - 1
    ensures layout'[high + 1..] == layout[high + 1..]
  {
    FreshCell(layout, placed, bits, step, high, j);
    PlaceSymbol(layout, placed, size, step, high, j, p, s);
    ShareOne(layout, counts, s, i, p);
  }

  lemma ShareNone(layout: seq<int>, counts: seq<int>, s: nat)
    requires s < |counts| && -1 <= counts[s] <= 0 && Shared(layout, counts, s, 0)
    ensures Shared(layout, counts, s + 1, 0)
  {
  }

  lemma ShareOne(layout: seq<int>, counts: seq<int>, s: nat, i: nat, position: nat)
    requires s < |counts| && i < counts[s] && position < |layout| && layout[position] == NONE
    requires Shared(layout, counts, s, i)
    ensures Shared(layout[position := s], counts, s, i + 1)
    ensures i + 1 == counts[s] ==> Shared(layout[position := s], counts, s + 1, 0)
    ensures Count(layout[position := s], NONE) == Count(layout, NONE) - 1
  {
    CountUpdate(layout, position, s, NONE);
    var layout' := layout[position := s];
    forall x | 0 <= x < |counts| ensures Count(layout', x) == Share(counts, s, i + 1, x) {
      CountUpdate(layout, position, s, x);
    }
  }
}
