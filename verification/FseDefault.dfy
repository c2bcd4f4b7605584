/** Where the symbols of a table lie, and the predefined table of offset codes (section 3.1.1.3.2.2.3 of RFC 8878). */
module FseDefault {
  import opened Bits
  import opened FseRounds
  import opened FseTable
  import opened FseWalk

  /* Without symbols of probability below one */

  lemma {:induction false} NoLowSymbols(counts: seq<int>)
    requires forall s :: 0 <= s < |counts| ==> counts[s] >= 0
    ensures LowSymbols(counts) == []
  {
    if counts != [] {
      NoLowSymbols(counts[..|counts| - 1]);
    }
  }

  lemma {:induction false} EveryPositionHits(size: nat, step: nat, high: int, j: nat)
    requires 0 < size <= high + 1
    ensures Hits(size, step, high, j) == j
  {
    if j > 0 {
      EveryPositionHits(size, step, high, j - 1);
    }
  }

  lemma StrideOf(p: nat)
    ensures 8 * p / 8 == p && TableStep(8 * p) == 5 * p + 3
  {
    assert TableStep(8 * p) == 8 * p / 2 + 8 * p / 8 + 3;
  }

  lemma StrideIs(log: nat)
    requires log >= 4
    ensures TableStep(Pow2(log)) == 5 * (Pow2(log) / 8) + 3
  {
    var p := Pow2(log - 3);
    assert Pow2(log) == 2 * Pow2(log - 1) && Pow2(log - 1) == 2 * Pow2(log - 2) && Pow2(log - 2) == 2 * p;
    StrideOf(p);
  }

  lemma LiesAt(layout: seq<int>, counts: seq<int>, size: nat, k: nat)
    requires size > 0 && SpreadOut(layout, counts, size) && k < size
    requires forall s :: 0 <= s < |counts| ==> counts[s] >= 0
    ensures k < |Expanded(counts)| && layout[k * TableStep(size) % size] == Expanded(counts)[k]
  {
    hide TableStep, Expanded, Hits, Walk, LowSymbols;
    NoLowSymbols(counts);
    WalkIs(size, TableStep(size), k);
    EveryPositionHits(size, TableStep(size), size - 1, k);
    assert Hits(size, TableStep(size), size - 1, k) == k;
  }

  /** The k-th symbol lies k strides of five eighths of the table and three behind the first one. */
  lemma SymbolLiesAt(layout: seq<int>, counts: seq<int>, log: nat, k: nat)
    requires log >= 4 && SpreadOut(layout, counts, Pow2(log))
    requires forall s :: 0 <= s < |counts| ==> counts[s] >= 0
    requires k < Pow2(log)
    ensures k < |Expanded(counts)|
    ensures layout[k * (5 * (Pow2(log) / 8) + 3) % Pow2(log)] == Expanded(counts)[k]
  {
    hide TableStep, Expanded, SpreadOut, Pow2;
    StrideIs(log);
    LiesAt(layout, counts, Pow2(log), k);
  }

  /* The cells of symbols with one or two of them */

  lemma OneCell(layout: seq<int>, counts: seq<int>, log: nat, u: nat)
    requires u < |layout| == Pow2(log) && 0 <= layout[u] < |counts| && Cells(counts[layout[u]]) == 1
    requires Count(layout, layout[u]) == 1
    ensures 0 < Number(counts, layout, u) < 2 * Pow2(log)
    ensures StateCell(counts, log, layout, u) == Cell(0, layout[u], log)
  {
    NumberRange(counts, layout, u);
    assert Number(counts, layout, u) == 1;
    assert HighBit(1) == 0;
  }

  lemma {:induction false} CountsUp(xs: seq<int>, m: nat, n: nat, x: int)
    requires m <= n <= |xs|
    ensures Count(xs[..m], x) <= Count(xs[..n], x)
    ensures m < n && xs[m] == x ==> Count(xs[..m], x) + 1 <= Count(xs[..n], x)
  {
    if m < n {
      CountNext(xs, n - 1);
      CountsUp(xs, m, n - 1, x);
      if m == n - 1 { CountNext(xs, m); }
    }
  }

  lemma TwoCells(layout: seq<int>, counts: seq<int>, log: nat, u: nat, v: nat)
    requires u < v < |layout| == Pow2(log) && 0 <= layout[u] == layout[v] < |counts| && log >= 1
    requires counts[layout[u]] == 2 == Count(layout, layout[u])
    ensures 0 < Number(counts, layout, u) < 2 * Pow2(log) && 0 < Number(counts, layout, v) < 2 * Pow2(log)
    ensures StateCell(counts, log, layout, u) == Cell(0, layout[u], log - 1)
    ensures StateCell(counts, log, layout, v) == Cell(Pow2(log - 1), layout[u], log - 1)
  {
    CountsUp(layout, u, v, layout[u]);
    NumberRange(counts, layout, u);
    NumberRange(counts, layout, v);
    assert Number(counts, layout, u) == 2 && Number(counts, layout, v) == 3;
    assert HighBit(2) == 1 && HighBit(3) == 1;
    assert Pow2(log) == 2 * Pow2(log - 1);
  }

  /* The predefined distribution of offset codes */

  function OffsetCounts(): seq<int> {
    [1, 1, 1, 1, 1, 1, 2, 2, 2, 1, 1, 1, 1, 1, 1, 1, 1, 1, 1, 1, 1, 1, 1, 1, -1, -1, -1, -1, -1]
  }

  /** The symbols of the predefined table, cell by cell. */
  function OffsetSymbols(): seq<int> {
    [0, 6, 9, 15, 21, 3, 7, 12, 18, 23, 5, 8, 14, 20, 2, 7,
     11, 17, 22, 4, 8, 13, 19, 1, 6, 10, 16, 28, 27, 26, 25, 24]
  }

  /** Every symbol has all five bits, but the three that have two cells. */
  function OffsetCell(u: nat): Cell
    requires u < 32
  {
    var symbol := OffsetSymbols()[u];
    if symbol == 6 || symbol == 7 || symbol == 8
    then Cell(if u == 15 || u == 20 || u == 24 then 16 else 0, symbol, 4)
    else Cell(0, symbol, 5)
  }

  lemma {:induction false} PartsOfPrefix(counts: seq<int>, n: nat)
    requires n < |counts|
    ensures LowSymbols(counts[..n + 1]) == LowSymbols(counts[..n]) + (if counts[n] == -1 then [n] else [])
    ensures Expanded(counts[..n + 1]) == Expanded(counts[..n]) + (if counts[n] > 0 then Repeat(n, counts[n]) else [])
  {
    assert counts[..n + 1][..n] == counts[..n];
  }

  lemma {:induction false} OnesAre(counts: seq<int>, from: nat, n: nat)
    requires from + n <= |counts| && forall k :: from <= k < from + n ==> counts[k] == 1
    ensures LowSymbols(counts[..from + n]) == LowSymbols(counts[..from])
    ensures Expanded(counts[..from + n]) == Expanded(counts[..from]) + seq(n, i requires 0 <= i < n => from + i)
  {
    hide Expanded, LowSymbols;
    if n > 0 {
      OnesAre(counts, from, n - 1);
      PartsOfPrefix(counts, from + n - 1);
    }
  }

  function OffsetPlaced(): seq<int> {
    [0, 1, 2, 3, 4, 5, 6, 6, 7, 7, 8, 8, 9, 10, 11, 12, 13, 14, 15, 16, 17, 18, 19, 20, 21, 22, 23]
  }

  lemma PairIs(x: nat)
    ensures Repeat(x, 2) == [x, x] && LowSymbols([]) == [] && Expanded([]) == []
  {
  }

  lemma FirstParts(c: seq<int>)
    requires c == OffsetCounts()
    ensures LowSymbols(c[..9]) == [] && Expanded(c[..9]) == [0, 1, 2, 3, 4, 5, 6, 6, 7, 7, 8, 8]
  {
    hide LowSymbols, Expanded, Repeat;
    assert c[..0] == [];
    OnesAre(c, 0, 6);
    PartsOfPrefix(c, 6);
    PairIs(6);
    PartsOfPrefix(c, 7);
    PairIs(7);
    PartsOfPrefix(c, 8);
    PairIs(8);
  }

  lemma MiddleParts(c: seq<int>)
    requires c == OffsetCounts()
    ensures LowSymbols(c[..24]) == [] && Expanded(c[..24]) == OffsetPlaced()
  {
    hide Expanded, LowSymbols;
    FirstParts(c);
    OnesAre(c, 9, 15);
    assert seq(15, i requires 0 <= i < 15 => 9 + i) == [9, 10, 11, 12, 13, 14, 15, 16, 17, 18, 19, 20, 21, 22, 23];
  }

  /** Six symbols with a cell each, three with two, fifteen with one, and five of probability below one. */
  lemma OffsetParts()
    ensures LowSymbols(OffsetCounts()) == [24, 25, 26, 27, 28] && Expanded(OffsetCounts()) == OffsetPlaced()
  {
    hide LowSymbols, Expanded;
    var c := OffsetCounts();
    MiddleParts(c);
    PartsOfPrefix(c, 24);
    PartsOfPrefix(c, 25);
    PartsOfPrefix(c, 26);
    PartsOfPrefix(c, 27);
    PartsOfPrefix(c, 28);
    assert c[..29] == c;
  }

  /** The walk over 32 cells, 27 of them outside the low-probability area. */
  predicate Visiting(i: nat, p: nat, h: nat) {
    Walk(32, 23, i) == p && Hits(32, 23, 26, i) == h
  }

  ghost predicate Laid(layout: seq<int>) {
    |layout| == 32 && InWalkOrder(layout, OffsetPlaced(), 32, 23, 26, 32)
  }

  lemma Visit(layout: seq<int>, i: nat, p: nat, h: nat)
    requires Laid(layout) && i < 32 && Visiting(i, p, h)
    ensures p < 32 && (p <= 26 ==> h < 27 && layout[p] == OffsetPlaced()[h])
    ensures Visiting(i + 1, (p + 23) % 32, if p <= 26 then h + 1 else h)
  {
  }

  lemma Round1(layout: seq<int>)
    requires Laid(layout)
    ensures layout[0] == 0 && layout[23] == 1 && layout[14] == 2 && layout[5] == 3 && layout[19] == 4
    ensures layout[10] == 5 && layout[1] == 6
    ensures Visiting(8, 24, 7)
  {
    hide InWalkOrder, Laid, Visiting;
    VisitingStart();
    Visit(layout, 0, 0, 0);
    Visit(layout, 1, 23, 1);
    Visit(layout, 2, 14, 2);
    Visit(layout, 3, 5, 3);
    Visit(layout, 4, 28, 4);
    Visit(layout, 5, 19, 4);
    Visit(layout, 6, 10, 5);
    Visit(layout, 7, 1, 6);
  }

  lemma Round2(layout: seq<int>)
    requires Laid(layout) && Visiting(8, 24, 7)
    ensures layout[24] == 6 && layout[15] == 7 && layout[6] == 7 && layout[20] == 8 && layout[11] == 8
    ensures layout[2] == 9 && layout[25] == 10
    ensures Visiting(16, 16, 14)
  {
    hide InWalkOrder, Laid, Visiting;
    Visit(layout, 8, 24, 7);
    Visit(layout, 9, 15, 8);
    Visit(layout, 10, 6, 9);
    Visit(layout, 11, 29, 10);
    Visit(layout, 12, 20, 10);
    Visit(layout, 13, 11, 11);
    Visit(layout, 14, 2, 12);
    Visit(layout, 15, 25, 13);
  }

  lemma Round3(layout: seq<int>)
    requires Laid(layout) && Visiting(16, 16, 14)
    ensures layout[16] == 11 && layout[7] == 12 && layout[21] == 13 && layout[12] == 14 && layout[3] == 15
    ensures layout[26] == 16 && layout[17] == 17
    ensures Visiting(24, 8, 21)
  {
    hide InWalkOrder, Laid, Visiting;
    Visit(layout, 16, 16, 14);
    Visit(layout, 17, 7, 15);
    Visit(layout, 18, 30, 16);
    Visit(layout, 19, 21, 16);
    Visit(layout, 20, 12, 17);
    Visit(layout, 21, 3, 18);
    Visit(layout, 22, 26, 19);
    Visit(layout, 23, 17, 20);
  }

  lemma Round4(layout: seq<int>)
    requires Laid(layout) && Visiting(24, 8, 21)
    ensures layout[8] == 18 && layout[22] == 19 && layout[13] == 20 && layout[4] == 21 && layout[18] == 22
    ensures layout[9] == 23
  {
    hide InWalkOrder, Laid, Visiting;
    Visit(layout, 24, 8, 21);
    Visit(layout, 25, 31, 22);
    Visit(layout, 26, 22, 22);
    Visit(layout, 27, 13, 23);
    Visit(layout, 28, 4, 24);
    Visit(layout, 29, 27, 25);
    Visit(layout, 30, 18, 25);
    Visit(layout, 31, 9, 26);
  }

  lemma VisitingStart()
    ensures Visiting(0, 0, 0)
  {
  }

  /** The spread puts every symbol where the predefined table has it. */
  lemma OffsetLayout(layout: seq<int>)
    requires SpreadOut(layout, OffsetCounts(), 32)
    ensures layout == OffsetSymbols()
  {
    hide InWalkOrder, Visiting, Expanded, LowSymbols, Count;
    OffsetParts();
    Round1(layout);
    Round2(layout);
    Round3(layout);
    Round4(layout);
  }

  /** Where the symbols with two cells lie, and that the others have one. */
  lemma SymbolAt(u: nat)
    requires u < 32
    ensures var symbol := OffsetSymbols()[u];
            && 0 <= symbol < |OffsetCounts()|
            && (symbol == 6 ==> u == 1 || u == 24) && (symbol == 7 ==> u == 6 || u == 15)
            && (symbol == 8 ==> u == 11 || u == 20)
            && (symbol != 6 && symbol != 7 && symbol != 8 ==> Cells(OffsetCounts()[symbol]) == 1)
            && (symbol == 6 || symbol == 7 || symbol == 8 ==> OffsetCounts()[symbol] == 2 == Cells(2))
    ensures OffsetSymbols()[1] == OffsetSymbols()[24] == 6 && OffsetSymbols()[6] == OffsetSymbols()[15] == 7
    ensures OffsetSymbols()[11] == OffsetSymbols()[20] == 8
  {
  }

  lemma OffsetCellIs(layout: seq<int>, u: nat)
    requires SpreadOut(layout, OffsetCounts(), 32) && layout == OffsetSymbols() && u < 32
    ensures 0 < Number(OffsetCounts(), layout, u) < 64 && Pow2(5) == 32
    ensures StateCell(OffsetCounts(), 5, layout, u) == OffsetCell(u)
  {
    hide Count, Number, StateCell, InWalkOrder, Arranged, Cells, OffsetCounts;
    assert Pow2(5) == 32 && Pow2(4) == 16;
    var c, symbol := OffsetCounts(), layout[u];
    SymbolAt(u);
    assert Count(layout, symbol) == Cells(c[symbol]);
    if symbol == 6 {
      TwoCells(layout, c, 5, 1, 24);
    } else if symbol == 7 {
      TwoCells(layout, c, 5, 6, 15);
    } else if symbol == 8 {
      TwoCells(layout, c, 5, 11, 20);
    } else {
      OneCell(layout, c, 5, u);
    }
  }

  /** Building the table from the predefined distribution gives the predefined table. */
  lemma OffsetTable(cells: seq<Cell>, layout: seq<int>)
    requires Built(cells, OffsetCounts(), 5, layout)
    ensures |cells| >= 32 && cells[..32] == seq(32, u requires 0 <= u < 32 => OffsetCell(u))
  {
    hide SpreadOut, StateCell, OffsetCell, OffsetCounts, OffsetSymbols;
    assert Pow2(5) == 32;
    OffsetLayout(layout);
    forall u | 0 <= u < 32 ensures cells[u] == OffsetCell(u) {
      OffsetCellIs(layout, u);
    }
  }
}
