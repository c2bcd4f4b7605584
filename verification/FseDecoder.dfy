/** The decoding automaton: each symbol's cells cut the state space into intervals, so decoding can be
    run backwards, symbol by symbol, in exactly one way. */
module FseDecoder {
  import opened Bits
  import opened FseTable

  /** Cell `u` can lead to state `y`. */
  predicate Leads(cells: seq<Cell>, u: nat, y: nat)
    requires u < |cells|
  {
    cells[u].newState <= y < cells[u].newState + Pow2(cells[u].nbBits)
  }

  /** Scales a value of at least `c` down, by halving, into [c, 2c). */
  lemma {:induction false} FindShift(value: nat, c: nat) returns (shift: nat)
    requires 0 < c <= value
    ensures c <= value / Pow2(shift) < 2 * c
  {
    if value < 2 * c {
      shift := 0;
      assert value / Pow2(0) == value;
    } else {
      var rest := FindShift(value / 2, c);
      shift := rest + 1;
      DivDiv(value, 2, Pow2(rest));
    }
  }

  lemma ShiftIsSmall(value: nat, log: nat, shift: nat)
    requires value < 2 * Pow2(log) && value / Pow2(shift) > 0
    ensures shift <= log
  {
    DivBounds(value, Pow2(shift), 1);
    if shift > log {
      Pow2LessEq(log + 1, shift);
    }
  }

  lemma ShiftedHighBit(value: nat, h: nat, d: nat, x: nat)
    requires d > 0 && x == value / d && Pow2(h) * d <= value < Pow2(h + 1) * d
    ensures x > 0 && HighBit(x) == h
  {
    DivBounds(value, d, Pow2(h));
    DivBounds(value, d, Pow2(h + 1));
    HighBitIs(x, h);
  }

  lemma SplitPowers(log: nat, shift: nat, h: nat)
    requires log == h + shift
    ensures Pow2(h) * Pow2(shift) == Pow2(log) && Pow2(h + 1) * Pow2(shift) == 2 * Pow2(log)
  {
    Pow2Add(h, shift);
    Pow2Add(h + 1, shift);
  }

  /** A quotient of a value in [2^log, 2^(log+1)) has the bit width that leads back to the value. */
  lemma ShiftIsWidth(value: nat, log: nat, shift: nat, x: nat)
    requires Pow2(log) <= value < 2 * Pow2(log) && x == value / Pow2(shift) && x > 0
    ensures x < 2 * Pow2(log) && BitsOf(x, log) == shift
  {
    ShiftIsSmall(value, log, shift);
    SplitPowers(log, shift, log - shift);
    ShiftedHighBit(value, log - shift, Pow2(shift), x);
    Shrinks(value, Pow2(shift));
    WidthOf(x, log, log - shift);
  }

  lemma WidthOf(x: nat, log: nat, h: nat)
    requires 0 < x < 2 * Pow2(log) && HighBit(x) == h <= log
    ensures BitsOf(x, log) == log - h
  {
  }

  lemma {:induction false} FindOccurrence(xs: seq<int>, x: int, k: nat) returns (u: nat)
    requires k < Count(xs, x)
    ensures u < |xs| && xs[u] == x && Count(xs[..u], x) == k
  {
    var last := |xs| - 1;
    if k < Count(xs[..last], x) {
      u := FindOccurrence(xs[..last], x, k);
      assert xs[..last][..u] == xs[..u];
    } else {
      u := last;
    }
  }

  lemma CountGrows(xs: seq<int>, u: nat, v: nat)
    requires u < v < |xs| && xs[u] == xs[v]
    ensures Count(xs[..u], xs[u]) < Count(xs[..v], xs[u])
  {
    CountSlice(xs[..v], u, xs[u]);
    assert xs[..v][..u] == xs[..u];
  }

  lemma InWindow(value: nat, d: nat, x: nat)
    requires d > 0
    ensures x * d <= value < x * d + d <==> value / d == x
  {
    if x * d <= value < x * d + d {
      DivModIs(value, d, x, value - x * d);
    }
    DivMod(value, d);
  }

  /** What a cell with number `x` holds. */
  lemma CellHolds(cells: seq<Cell>, counts: seq<int>, log: nat, layout: seq<int>, u: nat, x: nat, d: nat)
    requires Built(cells, counts, log, layout) && u < |layout|
    requires x == Number(counts, layout, u) && d == Pow2(cells[u].nbBits)
    ensures 0 < x < 2 * Pow2(log) && x * d >= Pow2(log)
    ensures cells[u] == Cell(x * d - Pow2(log), layout[u], BitsOf(x, log))
  {
    assert cells[u] == StateCell(counts, log, layout, u);
    StateBits(x, log);
  }

  /** What the number of a cell says about the states it leads to. */
  lemma LeadsMeans(cells: seq<Cell>, counts: seq<int>, log: nat, layout: seq<int>, u: nat, y: nat, x: nat)
    requires Built(cells, counts, log, layout) && u < |layout| && y < Pow2(log) && x == Number(counts, layout, u)
    ensures 0 < x < 2 * Pow2(log) && cells[u].symbol == layout[u] && cells[u].nbBits == BitsOf(x, log)
    ensures Leads(cells, u, y) <==> (y + Pow2(log)) / Pow2(cells[u].nbBits) == x
  {
    hide Pow2, HighBit, Number, BitsOf;
    var d := Pow2(cells[u].nbBits);
    CellHolds(cells, counts, log, layout, u, x, d);
    InWindow(y + Pow2(log), d, x);
  }

  /** Every state is a successor of some cell of every present symbol ... */
  lemma HasPredecessor(cells: seq<Cell>, counts: seq<int>, log: nat, layout: seq<int>, s: nat, y: nat) returns (u: nat)
    requires Built(cells, counts, log, layout) && s < |counts| && counts[s] != 0 && y < Pow2(log)
    ensures u < Pow2(log) && cells[u].symbol == s && Leads(cells, u, y)
  {
    var c, value := Cells(counts[s]), y + Pow2(log);
    CountBound(layout, s);
    var shift := FindShift(value, c);
    var x := value / Pow2(shift);
    ShiftIsWidth(value, log, shift, x);
    u := FindOccurrence(layout, s, x - c);
    LeadsMeans(cells, counts, log, layout, u, y, x);
  }

  /** ... and of only one. */
  lemma OnePredecessor(cells: seq<Cell>, counts: seq<int>, log: nat, layout: seq<int>, u: nat, v: nat, y: nat)
    requires Built(cells, counts, log, layout) && u < Pow2(log) && v < Pow2(log) && y < Pow2(log)
    requires cells[u].symbol == cells[v].symbol && Leads(cells, u, y) && Leads(cells, v, y)
    ensures u == v
  {
    hide Leads, Pow2, BitsOf, Arranged, LowSymbols;
    LeadsMeans(cells, counts, log, layout, u, y, Number(counts, layout, u));
    LeadsMeans(cells, counts, log, layout, v, y, Number(counts, layout, v));
    NumberRange(counts, layout, u);
    NumberRange(counts, layout, v);
    SameWidth(y + Pow2(log), Cells(counts[layout[u]]), cells[u].nbBits, cells[v].nbBits);
    SameNumber(counts, layout, u, v);
  }

  lemma SameNumber(counts: seq<int>, layout: seq<int>, u: nat, v: nat)
    requires u < |layout| && v < |layout| && layout[u] == layout[v] && 0 <= layout[u] < |counts|
    requires Number(counts, layout, u) == Number(counts, layout, v)
    ensures u == v
  {
    if u < v {
      CountGrows(layout, u, v);
    } else if v < u {
      CountGrows(layout, v, u);
    }
  }

  /** Only one halving of a value falls into [c, 2c). */
  lemma SameWidth(value: nat, c: nat, a: nat, b: nat)
    requires c <= value / Pow2(a) < 2 * c && c <= value / Pow2(b) < 2 * c
    ensures a == b
  {
    if a < b {
      FartherShiftHalves(value, a, b);
    } else if b < a {
      FartherShiftHalves(value, b, a);
    }
  }

  lemma FartherShiftHalves(value: nat, near: nat, far: nat)
    requires near < far
    ensures value / Pow2(far) <= value / Pow2(near) / 2
  {
    Pow2Add(near, far - near);
    HalvesOnce(value, Pow2(near), Pow2(far - near - 1));
  }

  lemma HalvesOnce(value: nat, near: nat, more: nat)
    requires near > 0 && more > 0
    ensures near * (2 * more) > 0 && value / (near * (2 * more)) <= value / near / 2
  {
    DivDiv(value, near, 2 * more);
    DivDiv(value / near, 2, more);
    Shrinks(value / near / 2, more);
  }

  lemma Shrinks(x: nat, d: nat)
    requires d > 0
    ensures x / d <= x
  {
    MulMonotone(1, d, x + 1);
    DivBounds(x, d, x + 1);
  }

  /** The intervals of one symbol's cells partition the states. */
  lemma IntervalsPartition(cells: seq<Cell>, counts: seq<int>, log: nat, layout: seq<int>, s: nat, y: nat)
    requires Built(cells, counts, log, layout) && s < |counts| && counts[s] != 0 && y < Pow2(log)
    ensures exists u :: 0 <= u < Pow2(log) && cells[u].symbol == s && Leads(cells, u, y)
    ensures forall u, v | 0 <= u < Pow2(log) && 0 <= v < Pow2(log) && cells[u].symbol == s == cells[v].symbol ::
              Leads(cells, u, y) && Leads(cells, v, y) ==> u == v
  {
    var u := HasPredecessor(cells, counts, log, layout, s, y);
    forall u, v | 0 <= u < Pow2(log) && 0 <= v < Pow2(log) && cells[u].symbol == s == cells[v].symbol
      && Leads(cells, u, y) && Leads(cells, v, y)
      ensures u == v
    {
      OnePredecessor(cells, counts, log, layout, u, v, y);
    }
  }

  lemma WindowEnds(x: nat, log: nat, d: nat, low: nat)
    requires 0 < x < 2 * Pow2(log) && d == Pow2(BitsOf(x, log)) && low < d
    ensures x * d - Pow2(log) + low < Pow2(log)
  {
    StateBits(x, log);
    assert (x + 1) * d == x * d + d;
  }

  /** Whatever bits are read, the next state is inside the table. */
  lemma StaysInTable(cells: seq<Cell>, counts: seq<int>, log: nat, layout: seq<int>, state: nat, low: nat)
    requires Built(cells, counts, log, layout) && state < Pow2(log) && low < Pow2(cells[state].nbBits)
    ensures cells[state].newState + low < Pow2(log) && cells[state].nbBits <= log
  {
    var x, d := Number(counts, layout, state), Pow2(cells[state].nbBits);
    CellHolds(cells, counts, log, layout, state, x, d);
    WindowEnds(x, log, d, low);
  }

  /** A state stands for a symbol that is present. */
  lemma SymbolIsPresent(cells: seq<Cell>, counts: seq<int>, log: nat, layout: seq<int>, state: nat)
    requires Built(cells, counts, log, layout) && state < Pow2(log)
    ensures cells[state].symbol < |counts| && counts[cells[state].symbol] != 0
  {
    CellHolds(cells, counts, log, layout, state, Number(counts, layout, state), Pow2(cells[state].nbBits));
    CountPositive(layout, state);
  }

  /** Every cell reads at least one bit exactly when no symbol has more than half of the table. */
  lemma EveryCellReads(cells: seq<Cell>, counts: seq<int>, log: nat, layout: seq<int>)
    requires log >= 1 && Built(cells, counts, log, layout) && Countable(counts)
    ensures (forall u :: 0 <= u < Pow2(log) ==> cells[u].nbBits >= 1)
       <==> (forall s :: 0 <= s < |counts| ==> counts[s] <= Pow2(log - 1))
  {
    if forall s :: 0 <= s < |counts| ==> counts[s] <= Pow2(log - 1) {
      forall u | 0 <= u < Pow2(log) ensures cells[u].nbBits >= 1 {
        assert cells[u] == StateCell(counts, log, layout, u);
        NumberRange(counts, layout, u);
        var x := Number(counts, layout, u);
        StateBits(x, log);
        Pow2Ordered(log, HighBit(x));
      }
    } else {
      var s :| 0 <= s < |counts| && counts[s] > Pow2(log - 1);
      var u := FindOccurrence(layout, s, counts[s] - 1);
      assert cells[u] == StateCell(counts, log, layout, u);
      var x := Number(counts, layout, u);
      assert x == 2 * counts[s] - 1;
      StateInRange(counts, log, layout, u);
      HighBitIs(x, log);
    }
  }

  /** fastMode promises that every cell reads a bit, which the fast reader needs. */
  lemma FastModeIsSafe(cells: seq<Cell>, counts: seq<int>, log: nat, layout: seq<int>, u: nat)
    requires log >= 1 && Built(cells, counts, log, layout) && Countable(counts)
    requires Balanced(counts, log) && u < Pow2(log)
    ensures cells[u].nbBits >= 1
  {
    assert forall s :: 0 <= s < |counts| ==> counts[s] <= Pow2(log - 1);
    EveryCellReads(cells, counts, log, layout);
  }

  /* Decoding a whole run */

  /** The bit fields a decoder starting in `state` reads are as wide as its cells say. */
  predicate Readable(cells: seq<Cell>, state: nat, fields: seq<nat>)
    decreases |fields|
  {
    fields == [] ||
    (state < |cells| && fields[0] < Pow2(cells[state].nbBits)
      && Readable(cells, cells[state].newState + fields[0], fields[1..]))
  }

  /** The symbols FSE_decodeSymbol returns. */
  function Symbols(cells: seq<Cell>, state: nat, fields: seq<nat>): seq<nat>
    requires Readable(cells, state, fields)
    decreases |fields|
  {
    if fields == [] then []
    else [cells[state].symbol] + Symbols(cells, cells[state].newState + fields[0], fields[1..])
  }

  function FinalState(cells: seq<Cell>, state: nat, fields: seq<nat>): nat
    requires Readable(cells, state, fields)
    decreases |fields|
  {
    if fields == [] then state
    else FinalState(cells, cells[state].newState + fields[0], fields[1..])
  }

  /** Any sequence of present symbols can be decoded into any final state ... */
  lemma {:induction false} CanEncode(cells: seq<Cell>, counts: seq<int>, log: nat, layout: seq<int>,
                                     symbols: seq<nat>, final: nat)
    returns (start: nat, fields: seq<nat>)
    requires Built(cells, counts, log, layout) && final < Pow2(log)
    requires forall i :: 0 <= i < |symbols| ==> symbols[i] < |counts| && counts[symbols[i]] != 0
    ensures start < Pow2(log) && |fields| == |symbols| && Readable(cells, start, fields)
    ensures Symbols(cells, start, fields) == symbols && FinalState(cells, start, fields) == final
    decreases |symbols|
  {
    hide Pow2, SpreadOut, InWalkOrder, Repeat, Number, StateCell;
    if symbols == [] {
      start, fields := final, [];
    } else {
      var next, rest := CanEncode(cells, counts, log, layout, symbols[1..], final);
      start := HasPredecessor(cells, counts, log, layout, symbols[0], next);
      fields := [next - cells[start].newState] + rest;
      assert fields[1..] == rest;
    }
  }

  lemma SameStart(cells: seq<Cell>, counts: seq<int>, log: nat, layout: seq<int>, a: nat, lowA: nat, b: nat, lowB: nat)
    requires Built(cells, counts, log, layout) && a < Pow2(log) && b < Pow2(log)
    requires lowA < Pow2(cells[a].nbBits) && lowB < Pow2(cells[b].nbBits)
    requires cells[a].symbol == cells[b].symbol && cells[a].newState + lowA == cells[b].newState + lowB
    ensures a == b && lowA == lowB
  {
    StaysInTable(cells, counts, log, layout, a, lowA);
    OnePredecessor(cells, counts, log, layout, a, b, cells[a].newState + lowA);
  }

  /** What reading the first field of a run leaves. */
  lemma FirstField(cells: seq<Cell>, state: nat, fields: seq<nat>, next: nat)
    requires Readable(cells, state, fields) && fields != [] && state < |cells|
    requires next == cells[state].newState + fields[0]
    ensures fields[0] < Pow2(cells[state].nbBits) && Readable(cells, next, fields[1..])
    ensures Symbols(cells, state, fields) == [cells[state].symbol] + Symbols(cells, next, fields[1..])
    ensures FinalState(cells, state, fields) == FinalState(cells, next, fields[1..])
    ensures fields == [fields[0]] + fields[1..]
  {
  }

  lemma SameHead(x: nat, xs: seq<nat>, y: nat, ys: seq<nat>)
    requires [x] + xs == [y] + ys
    ensures x == y && xs == ys
  {
    assert ([x] + xs)[0] == ([y] + ys)[0] && ([x] + xs)[1..] == ([y] + ys)[1..];
    assert ([x] + xs)[1..] == xs && ([y] + ys)[1..] == ys;
  }

  /** ... and from only one state with only one sequence of bit fields. */
  lemma {:induction false} EncodingIsUnique(cells: seq<Cell>, counts: seq<int>, log: nat, layout: seq<int>,
                                            a: nat, fieldsA: seq<nat>, b: nat, fieldsB: seq<nat>)
    requires Built(cells, counts, log, layout) && a < Pow2(log) && b < Pow2(log)
    requires Readable(cells, a, fieldsA) && Readable(cells, b, fieldsB) && |fieldsA| == |fieldsB|
    requires Symbols(cells, a, fieldsA) == Symbols(cells, b, fieldsB)
    requires FinalState(cells, a, fieldsA) == FinalState(cells, b, fieldsB)
    ensures a == b && fieldsA == fieldsB
    decreases |fieldsA|
  {
    if fieldsA != [] {
      var nextA, nextB := cells[a].newState + fieldsA[0], cells[b].newState + fieldsB[0];
      var restA, restB := fieldsA[1..], fieldsB[1..];
      FirstField(cells, a, fieldsA, nextA);
      FirstField(cells, b, fieldsB, nextB);
      StaysInTable(cells, counts, log, layout, a, fieldsA[0]);
      StaysInTable(cells, counts, log, layout, b, fieldsB[0]);
      SameHead(cells[a].symbol, Symbols(cells, nextA, restA), cells[b].symbol, Symbols(cells, nextB, restB));
      EncodingIsUnique(cells, counts, log, layout, nextA, restA, nextB, restB);
      SameStart(cells, counts, log, layout, a, fieldsA[0], b, fieldsB[0]);
    }
  }
}
