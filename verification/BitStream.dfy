/** The bit stream of the entropy coders: written forward, read backward (section 4.1 of RFC 8878).

    The container is a word of 64 bits. A stream stands for one natural number holding all of its bits,
    lowest first: what was written first. */
module BitStream {
  import opened Bits
  import opened BitStrings

  const WORD: nat := 64
  const WORD_BYTES: nat := 8

  function Slice(buffer: seq<Byte>, n: nat): nat
    requires n <= |buffer|
  {
    LittleEndian(buffer[..n])
  }

  /** Writing a word at `at` and counting `n` of its bytes appends their bits. */
  lemma SliceGrows(before: seq<Byte>, after: seq<Byte>, at: nat, word: nat, n: nat)
    requires at + WORD_BYTES <= |before| == |after| && n <= WORD_BYTES && after[..at] == before[..at]
    requires LittleEndian(after[at..at + WORD_BYTES]) == word
    ensures Slice(after, at + n) == Join(Slice(before, at), 8 * at, Low(word, 8 * n))
  {
    var bytes := after[at..at + WORD_BYTES];
    assert after[..at + n] == before[..at] + bytes[..n];
    LittleEndianAppend(before[..at], bytes[..n]);
    LittleEndianSplit(bytes, n);
  }

  /** Moving the low bits of the container behind the slice keeps the whole. */
  lemma JoinMoves(slice: nat, at: nat, container: nat, n: nat)
    ensures Join(Join(slice, at, Low(container, n)), at + n, Shr(container, n)) == Join(slice, at, container)
  {
    JoinJoin(slice, at, Low(container, n), n, Shr(container, n));
    JoinParts(container, n);
  }

  method WriteLE64(buffer: array<Byte>, at: nat, value: nat)
    requires at + WORD_BYTES <= buffer.Length && value < Pow2(WORD)
    modifies buffer
    ensures LittleEndian(buffer[at..at + WORD_BYTES]) == value
    ensures buffer[..at] == old(buffer[..at]) && buffer[at + WORD_BYTES..] == old(buffer[at + WORD_BYTES..])
  {
    hide Pow2;
    var i := 0;
    while i < WORD_BYTES
      invariant i <= WORD_BYTES && LittleEndian(buffer[at..at + i]) == Low(value, 8 * i)
      invariant buffer[..at] == old(buffer[..at]) && buffer[at + WORD_BYTES..] == old(buffer[at + WORD_BYTES..])
    {
      LowBound(Shr(value, 8 * i), 8);
      KnownPowers();
      ghost var done := buffer[at..at + i];
      var byte := Low(Shr(value, 8 * i), 8);
      buffer[at + i] := byte;
      assert buffer[at..at + i + 1] == done + [buffer[at + i]];
      OneMoreByte(done, byte, value, i);
      i := i + 1;
    }
    LowBound(value, WORD);
  }

  lemma OneMoreByte(done: seq<Byte>, byte: Byte, value: nat, i: nat)
    requires |done| == i && LittleEndian(done) == Low(value, 8 * i) && byte == Low(Shr(value, 8 * i), 8)
    ensures LittleEndian(done + [byte]) == Low(value, 8 * (i + 1))
  {
    LittleEndianAppend(done, [byte]);
    assert LittleEndian([byte]) == Join(byte, 8, 0);
    KnownPowers();
    JoinIs(byte, 8, 0);
    LowParts(value, 8 * i, 8);
  }

  /** The buffer up to `ptr` and the container hold the `length` bits of `bits`; once the write position has
      reached the end of the buffer, that many did not fit. */
  predicate Holds(buffer: seq<Byte>, ptr: nat, endPtr: int, container: nat, bitPos: nat, bits: nat, length: nat) {
    && endPtr == |buffer| - WORD_BYTES && bitPos < WORD && container < Pow2(bitPos)
    && ptr <= endPtr && bits < Pow2(length)
    && (ptr < endPtr ==> length == 8 * ptr + bitPos && bits == Join(Slice(buffer, ptr), 8 * ptr, container))
    && (ptr == endPtr ==> length / 8 >= ptr)
  }

  /** The class BIT_CStream_t; pointers are offsets into the buffer. */
  class CStream {
    const buffer: array<Byte>
    var bitContainer: nat
    var bitPos: nat
    var ptr: nat

    ghost var bits: nat           // every bit added, lowest first
    ghost var length: nat         // how many

    function EndPtr(): int {
      buffer.Length - WORD_BYTES
    }

    ghost predicate Valid()
      reads this, buffer
    {
      Holds(buffer[..], ptr, EndPtr(), bitContainer, bitPos, bits, length)
    }

    /** BIT_initCStream when it succeeds; it asks for room for more than a word. */
    constructor (startPtr: array<Byte>)
      requires startPtr.Length > WORD_BYTES
      ensures Valid() && buffer == startPtr && length == 0 && bits == 0 && bitPos == 0
    {
      buffer := startPtr;
      bitContainer, bitPos, ptr := 0, 0, 0;
      bits, length := 0, 0;
    }

    method AddBits(value: nat, nbBits: nat)
      requires Valid() && nbBits < 32 && nbBits + bitPos < WORD
      modifies this
      ensures Valid() && bitPos == old(bitPos) + nbBits
      ensures bits == Join(old(bits), old(length), Low(value, nbBits)) && length == old(length) + nbBits
    {
      LowBound(value, nbBits);
      AddBitsFast(Low(value, nbBits), nbBits);
    }

    method AddBitsFast(value: nat, nbBits: nat)
      requires Valid() && value < Pow2(nbBits) && nbBits + bitPos < WORD
      modifies this
      ensures Valid() && bitPos == old(bitPos) + nbBits
      ensures bits == Join(old(bits), old(length), value) && length == old(length) + nbBits
    {
      JoinBound(bitContainer, bitPos, value, nbBits);
      JoinBound(bits, length, value, nbBits);
      if ptr < EndPtr() {
        JoinJoin(Slice(buffer[..], ptr), 8 * ptr, bitContainer, bitPos, value);
      }
      bitContainer := Join(bitContainer, bitPos, value);
      bitPos := bitPos + nbBits;
      bits := Join(bits, length, value);
      length := length + nbBits;
    }

    /** Writes out whole bytes; past the end of the buffer the position stays at the end. */
    method FlushBits()
      requires Valid()
      modifies this`bitContainer, this`bitPos, this`ptr, buffer
      ensures Valid() && bitPos == old(bitPos) % 8
      ensures ptr < EndPtr() ==> bits == Slice(buffer[..], ptr + Partial(bitPos))
    {
      hide Shr, Slice, LittleEndian, Pow2;
      var nbBytes := bitPos / 8;
      Pow2LessEq(bitPos, WORD);
      ghost var before := buffer[..];
      WriteLE64(buffer, ptr, bitContainer);
      assert before[..ptr] == buffer[..][..ptr] && buffer[..][ptr..ptr + WORD_BYTES] == buffer[ptr..ptr + WORD_BYTES];
      FlushHolds(before, buffer[..], ptr, EndPtr(), bitContainer, bitPos, nbBytes, bits, length);
      ptr := ptr + nbBytes;
      if ptr > EndPtr() { ptr := EndPtr(); }
      bitPos := bitPos % 8;
      bitContainer := Shr(bitContainer, 8 * nbBytes);
    }

    /** BIT_closeCStream: marks the end with a one and returns the size, or 0 if the buffer was too small. */
    method Close() returns (size: nat)
      requires Valid() && bitPos + 1 < WORD
      modifies this, buffer
      ensures size == 0 <==> (old(length) + 1) / 8 >= EndPtr()
      ensures size > 0 ==> size == old(length) / 8 + 1 <= buffer.Length
      ensures size > 0 ==> Slice(buffer[..], size) == Join(old(bits), old(length), 1)
    {
      assert Pow2(1) == 2;
      AddBitsFast(1, 1);
      FlushBits();
      if ptr >= EndPtr() { return 0; }
      size := ptr + Partial(bitPos);
    }
  }

  /** The bytes a last incomplete byte needs. */
  function Partial(bitPos: nat): nat {
    if bitPos > 0 then 1 else 0
  }

  lemma ShiftedDown(x: nat, width: nat, n: nat)
    requires x < Pow2(width) && n <= width
    ensures Shr(x, n) < Pow2(width - n)
  {
    ShrBound(x, width);
    ShrShr(x, n, width - n);
    ShrBound(Shr(x, n), width - n);
  }

  /** The stream before and after its container's word is written to the buffer. */
  lemma FlushKeeps(before: seq<Byte>, after: seq<Byte>, at: nat, container: nat, bitPos: nat, n: nat)
    requires at + WORD_BYTES <= |before| == |after| && after[..at] == before[..at]
    requires LittleEndian(after[at..at + WORD_BYTES]) == container < Pow2(bitPos) && bitPos < WORD && n == bitPos / 8
    ensures Shr(container, 8 * n) < Pow2(bitPos % 8)
    ensures Join(Slice(after, at + n), 8 * (at + n), Shr(container, 8 * n))
         == Join(Slice(before, at), 8 * at, container)
    ensures Slice(after, at + n + Partial(bitPos % 8)) == Join(Slice(before, at), 8 * at, container)
  {
    hide Join, LittleEndian, Pow2, Shr, Slice, Low;
    var all := n + Partial(bitPos % 8);
    ShiftedDown(container, bitPos, 8 * n);
    SliceGrows(before, after, at, container, n);
    JoinMoves(Slice(before, at), 8 * at, container, 8 * n);
    SliceGrows(before, after, at, container, all);
    Pow2LessEq(bitPos, 8 * all);
    LowBound(container, 8 * all);
  }

  lemma FlushHolds(before: seq<Byte>, after: seq<Byte>, ptr: nat, endPtr: int, container: nat, bitPos: nat, n: nat,
                   bits: nat, length: nat)
    requires Holds(before, ptr, endPtr, container, bitPos, bits, length) && n == bitPos / 8
    requires |after| == |before| && after[..ptr] == before[..ptr]
    requires LittleEndian(after[ptr..ptr + WORD_BYTES]) == container
    ensures var ptr' := if ptr + n > endPtr then endPtr else ptr + n;
            Holds(after, ptr', endPtr, Shr(container, 8 * n), bitPos % 8, bits, length)
    ensures ptr + n < endPtr ==> bits == Slice(after, ptr + n + Partial(bitPos % 8))
  {
    FlushKeeps(before, after, ptr, container, bitPos, n);
  }

  /* Decoding */

  datatype Status = Unfinished | EndOfBuffer | Completed | Overflow

  datatype Error = Ok | SrcSizeWrong | NoEndMark

  /** `x << n` in a word. */
  function ShiftLeft(x: nat, n: nat): nat {
    Low(Join(0, n, x), WORD)
  }

  /** Shifting the consumed bits out at the top and the wanted ones down to the bottom. */
  lemma TopBits(x: nat, consumed: nat, n: nat)
    requires consumed + n <= WORD
    ensures Shr(ShiftLeft(x, consumed), WORD - n) == Low(Shr(x, WORD - consumed - n), n)
  {
    ShrLow(Join(0, consumed, x), WORD - n, n);
    ShrShr(Join(0, consumed, x), consumed, WORD - consumed - n);
    JoinSplit(0, consumed, x);
  }

  lemma NoBits(x: nat)
    ensures Low(x, 0) == 0
  {
  }

  lemma LookIs(x: nat, consumed: nat, n: nat)
    requires n < WORD && consumed + n <= WORD
    ensures Shr(Shr(ShiftLeft(x, consumed % WORD), 1), (WORD - 1 - n) % WORD) == Low(Shr(x, WORD - consumed - n), n)
  {
    hide Shr, Low, ShiftLeft;
    SmallDivMod(WORD - 1 - n, WORD);
    var shifted := ShiftLeft(x, consumed % WORD);
    ShrShr(shifted, 1, WORD - 1 - n);
    if consumed < WORD {
      SmallDivMod(consumed, WORD);
      TopBits(x, consumed, n);
    } else {
      TopBits(x, 0, 0);
      NoBits(Shr(x, WORD));
      NoBits(Shr(x, 0));
    }
  }

  lemma LookFastIs(x: nat, consumed: nat, n: nat)
    requires 1 <= n < WORD && consumed + n <= WORD
    ensures Shr(ShiftLeft(x, consumed % WORD), (WORD - n) % WORD) == Low(Shr(x, WORD - consumed - n), n)
  {
    SmallDivMod(consumed, WORD);
    SmallDivMod(WORD - n, WORD);
    TopBits(x, consumed, n);
  }

  /** The bits of `w` seen through the word that starts at byte `at`. */
  lemma ThroughWord(w: nat, at: nat, start: nat, n: nat)
    requires start + n <= WORD
    ensures Low(Shr(Low(Shr(w, 8 * at), WORD), start), n) == Low(Shr(w, 8 * at + start), n)
  {
    LowShrLow(Shr(w, 8 * at), start, n, WORD);
    ShrShr(w, 8 * at, start);
  }

  /** The word at byte `at` of a source, of which a short one has only its own bytes. */
  function WordOf(src: seq<Byte>, at: nat): nat
    requires at + WORD_BYTES <= |src| || at == 0
  {
    LittleEndian(if at + WORD_BYTES <= |src| then src[at..at + WORD_BYTES] else src)
  }

  lemma WordOfIs(src: seq<Byte>, at: nat)
    requires at + WORD_BYTES <= |src| || at == 0
    ensures WordOf(src, at) == Low(Shr(LittleEndian(src), 8 * at), WORD)
  {
    if at + WORD_BYTES <= |src| {
      WordAt(src, at, WORD_BYTES);
    } else {
      LittleEndianBound(src);
      Pow2LessEq(8 * |src|, WORD);
      LowBound(LittleEndian(src), WORD);
    }
  }

  lemma ByteHighBit(b: Byte)
    requires b != 0
    ensures HighBit(b) < 8
  {
    KnownPowers();
    if HighBit(b) >= 8 { Pow2LessEq(8, HighBit(b)); }
  }

  /** The end mark is the highest one bit of the source. */
  lemma EndMark(src: seq<Byte>)
    requires src != [] && src[|src| - 1] != 0
    ensures LittleEndian(src) > 0
    ensures HighBit(LittleEndian(src)) == 8 * (|src| - 1) + HighBit(src[|src| - 1])
  {
    hide LittleEndian, HighBit, Join;
    var front, last := src[..|src| - 1], src[|src| - 1];
    assert src == front + [last];
    LittleEndianAppend(front, [last]);
    OneByteIs(last);
    HighBitOfJoin(LittleEndian(front), 8 * |front|, last);
  }

  lemma OneByteIs(b: Byte)
    ensures LittleEndian([b]) == b
  {
    KnownPowers();
    JoinIs(b, 8, 0);
  }

  lemma {:induction false} HighBitOfJoin(x: nat, n: nat, y: nat)
    requires y > 0
    ensures Join(x, n, y) > 0 && HighBit(Join(x, n, y)) == n + HighBit(y)
  {
    if n > 0 {
      HighBitOfJoin(x / 2, n - 1, y);
    }
  }

  /** The class BIT_DStream_t over the source buffer. */
  class DStream {
    var src: seq<Byte>
    var bitContainer: nat
    var bitsConsumed: nat
    var ptr: nat

    ghost predicate Valid()
      reads this
    {
      (ptr + WORD_BYTES <= |src| || ptr == 0) && bitContainer == WordOf(src, ptr)
    }

    /** How many bits of the source are still unread. */
    function Unread(): int
      reads this
    {
      8 * ptr + WORD - bitsConsumed
    }

    constructor ()
    {
      src, bitContainer, bitsConsumed, ptr := [], 0, 0, 0;
    }

    /** BIT_initDStream: everything below the end mark is unread. */
    method Init(source: seq<Byte>) returns (error: Error)
      modifies this
      ensures error == if |source| < 1 then SrcSizeWrong else if source[|source| - 1] == 0 then NoEndMark else Ok
      ensures error == Ok ==> Valid() && src == source && bitsConsumed <= WORD
      ensures error == Ok && ptr > 0 ==> bitsConsumed <= 8
      ensures error == Ok ==> ptr == if |src| >= WORD_BYTES then |src| - WORD_BYTES else 0
      ensures error == Ok ==> LittleEndian(src) > 0 && Unread() == HighBit(LittleEndian(src))
    {
      if |source| < 1 { return SrcSizeWrong; }
      src := source;
      var lastByte := source[|source| - 1];
      if |source| >= WORD_BYTES {
        ptr := |source| - WORD_BYTES;
        bitContainer := LittleEndian(source[ptr..ptr + WORD_BYTES]);
        bitsConsumed := if lastByte != 0 then WidthBelow(lastByte) else 0;
        if lastByte == 0 { return NoEndMark; }
      } else {
        ptr := 0;
        bitContainer := LittleEndian(source);
        bitsConsumed := if lastByte != 0 then WidthBelow(lastByte) else 0;
        if lastByte == 0 { return NoEndMark; }
        bitsConsumed := bitsConsumed + (WORD_BYTES - |source|) * 8;
      }
      ByteHighBit(lastByte);
      EndMark(source);
      return Ok;
    }

    method LookBits(nbBits: nat) returns (value: nat)
      requires Valid() && nbBits < WORD && bitsConsumed + nbBits <= WORD
      ensures value == Low(Shr(LittleEndian(src), Unread() - nbBits), nbBits)
    {
      var regMask := WORD - 1;
      value := Shr(Shr(ShiftLeft(bitContainer, bitsConsumed % WORD), 1), (regMask - nbBits) % WORD);
      LookIs(bitContainer, bitsConsumed, nbBits);
      WordOfIs(src, ptr);
      ThroughWord(LittleEndian(src), ptr, WORD - bitsConsumed - nbBits, nbBits);
    }

    /** The fast form needs at least one bit, and then sees the same bits. */
    method LookBitsFast(nbBits: nat) returns (value: nat)
      requires Valid() && 1 <= nbBits < WORD && bitsConsumed + nbBits <= WORD
      ensures value == Low(Shr(LittleEndian(src), Unread() - nbBits), nbBits)
    {
      var regMask := WORD - 1;
      value := Shr(ShiftLeft(bitContainer, bitsConsumed % WORD), (regMask + 1 - nbBits) % WORD);
      LookFastIs(bitContainer, bitsConsumed, nbBits);
      WordOfIs(src, ptr);
      ThroughWord(LittleEndian(src), ptr, WORD - bitsConsumed - nbBits, nbBits);
    }

    method SkipBits(nbBits: nat)
      modifies this`bitsConsumed
      ensures bitsConsumed == old(bitsConsumed) + nbBits
    {
      bitsConsumed := bitsConsumed + nbBits;
    }

    method ReadBits(nbBits: nat) returns (value: nat)
      requires Valid() && nbBits < WORD && bitsConsumed + nbBits <= WORD
      modifies this`bitsConsumed
      ensures Valid() && bitsConsumed == old(bitsConsumed) + nbBits
      ensures value == Low(Shr(LittleEndian(src), Unread()), nbBits)
    {
      value := LookBits(nbBits);
      SkipBits(nbBits);
    }

    /** BIT_reloadDStream: moves the word back over the source without changing what is unread. */
    method Reload() returns (status: Status)
      requires Valid()
      modifies this`bitContainer, this`bitsConsumed, this`ptr
      ensures Valid() && Unread() == old(Unread())
      ensures (ptr, bitsConsumed) == Reloaded(old(ptr), old(bitsConsumed))
      ensures status == Overflow <==> old(bitsConsumed) > WORD
      ensures status == Completed <==> old(bitsConsumed) <= WORD && Unread() == 0
      ensures status == Unfinished ==> bitsConsumed <= 7
      ensures status == EndOfBuffer ==> ptr == 0
    {
      if bitsConsumed > WORD { return Overflow; }
      if ptr >= WORD_BYTES {
        ptr := ptr - bitsConsumed / 8;
        bitsConsumed := bitsConsumed % 8;
        bitContainer := LittleEndian(src[ptr..ptr + WORD_BYTES]);
        return Unfinished;
      }
      if ptr == 0 {
        if bitsConsumed < WORD { return EndOfBuffer; }
        return Completed;
      }
      var nbBytes := bitsConsumed / 8;
      status := Unfinished;
      if ptr < nbBytes {
        nbBytes := ptr;
        status := EndOfBuffer;
      }
      ptr := ptr - nbBytes;
      bitsConsumed := bitsConsumed - nbBytes * 8;
      bitContainer := LittleEndian(src[ptr..ptr + WORD_BYTES]);
    }

    /** BIT_endOfDStream */
    method EndOfDStream() returns (ended: bool)
      requires bitsConsumed <= WORD
      ensures ended <==> Unread() == 0
    {
      ended := ptr == 0 && bitsConsumed == WORD;
    }
  }

  /** `8 - BIT_highbit32(lastByte)` */
  function WidthBelow(lastByte: Byte): nat
    requires lastByte != 0
  {
    ByteHighBit(lastByte);
    8 - HighBit(lastByte)
  }

  /** Where a reload leaves the word: back by whole consumed bytes, as far as there are any. */
  function Reloaded(ptr: nat, consumed: nat): (nat, nat) {
    if consumed > WORD then (ptr, consumed)
    else var nbBytes := if consumed / 8 <= ptr then consumed / 8 else ptr;
         (ptr - nbBytes, consumed - 8 * nbBytes)
  }

  /* Whole streams */

  datatype Field = Field(value: nat, width: nat)

  /** The fields as one number, first field lowest. */
  function Packed(fields: seq<Field>): nat {
    if fields == [] then 0
    else var last := fields[|fields| - 1];
         Join(Packed(fields[..|fields| - 1]), Length(fields[..|fields| - 1]), Low(last.value, last.width))
  }

  function Length(fields: seq<Field>): nat {
    if fields == [] then 0 else Length(fields[..|fields| - 1]) + fields[|fields| - 1].width
  }

  /** What reading fields of the given widths from the top of the low `n` bits of `w` gives. */
  function ReadBack(w: nat, n: nat, widths: seq<nat>): seq<nat>
    requires Total(widths) <= n
    decreases |widths|
  {
    if widths == [] then []
    else [Low(Shr(w, n - widths[0]), widths[0])] + ReadBack(w, n - widths[0], widths[1..])
  }

  function Total(widths: seq<nat>): nat {
    if widths == [] then 0 else widths[0] + Total(widths[1..])
  }

  /** The widths, and the values, last field first. */
  function Widths(fields: seq<Field>): seq<nat> {
    if fields == [] then [] else [fields[|fields| - 1].width] + Widths(fields[..|fields| - 1])
  }

  function Values(fields: seq<Field>): seq<nat> {
    if fields == [] then []
    else [Low(fields[|fields| - 1].value, fields[|fields| - 1].width)] + Values(fields[..|fields| - 1])
  }

  lemma TopField(below: nat, at: nat, v: nat, width: nat, high: nat, w: nat)
    requires v < Pow2(width) && w == Join(Join(below, at, v), at + width, high)
    ensures w == Join(below, at, Join(v, width, high)) && Low(Shr(w, at), width) == v
  {
    JoinJoin(below, at, v, width, high);
    JoinSplit(below, at, Join(v, width, high));
    JoinSplit(v, width, high);
    LowBound(v, width);
  }

  /** Reading takes the fields off in reverse order, whatever lies above them. */
  lemma {:induction false} ReadsBack(fields: seq<Field>, high: nat)
    ensures Total(Widths(fields)) == Length(fields)
    ensures ReadBack(Join(Packed(fields), Length(fields), high), Length(fields), Widths(fields)) == Values(fields)
  {
    hide Join, Low, Shr, Pow2;
    if fields != [] {
      var front, last := fields[..|fields| - 1], fields[|fields| - 1];
      var v := Low(last.value, last.width);
      LowBound(last.value, last.width);
      ReadsBack(front, Join(v, last.width, high));
      TopField(Packed(front), Length(front), v, last.width, high, Join(Packed(fields), Length(fields), high));
      assert Widths(fields)[1..] == Widths(front);
    }
  }

  datatype WriteOp = Add(field: Field) | Flush

  function Written(ops: seq<WriteOp>): seq<Field> {
    if ops == [] then []
    else Written(ops[..|ops| - 1]) + (if ops[|ops| - 1].Add? then [ops[|ops| - 1].field] else [])
  }

  /** The bit position after the operations; each leaves the container less than full. */
  function BitPos(ops: seq<WriteOp>): nat {
    if ops == [] then 0
    else if ops[|ops| - 1].Flush? then BitPos(ops[..|ops| - 1]) % 8
    else BitPos(ops[..|ops| - 1]) + ops[|ops| - 1].field.width
  }

  predicate LegalWrites(ops: seq<WriteOp>) {
    forall k :: 0 <= k < |ops| && ops[k].Add? ==> ops[k].field.width < 32 && BitPos(ops[..k + 1]) < WORD
  }

  lemma NextWrite(ops: seq<WriteOp>, k: nat)
    requires k < |ops|
    ensures BitPos(ops[..k + 1])
         == if ops[k].Flush? then BitPos(ops[..k]) % 8 else BitPos(ops[..k]) + ops[k].field.width
    ensures var before, after := Written(ops[..k]), Written(ops[..k + 1]);
            if ops[k].Flush? then after == before
            else Length(after) == Length(before) + ops[k].field.width
                 && Packed(after) == Join(Packed(before), Length(before), Low(ops[k].field.value, ops[k].field.width))
  {
    assert ops[..k + 1][..k] == ops[..k];
    var before := Written(ops[..k]);
    if ops[k].Add? {
      assert (before + [ops[k].field])[..|before|] == before;
    }
  }

  method WriteOne(bitC: CStream, op: WriteOp)
    requires bitC.Valid() && (op.Add? ==> op.field.width < 32 && op.field.width + bitC.bitPos < WORD)
    modifies bitC, bitC.buffer
    ensures bitC.Valid()
    ensures bitC.bitPos == if op.Flush? then old(bitC.bitPos) % 8 else old(bitC.bitPos) + op.field.width
    ensures bitC.length == old(bitC.length) + (if op.Flush? then 0 else op.field.width)
    ensures op.Flush? ==> bitC.bits == old(bitC.bits)
    ensures op.Add? ==> bitC.bits == Join(old(bitC.bits), old(bitC.length), Low(op.field.value, op.field.width))
  {
    match op {
      case Add(field) => bitC.AddBits(field.value, field.width);
      case Flush => bitC.FlushBits();
    }
  }

  /** Writes the fields with any legal flushing and closes the stream. */
  method Encode(dst: array<Byte>, ops: seq<WriteOp>) returns (size: nat)
    requires dst.Length > WORD_BYTES && LegalWrites(ops) && BitPos(ops) + 1 < WORD
    modifies dst
    ensures size == 0 <==> (Length(Written(ops)) + 1) / 8 >= dst.Length - WORD_BYTES
    ensures size > 0 ==> size == Length(Written(ops)) / 8 + 1 <= dst.Length
    ensures size > 0 ==> LittleEndian(dst[..size]) == Join(Packed(Written(ops)), Length(Written(ops)), 1)
  {
    var bitC := new CStream(dst);
    var k := 0;
    while k < |ops|
      invariant 0 <= k <= |ops| && bitC.Valid() && bitC.buffer == dst && fresh(bitC)
      invariant bitC.bitPos == BitPos(ops[..k])
      invariant bitC.bits == Packed(Written(ops[..k])) && bitC.length == Length(Written(ops[..k]))
    {
      NextWrite(ops, k);
      WriteOne(bitC, ops[k]);
      k := k + 1;
    }
    assert ops[..k] == ops;
    size := bitC.Close();
    assert size > 0 ==> dst[..size] == dst[..][..size];
  }

  datatype ReadOp = Read(width: nat) | Reload

  function ReadWidths(ops: seq<ReadOp>): seq<nat> {
    if ops == [] then []
    else (if ops[0].Read? then [ops[0].width] else []) + ReadWidths(ops[1..])
  }

  /** No read goes past the word. */
  predicate LegalReads(ops: seq<ReadOp>, ptr: nat, consumed: nat)
    decreases |ops|
  {
    ops == [] ||
    match ops[0] {
      case Read(width) => width < WORD && consumed + width <= WORD && LegalReads(ops[1..], ptr, consumed + width)
      case Reload => LegalReads(ops[1..], Reloaded(ptr, consumed).0, Reloaded(ptr, consumed).1)
    }
  }

  /** The width an operation takes and the value it gives. */
  function Taken(op: ReadOp): nat {
    if op.Read? then op.width else 0
  }

  function Given(op: ReadOp, w: nat, n: nat): seq<nat>
    requires Taken(op) <= n
  {
    if op.Read? then [Low(Shr(w, n - op.width), op.width)] else []
  }

  lemma NextRead(ops: seq<ReadOp>, k: nat, w: nat, n: nat)
    requires k < |ops| && Total(ReadWidths(ops[k..])) <= n
    ensures ops[k..][0] == ops[k] && ops[k..][1..] == ops[k + 1..]
    ensures Total(ReadWidths(ops[k..])) == Taken(ops[k]) + Total(ReadWidths(ops[k + 1..]))
    ensures ReadBack(w, n, ReadWidths(ops[k..]))
         == Given(ops[k], w, n) + ReadBack(w, n - Taken(ops[k]), ReadWidths(ops[k + 1..]))
  {
    assert ops[k..][1..] == ops[k + 1..];
    if ops[k].Read? {
      assert ReadWidths(ops[k..])[1..] == ReadWidths(ops[k + 1..]);
    } else {
      assert ReadWidths(ops[k..]) == ReadWidths(ops[k + 1..]);
    }
  }

  method ReadOne(bitD: DStream, op: ReadOp) returns (value: seq<nat>)
    requires bitD.Valid() && bitD.bitsConsumed <= WORD && Taken(op) <= bitD.Unread()
    requires op.Read? ==> op.width < WORD && bitD.bitsConsumed + op.width <= WORD
    modifies bitD
    ensures bitD.Valid() && bitD.bitsConsumed <= WORD && bitD.src == old(bitD.src)
    ensures op.Reload? ==> (bitD.ptr, bitD.bitsConsumed) == Reloaded(old(bitD.ptr), old(bitD.bitsConsumed))
    ensures op.Read? ==> bitD.ptr == old(bitD.ptr) && bitD.bitsConsumed == old(bitD.bitsConsumed) + op.width
    ensures bitD.Unread() == old(bitD.Unread()) - Taken(op)
    ensures value == Given(op, LittleEndian(bitD.src), old(bitD.Unread()))
  {
    match op {
      case Read(width) =>
        var bits := bitD.ReadBits(width);
        value := [bits];
      case Reload =>
        var status := bitD.Reload();
        value := [];
    }
  }

  /** What is read so far and what the operations to come will read make up `all`, and leave `left` bits. */
  predicate Reading(rest: seq<ReadOp>, ptr: nat, consumed: nat, w: nat, values: seq<nat>, all: seq<nat>, left: int) {
    var unread := 8 * ptr + WORD - consumed;
    && LegalReads(rest, ptr, consumed) && Total(ReadWidths(rest)) <= unread
    && unread - Total(ReadWidths(rest)) == left
    && values + ReadBack(w, unread, ReadWidths(rest)) == all
  }

  lemma ReadingBegins(ops: seq<ReadOp>, ptr: nat, consumed: nat, w: nat)
    requires LegalReads(ops, ptr, consumed) && Total(ReadWidths(ops)) <= 8 * ptr + WORD - consumed
    ensures var unread := 8 * ptr + WORD - consumed;
            Reading(ops, ptr, consumed, w, [], ReadBack(w, unread, ReadWidths(ops)), unread - Total(ReadWidths(ops)))
  {
    var all := ReadBack(w, 8 * ptr + WORD - consumed, ReadWidths(ops));
    assert [] + all == all;
  }

  lemma ReadingEnds(ptr: nat, consumed: nat, w: nat, values: seq<nat>, all: seq<nat>, left: int)
    requires Reading([], ptr, consumed, w, values, all, left)
    ensures values == all && left == 8 * ptr + WORD - consumed
  {
    assert values + [] == values;
  }

  lemma ReadingGoesOn(ops: seq<ReadOp>, k: nat, ptr: nat, consumed: nat, ptr': nat, consumed': nat, w: nat,
                      values: seq<nat>, value: seq<nat>, all: seq<nat>, left: int)
    requires k < |ops| && Reading(ops[k..], ptr, consumed, w, values, all, left)
    requires ops[k].Reload? ==> (ptr', consumed') == Reloaded(ptr, consumed)
    requires ops[k].Read? ==> ptr' == ptr && consumed' == consumed + ops[k].width
    requires 8 * ptr' - consumed' == 8 * ptr - consumed - Taken(ops[k])
    requires Taken(ops[k]) <= 8 * ptr + WORD - consumed && value == Given(ops[k], w, 8 * ptr + WORD - consumed)
    ensures Reading(ops[k + 1..], ptr', consumed', w, values + value, all, left)
  {
    var unread := 8 * ptr + WORD - consumed;
    NextRead(ops, k, w, unread);
    Reassociate(values, value, ReadBack(w, unread - Taken(ops[k]), ReadWidths(ops[k + 1..])));
  }

  lemma ReadingStarts(ops: seq<ReadOp>, k: nat, ptr: nat, consumed: nat, w: nat, values: seq<nat>,
                      all: seq<nat>, left: int)
    requires k < |ops| && Reading(ops[k..], ptr, consumed, w, values, all, left)
    ensures Taken(ops[k]) <= 8 * ptr + WORD - consumed
    ensures ops[k].Read? ==> ops[k].width < WORD && consumed + ops[k].width <= WORD
  {
    NextRead(ops, k, w, 8 * ptr + WORD - consumed);
  }

  /** Reads fields with any legal reloading; says whether the stream has ended. */
  method Decode(bitD: DStream, ops: seq<ReadOp>) returns (values: seq<nat>, ended: bool)
    requires bitD.Valid() && bitD.bitsConsumed <= WORD
    requires LegalReads(ops, bitD.ptr, bitD.bitsConsumed) && Total(ReadWidths(ops)) <= bitD.Unread()
    modifies bitD
    ensures bitD.src == old(bitD.src)
    ensures values == ReadBack(LittleEndian(bitD.src), old(bitD.Unread()), ReadWidths(ops))
    ensures ended <==> Total(ReadWidths(ops)) == old(bitD.Unread())
  {
    hide LegalReads, LittleEndian, Reading, ReadBack, Total;
    values := [];
    ghost var w := LittleEndian(bitD.src);
    ghost var all, left := ReadBack(w, bitD.Unread(), ReadWidths(ops)), bitD.Unread() - Total(ReadWidths(ops));
    var k := 0;
    assert ops[0..] == ops;
    ReadingBegins(ops, bitD.ptr, bitD.bitsConsumed, w);
    while k < |ops|
      invariant 0 <= k <= |ops| && bitD.Valid() && bitD.bitsConsumed <= WORD && bitD.src == old(bitD.src)
      invariant Reading(ops[k..], bitD.ptr, bitD.bitsConsumed, w, values, all, left)
    {
      ghost var ptr, consumed := bitD.ptr, bitD.bitsConsumed;
      ReadingStarts(ops, k, ptr, consumed, w, values, all, left);
      var value := ReadOne(bitD, ops[k]);
      ReadingGoesOn(ops, k, ptr, consumed, bitD.ptr, bitD.bitsConsumed, w, values, value, all, left);
      values := values + value;
      k := k + 1;
    }
    assert ops[k..] == [];
    ReadingEnds(bitD.ptr, bitD.bitsConsumed, w, values, all, left);
    ended := bitD.EndOfDStream();
  }

  lemma Reassociate(a: seq<nat>, b: seq<nat>, c: seq<nat>)
    ensures a + (b + c) == a + b + c
  {
  }

  /** The state of a decoder opened on a stream of `n` bits and its end mark. */
  function Opened(n: nat): (nat, nat) {
    var size := n / 8 + 1;
    var ptr := if size >= WORD_BYTES then size - WORD_BYTES else 0;
    (ptr, 8 * ptr + WORD - n)
  }

  lemma ZeroOnTop(front: seq<Byte>)
    ensures LittleEndian(front + [0]) == LittleEndian(front)
  {
    var zero: seq<Byte> := [0];
    LittleEndianAppend(front, zero);
    assert LittleEndian(zero) == Join(0, 8, 0);
    KnownPowers();
    JoinIs(0, 8, 0);
    LittleEndianBound(front);
    JoinIs(LittleEndian(front), 8 * |front|, 0);
  }

  lemma LastByteMarked(src: seq<Byte>, bits: nat, n: nat)
    requires |src| == n / 8 + 1 && LittleEndian(src) == Join(bits, n, 1)
    ensures src[|src| - 1] != 0 && LittleEndian(src) > 0 && HighBit(LittleEndian(src)) == n
  {
    hide Join, LittleEndian, Pow2;
    HighBitOfJoin(bits, n, 1);
    var front := src[..|src| - 1];
    if src[|src| - 1] == 0 {
      assert src == front + [0];
      ZeroOnTop(front);
      LittleEndianBound(front);
      Pow2LessEq(8 * |front|, n);
    }
  }

  method DecodeStream(src: seq<Byte>, ghost fields: seq<Field>, readOps: seq<ReadOp>)
    returns (values: seq<nat>, ended: bool)
    requires |src| == Length(fields) / 8 + 1 && LittleEndian(src) == Join(Packed(fields), Length(fields), 1)
    requires ReadWidths(readOps) == Widths(fields)
    requires LegalReads(readOps, Opened(Length(fields)).0, Opened(Length(fields)).1)
    ensures values == Values(fields) && ended
  {
    hide Join, LegalReads, Length, LittleEndian, ReadWidths, HighBit, Low, Pow2;
    LastByteMarked(src, Packed(fields), Length(fields));
    ReadsBack(fields, 1);
    var bitD := new DStream();
    var error := bitD.Init(src);
    values, ended := Decode(bitD, readOps);
  }

  /** What is written with any legal flushing and fits is read back in reverse order with any legal reloading,
      and the stream ends exactly there. */
  method RoundTrip(dst: array<Byte>, writeOps: seq<WriteOp>, readOps: seq<ReadOp>)
    returns (size: nat, values: seq<nat>, ended: bool)
    requires dst.Length > WORD_BYTES && LegalWrites(writeOps) && BitPos(writeOps) + 1 < WORD
    requires ReadWidths(readOps) == Widths(Written(writeOps))
    requires var n := Length(Written(writeOps)); LegalReads(readOps, Opened(n).0, Opened(n).1)
    modifies dst
    ensures size == 0 <==> (Length(Written(writeOps)) + 1) / 8 >= dst.Length - WORD_BYTES
    ensures size > 0 ==> values == Values(Written(writeOps)) && ended
  {
    values, ended := [], false;
    size := Encode(dst, writeOps);
    if size > 0 {
      values, ended := DecodeStream(dst[..size], Written(writeOps), readOps);
    }
  }

  /** Reloading before every read. */
  function EachReloaded(widths: seq<nat>): seq<ReadOp> {
    if widths == [] then [] else [Reload, Read(widths[0])] + EachReloaded(widths[1..])
  }

  /** That is always legal for fields of up to 57 bits, as long as there are bits left. */
  lemma {:induction false} EachReloadedIsLegal(widths: seq<nat>, ptr: nat, consumed: nat)
    requires forall i :: 0 <= i < |widths| ==> widths[i] <= 57
    requires consumed <= WORD && Total(widths) <= 8 * ptr + WORD - consumed
    ensures LegalReads(EachReloaded(widths), ptr, consumed) && ReadWidths(EachReloaded(widths)) == widths
    decreases |widths|
  {
    if widths != [] {
      var (p, c) := Reloaded(ptr, consumed);
      EachReloadedIsLegal(widths[1..], p, c + widths[0]);
      var ops := EachReloaded(widths);
      assert ops[1..] == [Read(widths[0])] + EachReloaded(widths[1..]) && ops[1..][1..] == EachReloaded(widths[1..]);
    }
  }
}
