/** The bytes of a frame as sections 5.2 and 5.3 of RFC 6455 lay them out, and that the builder writes and the parser
    reads them. */
module WebSocketWire {
  import opened Bits
  import opened BitStrings
  import opened WebSocket
  import opened WebSocketFrame
  import opened WebSocketRoundTrip

  /* Masking, bit by bit */

  lemma {:induction false} XorBits(x: nat, y: nat, n: nat)
    ensures Bit(Xor(x, y), n) <==> Bit(x, n) != Bit(y, n)
    decreases n
  {
    if x == 0 && y == 0 {
      NoBits(n);
    } else if n > 0 {
      XorBits(x / 2, y / 2, n - 1);
    }
  }

  lemma {:induction false} NoBits(n: nat)
    ensures !Bit(0, n)
  {
    if n > 0 {
      NoBits(n - 1);
    }
  }

  /** Bit `n` of a byte that is unmasked is that of the byte, turned round where the mask byte at its place modulo four
      has bit `n`. */
  lemma {:induction false} UnmaskBits(mask: seq<Byte>, src: seq<Byte>, offset: nat, i: nat, n: nat)
    requires |mask| == 4 && i < |src| && n < 8
    ensures Bit(Unmask(mask, src, offset)[i], n) <==> Bit(src[i], n) != Bit(mask[(i + offset) % 4], n)
    decreases |src|
  {
    var front, last := src[..|src| - 1], src[|src| - 1];
    assert src == front + [last];
    UnmaskLast(mask, front, last, offset);
    if i < |src| - 1 {
      UnmaskBits(mask, front, offset, i, n);
    } else {
      Mod4Is(i + offset);
      XorByteTwice(last, mask[(i + offset) % 4]);
      XorBits(last, mask[(i + offset) % 4], n);
    }
  }

  /* The layout of a frame */

  function LengthField(n: nat): seq<Byte>
    requires n < 0x1_0000_0000_0000_0000
  {
    if n < 126 then []
    else if n < 0x1_0000 then [n / 0x100, n % 0x100]
    else [n / 0x100_0000_0000_0000, n / 0x1_0000_0000_0000 % 0x100, n / 0x100_0000_0000 % 0x100,
          n / 0x1_0000_0000 % 0x100, n / 0x100_0000 % 0x100, n / 0x1_0000 % 0x100, n / 0x100 % 0x100, n % 0x100]
  }

  /** FIN and the opcode, the mask flag and the length, and the payload as it is sent. */
  function Wire(fin: bool, opcode: nat, mask: Option<seq<Byte>>, payload: seq<Byte>): seq<Byte>
    requires opcode < 16 && |payload| < 0x1_0000_0000_0000_0000
  {
    [(if fin then 128 else 0) + opcode,
     (if mask.Some? then 128 else 0)
     + (if |payload| < 126 then |payload| else if |payload| < 0x1_0000 then 126 else 127)]
    + LengthField(|payload|) + (if mask.Some? then mask.value else []) + payload
  }

  lemma Powers()
    ensures Pow2(0) == 1 && Pow2(8) == 0x100 && Pow2(16) == 0x1_0000 && Pow2(24) == 0x100_0000
    ensures Pow2(32) == 0x1_0000_0000 && Pow2(40) == 0x100_0000_0000 && Pow2(48) == 0x1_0000_0000_0000
    ensures Pow2(56) == 0x100_0000_0000_0000 && Pow2(64) == 0x1_0000_0000_0000_0000
  {
    KnownPowers();
    Pow2Add(16, 8);
    Pow2Add(32, 8);
    Pow2Add(32, 16);
    Pow2Add(32, 24);
  }

  /** Byte `i` of a number in `k` bytes, the highest first. */
  lemma ByteOf(n: nat, k: nat, i: nat, d: nat)
    requires i < k && d == Pow2(8 * (k - 1 - i))
    ensures BigEndian(n, k)[i] == n / d % 0x100
  {
    Powers();
    BigEndianAt(n, k, i);
    ShrLowAre(n, 8 * (k - 1 - i), d);
    ShrLowAre(Shr(n, 8 * (k - 1 - i)), 8, 0x100);
  }

  lemma LengthIs(n: nat)
    requires n < 0x1_0000_0000_0000_0000
    ensures LengthBytes(n) == LengthField(n)
  {
    hide BigEndian, Pow2;
    Powers();
    if 126 <= n < 0x1_0000 {
      ByteOf(n, 2, 0, 0x100);
      ByteOf(n, 2, 1, 1);
      SmallDivMod(n / 0x100, 0x100);
    } else if n >= 0x1_0000 {
      EightBytes(n);
    }
  }

  lemma EightBytes(n: nat)
    requires n < 0x1_0000_0000_0000_0000
    ensures BigEndian(n, 8)
         == [n / 0x100_0000_0000_0000, n / 0x1_0000_0000_0000 % 0x100, n / 0x100_0000_0000 % 0x100,
             n / 0x1_0000_0000 % 0x100, n / 0x100_0000 % 0x100, n / 0x1_0000 % 0x100, n / 0x100 % 0x100, n % 0x100]
  {
    hide BigEndian, Pow2;
    Powers();
    ByteOf(n, 8, 0, 0x100_0000_0000_0000);
    ByteOf(n, 8, 1, 0x1_0000_0000_0000);
    ByteOf(n, 8, 2, 0x100_0000_0000);
    ByteOf(n, 8, 3, 0x1_0000_0000);
    ByteOf(n, 8, 4, 0x100_0000);
    ByteOf(n, 8, 5, 0x1_0000);
    ByteOf(n, 8, 6, 0x100);
    ByteOf(n, 8, 7, 1);
    SmallDivMod(n / 0x100_0000_0000_0000, 0x100);
  }

  lemma FlagBits(flags: nat)
    ensures Low(flags, 4) == flags % 16 && (Bit(flags, 4) <==> flags / 16 % 2 == 1)
    ensures Masked(flags) <==> flags / 32 % 2 == 1
  {
    assert Pow2(4) == 16 && Pow2(5) == 32;
    ShrLowAre(flags, 4, 16);
    ShrLowAre(flags, 5, 32);
    BitIs(flags, 4);
    BitIs(flags, 5);
  }

  lemma HeaderIs(flags: nat, n: nat)
    requires n < 0x1_0000_0000_0000_0000
    ensures Header(flags, n)
         == [(if flags / 16 % 2 == 1 then 128 else 0) + flags % 16,
             (if flags / 32 % 2 == 1 then 128 else 0) + (if n < 126 then n else if n < 0x1_0000 then 126 else 127)]
            + LengthField(n)
  {
    hide LengthBytes, LengthField, Low, Bit, Masked;
    LowFourIs(flags);
    FlagBits(flags);
    LengthIs(n);
  }

  lemma BuiltParts(flags: nat, mask: seq<Byte>, data: seq<Byte>)
    requires |mask| == 4
    ensures flags / 32 % 2 == 1 ==> Built(flags, mask, data) == Header(flags, |data|) + (mask + Unmask(mask, data, 0))
    ensures flags / 32 % 2 != 1 ==> Built(flags, mask, data) == Header(flags, |data|) + data
  {
    hide Header, Unmask, Masked;
    FlagBits(flags);
  }

  lemma WireParts(fin: bool, opcode: nat, mask: Option<seq<Byte>>, payload: seq<Byte>, header: seq<Byte>)
    requires opcode < 16 && |payload| < 0x1_0000_0000_0000_0000
    requires header == [(if fin then 128 else 0) + opcode,
                        (if mask.Some? then 128 else 0)
                        + (if |payload| < 126 then |payload| else if |payload| < 0x1_0000 then 126 else 127)]
                       + LengthField(|payload|)
    ensures mask.Some? ==> Wire(fin, opcode, mask, payload) == header + (mask.value + payload)
    ensures mask.None? ==> Wire(fin, opcode, mask, payload) == header + payload
  {
    hide LengthField;
    if mask.None? { assert header + [] == header; }
  }

  /** The builder lays the frame out so: the opcode is in the low four bits of the flags, FIN and the mask flag in the
      next two. */
  lemma BuiltIsWire(flags: nat, mask: seq<Byte>, data: seq<Byte>)
    requires |mask| == 4 && |data| < 0x1_0000_0000_0000_0000
    ensures Built(flags, mask, data)
         == Wire(flags / 16 % 2 == 1, flags % 16, if flags / 32 % 2 == 1 then Some(mask) else None,
                 if flags / 32 % 2 == 1 then Unmask(mask, data, 0) else data)
  {
    hide Header, LengthField, Unmask, Masked, Built, Wire;
    HeaderIs(flags, |data|);
    BuiltParts(flags, mask, data);
    if flags / 32 % 2 == 1 {
      WireParts(flags / 16 % 2 == 1, flags % 16, Some(mask), Unmask(mask, data, 0), Header(flags, |data|));
    } else {
      WireParts(flags / 16 % 2 == 1, flags % 16, None, data, Header(flags, |data|));
    }
  }

  /** The flags of a frame with these parts. */
  function FlagsOf(fin: bool, opcode: nat, masked: bool): (flags: nat)
    requires opcode < 16
    ensures flags % 16 == opcode && (flags / 16 % 2 == 1 <==> fin) && (flags / 32 % 2 == 1 <==> masked) && flags < 64
  {
    opcode + (if fin then 16 else 0) + (if masked then 32 else 0)
  }

  /** Whatever a frame so laid out says, the parser makes one frame of it that says the same. */
  lemma WireReads(m: Machine, fin: bool, opcode: nat, mask: Option<seq<Byte>>, payload: seq<Byte>)
    requires Fits(m) && m.parser.phase == Start && opcode < 16 && |payload| < 0x1_0000_0000_0000_0000
    requires mask.Some? ==> |mask.value| == 4
    ensures var after := Run(m, Wire(fin, opcode, mask, payload));
            && after.parser.phase == Start
            && after.frames == Frames(m.frames.list + [Frame(FlagsOf(fin, opcode, mask.Some?), |payload|,
                                                             if mask.Some? then mask.value else [], payload, false)])
  {
    hide Run, Wire, Built, Unmask;
    Powers();
    var flags, key := FlagsOf(fin, opcode, mask.Some?), if mask.Some? then mask.value else [0, 0, 0, 0];
    var data := if mask.Some? then Unmask(key, payload, 0) else payload;
    if mask.Some? { UnmaskTwice(key, payload, 0); }
    FlagBits(flags);
    BuiltIsWire(flags, key, data);
    ParsesBuilt(m, flags, key, data);
    assert Pow2(6) == 64;
    LowBound(flags, 6);
  }

  lemma XorStep(x: nat, y: nat, half: nat)
    requires Xor(x / 2, y / 2) == half
    ensures Xor(x, y) == 2 * half + (if x % 2 == y % 2 then 0 else 1)
  {
  }

  lemma XorZero()
    ensures Xor(0, 0) == 0
  {
  }

  lemma FirstLetter()
    ensures XorByte(0x7F, 0x37) == 0x48
  {
    hide Xor;
    XorZero();
    XorStep(0, 0, 0);
    XorStep(1, 0, 0);
    XorStep(3, 1, 1);
    XorStep(7, 3, 2);
    XorStep(15, 6, 4);
    XorStep(31, 13, 9);
    XorStep(63, 27, 18);
    XorStep(127, 55, 36);
  }

  lemma SecondLetter()
    ensures XorByte(0x9F, 0xFA) == 0x65
  {
    hide Xor;
    XorZero();
    XorStep(1, 1, 0);
    XorStep(2, 3, 0);
    XorStep(4, 7, 1);
    XorStep(9, 15, 3);
    XorStep(19, 31, 6);
    XorStep(39, 62, 12);
    XorStep(79, 125, 25);
    XorStep(159, 250, 50);
  }

  lemma ThirdLetter()
    ensures XorByte(0x4D, 0x21) == 0x6C
  {
    hide Xor;
    XorZero();
    XorStep(0, 0, 0);
    XorStep(1, 0, 0);
    XorStep(2, 1, 1);
    XorStep(4, 2, 3);
    XorStep(9, 4, 6);
    XorStep(19, 8, 13);
    XorStep(38, 16, 27);
    XorStep(77, 33, 54);
  }

  lemma FourthLetter()
    ensures XorByte(0x51, 0x3D) == 0x6C
  {
    hide Xor;
    XorZero();
    XorStep(0, 0, 0);
    XorStep(1, 0, 0);
    XorStep(2, 1, 1);
    XorStep(5, 3, 3);
    XorStep(10, 7, 6);
    XorStep(20, 15, 13);
    XorStep(40, 30, 27);
    XorStep(81, 61, 54);
  }

  lemma FifthLetter()
    ensures XorByte(0x58, 0x37) == 0x6F
  {
    hide Xor;
    XorZero();
    XorStep(0, 0, 0);
    XorStep(1, 0, 0);
    XorStep(2, 1, 1);
    XorStep(5, 3, 3);
    XorStep(11, 6, 6);
    XorStep(22, 13, 13);
    XorStep(44, 27, 27);
    XorStep(88, 55, 55);
  }

  lemma NextUnmasked(mask: seq<Byte>, src: seq<Byte>, i: nat)
    requires |mask| == 4 && i < |src|
    ensures Unmask(mask, src[..i + 1], 0) == Unmask(mask, src[..i], 0) + [XorByte(src[i], mask[i % 4])]
  {
    hide Mod4;
    UnmaskLast(mask, src[..i], src[i], 0);
    Mod4Is(i);
    assert src[..i] + [src[i]] == src[..i + 1];
  }

  /** The masked "Hello" of section 5.7. */
  lemma MaskedHello()
    ensures Wire(true, 1, Some([0x37, 0xFA, 0x21, 0x3D]), [0x7F, 0x9F, 0x4D, 0x51, 0x58])
         == [0x81, 0x85, 0x37, 0xFA, 0x21, 0x3D, 0x7F, 0x9F, 0x4D, 0x51, 0x58]
    ensures Unmask([0x37, 0xFA, 0x21, 0x3D], [0x7F, 0x9F, 0x4D, 0x51, 0x58], 0) == [0x48, 0x65, 0x6C, 0x6C, 0x6F]
  {
    hide XorByte, Mod4;
    var mask: seq<Byte>, sent: seq<Byte> := [0x37, 0xFA, 0x21, 0x3D], [0x7F, 0x9F, 0x4D, 0x51, 0x58];
    FirstLetter();
    SecondLetter();
    ThirdLetter();
    FourthLetter();
    FifthLetter();
    NextUnmasked(mask, sent, 0);
    NextUnmasked(mask, sent, 1);
    NextUnmasked(mask, sent, 2);
    NextUnmasked(mask, sent, 3);
    NextUnmasked(mask, sent, 4);
    assert sent[..5] == sent && sent[..0] == [];
  }
}
