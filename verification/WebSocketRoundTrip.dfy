/** Reading back the frames that websocket_build_frame writes. */
module WebSocketRoundTrip {
  import opened Bits
  import opened BitStrings
  import opened WebSocket
  import opened WebSocketFrame

  lemma HeadByteIs(low: nat, flag: bool)
    requires low < 128
    ensures Low(HeadByte(low, flag), 7) == low && (Bit(HeadByte(low, flag), 7) <==> flag)
    ensures low < 16 ==> Low(HeadByte(low, flag), 4) == low
  {
    var b, top := HeadByte(low, flag), if flag then 1 else 0;
    assert Pow2(4) == 16;
    assert Pow2(7) == 128 by { Pow2Add(3, 4); assert Pow2(3) == 8; }
    JoinIs(low, 7, top);
    assert b == Join(low, 7, top);
    JoinSplit(low, 7, top);
    LowBound(low, 7);
    BitIs(b, 7);
    LowLow(b, 7, 4);
    LowBound(low, 4);
  }

  /** The flags the parser ends up with. */
  function FlagsRead(flags: nat): nat {
    Low(flags, 4) + (if Bit(flags, 4) then FIN else 0) + (if Masked(flags) then HAS_MASK else 0)
  }

  /** They are the flags the frame was built with. */
  lemma FlagsReadIs(flags: nat)
    ensures FlagsRead(flags) == Low(flags, 6)
  {
    var low, high := Low(flags, 4), Shr(flags, 4);
    assert Pow2(4) == 16;
    LowParts(flags, 4, 2);
    LowBound(flags, 4);
    JoinIs(low, 4, Low(high, 2));
    assert Low(high, 2) == high % 2 + 2 * Low(high / 2, 1);
    assert Low(high / 2, 1) == high / 2 % 2 + 2 * Low(high / 2 / 2, 0);
    BitIs(flags, 4);
    BitIs(flags, 5);
    ShrShr(flags, 4, 1);
    assert Shr(high, 1) == Shr(high / 2, 0);
  }

  lemma NoMaskYet(low: nat, fin: bool)
    requires low < 16
    ensures !Masked(low + (if fin then FIN else 0)) && Masked(low + (if fin then FIN else 0) + HAS_MASK)
  {
    var flags := low + (if fin then FIN else 0);
    assert Pow2(5) == 32;
    ShrBound(flags, 5);
    BitIs(flags, 5);
    JoinIs(flags, 5, 1);
    JoinSplit(flags, 5, 1);
    BitIs(flags + HAS_MASK, 5);
  }

  /* Each part of the frame */

  function RunTwo(m: Machine, a: Byte, b: Byte): Machine {
    Step(Step(m, a), b)
  }

  lemma RunIsTwo(m: Machine, a: Byte, b: Byte)
    ensures Run(m, [a, b]) == RunTwo(m, a, b)
  {
    assert [a, b][..1] == [a] && [a][..0] == [];
    assert Run(m, [a]) == Step(Run(m, []), a);
  }

  function Begun(p: Parser, flags: nat): Parser {
    p.(flags := FlagsRead(flags), maskOffset := 0, offset := 0)
  }

  /** The first byte gives the opcode and FIN. */
  lemma RunFirst(m: Machine, low: nat, fin: bool)
    requires m.parser.phase == Start && low < 16
    ensures Step(m, HeadByte(low, fin)) ==
            Machine(m.parser.(phase := Head, flags := low + (if fin then FIN else 0),
                              maskOffset := 0, length := 0, offset := 0), m.frames)
  {
    hide Low, Bit, HeadByte;
    HeadByteIs(low, fin);
  }

  /** The second byte gives the mask flag and the length, or the number of bytes it takes. */
  lemma RunSecond(m: Machine, code: nat, masked: bool)
    requires m.parser.phase == Head && code < 128 && !Masked(m.parser.flags)
    ensures var p := m.parser.(flags := m.parser.flags + (if masked then HAS_MASK else 0));
            Step(m, HeadByte(code, masked))
            == if code < 126 then LengthDone(p.(length := code), m.frames)
               else Machine(p.(phase := Length, length := 0, require_ := if code == 127 then 8 else 2), m.frames)
  {
    hide Low, Bit, HeadByte, LengthDone, Masked;
    HeadByteIs(code, masked);
  }

  lemma RunHead(m: Machine, flags: nat, length: nat)
    requires Fits(m) && m.parser.phase == Start && Low(flags, 4) < 16
    ensures RunTwo(m, HeadByte(Low(flags, 4), Bit(flags, 4)), HeadByte(LengthCode(length), Masked(flags)))
         == if length < 126 then LengthDone(Begun(m.parser, flags).(phase := Head, length := length), m.frames)
            else Machine(Begun(m.parser, flags).(phase := Length, length := 0,
                                                 require_ := if length <= 0xFFFF then 2 else 8), m.frames)
  {
    hide Low, Bit, HeadByte, LengthDone, Masked, Step;
    NoMaskYet(Low(flags, 4), Bit(flags, 4));
    RunFirst(m, Low(flags, 4), Bit(flags, 4));
    RunSecond(Step(m, HeadByte(Low(flags, 4), Bit(flags, 4))), LengthCode(length), Masked(flags));
  }

  /** Reading the last length byte shifts it in. */
  lemma ShiftInIs(n: nat, k: nat)
    requires 0 < k <= 8
    ensures ShiftIn(Low(Shr(n, 8), 8 * (k - 1)), LowByte(n)) == Low(n, 8 * k)
  {
    var high := Low(Shr(n, 8), 8 * (k - 1));
    LowBound(Shr(n, 8), 8 * (k - 1));
    Pow2LessEq(8 * (k - 1), 56);
    LowBound(high, 56);
    LowParts(n, 8, 8 * (k - 1));
  }

  /** The length bytes before the last one. */
  lemma {:induction false} RunLength(m: Machine, n: nat, k: nat)
    requires m.parser.phase == Length && m.parser.length == 0 && k < m.parser.require_ <= 8
    ensures Run(m, BigEndian(n, k))
         == Machine(m.parser.(length := Low(n, 8 * k), require_ := m.parser.require_ - k), m.frames)
    decreases k
  {
    if k > 0 {
      RunLength(m, Shr(n, 8), k - 1);
      ShiftInIs(n, k);
      assert BigEndian(n, k)[..k - 1] == BigEndian(Shr(n, 8), k - 1);
    }
  }

  lemma RunAllLength(m: Machine, n: nat, k: nat)
    requires m.parser.phase == Length && m.parser.length == 0 && 0 < k == m.parser.require_ <= 8
    requires n < Pow2(8 * k)
    ensures Run(m, BigEndian(n, k)) == LengthDone(m.parser.(length := n, require_ := 0), m.frames)
  {
    RunLength(m, Shr(n, 8), k - 1);
    ShiftInIs(n, k);
    LowBound(n, 8 * k);
    assert BigEndian(n, k)[..k - 1] == BigEndian(Shr(n, 8), k - 1);
  }

  lemma {:induction false} RunMask(m: Machine, mask: seq<Byte>, k: nat)
    requires m.parser.phase == Mask && m.parser.require_ == 4 && |m.parser.mask| == 4 == |mask| && k < 4
    ensures Run(m, mask[..k]) == Machine(m.parser.(mask := mask[..k] + m.parser.mask[k..], require_ := 4 - k), m.frames)
    decreases k
  {
    if k > 0 {
      RunMask(m, mask, k - 1);
      assert mask[..k][..k - 1] == mask[..k - 1];
      assert (mask[..k - 1] + m.parser.mask[k - 1..])[k - 1 := mask[k - 1]] == mask[..k] + m.parser.mask[k..];
    } else {
      assert mask[..0] == [] && mask[..0] + m.parser.mask[0..] == m.parser.mask;
    }
  }

  lemma RunAllMask(m: Machine, mask: seq<Byte>)
    requires m.parser.phase == Mask && m.parser.require_ == 4 && |m.parser.mask| == 4 == |mask|
    ensures Run(m, mask) == HeaderDone(m.parser.(mask := mask, require_ := 0), m.frames)
  {
    RunMask(m, mask, 3);
    assert mask[..3] == mask[..|mask| - 1];
    assert (mask[..3] + m.parser.mask[3..])[3 := mask[3]] == mask;
  }

  /** The frame as the application puts it together. */
  function FrameOf(flags: nat, mask: seq<Byte>, payload: seq<Byte>): Frame {
    Frame(FlagsRead(flags), |payload|, if Masked(flags) then mask else [], payload, false)
  }

  lemma ReplaceLast(list: seq<Frame>, x: Frame, y: Frame)
    ensures (list + [x])[|list| := y] == list + [y]
  {
  }

  /** What the application makes of a frame whose body comes in one piece. */
  lemma FrameInOne(list: seq<Frame>, begun: Frame, payload: seq<Byte>)
    requires begun.open && begun.payload == [] && |payload| == begun.length
    ensures Apply(Frames(list + [begun]), FrameBody(0, payload)) == Frames(list + [begun.(payload := payload)])
    ensures Apply(Frames(list + [begun.(payload := payload)]), FrameEnd)
         == Frames(list + [begun.(payload := payload, open := false)])
  {
    assert [] + payload == payload;
    ReplaceLast(list, begun, begun.(payload := payload));
    ReplaceLast(list, begun.(payload := payload), begun.(payload := payload, open := false));
  }

  lemma RunPayload(p: Parser, fs: Frames, flags: nat, mask: seq<Byte>, payload: seq<Byte>)
    requires p.flags == FlagsRead(flags) && (Masked(p.flags) <==> Masked(flags)) && (Masked(flags) ==> p.mask == mask)
    requires p.length == |payload| < WORD && p.offset == 0 && |p.mask| == 4 && Closed(fs)
    ensures var m := Run(HeaderDone(p, fs), payload);
            m.parser.phase == Start && m.frames == Frames(fs.list + [FrameOf(flags, mask, payload)])
  {
    hide FlagsRead, Masked, Step;
    HeaderDoneFits(p, fs);
    var begun := Frame(p.flags, p.length, if Masked(p.flags) then p.mask else [], [], true);
    FrameInOne(fs.list, begun, payload);
    assert Apply(fs, HeaderOf(p)) == Frames(fs.list + [begun]);
    if payload != [] {
      RunBody(HeaderDone(p, fs), payload);
    }
  }

  lemma MaskedIsRead(flags: nat)
    ensures Masked(FlagsRead(flags)) <==> Masked(flags)
  {
    LowFourIs(flags);
    NoMaskYet(Low(flags, 4), Bit(flags, 4));
  }

  /** The mask, if there is one, and the payload. */
  lemma RunBodyPart(p: Parser, fs: Frames, flags: nat, mask: seq<Byte>, data: seq<Byte>)
    requires p.flags == FlagsRead(flags) && |mask| == 4 == |p.mask| && p.length == |data| < WORD && p.offset == 0
    requires Closed(fs)
    ensures var payload := if Masked(flags) then Unmask(mask, data, 0) else data;
            var m := Run(LengthDone(p, fs), if Masked(flags) then mask + payload else payload);
            m.parser.phase == Start && m.frames == Frames(fs.list + [FrameOf(flags, mask, payload)])
  {
    MaskedIsRead(flags);
    if Masked(flags) {
      var m := Machine(p.(phase := Mask, require_ := 4), fs);
      var payload := Unmask(mask, data, 0);
      RunAppend(m, mask, payload);
      RunAllMask(m, mask);
      RunPayload(p.(phase := Mask, mask := mask, require_ := 0), fs, flags, mask, payload);
    } else {
      RunPayload(p, fs, flags, mask, data);
    }
  }

  /** The head bytes and the length. */
  lemma RunHeader(m: Machine, flags: nat, length: nat) returns (p: Parser)
    requires Fits(m) && m.parser.phase == Start && length < Pow2(64)
    ensures Run(m, Header(flags, length)) == LengthDone(p, m.frames)
    ensures p.flags == FlagsRead(flags) && |p.mask| == 4 && p.length == length && p.offset == 0
  {
    LowFourIs(flags);
    var a, b := HeadByte(Low(flags, 4), Bit(flags, 4)), HeadByte(LengthCode(length), Masked(flags));
    RunIsTwo(m, a, b);
    RunHead(m, flags, length);
    RunAppend(m, [a, b], LengthBytes(length));
    KnownPowers();
    if length < 126 {
      p := Begun(m.parser, flags).(phase := Head, length := length);
    } else {
      var k := if length <= 0xFFFF then 2 else 8;
      RunAllLength(RunTwo(m, a, b), length, k);
      p := Begun(m.parser, flags).(phase := Length, length := length, require_ := 0);
    }
  }

  /** A parser between frames that reads a built frame reads exactly that frame, and is between frames again. */
  lemma ParsesBuilt(m: Machine, flags: nat, mask: seq<Byte>, data: seq<Byte>)
    requires Fits(m) && m.parser.phase == Start && |mask| == 4 && |data| < Pow2(64)
    ensures var payload := if Masked(flags) then Unmask(mask, data, 0) else data;
            var after := Run(m, Built(flags, mask, data));
            && after.parser.phase == Start
            && after.frames == Frames(m.frames.list + [Frame(Low(flags, 6), |data|, if Masked(flags) then mask else [],
                                                             payload, false)])
            && (if Masked(flags) then Unmask(mask, payload, 0) else payload) == data
  {
    hide Header, FlagsRead, Low, Bit, LengthDone, Run, Masked;
    FlagsReadIs(flags);
    KnownPowers();
    var payload := if Masked(flags) then Unmask(mask, data, 0) else data;
    var p := RunHeader(m, flags, |data|);
    RunAppend(m, Header(flags, |data|), if Masked(flags) then mask + payload else payload);
    RunBodyPart(p, m.frames, flags, mask, data);
    if Masked(flags) { UnmaskTwice(mask, data, 0); }
  }

  /** Building a frame and parsing what was built, in any pieces. The frame lies in memory at `base`. */
  method BuildAndParse(buffer: array<Byte>, base: nat, flags: nat, mask: Option<seq<Byte>>, data: seq<Byte>, cut: nat)
    returns (parser: WsParser, ghost used: seq<Byte>)
    requires buffer.Length == CalcFrameSize(flags, |data|) && base + buffer.Length < WORD && cut <= buffer.Length
    requires mask.Some? ==> |mask.value| == 4
    modifies buffer
    ensures fresh(parser) && parser.Valid() && parser.phase == Start && |used| == 4
    ensures mask.Some? ==> used == mask.value
    ensures var payload := if Masked(flags) then Unmask(used, data, 0) else data;
            parser.Now().frames
            == Frames([Frame(Low(flags, 6), |data|, if Masked(flags) then used else [], payload, false)])
  {
    hide Low, Masked, Unmask, Built, Pow2, Run;
    KnownPowers();
    var size;
    size, used := BuildFrame(buffer, flags, mask, data);
    parser := new WsParser();
    ParsesBuilt(parser.Now(), flags, used, data);
    ParseInTwo(parser, buffer[..size], base, cut);
  }

  /** What ends between frames and lies in memory in one piece can be cut anywhere. */
  method ParseInTwo(parser: WsParser, bytes: seq<Byte>, base: nat, cut: nat)
    requires parser.Valid() && cut <= |bytes| && base + |bytes| < WORD
    requires Run(parser.Now(), bytes).parser.phase != Body
    modifies parser, parser.mask
    ensures parser.Valid() && parser.Now() == Run(old(parser.Now()), bytes)
  {
    ghost var a, b := bytes[..cut], bytes[cut..];
    assert bytes == a + b;
    RunAppend(parser.Now(), a, b);
    WholeFramesAreStraight(parser.Now(), bytes, base);
    StraightAppend(parser.Now(), a, b, base);
    var n := parser.Execute(bytes[..cut], base);
    n := parser.Execute(bytes[cut..], base + cut);
  }

  /* Which announced lengths make the sum wrap */

  /** What comes before the payload. */
  function Lead(flags: nat, mask: seq<Byte>, length: nat): seq<Byte> {
    Header(flags, length) + if Masked(flags) then mask else []
  }

  lemma StraightHead(m: Machine, flags: nat, length: nat, base: nat)
    requires Fits(m) && m.parser.phase == Start && Low(flags, 4) < 16
    ensures var a, b := HeadByte(Low(flags, 4), Bit(flags, 4)), HeadByte(LengthCode(length), Masked(flags));
            Straight(m, [a, b], base)
  {
    hide Low, Bit, HeadByte, LengthDone, Masked;
    var a, b := HeadByte(Low(flags, 4), Bit(flags, 4)), HeadByte(LengthCode(length), Masked(flags));
    assert [a][..0] == [] && [a] + [b] == [a, b];
    StraightPart(m, [a], base);
    StepFits(m, a);
    assert Run(m, [a]) == Step(Run(m, []), a);
    RunFirst(m, Low(flags, 4), Bit(flags, 4));
    StraightPart(Step(m, a), [b], base + 1);
    StraightAppend(m, [a], [b], base);
  }

  lemma StraightHeader(m: Machine, flags: nat, length: nat, base: nat)
    requires Fits(m) && m.parser.phase == Start && length < Pow2(64)
    ensures Straight(m, Header(flags, length), base)
  {
    hide Low, Bit, HeadByte, LengthDone, Masked, BigEndian;
    LowFourIs(flags);
    var a, b := HeadByte(Low(flags, 4), Bit(flags, 4)), HeadByte(LengthCode(length), Masked(flags));
    StraightHead(m, flags, length, base);
    if length < 126 {
      assert Header(flags, length) == [a, b];
    } else {
      RunIsTwo(m, a, b);
      RunHead(m, flags, length);
      RunFits(m, [a, b]);
      StraightPart(Run(m, [a, b]), LengthBytes(length), base + 2);
      StraightAppend(m, [a, b], LengthBytes(length), base);
    }
  }

  lemma StraightLead(m: Machine, flags: nat, mask: seq<Byte>, length: nat, base: nat)
    requires Fits(m) && m.parser.phase == Start && 0 < length < Pow2(64) && |mask| == 4
    ensures Straight(m, Lead(flags, mask, length), base)
    ensures var q := Run(m, Lead(flags, mask, length)).parser; q.phase == Body && q.require_ == length
  {
    hide Low, Bit, Header, FlagsRead, Masked;
    MaskedIsRead(flags);
    var p := RunHeader(m, flags, length);
    var head := Header(flags, length);
    StraightHeader(m, flags, length, base);
    if Masked(flags) {
      RunFits(m, head);
      StraightPart(Run(m, head), mask, base + |head|);
      StraightAppend(m, head, mask, base);
      RunAppend(m, head, mask);
      RunAllMask(Run(m, head), mask);
    } else {
      assert Lead(flags, mask, length) == head;
    }
  }

  /** A frame whose data have begun is read straight exactly if the address at which it says to end is below
      2^64, whatever of it is there. */
  lemma FrameIsStraight(m: Machine, flags: nat, mask: seq<Byte>, length: nat, piece: seq<Byte>, base: nat)
    requires Fits(m) && m.parser.phase == Start && |mask| == 4 && 0 < |piece| <= length < Pow2(64)
    ensures Straight(m, Lead(flags, mask, length) + piece, base)
            <==> base + |Lead(flags, mask, length)| + length < WORD
  {
    hide Lead, Straight, Run;
    var lead := Lead(flags, mask, length);
    StraightLead(m, flags, mask, length, base);
    RunFits(m, lead);
    StraightBody(Run(m, lead), piece, base + |lead|);
    StraightAppend(m, lead, piece, base);
  }

  lemma {:induction false} AllOnes(k: nat)
    ensures BigEndian(Pow2(8 * k) - 1, k) == seq(k, _ => 0xFF)
  {
    hide Low, Shr;
    if k > 0 {
      var n := Pow2(8 * k) - 1;
      KnownPowers();
      Pow2Add(8, 8 * (k - 1));
      ShrLowAre(n, 8, 0x100);
      DivModIs(n, 0x100, Pow2(8 * (k - 1)) - 1, 0xFF);
      AllOnes(k - 1);
    }
  }

  lemma LongestLead(mask: seq<Byte>)
    requires |mask| == 4
    ensures Lead(0x12, mask, Pow2(64) - 1) == [0x82, 0x7F, 0xFF, 0xFF, 0xFF, 0xFF, 0xFF, 0xFF, 0xFF, 0xFF]
  {
    hide BigEndian;
    KnownPowers();
    AllOnes(8);
    assert Low(0x12, 4) == 2 && Bit(0x12, 4) && !Masked(0x12);
  }

  /** The input 82 7F FF FF FF FF FF FF FF FF and any byte is not read straight, wherever it lies. */
  lemma LongestLengthWraps(m: Machine, b: Byte, base: nat)
    requires Fits(m) && m.parser.phase == Start
    ensures !Straight(m, [0x82, 0x7F, 0xFF, 0xFF, 0xFF, 0xFF, 0xFF, 0xFF, 0xFF, 0xFF, b], base)
  {
    hide Lead, Straight, Fits;
    KnownPowers();
    LongestLead([0, 0, 0, 0]);
    var lead := Lead(0x12, [0, 0, 0, 0], Pow2(64) - 1);
    FrameIsStraight(m, 0x12, [0, 0, 0, 0], Pow2(64) - 1, [b], base);
    assert lead + [b] == [0x82, 0x7F, 0xFF, 0xFF, 0xFF, 0xFF, 0xFF, 0xFF, 0xFF, 0xFF, b];
  }
}
