/** The websocket frame parser, fed with any pieces of a byte stream (section 5.2 of RFC 6455). */
module WebSocket {
  import opened Bits
  import opened BitStrings

  const FIN: nat := 0x10
  const HAS_MASK: nat := 0x20
  const WORD: nat := 0x1_0000_0000_0000_0000    // addresses and sizes have 64 bits

  datatype Phase = Start | Head | Length | Mask | Body

  /** The fields of `websocket_parser`. */
  datatype Parser = Parser(
    phase: Phase, flags: nat, mask: seq<Byte>, maskOffset: nat, length: nat, require_: nat, offset: nat)

  predicate Masked(flags: nat) {
    Bit(flags, 5)
  }

  /* What the application is told, and what it can put together from it */

  datatype Event =
    | FrameHeader(flags: nat, length: nat, mask: seq<Byte>)
    | FrameBody(offset: nat, bytes: seq<Byte>)
    | FrameBodyPast(offset: nat, length: nat)    // a piece that runs past the end of the data
    | FrameEnd

  datatype Frame = Frame(flags: nat, length: nat, mask: seq<Byte>, payload: seq<Byte>, open: bool)

  /** The frames so far, or torn, if a piece of a body did not belong where its offset puts it. */
  datatype Frames = Frames(list: seq<Frame>) | Torn

  datatype Option<+T> = None | Some(value: T)

  function Apply(fs: Frames, e: Event): Frames {
    if fs.Torn? then Torn else
    match e
    case FrameHeader(flags, length, mask) => Frames(fs.list + [Frame(flags, length, mask, [], true)])
    case FrameBody(offset, bytes) =>
      if fs.list != [] && fs.list[|fs.list| - 1].open && |fs.list[|fs.list| - 1].payload| == offset
      then var last := fs.list[|fs.list| - 1];
           Frames(fs.list[|fs.list| - 1 := last.(payload := last.payload + bytes)])
      else Torn
    case FrameBodyPast(_, _) => Torn
    case FrameEnd =>
      if fs.list != [] && fs.list[|fs.list| - 1].open
         && |fs.list[|fs.list| - 1].payload| == fs.list[|fs.list| - 1].length
      then Frames(fs.list[|fs.list| - 1 := fs.list[|fs.list| - 1].(open := false)])
      else Torn
  }

  function Assemble(fs: Frames, events: seq<Event>): Frames {
    if events == [] then fs else Apply(Assemble(fs, events[..|events| - 1]), events[|events| - 1])
  }

  /** What is torn stays so, whatever is told afterwards. */
  lemma {:induction false} TornStays(fs: Frames, events: seq<Event>)
    requires fs.Torn?
    ensures Assemble(fs, events).Torn?
  {
    if events != [] {
      TornStays(fs, events[..|events| - 1]);
    }
  }

  /* One byte at a time */

  datatype Machine = Machine(parser: Parser, frames: Frames)

  function HeaderOf(p: Parser): Event {
    FrameHeader(p.flags, p.length, if Masked(p.flags) then p.mask else [])
  }

  /** The header is complete: a body follows, or the frame is empty and ends. */
  function HeaderDone(p: Parser, fs: Frames): Machine {
    var seen := Apply(fs, HeaderOf(p));
    if p.length > 0 then Machine(p.(phase := Body, require_ := p.length), seen)
    else Machine(p.(phase := Start), Apply(seen, FrameEnd))
  }

  /** `length << 8 | b` in a word of 64 bits. */
  function ShiftIn(length: nat, b: Byte): nat {
    Join(b, 8, Low(length, 56))
  }

  function LengthDone(p: Parser, fs: Frames): Machine {
    if Masked(p.flags) then Machine(p.(phase := Mask, require_ := 4), fs) else HeaderDone(p, fs)
  }

  function Step(m: Machine, b: Byte): Machine {
    var p := m.parser;
    match p.phase
    case Start =>
      var flags := Low(b, 4) + (if Bit(b, 7) then FIN else 0);
      Machine(p.(phase := Head, flags := flags, maskOffset := 0, length := 0, offset := 0), m.frames)
    case Head =>
      var flags := if Bit(b, 7) && !Masked(p.flags) then p.flags + HAS_MASK else p.flags;
      var length := Low(b, 7);
      if length >= 126
      then Machine(p.(phase := Length, flags := flags, length := 0, require_ := if length == 127 then 8 else 2),
                   m.frames)
      else LengthDone(p.(flags := flags, length := length), m.frames)
    case Length =>
      if p.require_ == 0 then m else
      var q := p.(length := ShiftIn(p.length, b), require_ := p.require_ - 1);
      if q.require_ == 0 then LengthDone(q, m.frames) else Machine(q, m.frames)
    case Mask =>
      if p.require_ == 0 || p.require_ > 4 || |p.mask| != 4 then m else
      var q := p.(mask := p.mask[4 - p.require_ := b], require_ := p.require_ - 1);
      if q.require_ == 0 then HeaderDone(q, m.frames) else Machine(q, m.frames)
    case Body =>
      if p.require_ == 0 then m else
      var seen := Apply(m.frames, FrameBody(p.offset, [b]));
      if p.require_ == 1 then Machine(p.(phase := Start, require_ := 0, offset := 0), Apply(seen, FrameEnd))
      else Machine(p.(require_ := p.require_ - 1, offset := p.offset + 1), seen)
  }

  function Run(m: Machine, bytes: seq<Byte>): Machine {
    if bytes == [] then m else Step(Run(m, bytes[..|bytes| - 1]), bytes[|bytes| - 1])
  }

  /** Where a stream is cut does not matter. */
  lemma {:induction false} RunAppend(m: Machine, a: seq<Byte>, b: seq<Byte>)
    ensures Run(m, a + b) == Run(Run(m, a), b)
    decreases |b|
  {
    if b == [] {
      assert a + b == a;
    } else {
      RunAppend(m, a, b[..|b| - 1]);
      assert (a + b)[..|a + b| - 1] == a + b[..|b| - 1];
    }
  }

  /* What every byte keeps */

  predicate Closed(fs: Frames) {
    fs.Frames? && (fs.list != [] ==> !fs.list[|fs.list| - 1].open)
  }

  predicate Open(fs: Frames, length: nat, delivered: nat) {
    && fs.Frames? && fs.list != [] && fs.list[|fs.list| - 1].open
    && fs.list[|fs.list| - 1].length == length && |fs.list[|fs.list| - 1].payload| == delivered
  }

  /** In a body the last frame is open and holds exactly the bytes before `offset`; elsewhere every frame is whole. */
  predicate Fits(m: Machine) {
    var p := m.parser;
    && |p.mask| == 4 && p.length < WORD
    && (p.phase == Body ==> 0 < p.require_ == p.length - p.offset && Open(m.frames, p.length, p.offset))
    && (p.phase != Body ==> p.offset == 0 && Closed(m.frames))
    && (p.phase == Length ==> 0 < p.require_ <= 8)
    && (p.phase == Mask ==> 0 < p.require_ <= 4)
  }

  lemma HeaderDoneFits(p: Parser, fs: Frames)
    requires |p.mask| == 4 && p.offset == 0 && p.length < WORD && Closed(fs)
    ensures Fits(HeaderDone(p, fs))
  {
  }

  lemma LengthsFit(length: nat, b: Byte)
    ensures Low(b, 7) < WORD && ShiftIn(length, b) < WORD
  {
    KnownPowers();
    Pow2LessEq(7, 8);
    LowBound(b, 7);
    LowBound(length, 56);
    JoinBound(b, 8, Low(length, 56), 56);
  }

  lemma StepFits(m: Machine, b: Byte)
    requires Fits(m)
    ensures Fits(Step(m, b))
  {
    hide Bit, Masked, ShiftIn, HeaderDone;
    var p := m.parser;
    LengthsFit(p.length, b);
    match p.phase
    case Head =>
      var flags := if Bit(b, 7) && !Masked(p.flags) then p.flags + HAS_MASK else p.flags;
      HeaderDoneFits(p.(flags := flags, length := Low(b, 7)), m.frames);
    case Length =>
      HeaderDoneFits(p.(length := ShiftIn(p.length, b), require_ := p.require_ - 1), m.frames);
    case Mask =>
      HeaderDoneFits(p.(mask := p.mask[4 - p.require_ := b], require_ := p.require_ - 1), m.frames);
    case _ =>
  }

  /** However the stream goes on, no piece of a body is ever out of place. */
  lemma {:induction false} RunFits(m: Machine, bytes: seq<Byte>)
    requires Fits(m)
    ensures Fits(Run(m, bytes))
  {
    if bytes != [] {
      RunFits(m, bytes[..|bytes| - 1]);
      StepFits(Run(m, bytes[..|bytes| - 1]), bytes[|bytes| - 1]);
    }
  }

  /* A body in one piece */

  lemma PiecesJoin(fs: Frames, length: nat, offset: nat, a: seq<Byte>, b: seq<Byte>)
    requires Open(fs, length, offset)
    ensures Apply(Apply(fs, FrameBody(offset, a)), FrameBody(offset + |a|, b)) == Apply(fs, FrameBody(offset, a + b))
    ensures Open(Apply(fs, FrameBody(offset, a)), length, offset + |a|)
  {
    var last := fs.list[|fs.list| - 1];
    assert last.payload + a + b == last.payload + (a + b);
  }

  function BodyDone(p: Parser, fs: Frames, piece: seq<Byte>): Machine {
    var seen := Apply(fs, FrameBody(p.offset, piece));
    if |piece| < p.require_
    then Machine(p.(require_ := p.require_ - |piece|, offset := p.offset + |piece|), seen)
    else Machine(p.(phase := Start, require_ := 0, offset := 0), Apply(seen, FrameEnd))
  }

  /** A piece told to the application at once is what its bytes one by one amount to. */
  lemma {:induction false} RunBody(m: Machine, piece: seq<Byte>)
    requires Fits(m) && m.parser.phase == Body && 0 < |piece| <= m.parser.require_
    ensures Run(m, piece) == BodyDone(m.parser, m.frames, piece)
    decreases |piece|
  {
    var p, front, b := m.parser, piece[..|piece| - 1], piece[|piece| - 1];
    assert piece == front + [b];
    if front == [] {
      assert piece == [b];
    } else {
      RunBody(m, front);
      PiecesJoin(m.frames, p.length, p.offset, front, [b]);
    }
  }

  /* Where the data lie */

  /** The test for the end of a body adds the bytes still wanted to an address: here the sum does not wrap. */
  predicate StaysInWord(m: Machine, address: nat) {
    m.parser.phase == Body ==> address + m.parser.require_ < WORD
  }

  /** So it is wherever a body is read, with the data at `base`. */
  predicate Straight(m: Machine, data: seq<Byte>, base: nat) {
    forall k :: 0 <= k < |data| ==> StaysInWord(Run(m, data[..k]), base + k)
  }

  /** The address at which a body ends is the same seen from each of its bytes. */
  lemma {:induction false} StraightBody(m: Machine, piece: seq<Byte>, base: nat)
    requires Fits(m) && m.parser.phase == Body && 0 < |piece| <= m.parser.require_
    ensures Straight(m, piece, base) <==> base + m.parser.require_ < WORD
  {
    assert piece[..0] == [];
    forall k | 0 <= k < |piece| ensures StaysInWord(Run(m, piece[..k]), base + k) <==> base + m.parser.require_ < WORD {
      if k > 0 { RunBody(m, piece[..k]); }
    }
    assert StaysInWord(Run(m, piece[..0]), base + 0) <==> base + m.parser.require_ < WORD;
  }

  lemma StraightAppend(m: Machine, a: seq<Byte>, b: seq<Byte>, base: nat)
    ensures Straight(m, a + b, base) <==> Straight(m, a, base) && Straight(Run(m, a), b, base + |a|)
  {
    forall k | 0 <= k < |a| ensures (a + b)[..k] == a[..k] {
    }
    forall k | 0 <= k < |b|
      ensures Run(m, (a + b)[..|a| + k]) == Run(Run(m, a), b[..k])
    {
      assert (a + b)[..|a| + k] == a + b[..k];
      RunAppend(m, a, b[..k]);
    }
    if Straight(m, a + b, base) {
      forall k | 0 <= k < |a| ensures StaysInWord(Run(m, a[..k]), base + k) {
        assert StaysInWord(Run(m, (a + b)[..k]), base + k);
      }
      forall k | 0 <= k < |b| ensures StaysInWord(Run(Run(m, a), b[..k]), base + |a| + k) {
        assert StaysInWord(Run(m, (a + b)[..|a| + k]), base + (|a| + k));
      }
    }
    if Straight(m, a, base) && Straight(Run(m, a), b, base + |a|) {
      forall k | 0 <= k < |a + b| ensures StaysInWord(Run(m, (a + b)[..k]), base + k) {
        if k < |a| {
          assert StaysInWord(Run(m, a[..k]), base + k);
        } else {
          assert StaysInWord(Run(Run(m, a), b[..k - |a|]), base + |a| + (k - |a|));
        }
      }
    }
  }

  /** While length or mask bytes are wanted, they are counted down. */
  lemma {:induction false} CountsDown(m: Machine, piece: seq<Byte>)
    requires Fits(m) && (m.parser.phase == Length || m.parser.phase == Mask) && |piece| < m.parser.require_
    ensures var p := Run(m, piece).parser;
            p.phase == m.parser.phase && p.require_ == m.parser.require_ - |piece|
  {
    if piece != [] {
      CountsDown(m, piece[..|piece| - 1]);
      RunFits(m, piece[..|piece| - 1]);
    }
  }

  /** The bytes one turn of the loop takes outside a body; nothing is added to an address there. */
  predicate TakenTogether(m: Machine, count: nat) {
    match m.parser.phase
    case Body => false
    case Length => count <= m.parser.require_
    case Mask => count <= m.parser.require_
    case _ => count <= 1
  }

  lemma StraightPart(m: Machine, piece: seq<Byte>, base: nat)
    requires Fits(m) && TakenTogether(m, |piece|)
    ensures Straight(m, piece, base)
  {
    forall k | 0 <= k < |piece| ensures StaysInWord(Run(m, piece[..k]), base + k) {
      if k == 0 {
        assert piece[..0] == [];
      } else {
        CountsDown(m, piece[..k]);
      }
    }
  }

  /** A stream that does not end within a body reaches the end of each of its bodies before its own. */
  lemma WholeFramesAreStraight(m: Machine, data: seq<Byte>, base: nat)
    requires Fits(m) && Run(m, data).parser.phase != Body && base + |data| < WORD
    ensures Straight(m, data, base)
  {
    forall k | 0 <= k < |data| ensures StaysInWord(Run(m, data[..k]), base + k) {
      var here, rest := Run(m, data[..k]), data[k..];
      assert data == data[..k] + rest;
      RunAppend(m, data[..k], rest);
      RunFits(m, data[..k]);
      if here.parser.phase == Body && |rest| < here.parser.require_ {
        RunBody(here, rest);
      }
    }
  }

  /** Lengths without their top bit are harmless in the lower half of the addresses. */
  lemma ShortLengthsAreStraight(m: Machine, data: seq<Byte>, base: nat)
    requires base + |data| <= WORD / 2
    requires forall k :: 0 <= k < |data| ==> Run(m, data[..k]).parser.require_ <= WORD / 2
    ensures Straight(m, data, base)
  {
    forall k | 0 <= k < |data| ensures StaysInWord(Run(m, data[..k]), base + k) {
      assert Run(m, data[..k]).parser.require_ <= WORD / 2;
    }
  }

  /* The loop over a piece of the stream */

  class WsParser {
    var phase: Phase
    var flags: nat
    const mask: array<Byte>
    var maskOffset: nat
    var length: nat
    var require_: nat
    var offset: nat
    var events: seq<Event>        // the calls made to the application, which returns 0 from each

    /** The offset means nothing between frames. */
    ghost function View(): Parser
      reads this, mask
    {
      Parser(phase, flags, mask[..], maskOffset, length, require_, if phase == Start then 0 else offset)
    }

    ghost function Now(): Machine
      reads this, mask
    {
      Machine(View(), Assemble(Frames([]), events))
    }

    ghost predicate Valid()
      reads this, mask
    {
      mask.Length == 4 && Fits(Now())
    }

    /** websocket_parser_init */
    constructor ()
      ensures Valid() && fresh(mask) && phase == Start && events == []
    {
      phase := Start;
      flags, maskOffset, length, require_, offset := 0, 0, 0, 0, 0;
      mask := new Byte[4](_ => 0);
      events := [];
    }

    method Notify(e: Event)
      modifies this`events
      ensures events == old(events) + [e]
      ensures Assemble(Frames([]), events) == Apply(old(Assemble(Frames([]), events)), e)
    {
      events := events + [e];
    }

    /** The end of the header, in each of the three places that find it. */
    method EndHeader()
      requires mask.Length == 4 && phase != Start && offset == 0
      modifies this`phase, this`require_, this`events
      ensures Now() == HeaderDone(old(View()), old(Now()).frames)
    {
      ghost var header := HeaderOf(View());
      if length > 0 {
        phase := Body;
        require_ := length;
        Notify(FrameHeader(flags, length, if Masked(flags) then mask[..] else []));
      } else {
        phase := Start;
        Notify(FrameHeader(flags, length, if Masked(flags) then mask[..] else []));
        Notify(FrameEnd);
      }
    }

    method StartByte(c: Byte)
      requires Valid() && phase == Start
      modifies this
      ensures Now() == Step(old(Now()), c) && Valid()
    {
      StepFits(Now(), c);
      offset, length, maskOffset := 0, 0, 0;
      flags := Low(c, 4);
      if Bit(c, 7) { flags := flags + FIN; }
      phase := Head;
    }

    method HeadByte(c: Byte)
      requires Valid() && phase == Head
      modifies this
      ensures Now() == Step(old(Now()), c) && Valid()
    {
      StepFits(Now(), c);
      length := Low(c, 7);
      if Bit(c, 7) && !Masked(flags) { flags := flags + HAS_MASK; }
      if length >= 126 {
        require_ := if length == 127 then 8 else 2;
        length := 0;
        phase := Length;
      } else if Masked(flags) {
        phase := Mask;
        require_ := 4;
      } else {
        EndHeader();
      }
    }

    /** One turn of the loop over length bytes. */
    method LengthByte(c: Byte)
      requires Valid() && phase == Length
      modifies this`length, this`require_
      ensures require_ == old(require_) - 1
      ensures require_ > 0 ==> Valid() && Now() == Step(old(Now()), c)
      ensures require_ == 0 ==> LengthDone(View(), Now().frames) == Step(old(Now()), c)
    {
      StepFits(Now(), c);
      length := ShiftIn(length, c);
      require_ := require_ - 1;
    }

    method EndLength()
      requires mask.Length == 4 && phase == Length && offset == 0
      modifies this`phase, this`require_, this`events
      ensures Now() == LengthDone(old(View()), old(Now()).frames)
    {
      if Masked(flags) {
        phase := Mask;
        require_ := 4;
      } else {
        EndHeader();
      }
    }

    /** The inner loop over length bytes, and what follows if it reads them all. */
    method LengthBytes(data: seq<Byte>, start: nat, frameOffset0: nat) returns (p: nat, frameOffset: nat)
      requires Valid() && phase == Length && start < |data|
      modifies this
      ensures Valid() && start < p <= |data| && frameOffset == frameOffset0 + (p - start)
      ensures TakenTogether(old(Now()), p - start) && Now() == Run(old(Now()), data[start..p])
    {
      hide LengthDone, Step, Closed;
      p, frameOffset := start, frameOffset0;
      ghost var before := Now();
      while p < |data| && require_ > 0
        invariant start <= p <= |data| && frameOffset == frameOffset0 + (p - start)
        invariant require_ + (p - start) == old(require_)
        invariant mask.Length == 4 && phase == Length && offset == 0 && (p == start ==> require_ > 0)
        invariant require_ > 0 ==> Valid() && Now() == Run(before, data[start..p])
        invariant require_ == 0 ==> LengthDone(View(), Now().frames) == Run(before, data[start..p])
      {
        assert data[start..p + 1] == data[start..p] + [data[p]];
        LengthByte(data[p]);
        frameOffset := frameOffset + 1;
        p := p + 1;
      }
      RunFits(before, data[start..p]);
      if require_ == 0 {
        EndLength();
      }
    }

    /** One turn of the loop over mask bytes. */
    method MaskByte(c: Byte)
      requires Valid() && phase == Mask
      modifies this`require_, mask
      ensures require_ == old(require_) - 1
      ensures require_ > 0 ==> Valid() && Now() == Step(old(Now()), c)
      ensures require_ == 0 ==> HeaderDone(View(), Now().frames) == Step(old(Now()), c)
    {
      StepFits(Now(), c);
      mask[4 - require_] := c;
      require_ := require_ - 1;
    }

    /** The inner loop over mask bytes, and what follows if it reads them all. */
    method MaskBytes(data: seq<Byte>, start: nat, frameOffset0: nat) returns (p: nat, frameOffset: nat)
      requires Valid() && phase == Mask && start < |data|
      modifies this, mask
      ensures Valid() && start < p <= |data| && frameOffset == frameOffset0 + (p - start)
      ensures TakenTogether(old(Now()), p - start) && Now() == Run(old(Now()), data[start..p])
    {
      hide HeaderDone, Step, Apply;
      p, frameOffset := start, frameOffset0;
      ghost var before := Now();
      while p < |data| && require_ > 0
        invariant start <= p <= |data| && frameOffset == frameOffset0 + (p - start)
        invariant require_ + (p - start) == old(require_)
        invariant mask.Length == 4 && phase == Mask && offset == 0 && (p == start ==> require_ > 0)
        invariant require_ > 0 ==> Valid() && Now() == Run(before, data[start..p])
        invariant require_ == 0 ==> HeaderDone(View(), Now().frames) == Run(before, data[start..p])
      {
        assert data[start..p + 1] == data[start..p] + [data[p]];
        MaskByte(data[p]);
        frameOffset := frameOffset + 1;
        p := p + 1;
      }
      RunFits(before, data[start..p]);
      if require_ == 0 {
        EndHeader();
      }
    }

    method BodyEnds(piece: seq<Byte>)
      requires Valid() && phase == Body && |piece| == require_
      modifies this`require_, this`phase, this`events
      ensures Now() == BodyDone(old(View()), old(Now()).frames, piece)
    {
      Notify(FrameBody(offset, piece));
      require_ := 0;
      Notify(FrameEnd);
      phase := Start;
    }

    method BodyGoesOn(piece: seq<Byte>, frameOffset: nat, p: nat)
      requires Valid() && phase == Body && |piece| < require_ && p - frameOffset == |piece|
      modifies this`require_, this`offset, this`events
      ensures Now() == BodyDone(old(View()), old(Now()).frames, piece)
    {
      Notify(FrameBody(offset, piece));
      require_ := require_ - |piece|;
      offset := offset + p - frameOffset;
    }

    /** The sum of address and length has wrapped: the piece runs past the data. */
    method BodyRunsPast()
      requires Valid() && phase == Body
      modifies this`require_, this`phase, this`events
      ensures Now().frames.Torn?
    {
      Notify(FrameBodyPast(offset, require_));
      require_ := 0;
      Notify(FrameEnd);
      phase := Start;
    }

    /** The rest of the body, or all the data there is: told to the application in one piece. If the sum wraps,
        the position moves back. */
    method BodyBytes(data: seq<Byte>, base: nat, start: nat, frameOffset0: nat) returns (p: int, frameOffset: int)
      requires Valid() && phase == Body && start < |data| && frameOffset0 == start && base + |data| < WORD
      modifies this
      ensures p > start <==> StaysInWord(old(Now()), base + start)
      ensures p > start ==> p - start <= old(require_) && p <= |data| && (frameOffset == p || p == |data|)
      ensures p > start ==> Valid() && Now() == Run(old(Now()), data[start..p])
      ensures p <= start ==> p == start + old(require_) - WORD && Now().frames.Torn?
    {
      if (base + start + require_) % WORD <= base + |data| {
        if base + start + require_ >= WORD {
          p := start + require_ - WORD;
          BodyRunsPast();
        } else {
          p := start + require_;
          RunBody(Now(), data[start..p]);
          RunFits(Now(), data[start..p]);
          BodyEnds(data[start..p]);
        }
        frameOffset := p;
      } else {
        p := |data|;
        RunBody(Now(), data[start..p]);
        RunFits(Now(), data[start..p]);
        BodyGoesOn(data[start..p], frameOffset0, p);
        frameOffset := 0;
      }
    }

    /** websocket_parser_execute on data at the address `base`: the state and the frames are those of reading the
        bytes one by one, and all data are consumed, exactly if no sum wraps. Otherwise the application is told of
        a piece that is not in the data; the model stops there, at the position the parser has moved back to. */
    method Execute(data: seq<Byte>, base: nat) returns (nparsed: int)
      requires Valid() && base + |data| < WORD
      modifies this, mask
      ensures nparsed == |data| <==> Straight(old(Now()), data, base)
      ensures Straight(old(Now()), data, base) ==> Valid() && Now() == Run(old(Now()), data)
      ensures !Straight(old(Now()), data, base) ==> Now().frames.Torn?
    {
      var p, frameOffset: int := 0, 0;
      ghost var before := Now();
      assert data[..0] == [];
      while p != |data|
        invariant 0 <= p <= |data| && Valid() && (frameOffset == p || p == |data|)
        invariant Now() == Run(before, data[..p]) && Straight(before, data[..p], base)
        decreases |data| - p
      {
        var at := p;
        match phase {
          case Start =>
            StartByte(data[p]);
            p, frameOffset := p + 1, frameOffset + 1;
          case Head =>
            HeadByte(data[p]);
            p, frameOffset := p + 1, frameOffset + 1;
          case Length =>
            p, frameOffset := LengthBytes(data, p, frameOffset);
          case Mask =>
            p, frameOffset := MaskBytes(data, p, frameOffset);
          case Body =>
            p, frameOffset := BodyBytes(data, base, p, frameOffset);
            if p <= at {
              assert !StaysInWord(Run(before, data[..at]), base + at);
              return p;
            }
        }
        RunOn(before, data, base, at, p);
      }
      assert data[..p] == data;
      nparsed := p;
    }
  }

  function Concat(pieces: seq<seq<Byte>>): seq<Byte> {
    if pieces == [] then [] else Concat(pieces[..|pieces| - 1]) + pieces[|pieces| - 1]
  }

  /** No sum wraps in any of the calls, whose data lie at `bases`. */
  predicate AllStraight(m: Machine, pieces: seq<seq<Byte>>, bases: seq<nat>)
    requires |bases| == |pieces|
  {
    forall i :: 0 <= i < |pieces| ==> Straight(Run(m, Concat(pieces[..i])), pieces[i], bases[i])
  }

  lemma NextPiece(m: Machine, pieces: seq<seq<Byte>>, i: nat)
    requires i < |pieces|
    ensures Run(m, Concat(pieces[..i + 1])) == Run(Run(m, Concat(pieces[..i])), pieces[i])
  {
    assert pieces[..i + 1][..i] == pieces[..i];
    RunAppend(m, Concat(pieces[..i]), pieces[i]);
  }

  lemma NeverTorn(m: Machine, bytes: seq<Byte>)
    requires Fits(m)
    ensures Run(m, bytes).frames.Frames?
  {
    RunFits(m, bytes);
  }

  /** A split of a stream into calls leads to the state and the frames of reading it byte by byte, exactly if no
      sum wraps. */
  method ExecuteAll(parser: WsParser, pieces: seq<seq<Byte>>, bases: seq<nat>) returns (read: nat)
    requires parser.Valid() && |bases| == |pieces|
    requires forall i :: 0 <= i < |pieces| ==> bases[i] + |pieces[i]| < WORD
    modifies parser, parser.mask
    ensures read == |pieces| <==> AllStraight(old(parser.Now()), pieces, bases)
    ensures read == |pieces| ==> parser.Valid() && parser.Now() == Run(old(parser.Now()), Concat(pieces))
    ensures parser.Now().frames == Run(old(parser.Now()), Concat(pieces)).frames
            <==> AllStraight(old(parser.Now()), pieces, bases)
  {
    hide Run, Fits, Straight, Concat;
    read := 0;
    ghost var before := parser.Now();
    NeverTorn(before, Concat(pieces));
    RunNothing(before);
    while read < |pieces|
      invariant 0 <= read <= |pieces| && parser.Valid()
      invariant parser.Now() == Run(before, Concat(pieces[..read]))
      invariant forall i :: 0 <= i < read ==> Straight(Run(before, Concat(pieces[..i])), pieces[i], bases[i])
    {
      NextPiece(before, pieces, read);
      var nparsed := parser.Execute(pieces[read], bases[read]);
      if nparsed != |pieces[read]| { return; }
      read := read + 1;
    }
    assert pieces[..read] == pieces;
  }

  lemma RunNothing(m: Machine)
    ensures Run(m, Concat([])) == m
  {
  }

  lemma RunOn(m: Machine, data: seq<Byte>, base: nat, at: nat, p: nat)
    requires at < p <= |data| && Fits(m) && Straight(m, data[..at], base)
    requires var here := Run(m, data[..at]);
             || TakenTogether(here, p - at)
             || (StaysInWord(here, base + at) && here.parser.phase == Body && p - at <= here.parser.require_)
    ensures Run(m, data[..p]) == Run(Run(m, data[..at]), data[at..p])
    ensures p == at + 1 ==> Run(m, data[..p]) == Step(Run(m, data[..at]), data[at])
    ensures Straight(m, data[..p], base)
  {
    assert data[..p] == data[..at] + data[at..p];
    RunAppend(m, data[..at], data[at..p]);
    RunFits(m, data[..at]);
    var here := Run(m, data[..at]);
    if here.parser.phase == Body { StraightBody(here, data[at..p], base + at); }
    else { StraightPart(here, data[at..p], base + at); }
    StraightAppend(m, data[..at], data[at..p], base);
    if p == at + 1 {
      assert data[..p][..at] == data[..at];
    }
  }
}
