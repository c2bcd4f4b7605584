/** The body framing of the HTTP parser: a body of known length, one that lasts until the end of the connection,
    or a chunked body with an empty trailer (section 4.1 of RFC 7230). The parser is compiled in strict mode. */
module HttpBody {
  import opened BitStrings

  const CR: Byte := 13
  const LF: Byte := 10
  const MAX_HEADER_SIZE: nat := 80 * 1024
  const ULLONG_MAX: nat := 0xFFFF_FFFF_FFFF_FFFF

  /** The states that deal with a body. `Trailer` is the start of a trailer line; a trailer that is not
      empty leads `Elsewhere`, to the states that read header lines. */
  datatype Phase =
    | Identity | IdentityEof
    | SizeStart | Size | Parameters | SizeAlmostDone | Data | DataAlmostDone | DataDone
    | Trailer | TrailerAlmostDone
    | Done | Elsewhere

  datatype Errno = OK | InvalidChunkSize | InvalidContentLength | HeaderOverflow | Strict | InvalidEofState

  /** The notifications, other than the bytes of the body. */
  datatype Note = ChunkHeader(length: nat) | ChunkComplete | MessageComplete

  datatype State = State(phase: Phase, errno: Errno, contentLength: nat, nread: nat, body: seq<Byte>, notes: seq<Note>)

  /** These states count towards the size of the header. */
  predicate ParsingHeader(phase: Phase) {
    || phase.SizeStart? || phase.Size? || phase.Parameters? || phase.SizeAlmostDone?
    || phase.Trailer? || phase.TrailerAlmostDone?
  }

  /** -1 if the byte is not a hexadecimal digit. */
  function Unhex(b: Byte): int {
    if 48 <= b <= 57 then b - 48 else if 65 <= b <= 70 then b - 55 else if 97 <= b <= 102 then b - 87 else -1
  }

  predicate Stopped(s: State) {
    s.errno != OK || s.phase.Done? || s.phase.Elsewhere?
  }

  function Fail(s: State, e: Errno): State {
    s.(errno := e)
  }

  function Notified(s: State, n: Note): State {
    s.(notes := s.notes + [n])
  }

  function Step(s: State, b: Byte): State {
    if Stopped(s) then s else
    var s := if ParsingHeader(s.phase) then s.(nread := s.nread + 1) else s;
    if s.nread > MAX_HEADER_SIZE && ParsingHeader(s.phase) then Fail(s, HeaderOverflow) else Act(s, b)
  }

  /** What the states do, the byte being counted. */
  function Act(s: State, b: Byte): State {
    match s.phase
    case Identity =>
      var t := s.(body := s.body + [b], contentLength := if s.contentLength > 0 then s.contentLength - 1 else 0);
      if t.contentLength == 0 then Notified(t.(phase := Done), MessageComplete) else t
    case IdentityEof => s.(body := s.body + [b])
    case SizeStart =>
      if Unhex(b) < 0 then Fail(s, InvalidChunkSize) else s.(phase := Size, contentLength := Unhex(b))
    case Size =>
      if b == CR then s.(phase := SizeAlmostDone)
      else if Unhex(b) < 0 then (if b == 59 || b == 32 then s.(phase := Parameters) else Fail(s, InvalidChunkSize))
      else if s.contentLength > (ULLONG_MAX - 16) / 16 then Fail(s, InvalidContentLength)
      else s.(contentLength := s.contentLength * 16 + Unhex(b))
    case Parameters => if b == CR then s.(phase := SizeAlmostDone) else s
    case SizeAlmostDone =>
      if b != LF then Fail(s, Strict)
      else
        Notified(s.(nread := 0, phase := if s.contentLength == 0 then Trailer else Data), ChunkHeader(s.contentLength))
    case Data =>
      var t := s.(body := s.body + [b], contentLength := if s.contentLength > 0 then s.contentLength - 1 else 0);
      if t.contentLength == 0 then t.(phase := DataAlmostDone) else t
    case DataAlmostDone => if b != CR then Fail(s, Strict) else s.(phase := DataDone)
    case DataDone => if b != LF then Fail(s, Strict) else Notified(s.(nread := 0, phase := SizeStart), ChunkComplete)
    case Trailer =>
      if b == CR then s.(phase := TrailerAlmostDone)
      else if b == LF then Finished(s)
      else s.(phase := Elsewhere)
    case TrailerAlmostDone => if b != LF then Fail(s, Strict) else Finished(s)
    case Done => s
    case Elsewhere => s
  }

  function Finished(s: State): State {
    Notified(Notified(s.(phase := Done), ChunkComplete), MessageComplete)
  }

  function Run(s: State, bytes: seq<Byte>): State
    decreases |bytes|
  {
    if bytes == [] then s else Run(Step(s, bytes[0]), bytes[1..])
  }

  /** The bytes a call takes: up to the end of the message, or up to the byte that is an error. */
  function Taken(s: State, bytes: seq<Byte>): nat
    decreases |bytes|
  {
    if bytes == [] || Stopped(s) then 0
    else if Step(s, bytes[0]).errno != OK || Step(s, bytes[0]).phase.Elsewhere? then 0
    else 1 + Taken(Step(s, bytes[0]), bytes[1..])
  }

  lemma {:induction false} RunAppend(s: State, a: seq<Byte>, b: seq<Byte>)
    ensures Run(s, a + b) == Run(Run(s, a), b)
    decreases |a|
  {
    if a == [] {
      assert a + b == b;
    } else {
      RunAppend(Step(s, a[0]), a[1..], b);
      assert (a + b)[1..] == a[1..] + b;
    }
  }

  lemma {:induction false} RunStopped(s: State, bytes: seq<Byte>)
    requires Stopped(s)
    ensures Run(s, bytes) == s
    decreases |bytes|
  {
    if bytes != [] {
      RunStopped(s, bytes[1..]);
    }
  }

  /* What every byte keeps: the conditions the source asserts */

  predicate Inv(s: State) {
    && (s.phase.SizeStart? ==> s.nread == 0 || s.errno != OK)
    && s.contentLength < ULLONG_MAX
    && (s.phase.Data? || s.phase.Identity? ==> s.contentLength > 0)
    && (s.phase.DataAlmostDone? || s.phase.DataDone? ==> s.contentLength == 0)
    && (s.errno == OK ==> s.nread <= MAX_HEADER_SIZE)
  }

  /** The size of a chunk never wraps around, nor reaches the value that stands for no length at all. */
  lemma StepInv(s: State, b: Byte)
    requires Inv(s)
    ensures Inv(Step(s, b))
  {
  }

  lemma {:induction false} RunInv(s: State, bytes: seq<Byte>)
    requires Inv(s)
    ensures Inv(Run(s, bytes))
    decreases |bytes|
  {
    if bytes != [] {
      StepInv(s, bytes[0]);
      RunInv(Step(s, bytes[0]), bytes[1..]);
    }
  }

  /* Body bytes in one piece */

  function DataRead(s: State, bytes: seq<Byte>): State {
    var t := s.(body := s.body + bytes);
    if |bytes| < s.contentLength then t.(contentLength := s.contentLength - |bytes|)
    else if s.phase.Data? then t.(contentLength := 0, phase := DataAlmostDone)
    else Notified(t.(contentLength := 0, phase := Done), MessageComplete)
  }

  lemma {:induction false} RunData(s: State, bytes: seq<Byte>)
    requires !Stopped(s) && (s.phase.Data? || s.phase.Identity?) && 0 < |bytes| <= s.contentLength
    ensures Run(s, bytes) == DataRead(s, bytes)
    ensures Taken(s, bytes) == |bytes|
    decreases |bytes|
  {
    var t := Step(s, bytes[0]);
    assert s.body + [bytes[0]] + bytes[1..] == s.body + bytes;
    if |bytes| > 1 {
      RunData(t, bytes[1..]);
    } else {
      assert bytes[1..] == [] && s.body + [bytes[0]] == s.body + bytes;
    }
  }

  lemma {:induction false} RunEof(s: State, bytes: seq<Byte>)
    requires !Stopped(s) && s.phase.IdentityEof?
    ensures Run(s, bytes) == s.(body := s.body + bytes) && Taken(s, bytes) == |bytes|
    decreases |bytes|
  {
    if bytes != [] {
      RunEof(Step(s, bytes[0]), bytes[1..]);
      assert s.body + [bytes[0]] + bytes[1..] == s.body + bytes;
    } else {
      assert s.body + bytes == s.body;
    }
  }

  lemma {:induction false} TakenAppend(s: State, a: seq<Byte>, b: seq<Byte>)
    requires Taken(s, a) == |a|
    ensures Taken(s, a + b) == |a| + Taken(Run(s, a), b)
    decreases |a|
  {
    if a == [] {
      assert a + b == b;
    } else {
      TakenAppend(Step(s, a[0]), a[1..], b);
      assert (a + b)[1..] == a[1..] + b;
    }
  }

  /** The body bytes of a call that are not delivered, because they are still marked when the byte after a
      chunk turns out not to be a carriage return. `marked` are those marked before `bytes`. */
  function Unsent(s: State, marked: seq<Byte>, bytes: seq<Byte>): seq<Byte>
    decreases |bytes|
  {
    if bytes == [] || Stopped(s) then []
    else if s.phase.DataAlmostDone? then (if bytes[0] != CR then marked else Unsent(Step(s, bytes[0]), [], bytes[1..]))
    else Unsent(Step(s, bytes[0]), if s.phase.Data? then marked + [bytes[0]] else marked, bytes[1..])
  }

  lemma {:induction false} UnsentData(s: State, marked: seq<Byte>, bytes: seq<Byte>, rest: seq<Byte>)
    requires !Stopped(s) && s.phase.Data? && 0 < |bytes| <= s.contentLength
    ensures Unsent(s, marked, bytes + rest) == Unsent(DataRead(s, bytes), marked + bytes, rest)
    decreases |bytes|
  {
    var t := Step(s, bytes[0]);
    assert (bytes + rest)[1..] == bytes[1..] + rest;
    assert s.body + [bytes[0]] + bytes[1..] == s.body + bytes && marked + [bytes[0]] + bytes[1..] == marked + bytes;
    if |bytes| > 1 {
      UnsentData(t, marked + [bytes[0]], bytes[1..], rest);
    } else {
      assert bytes[1..] + rest == rest && marked + [bytes[0]] == marked + bytes;
      assert s.body + [bytes[0]] == s.body + bytes;
    }
  }

  /* The loop of http_parser_execute over these states */

  class HttpParser {
    var phase: Phase
    var errno: Errno
    var contentLength: nat
    var nread: nat
    var delivered: seq<Byte>      // what on_body was given, one call after the other
    var notes: seq<Note>          // the other calls; every call returns 0

    ghost var body: seq<Byte>     // the body bytes seen
    ghost var lost: seq<Byte>     // those of them that on_body will never be given

    ghost function View(): State
      reads this
    {
      State(phase, errno, contentLength, nread, body, notes)
    }

    /** Between calls everything seen is delivered; only an error where a chunk should end can lose bytes. */
    ghost predicate Valid()
      reads this
    {
      && Inv(View()) && body == delivered + lost
      && (lost != [] ==> errno == Strict && phase == DataAlmostDone)
    }

    /** The state after the header, for a body of each kind. */
    constructor (start: Phase, length: nat)
      requires start == SizeStart || start == IdentityEof || (start == Identity && 0 < length < ULLONG_MAX)
      ensures Valid() && View() == State(start, OK, if start == Identity then length else 0, 0, [], [])
    {
      phase, errno, nread := start, OK, 0;
      contentLength := if start == Identity then length else 0;
      delivered, notes, body, lost := [], [], [], [];
    }

    method Notify(n: Note)
      modifies this`notes
      ensures notes == old(notes) + [n]
    {
      notes := notes + [n];
    }

    /** The size of a chunk, and what may follow it. */
    method TurnSize(ch: Byte) returns (failed: bool)
      requires errno == OK && contentLength < ULLONG_MAX && (phase.SizeStart? ==> nread == 1)
      requires phase.SizeStart? || phase.Size? || phase.Parameters?
      modifies this`phase, this`errno, this`contentLength, this`nread, this`notes
      ensures View() == Act(old(View()), ch)
      ensures failed <==> errno != OK || phase.Elsewhere?
    {
      match phase {
        case SizeStart =>
          assert nread == 1;
          if Unhex(ch) == -1 { errno := InvalidChunkSize; return true; }
          contentLength := Unhex(ch);
          phase := Size;
        case Size =>
          if ch == CR {
            phase := SizeAlmostDone;
          } else if Unhex(ch) == -1 {
            if ch == 59 || ch == 32 {
              phase := Parameters;
            } else {
              errno := InvalidChunkSize;
              return true;
            }
          } else {
            if (ULLONG_MAX - 16) / 16 < contentLength { errno := InvalidContentLength; return true; }
            assert contentLength * 16 + Unhex(ch) < ULLONG_MAX;
            contentLength := contentLength * 16 + Unhex(ch);
          }
        case Parameters =>
          if ch == CR { phase := SizeAlmostDone; }
      }
      failed := false;
    }

    /** The line breaks before and behind the data of a chunk. */
    method TurnLineBreak(ch: Byte) returns (failed: bool)
      requires errno == OK && (phase.DataAlmostDone? ==> contentLength == 0)
      requires phase.SizeAlmostDone? || phase.DataAlmostDone? || phase.DataDone?
      modifies this`phase, this`errno, this`contentLength, this`nread, this`notes
      ensures View() == Act(old(View()), ch)
      ensures failed <==> errno != OK || phase.Elsewhere?
    {
      match phase {
        case SizeAlmostDone =>
          if ch != LF { errno := Strict; return true; }
          nread := 0;
          phase := if contentLength == 0 then Trailer else Data;
          Notify(ChunkHeader(contentLength));
        case DataAlmostDone =>
          assert contentLength == 0;
          if ch != CR { errno := Strict; return true; }
          phase := DataDone;
        case DataDone =>
          if ch != LF { errno := Strict; return true; }
          nread := 0;
          phase := SizeStart;
          Notify(ChunkComplete);
      }
      failed := false;
    }

    /** The trailer. */
    method TurnTrailer(ch: Byte) returns (failed: bool)
      requires errno == OK && (phase.Trailer? || phase.TrailerAlmostDone?)
      modifies this`phase, this`errno, this`contentLength, this`nread, this`notes
      ensures View() == Act(old(View()), ch)
      ensures failed <==> errno != OK || phase.Elsewhere?
    {
      match phase {
        case Trailer =>
          if ch == CR {
            phase := TrailerAlmostDone;
          } else if ch == LF {
            phase := Done;
            Notify(ChunkComplete);
            Notify(MessageComplete);
          } else {
            phase := Elsewhere;
            return true;
          }
        case TrailerAlmostDone =>
          if ch != LF { errno := Strict; return true; }
          phase := Done;
          Notify(ChunkComplete);
          Notify(MessageComplete);
      }
      failed := false;
    }

    /** One turn of the loop, where the state is none of those that read body bytes. */
    method Turn(ch: Byte) returns (failed: bool)
      requires Inv(View()) && errno == OK && !Stopped(View())
      requires !phase.Identity? && !phase.IdentityEof? && !phase.Data?
      modifies this`phase, this`errno, this`contentLength, this`nread, this`notes
      ensures View() == Step(old(View()), ch) && Inv(View())
      ensures failed <==> errno != OK || phase.Elsewhere?
    {
      hide Act, Inv;
      TurnStarts(View());
      StepInv(View(), ch);
      if ParsingHeader(phase) {
        nread := nread + 1;
        if nread > MAX_HEADER_SIZE { errno := HeaderOverflow; return true; }
      }
      if phase.SizeStart? || phase.Size? || phase.Parameters? {
        failed := TurnSize(ch);
      } else if phase.Trailer? || phase.TrailerAlmostDone? {
        failed := TurnTrailer(ch);
      } else {
        failed := TurnLineBreak(ch);
      }
    }

    /** CALLBACK_DATA(body), if there is a mark. */
    method Deliver(data: seq<Byte>, mark: int, end: nat)
      requires mark <= end <= |data|
      modifies this`delivered
      ensures delivered == old(delivered) + Marked(data, mark, end)
    {
      if mark >= 0 { delivered := delivered + data[mark..end]; }
    }

    /** The states that read body bytes, several at a time. */
    method ReadData(data: seq<Byte>, at: nat) returns (p: nat)
      requires Inv(View()) && errno == OK && (phase.Data? || phase.Identity? || phase.IdentityEof?) && at < |data|
      modifies this`phase, this`contentLength, this`notes, this`body
      ensures at < p <= |data| && View() == Run(old(View()), data[at..p]) && Inv(View())
      ensures Taken(old(View()), data[at..p]) == p - at
      ensures body == old(body) + data[at..p]
      ensures old(phase).Data? ==> View() == DataRead(old(View()), data[at..p]) && p - at <= old(contentLength)
      ensures errno == OK && !phase.Elsewhere? && (old(phase).Data? || phase == old(phase) || phase.Done?)
    {
      if phase.IdentityEof? {
        RunEof(View(), data[at..]);
        body := body + data[at..];
        assert data[at..|data|] == data[at..];
        return |data|;
      }
      var toRead := if contentLength < |data| - at then contentLength else |data| - at;
      assert phase.Data? || phase.Identity? ==> 0 < contentLength < ULLONG_MAX;
      p := at + toRead;
      RunData(View(), data[at..p]);
      RunInv(View(), data[at..p]);
      body := body + data[at..p];
      contentLength := contentLength - toRead;
      if contentLength == 0 {
        if phase.Data? {
          phase := DataAlmostDone;
        } else {
          phase := Done;
          Notify(MessageComplete);
        }
      }
    }

    /** http_parser_execute; the model's call ends where the message does. A call without data tells the parser
        that the connection has ended; what it leads to among header lines is outside this contract. */
    method Execute(data: seq<Byte>) returns (nparsed: nat)
      requires Valid()
      modifies this
      ensures Valid()
      ensures old(errno) != OK ==> nparsed == 0 && View() == old(View()) && delivered == old(delivered)
      ensures old(errno) == OK && data != [] ==>
                && View() == Run(old(View()), data) && nparsed == Taken(old(View()), data)
                && lost == Unsent(old(View()), [], data)
      ensures old(errno) == OK && data == [] && !old(phase).Elsewhere? ==>
                delivered == old(delivered) && View() == AtEof(old(View()))
    {
      if errno != OK { return 0; }
      if phase.Elsewhere? {
        RunStopped(View(), data);
        return 0;
      }
      if data == [] {
        if phase.IdentityEof? {
          Notify(MessageComplete);
          return 0;
        }
        if phase.Done? { return 0; }
        errno := InvalidEofState;
        return 1;
      }
      nparsed := Loop(data);
    }

    /** A turn of the loop, and the delivery that the end of a chunk's data brings with it. */
    method TakeByte(data: seq<Byte>, p: nat, mark: int, ghost s0: State) returns (failed: bool, mark': int)
      requires Going(s0, data, View(), p, mark) && p < |data| && !Stopped(View())
      requires !phase.Identity? && !phase.IdentityEof? && !phase.Data?
      requires body == delivered + Marked(data, mark, p) && lost == []
      modifies this
      ensures failed ==> Valid() && View() == Run(s0, data) && p == Taken(s0, data) && lost == Unsent(s0, [], data)
      ensures !failed ==> Going(s0, data, View(), p + 1, mark')
      ensures !failed ==> body == delivered + Marked(data, mark', p + 1) && lost == []
    {
      ghost var s := View();
      var afterChunk := phase.DataAlmostDone?;
      failed := Turn(data[p]);
      TurnGoes(s0, data, s, p, mark, View());
      mark' := mark;
      if failed {
        lost := Marked(data, mark, p);
      } else if afterChunk {
        Deliver(data, mark, p);
        mark' := -1;
      }
    }

    /** A turn of the loop in a state that reads body bytes. */
    method TakeData(data: seq<Byte>, at: nat, mark0: int, ghost s0: State) returns (p: nat, mark: int)
      requires Going(s0, data, View(), at, mark0) && at < |data|
      requires phase.Identity? || phase.IdentityEof? || phase.Data?
      requires body == delivered + Marked(data, mark0, at)
      modifies this`phase, this`contentLength, this`notes, this`body
      ensures at < p && Going(s0, data, View(), p, mark) && body == delivered + Marked(data, mark, p)
    {
      hide Run, Taken, Inv, Step, Unsent;
      ghost var s := View();
      mark := if mark0 < 0 then at else mark0;
      p := ReadData(data, at);
      MarkedGrows(data, mark0, at, mark, p);
      DataGoes(s0, data, s, at, mark0, View(), p, mark);
    }

    method Loop(data: seq<Byte>) returns (p: nat)
      requires Valid() && errno == OK && !phase.Elsewhere?
      modifies this
      ensures Valid() && View() == Run(old(View()), data) && p == Taken(old(View()), data)
      ensures lost == Unsent(old(View()), [], data)
    {
      var mark: int := -1;
      p := 0;
      ghost var s0 := View();
      assert data[0..] == data;
      while p < |data| && !phase.Done?
        invariant Going(s0, data, View(), p, mark) && body == delivered + Marked(data, mark, p) && lost == []
        decreases |data| - p
      {
        if phase.Data? || phase.Identity? || phase.IdentityEof? {
          p, mark := TakeData(data, p, mark, s0);
        } else {
          var failed;
          failed, mark := TakeByte(data, p, mark, s0);
          if failed { return; }
          p := p + 1;
        }
      }
      Deliver(data, mark, p);
      RunStops(s0, data, View(), p, mark);
    }
  }

  /** The conditions that the source asserts when a turn begins. */
  lemma TurnStarts(s: State)
    requires Inv(s) && s.errno == OK
    ensures s.contentLength < ULLONG_MAX && (s.phase.SizeStart? ==> s.nread == 0)
    ensures s.phase.DataAlmostDone? ==> s.contentLength == 0
  {
  }

  /** The data between the mark and `end`; -1 stands for no mark. */
  function Marked(data: seq<Byte>, mark: int, end: nat): seq<Byte>
    requires mark <= end <= |data|
  {
    if mark >= 0 then data[mark..end] else []
  }

  /** The end of the connection; the states that read header lines are not part of this. */
  function AtEof(s: State): State
    requires !s.phase.Elsewhere?
  {
    if s.phase.IdentityEof? then Notified(s, MessageComplete)
    else if s.phase.Done? then s
    else Fail(s, InvalidEofState)
  }

  /** At byte `p` of the data the loop is in state `s`, with the bytes from `mark` on still to be delivered. */
  predicate Going(s0: State, data: seq<Byte>, s: State, p: nat, mark: int) {
    && mark <= p <= |data| && Inv(s) && s.errno == OK && !s.phase.Elsewhere?
    && (mark >= 0 ==> mark < p && !s.phase.SizeStart? && !ParsingHeader(s.phase) && !s.phase.DataDone?)
    && Run(s, data[p..]) == Run(s0, data)
    && p + Taken(s, data[p..]) == Taken(s0, data)
    && Unsent(s, Marked(data, mark, p), data[p..]) == Unsent(s0, [], data)
  }

  /** In a state whose bytes do not end in a chunk's line break nothing is lost. */
  lemma {:induction false} NothingUnsent(s: State, marked: seq<Byte>, bytes: seq<Byte>)
    requires s.phase.Identity? || s.phase.IdentityEof? || Stopped(s)
    ensures Unsent(s, marked, bytes) == []
    decreases |bytes|
  {
    if bytes != [] && !Stopped(s) {
      NothingUnsent(Step(s, bytes[0]), marked, bytes[1..]);
    }
  }

  lemma TurnGoes(s0: State, data: seq<Byte>, s: State, p: nat, mark: int, s1: State)
    requires Going(s0, data, s, p, mark) && p < |data| && !Stopped(s) && s1 == Step(s, data[p]) && Inv(s1)
    requires !s.phase.Data? && !s.phase.Identity? && !s.phase.IdentityEof?
    ensures s1.errno != OK || s1.phase.Elsewhere? ==>
              s1 == Run(s0, data) && p == Taken(s0, data) && Marked(data, mark, p) == Unsent(s0, [], data)
    ensures (s1.errno != OK || s1.phase.Elsewhere?) && Marked(data, mark, p) != [] ==>
              s1.errno == Strict && s1.phase == DataAlmostDone
    ensures s1.errno == OK && !s1.phase.Elsewhere? ==>
              Going(s0, data, s1, p + 1, if s.phase.DataAlmostDone? then -1 else mark)
  {
    assert data[p..][0] == data[p] && data[p..][1..] == data[p + 1..];
    if s1.errno != OK || s1.phase.Elsewhere? {
      RunStopped(s1, data[p + 1..]);
      NothingUnsent(s1, Marked(data, mark, p), data[p + 1..]);
    }
  }

  lemma DataRunsOn(data: seq<Byte>, s: State, at: nat, s1: State, p: nat)
    requires at < p <= |data| && s1 == Run(s, data[at..p]) && Taken(s, data[at..p]) == p - at
    ensures Run(s1, data[p..]) == Run(s, data[at..]) && p + Taken(s1, data[p..]) == at + Taken(s, data[at..])
  {
    assert data[at..] == data[at..p] + data[p..];
    RunAppend(s, data[at..p], data[p..]);
    TakenAppend(s, data[at..p], data[p..]);
  }

  lemma DataUnsent(data: seq<Byte>, s: State, at: nat, marked: seq<Byte>, s1: State, p: nat)
    requires at < p <= |data| && (s.phase.Data? || s.phase.Identity? || s.phase.IdentityEof?) && !Stopped(s)
    requires s.phase.Data? ==> s1 == DataRead(s, data[at..p]) && p - at <= s.contentLength
    requires !s.phase.Data? ==> s1.phase == s.phase || s1.phase.Done?
    ensures Unsent(s1, marked + data[at..p], data[p..]) == Unsent(s, marked, data[at..])
  {
    assert data[at..] == data[at..p] + data[p..];
    if s.phase.Data? {
      UnsentData(s, marked, data[at..p], data[p..]);
    } else {
      NothingUnsent(s, marked, data[at..]);
      NothingUnsent(s1, marked + data[at..p], data[p..]);
    }
  }

  lemma MarkedGrows(data: seq<Byte>, mark0: int, at: nat, mark: int, p: nat)
    requires mark0 <= at < p <= |data| && mark == if mark0 < 0 then at else mark0
    ensures Marked(data, mark, p) == Marked(data, mark0, at) + data[at..p]
  {
  }

  lemma DataGoes(s0: State, data: seq<Byte>, s: State, at: nat, mark0: int, s1: State, p: nat, mark: int)
    requires Going(s0, data, s, at, mark0) && at < p <= |data| && mark == if mark0 < 0 then at else mark0
    requires s.phase.Data? || s.phase.Identity? || s.phase.IdentityEof?
    requires s1 == Run(s, data[at..p]) && Inv(s1) && s1.errno == OK
    requires Taken(s, data[at..p]) == p - at
    requires s.phase.Data? ==> s1 == DataRead(s, data[at..p]) && p - at <= s.contentLength
    requires !s.phase.Data? ==> s1.phase == s.phase || s1.phase.Done?
    ensures Going(s0, data, s1, p, mark)
  {
    hide Run, Taken, Step, Unsent;
    MarkedGrows(data, mark0, at, mark, p);
    DataRunsOn(data, s, at, s1, p);
    DataUnsent(data, s, at, Marked(data, mark0, at), s1, p);
  }

  lemma RunStops(s0: State, data: seq<Byte>, s: State, p: nat, mark: int)
    requires Going(s0, data, s, p, mark) && (p == |data| || s.phase.Done?)
    ensures s == Run(s0, data) && p == Taken(s0, data) && Unsent(s0, [], data) == []
  {
    if p == |data| {
      assert data[p..] == [];
    } else {
      RunStopped(s, data[p..]);
    }
  }

  /* Splitting the stream into calls */

  function Concat(pieces: seq<seq<Byte>>): seq<Byte> {
    if pieces == [] then [] else Concat(pieces[..|pieces| - 1]) + pieces[|pieces| - 1]
  }

  /** The body bytes that no call delivers. */
  function Lost(s: State, pieces: seq<seq<Byte>>): seq<Byte> {
    if pieces == [] then [] else
    var front := pieces[..|pieces| - 1];
    Lost(s, front) + Unsent(Run(s, Concat(front)), [], pieces[|pieces| - 1])
  }

  lemma NextPiece(s: State, pieces: seq<seq<Byte>>, i: nat)
    requires i < |pieces|
    ensures Run(s, Concat(pieces[..i + 1])) == Run(Run(s, Concat(pieces[..i])), pieces[i])
    ensures Lost(s, pieces[..i + 1]) == Lost(s, pieces[..i]) + Unsent(Run(s, Concat(pieces[..i])), [], pieces[i])
  {
    assert pieces[..i + 1][..i] == pieces[..i];
    RunAppend(s, Concat(pieces[..i]), pieces[i]);
  }

  /** Whatever the split into calls that bring data, the state and the body seen are those of the whole stream,
      and what is delivered is the body but for what is lost. */
  method ExecuteAll(parser: HttpParser, pieces: seq<seq<Byte>>)
    requires parser.Valid() && parser.errno == OK
    requires forall i :: 0 <= i < |pieces| ==> pieces[i] != []
    modifies parser
    ensures parser.Valid() && parser.View() == Run(old(parser.View()), Concat(pieces))
    ensures parser.View().body == parser.delivered + Lost(old(parser.View()), pieces)
    ensures !(parser.errno == Strict && parser.phase == DataAlmostDone) ==> parser.delivered == parser.body
  {
    hide Run, Concat, Unsent, Taken, Inv;
    var i := 0;
    ghost var s := parser.View();
    RunNothing(s);
    while i < |pieces|
      invariant 0 <= i <= |pieces| && parser.Valid()
      invariant parser.View() == Run(s, Concat(pieces[..i])) && parser.lost == Lost(s, pieces[..i])
    {
      NextPiece(s, pieces, i);
      ghost var before := parser.View();
      if parser.errno != OK {
        RunStopped(before, pieces[i]);
        NothingUnsent(before, [], pieces[i]);
      }
      ghost var lost := parser.lost;
      var nparsed := parser.Execute(pieces[i]);
      if before.errno != OK { SameRest(parser.delivered, lost, parser.lost); }
      i := i + 1;
    }
    assert pieces[..i] == pieces;
  }

  lemma RunNothing(s: State)
    ensures Run(s, Concat([])) == s
  {
  }

  lemma SameRest(a: seq<Byte>, b: seq<Byte>, c: seq<Byte>)
    requires a + b == a + c
    ensures b == c
  {
    assert b == (a + b)[|a|..] && c == (a + c)[|a|..];
  }

  /** Where a chunk is not followed by a line break the split does matter: the chunk's bytes are lost if they
      came in the same call as the wrong byte, and were delivered before if they came in an earlier one. */
  lemma LossDependsOnSplit(s: State, payload: seq<Byte>, wrong: Byte)
    requires !Stopped(s) && s.phase.Data? && 0 < |payload| == s.contentLength && wrong != CR
    ensures Unsent(s, [], payload + [wrong]) == payload
    ensures Unsent(s, [], payload) == [] && Unsent(Run(s, payload), [], [wrong]) == []
  {
    UnsentData(s, [], payload, [wrong]);
    UnsentData(s, [], payload, []);
    RunData(s, payload);
    assert [] + payload == payload && payload + [] == payload;
  }
}
