/** A chunked message ends where section 4.1 of RFC 7230 lets it end, and nowhere else. */
module HttpExact {
  import opened BitStrings
  import opened HexDigits
  import opened HttpBody
  import opened HttpChunks

  /** A chunked body with an empty trailer; the parser also takes a line feed alone for the empty line. */
  datatype Message = Message(chunks: seq<Chunk>, last: Chunk, bare: bool)

  predicate MessageFits(m: Message) {
    AllChunks(m.chunks) && WellFormed(m.last) && m.last.data == []
  }

  function MessageText(m: Message): seq<Byte> {
    EncodeChunks(m.chunks) + Line(m.last) + (if m.bare then [10] else [13, 10])
  }

  function Fresh(): State {
    State(SizeStart, OK, 0, 0, [], [])
  }

  /** The last byte ends the message. */
  predicate Ends(bytes: seq<Byte>) {
    && bytes != [] && !Stopped(Run(Fresh(), bytes[..|bytes| - 1]))
    && Run(Fresh(), bytes).phase.Done? && Run(Fresh(), bytes).errno == OK
  }

  /* What was read when the parser is where it is */

  /** The size and the extension as far as they are read. */
  predicate SizeRead(c: Chunk, s: State) {
    && c.size != [] && SizeValue(c.size) == s.contentLength <= 0xFFFF_FFFF_FFFF_FFEF && Extension(c.extension)
    && s.nread == |c.size| + |c.extension| + (if s.phase.SizeAlmostDone? then 1 else 0) <= 80 * 1024
  }

  /** The line of a chunk with a payload, and some of the payload. */
  predicate DataRead(c: Chunk, s: State) {
    && c.size != [] && SizeValue(c.size) == |c.data| + s.contentLength <= 0xFFFF_FFFF_FFFF_FFEF
    && Extension(c.extension) && |c.size| + |c.extension| + 2 <= 80 * 1024
    && SizeValue(c.size) > 0 && (s.phase.Data? <==> s.contentLength > 0)
  }

  function Half(c: Chunk): seq<Byte> {
    SizeText(c.size) + c.extension
  }

  /** Behind the chunks that are complete, what was read of the one that is not. */
  ghost predicate Begun(c: Chunk, s: State, text: seq<Byte>) {
    match s.phase
    case SizeStart => s.nread == 0 && text == []
    case Size => SizeRead(c, s) && c.extension == [] && text == Half(c)
    case Parameters => SizeRead(c, s) && c.extension != [] && text == Half(c)
    case SizeAlmostDone => SizeRead(c, s) && text == Half(c) + [13]
    case Data => DataRead(c, s) && text == Line(c) + c.data
    case DataAlmostDone => DataRead(c, s) && text == Line(c) + c.data
    case DataDone => DataRead(c, s) && text == Line(c) + c.data + [13]
    case Trailer => WellFormed(c) && c.data == [] && text == Line(c)
    case TrailerAlmostDone => WellFormed(c) && c.data == [] && text == Line(c) + [13]
    case Done => WellFormed(c) && c.data == [] && (text == Line(c) + [10] || text == Line(c) + [13, 10])
    case _ => false
  }

  predicate Going(s: State) {
    s.errno == OK && !s.phase.Elsewhere? && !s.phase.Identity? && !s.phase.IdentityEof?
  }

  lemma HexFound(b: Byte) returns (h: Hex)
    requires Unhex(b) >= 0
    ensures HexByte(h) == b && h.value == Unhex(b)
  {
    h := Hex(Unhex(b), 65 <= b <= 70);
  }

  lemma OneMoreDigit(size: seq<Hex>, h: Hex)
    ensures SizeText(size + [h]) == SizeText(size) + [HexByte(h)]
    ensures SizeValue(size + [h]) == SizeValue(size) * 16 + h.value
  {
    assert (size + [h])[..|size|] == size;
  }

  lemma NoSize()
    ensures SizeText([]) == [] && SizeValue([]) == 0
  {
  }

  lemma SameLine(c: Chunk, data: seq<Byte>)
    ensures Line(c.(data := data)) == Line(c)
  {
  }

  lemma FreshBegun(c: Chunk)
    ensures Begun(c, Fresh(), [])
  {
  }

  /** A byte of the size, the extension or the end of the line. */
  lemma LineByte(c: Chunk, s: State, text: seq<Byte>, b: Byte) returns (c': Chunk)
    requires Going(s) && !Stopped(s) && Begun(c, s, text) && Going(Step(s, b))
    requires s.phase.SizeStart? || s.phase.Size? || s.phase.Parameters? || s.phase.SizeAlmostDone?
    ensures Begun(c', Step(s, b), text + [b])
  {
    hide SizeText, SizeValue, HexByte;
    match s.phase
    case SizeStart =>
      var h := HexFound(b);
      c' := Chunk([h], [], []);
      OneMoreDigit([], h);
      NoSize();
      assert [] + [h] == [h];
    case Size =>
      if b == 13 {
        c' := c;
      } else if Unhex(b) >= 0 {
        var h := HexFound(b);
        c' := Chunk(c.size + [h], [], []);
        OneMoreDigit(c.size, h);
        assert SizeText(c.size) + [] + [b] == SizeText(c.size) + [b] + [];
      } else {
        c' := c.(extension := [b]);
        assert SizeText(c.size) + [] + [b] == SizeText(c.size) + [b];
      }
    case Parameters =>
      if b == 13 {
        c' := c;
      } else {
        c' := c.(extension := c.extension + [b]);
        assert SizeText(c.size) + c.extension + [b] == SizeText(c.size) + (c.extension + [b]);
      }
    case SizeAlmostDone =>
      c' := c.(data := []);
      assert Half(c) + [13] + [10] == Line(c') && Line(c') + [] == Line(c');
  }

  /** A byte of the payload or of what stands behind it, unless it completes the chunk. */
  lemma DataByte(c: Chunk, s: State, text: seq<Byte>, b: Byte) returns (c': Chunk)
    requires Going(s) && !Stopped(s) && Begun(c, s, text) && Going(Step(s, b))
    requires s.phase.Data? || s.phase.DataAlmostDone? || s.phase.Trailer? || s.phase.TrailerAlmostDone?
    ensures Begun(c', Step(s, b), text + [b])
  {
    hide SizeText, SizeValue, Line;
    c' := c;
    if s.phase.Data? {
      c' := c.(data := c.data + [b]);
      SameLine(c, c.data + [b]);
      assert Line(c) + c.data + [b] == Line(c) + (c.data + [b]);
    } else if s.phase.TrailerAlmostDone? {
      assert Line(c) + [13] + [10] == Line(c) + [13, 10];
    }
  }

  lemma ChunkDone(c: Chunk, s: State, text: seq<Byte>, b: Byte)
    requires Going(s) && !Stopped(s) && Begun(c, s, text) && Going(Step(s, b)) && s.phase.DataDone?
    ensures WellFormed(c) && c.data != [] && text + [b] == EncodeChunk(c) && Begun(c, Step(s, b), [])
  {
    hide SizeText, SizeValue, Line;
    assert Line(c) + c.data + [13] + [10] == Line(c) + c.data + [13, 10];
  }

  /** While nothing is wrong, what was read is complete chunks and the beginning of the next. */
  lemma {:induction false} ReadSoFar(bytes: seq<Byte>) returns (chunks: seq<Chunk>, c: Chunk, text: seq<Byte>)
    requires Going(Run(Fresh(), bytes)) && (bytes == [] || !Stopped(Run(Fresh(), bytes[..|bytes| - 1])))
    ensures AllChunks(chunks) && bytes == EncodeChunks(chunks) + text && Begun(c, Run(Fresh(), bytes), text)
    decreases |bytes|
  {
    hide Going, Stopped, EncodeChunk, Step, WellFormed, Line, Half;
    if bytes == [] {
      chunks, c, text := [], Chunk([], [], []), [];
      RunNothing(Fresh());
      FreshBegun(c);
    } else {
      var front, b := bytes[..|bytes| - 1], bytes[|bytes| - 1];
      assert bytes == front + [b];
      RunOne(Fresh(), front, b);
      var s := Run(Fresh(), front);
      NotBefore(front);
      chunks, c, text := ReadSoFar(front);
      assert bytes == EncodeChunks(chunks) + (text + [b]);
      if s.phase.DataDone? {
        ChunkDone(c, s, text, b);
        assert (chunks + [c])[..|chunks|] == chunks;
        chunks, text := chunks + [c], [];
        assert bytes == EncodeChunks(chunks) + [];
      } else {
        c := PartByte(c, s, text, b);
        text := text + [b];
      }
    }
  }

  lemma PartByte(c: Chunk, s: State, text: seq<Byte>, b: Byte) returns (c': Chunk)
    requires Going(s) && !Stopped(s) && Begun(c, s, text) && Going(Step(s, b)) && !s.phase.DataDone?
    ensures Begun(c', Step(s, b), text + [b])
  {
    hide Begun, Step;
    if s.phase.SizeStart? || s.phase.Size? || s.phase.Parameters? || s.phase.SizeAlmostDone? {
      c' := LineByte(c, s, text, b);
    } else {
      c' := DataByte(c, s, text, b);
    }
  }

  /** A parser that is not stopped was not stopped before. */
  lemma NotBefore(bytes: seq<Byte>)
    requires !Stopped(Run(Fresh(), bytes))
    ensures Going(Run(Fresh(), bytes)) && (bytes == [] || !Stopped(Run(Fresh(), bytes[..|bytes| - 1])))
  {
    hide Step;
    if bytes != [] {
      var front, b := bytes[..|bytes| - 1], bytes[|bytes| - 1];
      assert bytes == front + [b];
      RunOne(Fresh(), front, b);
      if Stopped(Run(Fresh(), front)) { RunStopped(Run(Fresh(), front), [b]); }
    }
    Chunked(Fresh(), bytes);
  }

  /** A chunked body stays one. */
  lemma {:induction false} Chunked(s: State, bytes: seq<Byte>)
    requires !s.phase.Identity? && !s.phase.IdentityEof?
    ensures !Run(s, bytes).phase.Identity? && !Run(s, bytes).phase.IdentityEof?
    decreases |bytes|
  {
    if bytes != [] {
      Chunked(Step(s, bytes[0]), bytes[1..]);
    }
  }

  /** An empty line behind the last chunk, with or without its carriage return. */
  lemma EmptyLine(t: State)
    requires !Stopped(t) && t.phase.Trailer? && t.nread == 0
    ensures Step(t, 10).phase.Done? && Step(t, 10).errno == OK
    ensures Step(t, 13).phase.TrailerAlmostDone? && !Stopped(Step(t, 13))
    ensures Step(Step(t, 13), 10).phase.Done? && Step(Step(t, 13), 10).errno == OK
  {
  }

  /** Read whole, a message ends with its last byte. */
  lemma MessageEnds(m: Message)
    requires MessageFits(m)
    ensures Ends(MessageText(m))
  {
    hide Run, Step, Line, WellFormed;
    var s, text := Fresh(), MessageText(m);
    var before := EncodeChunks(m.chunks) + Line(m.last);
    RunAppend(s, EncodeChunks(m.chunks), Line(m.last));
    RunChunks(s, m.chunks);
    RunLine(Run(s, EncodeChunks(m.chunks)), m.last);
    var t := Run(s, before);
    if m.bare {
      assert text == before + [10] && text[..|text| - 1] == before;
      RunOne(s, before, 10);
      EmptyLine(t);
    } else {
      assert text == before + [13] + [10] && text[..|text| - 1] == before + [13];
      RunOne(s, before, 13);
      RunOne(s, before + [13], 10);
      EmptyLine(t);
    }
  }

  lemma MessageRead(chunks: seq<Chunk>, last: Chunk, text: seq<Byte>)
    requires AllChunks(chunks) && WellFormed(last) && last.data == []
    requires text == Line(last) + [10] || text == Line(last) + [13, 10]
    ensures var m := Message(chunks, last, text == Line(last) + [10]);
            MessageFits(m) && MessageText(m) == EncodeChunks(chunks) + text
  {
    hide Line, EncodeChunks, WellFormed;
    assert EncodeChunks(chunks) + (Line(last) + [10]) == EncodeChunks(chunks) + Line(last) + [10];
    assert EncodeChunks(chunks) + (Line(last) + [13, 10]) == EncodeChunks(chunks) + Line(last) + [13, 10];
  }

  /** A chunked message ends with a byte exactly when the bytes up to it are chunks, a chunk of size zero, and an
      empty line. */
  lemma EndsExactly(bytes: seq<Byte>)
    ensures Ends(bytes) <==> exists m :: MessageFits(m) && MessageText(m) == bytes
  {
    hide Run, MessageText, MessageFits;
    if Ends(bytes) {
      Chunked(Fresh(), bytes);
      var chunks, c, text := ReadSoFar(bytes);
      var m := Message(chunks, c, text == Line(c) + [10]);
      MessageRead(chunks, c, text);
    }
    forall m | MessageFits(m) && MessageText(m) == bytes ensures Ends(bytes) {
      MessageEnds(m);
    }
  }
}
