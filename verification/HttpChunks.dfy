/** Chunked bodies as section 4.1 of RFC 7230 writes them, and what the parser delivers of them. */
module HttpChunks {
  import opened BitStrings
  import opened HexDigits
  import opened HttpBody

  /* Hexadecimal */

  /** The table of the parser gives a digit its value, and -1 to every other byte. */
  lemma UnhexIs(b: Byte)
    ensures forall d: Hex :: HexByte(d) == b ==> Unhex(b) == d.value
    ensures (forall d: Hex :: HexByte(d) != b) ==> Unhex(b) == -1
  {
    if 0 <= Unhex(b) {
      assert HexByte(Hex(Unhex(b), 65 <= b <= 70)) == b;
    }
  }

  function SizeText(size: seq<Hex>): (r: seq<Byte>)
    ensures |r| == |size|
  {
    if size == [] then [] else SizeText(size[..|size| - 1]) + [HexByte(size[|size| - 1])]
  }

  function SizeValue(size: seq<Hex>): nat {
    if size == [] then 0 else SizeValue(size[..|size| - 1]) * 16 + size[|size| - 1].value
  }

  /** The size in hexadecimal, an extension as it stands on the line, and the payload. */
  datatype Chunk = Chunk(size: seq<Hex>, extension: seq<Byte>, data: seq<Byte>)

  /** The size of a text in the parser's own digits. */
  predicate HexText(text: seq<Byte>) {
    text != [] && forall i :: 0 <= i < |text| ==> Unhex(text[i]) >= 0
  }

  function HexValue(text: seq<Byte>): int {
    if text == [] then 0 else HexValue(text[..|text| - 1]) * 16 + Unhex(text[|text| - 1])
  }

  lemma {:induction false} SizeIs(size: seq<Hex>)
    ensures size != [] ==> HexText(SizeText(size))
    ensures HexValue(SizeText(size)) == SizeValue(size)
  {
    if size != [] {
      SizeIs(size[..|size| - 1]);
      UnhexIs(HexByte(size[|size| - 1]));
    }
  }

  predicate Extension(text: seq<Byte>) {
    text == [] || ((text[0] == 59 || text[0] == 32) && forall i :: 0 <= i < |text| ==> text[i] != 13)
  }

  /** The size text says how long the payload is, and the line is not longer than a header may be. */
  predicate WellFormed(c: Chunk) {
    && c.size != [] && SizeValue(c.size) == |c.data| <= 0xFFFF_FFFF_FFFF_FFEF
    && Extension(c.extension) && |c.size| + |c.extension| + 2 <= 80 * 1024
  }

  function Line(c: Chunk): seq<Byte> {
    SizeText(c.size) + c.extension + [13, 10]
  }

  function EncodeChunk(c: Chunk): seq<Byte> {
    Line(c) + c.data + [13, 10]
  }

  function EncodeChunks(chunks: seq<Chunk>): seq<Byte> {
    if chunks == [] then [] else EncodeChunks(chunks[..|chunks| - 1]) + EncodeChunk(chunks[|chunks| - 1])
  }

  function Payloads(chunks: seq<Chunk>): seq<Byte> {
    if chunks == [] then [] else Payloads(chunks[..|chunks| - 1]) + chunks[|chunks| - 1].data
  }

  function Notes(chunks: seq<Chunk>): seq<Note> {
    if chunks == [] then []
    else Notes(chunks[..|chunks| - 1]) + [ChunkHeader(|chunks[|chunks| - 1].data|), ChunkComplete]
  }

  lemma RunOne(s: State, a: seq<Byte>, b: Byte)
    ensures Run(s, a + [b]) == Step(Run(s, a), b)
  {
    RunAppend(s, a, [b]);
    assert [b][1..] == [];
  }

  lemma {:induction false} HexPositive(text: seq<Byte>)
    requires forall i :: 0 <= i < |text| ==> Unhex(text[i]) >= 0
    ensures HexValue(text) >= 0
  {
    if text != [] {
      HexPositive(text[..|text| - 1]);
    }
  }

  lemma SizeByte(s: State, size: nat, read: nat, b: Byte)
    requires !Stopped(s) && Unhex(b) >= 0 && read < MAX_HEADER_SIZE
    requires size * 16 + Unhex(b) <= ULLONG_MAX - 16
    ensures Step(s.(phase := Size, contentLength := size, nread := read), b)
         == s.(phase := Size, contentLength := size * 16 + Unhex(b), nread := read + 1)
  {
    assert b != CR;
  }

  lemma FirstSizeByte(s: State, b: Byte)
    requires !Stopped(s) && s.phase.SizeStart? && s.nread == 0 && Unhex(b) >= 0
    ensures Step(s, b) == s.(phase := Size, contentLength := Unhex(b), nread := 1)
  {
  }

  /** The digits build up the size without overflow. */
  lemma {:induction false} RunSize(s: State, text: seq<Byte>)
    requires !Stopped(s) && s.phase.SizeStart? && s.nread == 0
    requires HexText(text) && HexValue(text) <= ULLONG_MAX - 16 && |text| <= MAX_HEADER_SIZE
    ensures HexValue(text) >= 0
    ensures Run(s, text) == s.(phase := Size, contentLength := HexValue(text), nread := |text|)
  {
    hide Run, Step, Unhex;
    var front, last := text[..|text| - 1], text[|text| - 1];
    assert text == front + [last];
    HexPositive(text);
    HexPositive(front);
    RunOne(s, front, last);
    assert Unhex(last) >= 0;
    if front == [] {
      assert HexValue(front) == 0;
      RunNothing(s);
      FirstSizeByte(s, last);
    } else {
      RunSize(s, front);
      SizeByte(s, HexValue(front), |front|, last);
    }
  }

  lemma {:induction false} RunExtension(s: State, text: seq<Byte>)
    requires !Stopped(s) && s.phase.Size? && Extension(text) && s.nread + |text| <= MAX_HEADER_SIZE
    ensures Run(s, text) == s.(phase := if text == [] then Size else Parameters, nread := s.nread + |text|)
  {
    if text != [] {
      var front, last := text[..|text| - 1], text[|text| - 1];
      assert text == front + [last];
      RunOne(s, front, last);
      RunExtension(s, front);
    }
  }

  lemma RunLineBreak(s: State)
    requires !Stopped(s) && (s.phase.Size? || s.phase.Parameters?) && s.nread + 2 <= MAX_HEADER_SIZE
    ensures Run(s, [CR, LF])
         == Notified(s.(nread := 0, phase := if s.contentLength == 0 then Trailer else Data),
                     ChunkHeader(s.contentLength))
  {
    assert [CR, LF] == [CR] + [LF] && [CR] == [] + [CR];
    RunOne(s, [], CR);
    RunOne(s, [CR], LF);
  }

  lemma RunLine(s: State, c: Chunk)
    requires !Stopped(s) && s.phase.SizeStart? && s.nread == 0 && WellFormed(c)
    ensures Run(s, Line(c)) == Notified(s.(nread := 0, contentLength := |c.data|,
                                           phase := if c.data == [] then Trailer else Data), ChunkHeader(|c.data|))
  {
    var size := SizeText(c.size);
    SizeIs(c.size);
    RunAppend(s, size + c.extension, [CR, LF]);
    RunAppend(s, size, c.extension);
    RunSize(s, size);
    RunExtension(Run(s, size), c.extension);
    RunLineBreak(Run(s, size + c.extension));
  }

  lemma RunChunkEnd(s: State)
    requires !Stopped(s) && s.phase.DataAlmostDone?
    ensures Run(s, [CR, LF]) == Notified(s.(nread := 0, phase := SizeStart), ChunkComplete)
  {
    assert [CR, LF] == [CR] + [LF] && [CR] == [] + [CR];
    RunOne(s, [], CR);
    RunOne(s, [CR], LF);
  }

  /** A chunk with a payload. */
  lemma RunChunk(s: State, c: Chunk)
    requires !Stopped(s) && s.phase.SizeStart? && s.nread == 0 && WellFormed(c) && c.data != []
    ensures Run(s, EncodeChunk(c)) == s.(contentLength := 0, body := s.body + c.data,
                                         notes := s.notes + [ChunkHeader(|c.data|), ChunkComplete])
  {
    RunAppend(s, Line(c) + c.data, [CR, LF]);
    RunAppend(s, Line(c), c.data);
    RunLine(s, c);
    RunData(Run(s, Line(c)), c.data);
    RunChunkEnd(Run(s, Line(c) + c.data));
    assert s.notes + [ChunkHeader(|c.data|)] + [ChunkComplete] == s.notes + [ChunkHeader(|c.data|), ChunkComplete];
  }

  predicate AllChunks(chunks: seq<Chunk>) {
    forall i :: 0 <= i < |chunks| ==> WellFormed(chunks[i]) && chunks[i].data != []
  }

  lemma {:induction false} RunChunks(s: State, chunks: seq<Chunk>)
    requires !Stopped(s) && s.phase.SizeStart? && s.nread == 0 && s.contentLength == 0 && AllChunks(chunks)
    ensures Run(s, EncodeChunks(chunks)) == s.(body := s.body + Payloads(chunks), notes := s.notes + Notes(chunks))
  {
    hide EncodeChunk;
    if chunks == [] {
      assert s.body + [] == s.body && s.notes + [] == s.notes;
    } else {
      var front, last := chunks[..|chunks| - 1], chunks[|chunks| - 1];
      RunAppend(s, EncodeChunks(front), EncodeChunk(last));
      RunChunks(s, front);
      RunChunk(Run(s, EncodeChunks(front)), last);
      assert s.body + Payloads(front) + last.data == s.body + Payloads(chunks);
      assert s.notes + Notes(front) + [ChunkHeader(|last.data|), ChunkComplete] == s.notes + Notes(chunks);
    }
  }

  lemma RunTrailer(s: State)
    requires !Stopped(s) && s.phase.Trailer? && s.nread == 0
    ensures Run(s, [CR, LF]) == Finished(s.(nread := 2))
  {
    assert [CR, LF] == [CR] + [LF] && [CR] == [] + [CR];
    RunOne(s, [], CR);
    RunOne(s, [CR], LF);
  }

  /** A body: its chunks, a chunk of size zero, and an empty trailer. */
  function Encoded(chunks: seq<Chunk>, last: Chunk): seq<Byte>
    requires AllChunks(chunks) && WellFormed(last)
  {
    EncodeChunks(chunks) + Line(last) + [13, 10]
  }

  /** Reading a chunked body gives the payloads one after the other, and ends the message. */
  lemma DecodesChunks(s: State, chunks: seq<Chunk>, last: Chunk)
    requires !Stopped(s) && s.phase.SizeStart? && s.nread == 0 && s.contentLength == 0
    requires AllChunks(chunks) && WellFormed(last) && last.data == []
    ensures var t := Run(s, Encoded(chunks, last));
            && t.phase == Done && t.errno == OK && t.body == s.body + Payloads(chunks)
            && t.notes == s.notes + Notes(chunks) + [ChunkHeader(0), ChunkComplete, MessageComplete]
  {
    RunAppend(s, EncodeChunks(chunks) + Line(last), [CR, LF]);
    RunAppend(s, EncodeChunks(chunks), Line(last));
    RunChunks(s, chunks);
    RunLine(Run(s, EncodeChunks(chunks)), last);
    RunTrailer(Run(s, EncodeChunks(chunks) + Line(last)));
  }

  /** However a chunked body is split into calls, its payloads are delivered. */
  method ParseChunked(chunks: seq<Chunk>, last: Chunk, pieces: seq<seq<Byte>>) returns (parser: HttpParser)
    requires AllChunks(chunks) && WellFormed(last) && last.data == []
    requires Concat(pieces) == Encoded(chunks, last) && forall i :: 0 <= i < |pieces| ==> pieces[i] != []
    ensures fresh(parser) && parser.phase == Done && parser.errno == OK && parser.delivered == Payloads(chunks)
    ensures parser.notes == Notes(chunks) + [ChunkHeader(0), ChunkComplete, MessageComplete]
  {
    parser := new HttpParser(SizeStart, 0);
    DecodesChunks(parser.View(), chunks, last);
    ExecuteAll(parser, pieces);
    assert [] + Payloads(chunks) == Payloads(chunks) && [] + Notes(chunks) == Notes(chunks);
  }

  /** However a body of known length is split into calls, it is delivered, and the message ends with it. */
  method ParseIdentity(body: seq<Byte>, pieces: seq<seq<Byte>>) returns (parser: HttpParser)
    requires 0 < |body| < ULLONG_MAX
    requires Concat(pieces) == body && forall i :: 0 <= i < |pieces| ==> pieces[i] != []
    ensures fresh(parser) && parser.phase == Done && parser.errno == OK
    ensures parser.delivered == body && parser.notes == [MessageComplete]
  {
    parser := new HttpParser(Identity, |body|);
    RunData(parser.View(), body);
    ExecuteAll(parser, pieces);
  }
}
