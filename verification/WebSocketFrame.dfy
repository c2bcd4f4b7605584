/** Building websocket frames, masking (section 5.3 of RFC 6455), and reading back what was built. */
module WebSocketFrame {
  import opened Bits
  import opened BitStrings
  import opened WebSocket

  /* Masking */

  /** `n % 4` */
  function Mod4(n: nat): (r: nat)
    ensures r < 4
  {
    if n < 4 then n else Mod4(n - 4)
  }

  lemma {:induction false} Mod4Is(n: nat)
    ensures Mod4(n) == n % 4
  {
    if n >= 4 {
      Mod4Is(n - 4);
    }
  }

  lemma {:induction false} Mod4Add(n: nat, more: nat)
    ensures Mod4(more + Mod4(n)) == Mod4(n + more)
  {
    if n >= 4 {
      Mod4Add(n - 4, more);
    }
  }

  function MaskAt(mask: seq<Byte>, k: nat): Byte
    requires |mask| == 4
  {
    mask[Mod4(k)]
  }

  /** `src[i] ^ mask[(i + offset) % 4]` */
  function Unmask(mask: seq<Byte>, src: seq<Byte>, offset: nat): (r: seq<Byte>)
    requires |mask| == 4
    ensures |r| == |src|
  {
    if src == [] then []
    else Unmask(mask, src[..|src| - 1], offset) + [XorByte(src[|src| - 1], MaskAt(mask, |src| - 1 + offset))]
  }

  lemma UnmaskLast(mask: seq<Byte>, front: seq<Byte>, last: Byte, offset: nat)
    requires |mask| == 4
    ensures Unmask(mask, front + [last], offset)
         == Unmask(mask, front, offset) + [XorByte(last, MaskAt(mask, |front| + offset))]
  {
    assert (front + [last])[..|front|] == front;
  }

  lemma SameMask(mask: seq<Byte>, n: nat, k: nat, offset: nat)
    requires |mask| == 4
    ensures MaskAt(mask, k + Mod4(n + offset)) == MaskAt(mask, n + k + offset)
  {
    Mod4Add(n + offset, k);
  }

  /** Carrying the offset over from piece to piece unmasks as in one go. */
  lemma {:induction false} UnmaskPieces(mask: seq<Byte>, a: seq<Byte>, b: seq<Byte>, offset: nat, carried: nat)
    requires |mask| == 4 && carried == Mod4(|a| + offset)
    ensures Unmask(mask, a + b, offset) == Unmask(mask, a, offset) + Unmask(mask, b, carried)
    decreases |b|
  {
    if b == [] {
      assert a + b == a;
    } else {
      var front, last := b[..|b| - 1], b[|b| - 1];
      UnmaskPieces(mask, a, front, offset, carried);
      assert b == front + [last] && a + b == (a + front) + [last];
      UnmaskLast(mask, a + front, last, offset);
      UnmaskLast(mask, front, last, carried);
      SameMask(mask, |a|, |front|, offset);
    }
  }

  /** Masking twice is the identity, so the same function masks and unmasks. */
  lemma {:induction false} UnmaskTwice(mask: seq<Byte>, src: seq<Byte>, offset: nat)
    requires |mask| == 4
    ensures Unmask(mask, Unmask(mask, src, offset), offset) == src
  {
    if src != [] {
      var front, last := src[..|src| - 1], src[|src| - 1];
      var m := MaskAt(mask, |front| + offset);
      UnmaskTwice(mask, front, offset);
      assert src == front + [last];
      UnmaskLast(mask, front, last, offset);
      UnmaskLast(mask, Unmask(mask, front, offset), XorByte(last, m), offset);
      XorByteTwice(last, m);
    }
  }

  /** websocket_decode, into `dst` from `at` on; the mask may lie in the same array before that. */
  method Decode(dst: array<Byte>, at: nat, src: seq<Byte>, mask: seq<Byte>, maskOffset: nat) returns (offset: nat)
    requires at + |src| <= dst.Length && |mask| == 4
    modifies dst
    ensures dst[..at + |src|] == old(dst[..at]) + Unmask(mask, src, maskOffset)
    ensures dst[at + |src|..] == old(dst[at + |src|..])
    ensures offset == Mod4(|src| + maskOffset)
  {
    var i := 0;
    while i < |src|
      invariant 0 <= i <= |src| && dst[at + |src|..] == old(dst[at + |src|..])
      invariant dst[..at + i] == old(dst[..at]) + Unmask(mask, src[..i], maskOffset)
    {
      assert src[..i + 1][..i] == src[..i];
      Mod4Is(i + maskOffset);
      dst[at + i] := XorByte(src[i], mask[(i + maskOffset) % 4]);
      i := i + 1;
    }
    assert src[..i] == src;
    Mod4Is(i + maskOffset);
    offset := (i + maskOffset) % 4;
  }

  /** websocket_parser_decode: the parser carries the offset. */
  method ParserDecode(parser: WsParser, dst: array<Byte>, src: seq<Byte>)
    requires dst.Length == |src| && parser.mask.Length == 4 && parser.mask != dst
    modifies dst, parser`maskOffset
    ensures dst[..] == Unmask(parser.mask[..], src, old(parser.maskOffset))
    ensures parser.maskOffset == Mod4(|src| + old(parser.maskOffset))
  {
    var offset := Decode(dst, 0, src, parser.mask[..], parser.maskOffset);
    parser.maskOffset := offset;
    assert dst[..0 + |src|] == dst[..];
  }

  lemma DecodedMore(mask: seq<Byte>, pieces: seq<seq<Byte>>, i: nat, body: seq<Byte>, carried: nat, piece: seq<Byte>)
    requires |mask| == 4 && i < |pieces| && body == Unmask(mask, Concat(pieces[..i]), 0) && carried == Mod4(|body|)
    requires piece == Unmask(mask, pieces[i], carried)
    ensures body + piece == Unmask(mask, Concat(pieces[..i + 1]), 0)
  {
    assert pieces[..i + 1][..i] == pieces[..i];
    UnmaskPieces(mask, Concat(pieces[..i]), pieces[i], 0, carried);
  }

  /** Decoding the pieces of a body as they come gives the body unmasked in one go. */
  method DecodePieces(parser: WsParser, pieces: seq<seq<Byte>>) returns (body: seq<Byte>)
    requires parser.mask.Length == 4 && parser.maskOffset == 0
    modifies parser`maskOffset
    ensures body == Unmask(parser.mask[..], Concat(pieces), 0)
  {
    body := [];
    ghost var mask := parser.mask[..];
    var i := 0;
    while i < |pieces|
      invariant 0 <= i <= |pieces| && parser.mask[..] == mask && parser.maskOffset == Mod4(|body|)
      invariant body == Unmask(mask, Concat(pieces[..i]), 0)
    {
      ghost var carried := parser.maskOffset;
      var piece := DecodePiece(parser, pieces[i]);
      DecodedMore(mask, pieces, i, body, carried, piece);
      Mod4Add(|body|, |piece|);
      body := body + piece;
      i := i + 1;
    }
    assert pieces[..i] == pieces;
  }

  method DecodePiece(parser: WsParser, src: seq<Byte>) returns (piece: seq<Byte>)
    requires parser.mask.Length == 4
    modifies parser`maskOffset
    ensures parser.mask[..] == old(parser.mask[..])
    ensures piece == Unmask(parser.mask[..], src, old(parser.maskOffset))
    ensures parser.maskOffset == Mod4(|src| + old(parser.maskOffset))
  {
    var dst := new Byte[|src|](_ => 0);
    ParserDecode(parser, dst, src);
    piece := dst[..];
  }

  /* Building */

  function BigEndian(n: nat, k: nat): (r: seq<Byte>)
    ensures |r| == k
    decreases k
  {
    if k == 0 then [] else BigEndian(Shr(n, 8), k - 1) + [LowByte(n)]
  }

  function LowByte(n: nat): Byte {
    LowByteIs(n);
    Low(n, 8)
  }

  lemma LowByteIs(n: nat)
    ensures Low(n, 8) < 256
  {
    KnownPowers();
    LowBound(n, 8);
  }

  lemma {:induction false} BigEndianAt(n: nat, k: nat, i: nat)
    requires i < k
    ensures BigEndian(n, k)[i] == LowByte(Shr(n, 8 * (k - 1 - i)))
    decreases k
  {
    if i + 1 < k {
      BigEndianAt(Shr(n, 8), k - 1, i);
      ShrShr(n, 8, 8 * (k - 2 - i));
    }
  }

  /** The low `n` bits of a byte's head and one flag in its highest bit. */
  function HeadByte(low: nat, flag: bool): Byte
    requires low < 128
  {
    if flag then low + 128 else low
  }

  function LengthCode(length: nat): (code: nat)
    ensures code < 128
  {
    if length < 126 then length else if length <= 0xFFFF then 126 else 127
  }

  function LengthBytes(length: nat): seq<Byte> {
    if length < 126 then [] else if length <= 0xFFFF then BigEndian(length, 2) else BigEndian(length, 8)
  }

  lemma LowFourIs(flags: nat)
    ensures Low(flags, 4) < 16
  {
    LowBound(flags, 4);
    assert Pow2(4) == 16;
  }

  /** The two head bytes and the length. */
  function Header(flags: nat, length: nat): seq<Byte> {
    LowFourIs(flags);
    [HeadByte(Low(flags, 4), Bit(flags, 4)), HeadByte(LengthCode(length), Masked(flags))] + LengthBytes(length)
  }

  /** The bytes of a frame. */
  function Built(flags: nat, mask: seq<Byte>, data: seq<Byte>): seq<Byte>
    requires |mask| == 4
  {
    Header(flags, |data|) + (if Masked(flags) then mask + Unmask(mask, data, 0) else data)
  }

  /** websocket_calc_frame_size */
  function CalcFrameSize(flags: nat, dataLen: nat): nat {
    var size := dataLen + 2;
    var size := if dataLen >= 126 then (if dataLen > 0xFFFF then size + 8 else size + 2) else size;
    if Masked(flags) then size + 4 else size
  }

  lemma SizeIsExact(flags: nat, mask: seq<Byte>, data: seq<Byte>)
    requires |mask| == 4
    ensures |Built(flags, mask, data)| == CalcFrameSize(flags, |data|)
  {
  }

  method Copy(dst: array<Byte>, at: nat, src: seq<Byte>)
    requires at + |src| <= dst.Length
    modifies dst
    ensures dst[..at + |src|] == old(dst[..at]) + src && dst[at + |src|..] == old(dst[at + |src|..])
  {
    var i := 0;
    while i < |src|
      invariant i <= |src| && dst[..at + i] == old(dst[..at]) + src[..i] && dst[at + |src|..] == old(dst[at + |src|..])
    {
      dst[at + i] := src[i];
      i := i + 1;
    }
  }

  /** The length in two bytes, the highest first. */
  method BuildLength2(frame: array<Byte>, length: nat)
    requires frame.Length >= 4
    modifies frame
    ensures frame[..4] == old(frame[..2]) + BigEndian(length, 2) && frame[4..] == old(frame[4..])
  {
    hide Low, Shr, Pow2, BigEndian, LowByte;
    BigEndianAt(length, 2, 0);
    BigEndianAt(length, 2, 1);
    frame[2], frame[3] := LowByte(Shr(length, 8)), LowByte(Shr(length, 0));
  }

  /** The length in eight bytes, the highest first. */
  method BuildLength8(frame: array<Byte>, length: nat)
    requires frame.Length >= 10
    modifies frame
    ensures frame[..10] == old(frame[..2]) + BigEndian(length, 8) && frame[10..] == old(frame[10..])
  {
    hide Low, Shr, Pow2, BigEndian, LowByte;
    forall i | 0 <= i < 8 ensures BigEndian(length, 8)[i] == LowByte(Shr(length, 8 * (7 - i))) {
      BigEndianAt(length, 8, i);
    }
    frame[2], frame[3] := LowByte(Shr(length, 56)), LowByte(Shr(length, 48));
    frame[4], frame[5] := LowByte(Shr(length, 40)), LowByte(Shr(length, 32));
    frame[6], frame[7] := LowByte(Shr(length, 24)), LowByte(Shr(length, 16));
    frame[8], frame[9] := LowByte(Shr(length, 8)), LowByte(Shr(length, 0));
  }

  /** The two head bytes and the length. */
  method BuildHead(frame: array<Byte>, flags: nat, length: nat) returns (bodyOffset: nat)
    requires frame.Length >= CalcFrameSize(flags, length)
    modifies frame
    ensures bodyOffset == 2 + |LengthBytes(length)|
    ensures frame[bodyOffset..] == old(frame[bodyOffset..])
    ensures frame[..bodyOffset] == Header(flags, length)
  {
    hide Low, Shr, Pow2, Bit, BigEndian, LowByte;
    LowFourIs(flags);
    frame[0], frame[1] := 0, 0;
    if Bit(flags, 4) { frame[0] := 128; }
    frame[0] := frame[0] + Low(flags, 4);
    if Masked(flags) { frame[1] := 128; }
    frame[1] := frame[1] + LengthCode(length);
    assert frame[..2] == Header(flags, length)[..2];
    if length < 126 {
      bodyOffset := 2;
    } else if length <= 0xFFFF {
      BuildLength2(frame, length);
      bodyOffset := 4;
    } else {
      BuildLength8(frame, length);
      bodyOffset := 10;
    }
  }

  /** websocket_build_frame; without a mask of its own a masked frame uses the bytes it finds in the buffer. */
  method BuildFrame(frame: array<Byte>, flags: nat, mask: Option<seq<Byte>>, data: seq<Byte>)
    returns (size: nat, ghost used: seq<Byte>)
    requires frame.Length >= CalcFrameSize(flags, |data|)
    requires mask.Some? ==> |mask.value| == 4
    modifies frame
    ensures size == CalcFrameSize(flags, |data|) && |used| == 4 && (mask.Some? ==> used == mask.value)
    ensures frame[..size] == Built(flags, used, data) && frame[size..] == old(frame[size..])
  {
    hide Unmask, Low, BigEndian;
    ghost var before := frame[..];
    var bodyOffset := BuildHead(frame, flags, |data|);
    ghost var header := frame[..bodyOffset];
    Suffix(before, frame[..], bodyOffset, CalcFrameSize(flags, |data|));
    if Masked(flags) {
      used := BuildMask(frame, bodyOffset, mask, CalcFrameSize(flags, |data|));
      var offset := Decode(frame, bodyOffset + 4, data, frame[bodyOffset..bodyOffset + 4], 0);
      assert frame[..bodyOffset + 4 + |data|] == header + used + Unmask(used, data, 0)
          == header + (used + Unmask(used, data, 0));
      bodyOffset := bodyOffset + 4;
    } else {
      used := if mask.Some? then mask.value else [0, 0, 0, 0];
      Copy(frame, bodyOffset, data);
    }
    size := bodyOffset + |data|;
    assert frame[size..] == frame[..][size..] == before[size..];
  }

  method BuildMask(frame: array<Byte>, at: nat, mask: Option<seq<Byte>>,
                   ghost size: nat) returns (ghost used: seq<Byte>)
    requires at + 4 <= size <= frame.Length && (mask.Some? ==> |mask.value| == 4)
    modifies frame
    ensures frame[..at + 4] == old(frame[..at]) + used && |used| == 4 && used == frame[at..at + 4]
    ensures mask.Some? ==> used == mask.value
    ensures frame[size..] == old(frame[size..])
  {
    ghost var before := frame[..];
    if mask.Some? {
      Copy(frame, at, mask.value);
      Suffix(before, frame[..], at + 4, size);
    }
    used := frame[at..at + 4];
    assert frame[..at + 4] == frame[..at] + used && frame[..at] == before[..at];
  }

  lemma Suffix(before: seq<Byte>, after: seq<Byte>, from: nat, later: nat)
    requires from <= later <= |before| == |after| && after[from..] == before[from..]
    ensures after[later..] == before[later..]
  {
    assert after[later..] == after[from..][later - from..] && before[later..] == before[from..][later - from..];
  }
}
