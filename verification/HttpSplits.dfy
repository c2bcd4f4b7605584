/** Which streams are delivered alike however they are split into calls, and what is lost of the others. */
module HttpSplits {
  import opened BitStrings
  import opened HttpBody

  /* Where a chunk is not followed by a line break */

  /** Byte `k` is the one behind a chunk's data, and no carriage return. */
  predicate Breaks(s: State, bytes: seq<Byte>, k: nat) {
    && k < |bytes| && bytes[k] != CR
    && Run(s, bytes[..k]).errno == OK && Run(s, bytes[..k]).phase.DataAlmostDone?
  }

  /** A chunk with at least one byte of its data in the stream is followed by something else. */
  ghost predicate ChunkBreaks(s: State, bytes: seq<Byte>) {
    exists k :: 0 < k && Breaks(s, bytes, k)
  }

  lemma BreaksAt(s: State, bytes: seq<Byte>, k: nat)
    requires Breaks(s, bytes, k)
    ensures k < |bytes|
  {
  }

  lemma BreaksLater(s: State, bytes: seq<Byte>, k: nat)
    requires 0 < k && bytes != []
    ensures Breaks(s, bytes, k) <==> Breaks(Step(s, bytes[0]), bytes[1..], k - 1)
  {
    hide Step;
    if k < |bytes| {
      assert bytes[..k][0] == bytes[0] && bytes[..k][1..] == bytes[1..][..k - 1];
    }
  }

  /** The stream seen in two parts. */
  lemma RunPrefix(s: State, a: seq<Byte>, b: seq<Byte>, j: nat)
    requires j <= |a| + |b|
    ensures Run(s, (a + b)[..j]) == if j <= |a| then Run(s, a[..j]) else Run(Run(s, a), b[..j - |a|])
  {
    if j <= |a| {
      assert (a + b)[..j] == a[..j];
    } else {
      assert (a + b)[..j] == a + b[..j - |a|];
      RunAppend(s, a, b[..j - |a|]);
    }
  }

  lemma BreaksParts(s: State, a: seq<Byte>, b: seq<Byte>, k: nat)
    ensures k < |a| ==> (Breaks(s, a + b, k) <==> Breaks(s, a, k))
    ensures |a| <= k ==> (Breaks(s, a + b, k) <==> Breaks(Run(s, a), b, k - |a|))
  {
    if k < |a| + |b| {
      RunPrefix(s, a, b, k);
      assert a[..|a|] == a && b[..0] == [];
    }
  }

  /** Behind the byte where it breaks nothing is read. */
  lemma StoppedBehind(s: State, bytes: seq<Byte>, j: nat, n: nat)
    requires Breaks(s, bytes, j) && j < n <= |bytes|
    ensures Run(s, bytes[..n]).errno != OK
  {
    var t, rest := Run(s, bytes[..j]), bytes[j..n];
    assert bytes[..n] == bytes[..j] + rest && rest[0] == bytes[j];
    RunAppend(s, bytes[..j], rest);
    RunStopped(Step(t, bytes[j]), rest[1..]);
  }

  lemma BreaksOnce(s: State, bytes: seq<Byte>, j: nat, k: nat)
    requires Breaks(s, bytes, j) && Breaks(s, bytes, k)
    ensures j == k
  {
    if j < k { StoppedBehind(s, bytes, j, k); }
    if k < j { StoppedBehind(s, bytes, k, j); }
  }

  /** Up to where it breaks the stream is read on. */
  lemma GoesOn(s: State, bytes: seq<Byte>, k: nat)
    requires Breaks(s, bytes, k)
    ensures !Stopped(s)
    ensures k > 0 && s.phase.DataAlmostDone? ==> bytes[0] == CR
  {
    if Stopped(s) { RunStopped(s, bytes[..k]); }
    if k > 0 && s.phase.DataAlmostDone? && bytes[0] != CR {
      assert bytes[..k][0] == bytes[0];
      RunStopped(Step(s, bytes[0]), bytes[..k][1..]);
    }
  }

  /** Only the last byte of its data leads behind a chunk. */
  lemma BehindData(s: State, b: Byte)
    requires Step(s, b).errno == OK && Step(s, b).phase.DataAlmostDone?
    ensures s.phase.Data? && !Stopped(s)
  {
  }

  /* The bytes that are not sent, by the place where a chunk breaks */

  function NextMarked(s: State, marked: seq<Byte>, b: Byte): seq<Byte> {
    if s.phase.DataAlmostDone? then [] else if s.phase.Data? then marked + [b] else marked
  }

  lemma {:induction false} UnsentBreaks(s: State, marked: seq<Byte>, bytes: seq<Byte>) returns (k: nat)
    requires Unsent(s, marked, bytes) != []
    ensures Breaks(s, bytes, k) && (k > 0 || marked != [])
    decreases |bytes|
  {
    hide Step;
    if s.phase.DataAlmostDone? && bytes[0] != CR {
      assert bytes[..0] == [];
      return 0;
    }
    k := UnsentBreaks(Step(s, bytes[0]), NextMarked(s, marked, bytes[0]), bytes[1..]);
    BreaksLater(s, bytes, k + 1);
    k := k + 1;
  }

  /** The data of the chunk that breaks at `k` begin at `b`, or before the stream if `b` is 0. */
  predicate DataFrom(s: State, bytes: seq<Byte>, b: nat, k: nat)
    requires b <= k <= |bytes|
  {
    && (forall j :: b <= j < k ==> Run(s, bytes[..j]).phase.Data?)
    && (b > 0 ==> !Run(s, bytes[..b - 1]).phase.Data?)
  }

  lemma DataFromLater(s: State, bytes: seq<Byte>, b: nat, k: nat)
    requires 0 < k <= |bytes| && b <= k && DataFrom(s, bytes, b, k)
    ensures DataFrom(Step(s, bytes[0]), bytes[1..], if b > 1 then b - 1 else 0, k - 1)
  {
    hide Step;
    forall j | 0 < j <= k ensures Run(Step(s, bytes[0]), bytes[1..][..j - 1]) == Run(s, bytes[..j]) {
      assert bytes[..j][0] == bytes[0] && bytes[..j][1..] == bytes[1..][..j - 1];
    }
    forall j | 0 <= j < k - 1 && (if b > 1 then b - 1 else 0) <= j
      ensures Run(Step(s, bytes[0]), bytes[1..][..j]).phase.Data?
    {
      assert Run(s, bytes[..j + 1]).phase.Data?;
    }
  }

  /** What a call does not send: the bytes of that chunk that the call brought, or had marked before. */
  lemma {:induction false} UnsentIs(s: State, marked: seq<Byte>, bytes: seq<Byte>, b: nat, k: nat)
    requires Breaks(s, bytes, k) && b <= k && DataFrom(s, bytes, b, k)
    requires s.phase.Data? || s.phase.DataAlmostDone? || marked == []
    ensures Unsent(s, marked, bytes) == (if b == 0 then marked else []) + bytes[b..k]
    decreases k
  {
    hide Step;
    GoesOn(s, bytes, k);
    assert bytes[..0] == [];
    if k > 0 {
      var t, marked' := Step(s, bytes[0]), NextMarked(s, marked, bytes[0]);
      DataFromLater(s, bytes, b, k);
      BreaksLater(s, bytes, k);
      StepMarks(s, bytes[0], marked);
      if b == 1 { FirstOfData(s, bytes, k); }
      UnsentIs(t, marked', bytes[1..], if b > 1 then b - 1 else 0, k - 1);
      assert bytes[1..][(if b > 1 then b - 1 else 0)..k - 1] == bytes[(if b == 0 then 1 else b)..k];
    }
  }

  lemma StepMarks(s: State, b: Byte, marked: seq<Byte>)
    requires !Stopped(s) && (s.phase.Data? || s.phase.DataAlmostDone? || marked == [])
    ensures var t := Step(s, b); t.phase.Data? || t.phase.DataAlmostDone? || NextMarked(s, marked, b) == []
  {
  }

  /** The data of a chunk follow its header. */
  lemma FirstOfData(s: State, bytes: seq<Byte>, k: nat)
    requires Breaks(s, bytes, k) && 1 <= k && DataFrom(s, bytes, 1, k)
    ensures !s.phase.Data? && !s.phase.DataAlmostDone?
  {
    GoesOn(s, bytes, k);
    assert bytes[..0] == [] && bytes[..1][0] == bytes[0] && bytes[..1][1..] == [];
    assert Run(s, bytes[..1]) == Run(Step(s, bytes[0]), bytes[..1][1..]) == Step(s, bytes[0]);
  }

  /* Lost by some split */

  predicate IsSplit(pieces: seq<seq<Byte>>, stream: seq<Byte>) {
    Concat(pieces) == stream && forall i :: 0 <= i < |pieces| ==> pieces[i] != []
  }

  /** What the calls deliver of the body, as `HttpBody.ExecuteAll` leaves it. */
  ghost predicate Delivers(s: State, pieces: seq<seq<Byte>>, delivered: seq<Byte>) {
    Run(s, Concat(pieces)).body == delivered + Lost(s, pieces)
  }

  lemma {:induction false} NothingLost(s: State, pieces: seq<seq<Byte>>)
    requires !ChunkBreaks(s, Concat(pieces))
    ensures Lost(s, pieces) == []
  {
    hide Run, Unsent, Breaks;
    if pieces != [] {
      var front, last := pieces[..|pieces| - 1], pieces[|pieces| - 1];
      if ChunkBreaks(s, Concat(front)) {
        var k :| 0 < k && Breaks(s, Concat(front), k);
        BreaksAt(s, Concat(front), k);
        BreaksParts(s, Concat(front), last, k);
        assert false;
      }
      NothingLost(s, front);
      if Unsent(Run(s, Concat(front)), [], last) != [] {
        var k := UnsentBreaks(Run(s, Concat(front)), [], last);
        BreaksParts(s, Concat(front), last, |Concat(front)| + k);
        assert false;
      }
    }
  }

  lemma NoneBefore(s: State, a: seq<Byte>, b: seq<Byte>, k: nat)
    requires Breaks(s, a + b, k) && |a| <= k
    ensures !ChunkBreaks(s, a)
  {
    hide Run, Breaks;
    if ChunkBreaks(s, a) {
      var j :| 0 < j && Breaks(s, a, j);
      BreaksAt(s, a, j);
      BreaksParts(s, a, b, j);
      BreaksOnce(s, a + b, j, k);
    }
  }

  /** If a chunk breaks in the last call, the bytes of it are lost that came in that call. */
  lemma LostInLast(s: State, front: seq<seq<Byte>>, last: seq<Byte>, b: nat, k: nat)
    requires |Concat(front)| <= k < |Concat(front)| + |last| && b <= k
    requires Breaks(s, Concat(front) + last, k) && DataFrom(s, Concat(front) + last, b, k)
    ensures var c := |Concat(front)|;
            Lost(s, front) + Unsent(Run(s, Concat(front)), [], last)
            == (Concat(front) + last)[(if b < c then c else b)..k]
  {
    hide Run, Unsent, Breaks, DataFrom, ChunkBreaks;
    var a := Concat(front);
    NoneBefore(s, a, last, k);
    NothingLost(s, front);
    BreaksParts(s, a, last, k);
    var b' := if b < |a| then 0 else b - |a|;
    DataFromSecond(s, a, last, b, k);
    UnsentIs(Run(s, a), [], last, b', k - |a|);
    assert (a + last)[|a| + b'..k] == last[b'..k - |a|];
  }

  /** A call that comes after loses nothing. */
  lemma NothingBehind(s: State, a: seq<Byte>, last: seq<Byte>, b: nat, k: nat)
    requires Breaks(s, a + last, k) && k < |a| && b <= k && DataFrom(s, a + last, b, k)
    ensures Breaks(s, a, k) && DataFrom(s, a, b, k) && Unsent(Run(s, a), [], last) == []
  {
    hide Run, Unsent, Breaks, DataFrom;
    BreaksParts(s, a, last, k);
    DataFromFirst(s, a, last, b, k);
    StoppedBehind(s, a, k, |a|);
    assert a[..|a|] == a;
    NothingUnsent(Run(s, a), [], last);
  }

  /** Of the chunk that breaks at byte `k`, the bytes are lost that came in the same call. */
  lemma {:induction false} WhatIsLost(s: State, pieces: seq<seq<Byte>>, i: nat, b: nat, k: nat)
    requires i < |pieces| && |Concat(pieces[..i])| <= k < |Concat(pieces[..i])| + |pieces[i]|
    requires Breaks(s, Concat(pieces), k) && b <= k < |Concat(pieces)| && DataFrom(s, Concat(pieces), b, k)
    ensures var c := |Concat(pieces[..i])|;
            Lost(s, pieces) == Concat(pieces)[(if b < c then c else b)..k]
    decreases |pieces|
  {
    hide Run, Unsent, Breaks, DataFrom;
    var front, last := pieces[..|pieces| - 1], pieces[|pieces| - 1];
    if i == |pieces| - 1 {
      LostInLast(s, front, last, b, k);
    } else {
      var a, c := Concat(front), |Concat(pieces[..i])|;
      assert front[..i] == pieces[..i];
      Longer(front, i);
      NothingBehind(s, a, last, b, k);
      WhatIsLost(s, front, i, b, k);
      assert (a + last)[(if b < c then c else b)..k] == a[(if b < c then c else b)..k];
    }
  }

  lemma {:induction false} Longer(pieces: seq<seq<Byte>>, i: nat)
    requires i < |pieces|
    ensures |Concat(pieces[..i])| + |pieces[i]| <= |Concat(pieces)|
    decreases |pieces|
  {
    var front := pieces[..|pieces| - 1];
    if i < |pieces| - 1 {
      Longer(front, i);
      assert front[..i] == pieces[..i];
    }
  }

  lemma SecondPart(s: State, a: seq<Byte>, b: seq<Byte>, j: nat)
    requires |a| <= j <= |a| + |b|
    ensures Run(s, (a + b)[..j]) == Run(Run(s, a), b[..j - |a|])
  {
    hide Run;
    RunPrefix(s, a, b, j);
    AtStart(s, a, b);
  }

  lemma DataFromSecond(s: State, a: seq<Byte>, b: seq<Byte>, from: nat, k: nat)
    requires |a| <= k <= |a + b| && from <= k && DataFrom(s, a + b, from, k)
    ensures DataFrom(Run(s, a), b, if from < |a| then 0 else from - |a|, k - |a|)
  {
    hide Fail, Stopped;
    var from' := if from < |a| then 0 else from - |a|;
    forall j | from' <= j < k - |a| ensures Run(Run(s, a), b[..j]).phase.Data? {
      SecondPart(s, a, b, |a| + j);
      assert Run(s, (a + b)[..|a| + j]).phase.Data?;
    }
    if from' > 0 { SecondPart(s, a, b, from - 1); }
  }

  lemma AtStart(s: State, a: seq<Byte>, b: seq<Byte>)
    ensures a[..|a|] == a && Run(Run(s, a), b[..0]) == Run(s, a)
  {
    assert b[..0] == [];
  }

  lemma DataFromFirst(s: State, a: seq<Byte>, b: seq<Byte>, from: nat, k: nat)
    requires from <= k <= |a| && DataFrom(s, a + b, from, k)
    ensures DataFrom(s, a, from, k)
  {
    hide Run;
    forall j | 0 <= j <= k ensures Run(s, (a + b)[..j]) == Run(s, a[..j]) {
      RunPrefix(s, a, b, j);
    }
  }

  /* What all splits have in common */

  /** What is not sent is the end of the body seen. */
  lemma {:induction false} UnsentEnds(s: State, sent: seq<Byte>, marked: seq<Byte>, bytes: seq<Byte>)
    returns (d: seq<Byte>)
    requires s.body == sent + marked
    ensures Run(s, bytes).body == d + Unsent(s, marked, bytes)
    decreases |bytes|
  {
    if Unsent(s, marked, bytes) == [] {
      d := Run(s, bytes).body;
      assert d + [] == d;
    } else if s.phase.DataAlmostDone? && bytes[0] != CR {
      RunStopped(Step(s, bytes[0]), bytes[1..]);
      d := sent;
    } else {
      var t := Step(s, bytes[0]);
      if s.phase.Data? {
        assert sent + marked + [bytes[0]] == sent + (marked + [bytes[0]]);
        d := UnsentEnds(t, sent, marked + [bytes[0]], bytes[1..]);
      } else if s.phase.DataAlmostDone? {
        assert t.body + [] == t.body;
        d := UnsentEnds(t, t.body, [], bytes[1..]);
      } else {
        if s.phase.Identity? || s.phase.IdentityEof? { NothingUnsent(s, marked, bytes); }
        d := UnsentEnds(t, sent, marked, bytes[1..]);
      }
    }
  }

  lemma LostOfOne(s: State, stream: seq<Byte>)
    requires stream != []
    ensures IsSplit([stream], stream) && Lost(s, [stream]) == Unsent(s, [], stream)
  {
    hide Unsent;
    assert [stream][..0] == [] && Concat([]) + stream == stream;
  }

  lemma LostOfTwo(s: State, a: seq<Byte>, b: seq<Byte>)
    requires a != [] && b != []
    ensures IsSplit([a, b], a + b) && Lost(s, [a, b]) == Unsent(s, [], a) + Unsent(Run(s, a), [], b)
  {
    hide Unsent, Run;
    assert [a, b][..1] == [a];
    LostOfOne(s, a);
  }

  lemma {:induction false} BreaksUnsent(s: State, marked: seq<Byte>, bytes: seq<Byte>, k: nat)
    requires Breaks(s, bytes, k) && (k > 0 || marked != [])
    ensures Unsent(s, marked, bytes) != []
    decreases k
  {
    hide Step;
    GoesOn(s, bytes, k);
    assert bytes[..0] == [];
    if k > 0 {
      BreaksLater(s, bytes, k);
      if k == 1 {
        assert bytes[1..][..0] == [];
        BehindData(s, bytes[0]);
      }
      BreaksUnsent(Step(s, bytes[0]), NextMarked(s, marked, bytes[0]), bytes[1..], k - 1);
    }
  }

  /** Cut before the wrong byte, the stream is delivered; in one piece it is not. */
  lemma CutMatters(s: State, stream: seq<Byte>, k: nat)
    requires 0 < k < |stream| && Breaks(s, stream, k)
    ensures IsSplit([stream], stream) && Lost(s, [stream]) == Unsent(s, [], stream) != []
    ensures IsSplit([stream[..k], stream[k..]], stream) && Lost(s, [stream[..k], stream[k..]]) == []
  {
    hide Unsent, Breaks, Run;
    var a, b := stream[..k], stream[k..];
    assert stream == a + b;
    LostOfOne(s, stream);
    BreaksUnsent(s, [], stream, k);
    LostOfTwo(s, a, b);
    if Unsent(s, [], a) != [] {
      var j := UnsentBreaks(s, [], a);
      BreaksAt(s, a, j);
      BreaksParts(s, a, b, j);
      BreaksOnce(s, stream, j, k);
    }
    if Unsent(Run(s, a), [], b) != [] {
      var j := UnsentBreaks(Run(s, a), [], b);
      BreaksParts(s, a, b, k + j);
      BreaksOnce(s, stream, k + j, k);
    }
  }

  lemma DeliversAll(s: State, pieces: seq<seq<Byte>>, d: seq<Byte>)
    requires !ChunkBreaks(s, Concat(pieces)) && Delivers(s, pieces, d)
    ensures d == Run(s, Concat(pieces)).body
  {
    hide Run, Lost, ChunkBreaks;
    NothingLost(s, pieces);
    assert d + [] == d;
  }

  lemma SplitsDiffer(s: State, stream: seq<Byte>)
    requires ChunkBreaks(s, stream)
    ensures exists p, q, d, e ::
              IsSplit(p, stream) && IsSplit(q, stream) && Delivers(s, p, d) && Delivers(s, q, e) && d != e
  {
    hide Run, Lost, Breaks, Unsent, Concat;
    var k :| 0 < k && Breaks(s, stream, k);
    BreaksAt(s, stream, k);
    CutMatters(s, stream, k);
    assert s.body + [] == s.body;
    var d := UnsentEnds(s, s.body, [], stream);
    var e := Run(s, stream).body;
    assert e + [] == e;
    var p, q := [stream], [stream[..k], stream[k..]];
    assert Delivers(s, p, d) && Delivers(s, q, e) && |d| < |e|;
  }

  /** All splits of a stream into calls deliver the same of its body exactly if none of its chunks breaks. */
  lemma SplitsAgreeExactly(s: State, stream: seq<Byte>)
    ensures (forall p, q, d, e ::
              IsSplit(p, stream) && IsSplit(q, stream) && Delivers(s, p, d) && Delivers(s, q, e) ==> d == e)
            <==> !ChunkBreaks(s, stream)
  {
    hide Run, Concat, Lost, ChunkBreaks, Delivers;
    if ChunkBreaks(s, stream) {
      SplitsDiffer(s, stream);
    } else {
      forall p, q, d, e | IsSplit(p, stream) && IsSplit(q, stream) && Delivers(s, p, d) && Delivers(s, q, e)
        ensures d == e
      {
        DeliversAll(s, p, d);
        DeliversAll(s, q, e);
      }
    }
  }
}
