/** The JPEG check of uploaded documents: marker segments up to the start of the first scan, between the start and the
    end of the image. */
module Jpeg {
  import opened Bytes
  import opened Prelude

  const SOI: seq<Byte> := [0xFF, 0xD8]
  const EOI: seq<Byte> := [0xFF, 0xD9]
  const SOS: Byte := 0xDA

  /** A marker segment: how many fill bytes precede its marker, the marker, and the data after the length. */
  datatype Segment = Segment(fill: nat, marker: Byte, data: seq<Byte>)

  predicate Frame(m: Byte) {
    m == 0xC0 || m == 0xC1 || m == 0xC2
  }

  predicate SegmentOk(s: Segment) {
    s.marker != 0xFF && |s.data| + 2 < 0x1_0000
  }

  /** A frame header says a non-zero height and width. */
  predicate FrameOk(s: Segment) {
    Frame(s.marker) ==> |s.data| >= 6 && U16BE(s.data, 1) != 0 && U16BE(s.data, 3) != 0
  }

  function Fill(n: nat): (b: seq<Byte>)
    ensures |b| == n && forall i :: 0 <= i < n ==> b[i] == 0xFF
  {
    if n == 0 then [] else [0xFF] + Fill(n - 1)
  }

  function Encode(s: Segment): (b: seq<Byte>)
    requires SegmentOk(s)
    ensures |b| == s.fill + |s.data| + 4
  {
    Fill(s.fill + 1) + [s.marker] + WriteU16BE(|s.data| + 2) + s.data
  }

  function EncodeAll(ss: seq<Segment>): seq<Byte>
    requires forall s :: s in ss ==> SegmentOk(s)
  {
    if ss == [] then [] else Encode(ss[0]) + EncodeAll(ss[1..])
  }

  /** Segments before the first scan, ending with the scan's own header. */
  predicate WellFormed(ss: seq<Segment>, hasFrame: bool) {
    && |ss| > 0 && (forall s :: s in ss ==> SegmentOk(s) && FrameOk(s))
    && ss[|ss| - 1].marker == SOS && |ss[|ss| - 1].data| >= 4
    && (forall i :: 0 <= i < |ss| - 1 ==> ss[i].marker != SOS)
    && (hasFrame || exists i :: 0 <= i < |ss| && Frame(ss[i].marker))
  }

  /** The image: its segments and a scan that is not empty. */
  ghost predicate IsBody(body: seq<Byte>, hasFrame: bool) {
    exists ss, scan :: WellFormed(ss, hasFrame) && |scan| > 0 && body == EncodeAll(ss) + scan
  }

  ghost predicate IsJpeg(buffer: seq<Byte>) {
    exists body :: IsBody(body, false) && buffer == SOI + body + EOI
  }

  // ---- Reading one segment ----

  function Run(b: seq<Byte>): (n: nat)
    ensures n <= |b| && (forall i :: 0 <= i < n ==> b[i] == 0xFF) && (n < |b| ==> b[n] != 0xFF)
  {
    if b != [] && b[0] == 0xFF then 1 + Run(b[1..]) else 0
  }

  function Next(b: seq<Byte>): (r: Option<Segment>)
    ensures r.Some? ==> SegmentOk(r.value) && |b| >= r.value.fill + |r.value.data| + 4
  {
    var k := Run(b);
    if k == 0 || k + 3 > |b| then None
    else
      var length := U16BE(b, k + 1);
      if length < 2 || k + 1 + length > |b| then None
      else Some(Segment(k - 1, b[k], b[k + 3..k + 1 + length]))
  }

  lemma RunIs(b: seq<Byte>, n: nat)
    requires n < |b| && (forall i :: 0 <= i < n ==> b[i] == 0xFF) && b[n] != 0xFF
    ensures Run(b) == n
  {
  }

  lemma NextOfEncoded(s: Segment, rest: seq<Byte>)
    requires SegmentOk(s)
    ensures Next(Encode(s) + rest) == Some(s) && (Encode(s) + rest)[s.fill + |s.data| + 4..] == rest
  {
    var b := Encode(s) + rest;
    var k := s.fill + 1;
    var written := WriteU16BE(|s.data| + 2);
    assert forall i :: 0 <= i < k ==> b[i] == Fill(k)[i];
    assert b[k] == s.marker;
    RunIs(b, k);
    assert b[k + 1] == written[0] && b[k + 2] == written[1];
    assert U16BE(b, k + 1) == U16BE(written, 0);
    assert b[k + 3..k + 3 + |s.data|] == s.data;
  }

  lemma ReadIsWritten(b: seq<Byte>, i: nat)
    requires i + 2 <= |b|
    ensures WriteU16BE(U16BE(b, i)) == [b[i], b[i + 1]]
  {
    var high, low := b[i] as int, b[i + 1] as int;
    assert (256 * high + low) / 256 == high && (256 * high + low) % 256 == low;
  }

  lemma EncodedNext(b: seq<Byte>, s: Segment)
    requires Next(b) == Some(s)
    ensures b == Encode(s) + b[s.fill + |s.data| + 4..]
  {
    var k := s.fill + 1;
    assert b[..k] == Fill(k);
    var written := WriteU16BE(|s.data| + 2);
    ReadIsWritten(b, k + 1);
    assert b == b[..k] + [b[k]] + [b[k + 1], b[k + 2]] + b[k + 3..k + 3 + |s.data|] + b[k + 3 + |s.data|..];
  }

  // ---- What the walk accepts ----

  predicate Accepts(b: seq<Byte>, hasFrame: bool)
    decreases |b|
  {
    var next := Next(b);
    if next.None? then false
    else
      var s := next.value;
      var rest := b[s.fill + |s.data| + 4..];
      if !FrameOk(s) then false
      else
        var frame := hasFrame || Frame(s.marker);
        if s.marker == SOS then frame && |s.data| >= 4 && |rest| > 0 else Accepts(rest, frame)
  }

  lemma {:induction false} AcceptedIsBody(b: seq<Byte>, hasFrame: bool) returns (ss: seq<Segment>, scan: seq<Byte>)
    requires Accepts(b, hasFrame)
    ensures WellFormed(ss, hasFrame) && |scan| > 0 && b == EncodeAll(ss) + scan
    decreases |b|
  {
    hide Next;
    hide Encode;
    hide FrameOk;
    var s := Next(b).value;
    var rest := b[s.fill + |s.data| + 4..];
    EncodedNext(b, s);
    if s.marker == SOS {
      ss, scan := [s], rest;
      assert EncodeAll(ss[1..]) == [];
    } else {
      var tail;
      tail, scan := AcceptedIsBody(rest, hasFrame || Frame(s.marker));
      ss := [s] + tail;
      assert ss[1..] == tail;
      assert ss[0] == s && forall i :: 1 <= i < |ss| ==> ss[i] == tail[i - 1];
      if !hasFrame && !Frame(s.marker) {
        var i :| 0 <= i < |tail| && Frame(tail[i].marker);
        assert ss[i + 1] == tail[i];
      }
      assert Encode(s) + (EncodeAll(tail) + scan) == Encode(s) + EncodeAll(tail) + scan;
    }
  }

  lemma {:induction false} BodyIsAccepted(ss: seq<Segment>, scan: seq<Byte>, hasFrame: bool)
    requires WellFormed(ss, hasFrame) && |scan| > 0
    ensures Accepts(EncodeAll(ss) + scan, hasFrame)
    decreases |ss|
  {
    hide Next;
    hide Encode;
    hide FrameOk;
    var s, tail := ss[0], ss[1..];
    assert EncodeAll(ss) + scan == Encode(s) + (EncodeAll(tail) + scan);
    NextOfEncoded(s, EncodeAll(tail) + scan);
    if s.marker == SOS {
      assert |ss| == 1 && EncodeAll(tail) == [];
      assert !Frame(SOS);
    } else {
      assert |tail| > 0 && forall i :: 0 <= i < |tail| ==> tail[i] == ss[i + 1];
      if !hasFrame && !Frame(s.marker) {
        var i :| 0 <= i < |ss| && Frame(ss[i].marker);
        assert tail[i - 1] == ss[i];
      }
      BodyIsAccepted(tail, scan, hasFrame || Frame(s.marker));
    }
  }

  lemma AcceptsBody(body: seq<Byte>, hasFrame: bool)
    ensures Accepts(body, hasFrame) <==> IsBody(body, hasFrame)
  {
    hide Accepts;
    hide EncodeAll;
    if Accepts(body, hasFrame) {
      var ss, scan := AcceptedIsBody(body, hasFrame);
    }
    if IsBody(body, hasFrame) {
      var ss, scan :| WellFormed(ss, hasFrame) && |scan| > 0 && body == EncodeAll(ss) + scan;
      BodyIsAccepted(ss, scan, hasFrame);
    }
  }

  // ---- The walk as it is written ----

  predicate Ends(buffer: seq<Byte>) {
    |buffer| >= 4 && U16BE(buffer, 0) == 0xFFD8 && U16BE(buffer, |buffer| - 2) == 0xFFD9
  }

  function Body(buffer: seq<Byte>): seq<Byte>
    requires |buffer| >= 4
  {
    buffer[2..|buffer| - 2]
  }

  lemma AcceptsJpeg(buffer: seq<Byte>)
    ensures IsJpeg(buffer) <==> Ends(buffer) && Accepts(Body(buffer), false)
  {
    hide IsBody;
    hide Accepts;
    if IsJpeg(buffer) {
      var body :| IsBody(body, false) && buffer == SOI + body + EOI;
      assert Body(buffer) == body;
      AcceptsBody(body, false);
    }
    if Ends(buffer) && Accepts(Body(buffer), false) {
      AcceptsBody(Body(buffer), false);
      assert buffer == SOI + Body(buffer) + EOI;
    }
  }

  /** The segment at an offset, from what the walk has read: a run of k marker bytes, a marker and a length. */
  lemma NextAt(buffer: seq<Byte>, offset: nat, k: nat)
    requires 2 <= offset && offset + 2 <= |buffer|
    requires offset + k <= |buffer| && (forall i :: offset <= i < offset + k ==> buffer[i] == 0xFF)
    requires offset + k < |buffer| ==> buffer[offset + k] != 0xFF
    ensures var rest := buffer[offset..|buffer| - 2];
      if k == 0 || offset + k + 3 > |buffer| then Next(rest).None?
      else
        var length := U16BE(buffer, offset + k + 1);
        if length < 2 || offset + k + 1 + length > |buffer| - 2 then Next(rest).None?
        else
          && Next(rest) == Some(Segment(k - 1, buffer[offset + k], buffer[offset + k + 3..offset + k + 1 + length]))
          && rest[k + 1 + length..] == buffer[offset + k + 1 + length..|buffer| - 2]
  {
    var rest := buffer[offset..|buffer| - 2];
    if k < |rest| {
      RunIs(rest, k);
      if offset + k + 3 <= |buffer| - 2 {
        assert U16BE(rest, k + 1) == U16BE(buffer, offset + k + 1);
        var length := U16BE(buffer, offset + k + 1);
        if length >= 2 && offset + k + 1 + length <= |buffer| - 2 {
          SliceOfSlice(buffer, offset, |buffer| - 2, k + 3, k + 1 + length);
        }
      }
    } else {
      forall i | 0 <= i < |rest| ensures rest[i] == 0xFF {
        assert rest[i] == buffer[offset + i];
      }
    }
  }

  lemma FrameAt(buffer: seq<Byte>, at: nat, length: nat, fill: nat, marker: Byte)
    requires 2 <= length && at + length <= |buffer| && Frame(marker)
    ensures FrameOk(Segment(fill, marker, buffer[at + 2..at + length])) <==>
              length >= 8 && U16BE(buffer, at + 3) != 0 && U16BE(buffer, at + 5) != 0
  {
    if length >= 8 {
      var data := buffer[at + 2..at + length];
      assert U16BE(data, 1) == U16BE(buffer, at + 3) && U16BE(data, 3) == U16BE(buffer, at + 5);
    }
  }

  method ValidJpeg(buffer: seq<Byte>) returns (ok: bool)
    ensures ok <==> IsJpeg(buffer)
  {
    AcceptsJpeg(buffer);
    hide IsJpeg;
    hide Next;
    hide U16BE;
    hide FrameOk;
    if |buffer| < 4 || U16BE(buffer, 0) != 0xFFD8 || U16BE(buffer, |buffer| - 2) != 0xFFD9 { return false; }
    var offset, hasFrame := 2, false;
    while offset + 4 <= |buffer|
      invariant 2 <= offset <= |buffer| - 2
      invariant Accepts(Body(buffer), false) == Accepts(buffer[offset..|buffer| - 2], hasFrame)
    {
      ghost var start := offset;
      if buffer[offset] != 0xFF {
        NextAt(buffer, start, 0);
        return false;
      }
      offset := offset + 1;
      while offset < |buffer| && buffer[offset] == 0xFF
        invariant start < offset <= |buffer| && forall i :: start <= i < offset ==> buffer[i] == 0xFF
      {
        offset := offset + 1;
      }
      NextAt(buffer, start, offset - start);
      if offset + 3 > |buffer| { return false; }
      var marker := buffer[offset];
      offset := offset + 1;
      var length := U16BE(buffer, offset);
      if length < 2 || offset + length > |buffer| - 2 { return false; }
      if Frame(marker) {
        FrameAt(buffer, offset, length, offset - start - 2, marker);
        if length < 8 || U16BE(buffer, offset + 3) == 0 || U16BE(buffer, offset + 5) == 0 { return false; }
        hasFrame := true;
      } else {
        OtherOk(Segment(offset - start - 2, marker, buffer[offset + 2..offset + length]));
      }
      if marker == SOS { return hasFrame && length >= 6 && offset + length < |buffer| - 2; }
      offset := offset + length;
    }
    NothingLeft(buffer[offset..|buffer| - 2], hasFrame);
    return false;
  }

  lemma OtherOk(s: Segment)
    requires !Frame(s.marker)
    ensures FrameOk(s)
  {
  }

  lemma NothingLeft(b: seq<Byte>, hasFrame: bool)
    requires |b| < 4
    ensures !Accepts(b, hasFrame)
  {
  }
}
