/** The PNG check of uploaded documents, against the format's own chunk layout (sections 5.3, 11.2.2 and 11.2.5 of the
    W3C PNG Specification, Second Edition). CRCs are read over, not checked. */
module Png {
  import opened Bytes
  import opened Prelude

  const SIGNATURE: seq<Byte> := [137, 80, 78, 71, 13, 10, 26, 10]
  const IHDR: seq<Byte> := [0x49, 0x48, 0x44, 0x52]
  const IDAT: seq<Byte> := [0x49, 0x44, 0x41, 0x54]
  const IEND: seq<Byte> := [0x49, 0x45, 0x4E, 0x44]

  datatype Chunk = Chunk(name: seq<Byte>, data: seq<Byte>, crc: seq<Byte>)

  predicate Letter(b: Byte) {
    0x41 <= b <= 0x5A || 0x61 <= b <= 0x7A
  }

  predicate ChunkOk(c: Chunk) {
    |c.name| == 4 && |c.crc| == 4 && |c.data| < 0x1_0000_0000 && Letter(c.name[0]) && Letter(c.name[1])
        && Letter(c.name[2]) && Letter(c.name[3])
  }

  function Encode(c: Chunk): (b: seq<Byte>)
    requires ChunkOk(c)
    ensures |b| == |c.data| + 12
  {
    WriteU32BE(|c.data|) + c.name + c.data + c.crc
  }

  function EncodeAll(cs: seq<Chunk>): seq<Byte>
    requires forall c :: c in cs ==> ChunkOk(c)
  {
    if cs == [] then [] else Encode(cs[0]) + EncodeAll(cs[1..])
  }

  /** Width and height of a header. */
  predicate HeaderOk(c: Chunk) {
    c.name == IHDR && |c.data| == 13 && U32BE(c.data, 0) != 0 && U32BE(c.data, 4) != 0
  }

  /** A list of chunks that makes a PNG file: one header, first; image data somewhere; one empty end, last. */
  predicate WellFormed(cs: seq<Chunk>) {
    && |cs| > 0 && (forall c :: c in cs ==> ChunkOk(c))
    && HeaderOk(cs[0]) && (forall i :: 0 < i < |cs| ==> cs[i].name != IHDR)
    && (exists i :: 0 <= i < |cs| && cs[i].name == IDAT && |cs[i].data| > 0)
    && cs[|cs| - 1].name == IEND && |cs[|cs| - 1].data| == 0 && (forall i :: 0 <= i < |cs| - 1 ==> cs[i].name != IEND)
  }

  // ---- Reading one chunk ----

  function Next(b: seq<Byte>): (r: Option<Chunk>)
    ensures r.Some? ==> ChunkOk(r.value) && |b| >= |r.value.data| + 12
  {
    if |b| < 12 then None
    else
      var length := U32BE(b, 0);
      if length > |b| - 12 then None
      else if !(Letter(b[4]) && Letter(b[5]) && Letter(b[6]) && Letter(b[7])) then None
      else Some(Chunk(b[4..8], b[8..8 + length], b[8 + length..12 + length]))
  }

  lemma NextOfEncoded(c: Chunk, rest: seq<Byte>)
    requires ChunkOk(c)
    ensures Next(Encode(c) + rest) == Some(c) && (Encode(c) + rest)[|c.data| + 12..] == rest
  {
    var b := Encode(c) + rest;
    var n := |c.data|;
    assert b[..4] == WriteU32BE(n);
    assert U32BE(b, 0) == U32BE(b[..4], 0);
    assert b[4..8] == c.name;
    assert b[8..8 + n] == c.data;
    assert b[8 + n..12 + n] == c.crc;
  }

  lemma EncodedNext(b: seq<Byte>, c: Chunk)
    requires Next(b) == Some(c)
    ensures b == Encode(c) + b[|c.data| + 12..]
  {
    var n := |c.data|;
    assert U32BE(b, 0) == U32BE(b[..4], 0);
    WriteOfRead(b[..4]);
    assert b == b[..4] + b[4..8] + b[8..8 + n] + b[8 + n..12 + n] + b[12 + n..];
  }

  // ---- Reading and writing undo each other ----

  function DecodeAll(b: seq<Byte>): (r: Option<seq<Chunk>>)
    ensures r.Some? ==> forall c :: c in r.value ==> ChunkOk(c)
    decreases |b|
  {
    if b == [] then Some([])
    else
      var c := Next(b);
      if c.None? then None
      else
        var rest := DecodeAll(b[|c.value.data| + 12..]);
        if rest.None? then None else Some([c.value] + rest.value)
  }

  lemma {:induction false} DecodeOfEncode(cs: seq<Chunk>)
    requires forall c :: c in cs ==> ChunkOk(c)
    ensures DecodeAll(EncodeAll(cs)) == Some(cs)
  {
    hide Next;
    hide Encode;
    if cs != [] {
      NextOfEncoded(cs[0], EncodeAll(cs[1..]));
      DecodeOfEncode(cs[1..]);
      assert cs == [cs[0]] + cs[1..];
    }
  }

  lemma {:induction false} EncodeOfDecode(b: seq<Byte>)
    requires DecodeAll(b).Some?
    ensures EncodeAll(DecodeAll(b).value) == b
    decreases |b|
  {
    hide Next;
    hide Encode;
    if b != [] {
      var c := Next(b).value;
      var rest := b[|c.data| + 12..];
      EncodeOfDecode(rest);
      EncodedNext(b, c);
      assert DecodeAll(b).value[1..] == DecodeAll(rest).value;
    }
  }

  // ---- What the walk accepts ----

  /** The walk over the rest of the buffer. */
  predicate Accepts(b: seq<Byte>, first: bool, hasData: bool)
    decreases |b|
  {
    var next := Next(b);
    if next.None? then false
    else
      var c := next.value;
      if first && !HeaderOk(c) then false
      else if !first && c.name == IHDR then false
      else
        var data := hasData || (c.name == IDAT && |c.data| > 0);
        var rest := b[|c.data| + 12..];
        if c.name == IEND then |c.data| == 0 && data && rest == [] else Accepts(rest, false, data)
  }

  /** A list of chunks the walk can be in the middle of. */
  predicate Remainder(cs: seq<Chunk>, first: bool, hasData: bool) {
    && |cs| > 0 && (forall c :: c in cs ==> ChunkOk(c))
    && (first ==> HeaderOk(cs[0])) && (forall i :: (if first then 1 else 0) <= i < |cs| ==> cs[i].name != IHDR)
    && (hasData || exists i :: 0 <= i < |cs| && cs[i].name == IDAT && |cs[i].data| > 0)
    && cs[|cs| - 1].name == IEND && |cs[|cs| - 1].data| == 0 && (forall i :: 0 <= i < |cs| - 1 ==> cs[i].name != IEND)
  }

  lemma {:induction false} AcceptedIsEncoding(b: seq<Byte>, first: bool, hasData: bool) returns (cs: seq<Chunk>)
    requires Accepts(b, first, hasData)
    ensures Remainder(cs, first, hasData) && b == EncodeAll(cs)
    decreases |b|
  {
    hide Next;
    hide Encode;
    var c := Next(b).value;
    var rest := b[|c.data| + 12..];
    EncodedNext(b, c);
    if c.name == IEND {
      cs := [c];
      assert EncodeAll(cs[1..]) == [];
    } else {
      var data := hasData || (c.name == IDAT && |c.data| > 0);
      var tail := AcceptedIsEncoding(rest, false, data);
      cs := [c] + tail;
      assert cs[1..] == tail;
      RemainderGrows(c, tail, first, hasData);
    }
  }

  lemma RemainderGrows(c: Chunk, tail: seq<Chunk>, first: bool, hasData: bool)
    requires ChunkOk(c) && c.name != IEND && (if first then HeaderOk(c) else c.name != IHDR)
    requires Remainder(tail, false, hasData || (c.name == IDAT && |c.data| > 0))
    ensures Remainder([c] + tail, first, hasData)
  {
    var cs := [c] + tail;
    assert cs[0] == c && forall i :: 1 <= i < |cs| ==> cs[i] == tail[i - 1];
    if !hasData && !(c.name == IDAT && |c.data| > 0) {
      var i :| 0 <= i < |tail| && tail[i].name == IDAT && |tail[i].data| > 0;
      assert cs[i + 1] == tail[i];
    }
  }

  lemma {:induction false} EncodingIsAccepted(cs: seq<Chunk>, first: bool, hasData: bool)
    requires Remainder(cs, first, hasData)
    ensures Accepts(EncodeAll(cs), first, hasData)
    decreases |cs|
  {
    hide Next;
    hide Encode;
    var c := cs[0];
    NextOfEncoded(c, EncodeAll(cs[1..]));
    NotHeaderAndEnd(c);
    if c.name == IEND {
      assert |cs| == 1;
      assert EncodeAll(cs[1..]) == [];
    } else {
      var tail := cs[1..];
      assert |tail| > 0 && forall i :: 0 <= i < |tail| ==> tail[i] == cs[i + 1];
      var data := hasData || (c.name == IDAT && |c.data| > 0);
      if !data {
        var i :| 0 <= i < |cs| && cs[i].name == IDAT && |cs[i].data| > 0;
        assert tail[i - 1] == cs[i];
      }
      EncodingIsAccepted(tail, false, data);
    }
  }

  lemma NotHeaderAndEnd(c: Chunk)
    ensures c.name == IEND ==> c.name != IHDR && c.name != IDAT
  {
    assert IEND[1] != IHDR[1] && IEND[1] != IDAT[1];
  }

  /** The check accepts exactly the buffers that are the signature followed by a well-formed list of chunks. */
  ghost predicate IsPng(buffer: seq<Byte>) {
    exists cs :: WellFormed(cs) && buffer == SIGNATURE + EncodeAll(cs)
  }

  lemma AcceptsPng(buffer: seq<Byte>)
    ensures IsPng(buffer) <==> |buffer| >= 8 && buffer[..8] == SIGNATURE && Accepts(buffer[8..], true, false)
  {
    hide Accepts;
    if IsPng(buffer) {
      var cs :| WellFormed(cs) && buffer == SIGNATURE + EncodeAll(cs);
      EncodingIsAccepted(cs, true, false);
      assert buffer[8..] == EncodeAll(cs);
    }
    if |buffer| >= 8 && buffer[..8] == SIGNATURE && Accepts(buffer[8..], true, false) {
      var cs := AcceptedIsEncoding(buffer[8..], true, false);
      assert WellFormed(cs) && buffer == SIGNATURE + EncodeAll(cs);
    }
  }

  predicate Letters(name: seq<Byte>)
    requires |name| == 4
  {
    Letter(name[0]) && Letter(name[1]) && Letter(name[2]) && Letter(name[3])
  }

  /** The chunk at an offset of the buffer. */
  function ChunkAt(buffer: seq<Byte>, offset: nat, length: nat): Chunk
    requires offset + length + 12 <= |buffer|
  {
    Chunk(buffer[offset + 4..offset + 8], buffer[offset + 8..offset + 8 + length],
          buffer[offset + 8 + length..offset + 12 + length])
  }

  lemma NextAt(buffer: seq<Byte>, offset: nat)
    requires offset + 12 <= |buffer|
    ensures var length := U32BE(buffer, offset);
      && Next(buffer[offset..]) ==
           (if length > |buffer| - offset - 12
            || !Letters(buffer[offset + 4..offset + 8]) then None else Some(ChunkAt(buffer, offset, length)))
      && (length <= |buffer| - offset - 12 ==> buffer[offset..][length + 12..] == buffer[offset + length + 12..])
  {
    var rest, length := buffer[offset..], U32BE(buffer, offset);
    assert U32BE(rest, 0) == length;
    assert rest[4..8] == buffer[offset + 4..offset + 8];
    if length <= |buffer| - offset - 12 {
      assert rest[8..8 + length] == buffer[offset + 8..offset + 8 + length];
      assert rest[8 + length..12 + length] == buffer[offset + 8 + length..offset + 12 + length];
    }
  }

  lemma HeaderAt(buffer: seq<Byte>, offset: nat, length: nat)
    requires offset + length + 12 <= |buffer|
    ensures HeaderOk(ChunkAt(buffer, offset, length)) <==>
              buffer[offset + 4..offset + 8] == IHDR && length == 13 && U32BE(buffer, offset + 8) != 0
                  && U32BE(buffer, offset + 12) != 0
  {
    if length == 13 {
      ReadInSlice(buffer, offset + 8, offset + 21, 0);
      ReadInSlice(buffer, offset + 8, offset + 21, 4);
    }
  }

  lemma ShortRest(b: seq<Byte>, first: bool, hasData: bool)
    requires |b| < 12
    ensures !Accepts(b, first, hasData)
  {
  }

  method ValidPng(buffer: seq<Byte>) returns (ok: bool)
    ensures ok <==> IsPng(buffer)
  {
    AcceptsPng(buffer);
    hide IsPng;
    hide Next;
    hide U32BE;
    hide Letters;
    hide HeaderOk;
    if |buffer| < 8 || buffer[..8] != SIGNATURE { return false; }
    var offset, hasData := 8, false;
    while offset + 12 <= |buffer|
      invariant 8 <= offset <= |buffer|
      invariant Accepts(buffer[8..], true, false) == Accepts(buffer[offset..], offset == 8, hasData)
    {
      NextAt(buffer, offset);
      var length := U32BE(buffer, offset);
      if length > |buffer| - offset - 12 { return false; }
      var name := buffer[offset + 4..offset + 8];
      if !Letters(name) { return false; }
      HeaderAt(buffer, offset, length);
      if offset == 8 {
        if name != IHDR || length != 13 || U32BE(buffer, offset + 8) == 0 || U32BE(buffer, offset + 12) == 0 {
          return false;
        }
      } else if name == IHDR {
        return false;
      }
      if name == IDAT && length > 0 { hasData := true; }
      offset := offset + length + 12;
      if name == IEND { return length == 0 && hasData && offset == |buffer|; }
    }
    ShortRest(buffer[offset..], offset == 8, hasData);
    return false;
  }
}
