/** The records of an accepted package, written out field by field in the order of PKWARE's APPNOTE.TXT (sections 4.3.7,
    4.3.9 and 4.3.12), independently of how the walk reads them. */
module DocxLayout {
  import opened Bytes
  import opened Prelude
  import opened Docx

  type U16 = n: int | 0 <= n < 0x1_0000
  type U32 = n: int | 0 <= n < 0x1_0000_0000

  datatype Central = Central(madeBy: U16, needed: U16, flags: U16, compression: U16, time: U16, date: U16, crc: U32,
                             compressed: U32,
                             expanded: U32, disk: U16, internal: U16, external: U32, local: U32,
                             name: seq<Byte>, extra: seq<Byte>, comment: seq<Byte>)
  datatype Local = Local(needed: U16, flags: U16, compression: U16, time: U16, date: U16, crc: U32, compressed: U32,
                         expanded: U32,
                         name: seq<Byte>, extra: seq<Byte>)

  /** What follows the data: nothing, or a descriptor with or without its signature. */
  datatype Trailer = Nothing | Descriptor(signed: bool, crc: U32, compressed: U32, expanded: U32)

  predicate CentralFits(c: Central) {
    |c.name| < 0x1_0000 && |c.extra| < 0x1_0000 && |c.comment| < 0x1_0000
  }

  function WriteCentral(c: Central): seq<Byte>
    requires CentralFits(c)
  {
    WriteU32LE(CENTRAL_HEADER) + WriteU16LE(c.madeBy) + WriteU16LE(c.needed) + WriteU16LE(c.flags)
        + WriteU16LE(c.compression)
    + WriteU16LE(c.time) + WriteU16LE(c.date) + WriteU32LE(c.crc) + WriteU32LE(c.compressed) + WriteU32LE(c.expanded)
    + WriteU16LE(|c.name|) + WriteU16LE(|c.extra|) + WriteU16LE(|c.comment|) + WriteU16LE(c.disk)
        + WriteU16LE(c.internal)
    + WriteU32LE(c.external) + WriteU32LE(c.local) + c.name + c.extra + c.comment
  }

  predicate LocalFits(l: Local) {
    |l.name| < 0x1_0000 && |l.extra| < 0x1_0000
  }

  function WriteLocal(l: Local): seq<Byte>
    requires LocalFits(l)
  {
    WriteU32LE(LOCAL_HEADER) + WriteU16LE(l.needed) + WriteU16LE(l.flags) + WriteU16LE(l.compression)
        + WriteU16LE(l.time)
    + WriteU16LE(l.date) + WriteU32LE(l.crc) + WriteU32LE(l.compressed) + WriteU32LE(l.expanded) + WriteU16LE(|l.name|)
    + WriteU16LE(|l.extra|) + l.name + l.extra
  }

  function WriteTrailer(t: Trailer): seq<Byte> {
    match t
    case Nothing => []
    case Descriptor(signed, crc, compressed, expanded) =>
      (if signed then WriteU32LE(DESCRIPTOR) else []) + WriteU32LE(crc) + WriteU32LE(compressed) + WriteU32LE(expanded)
  }

  /** A descriptor without signature whose CRC reads like one. */
  predicate Ambiguous(t: Trailer) {
    t.Descriptor? && !t.signed && t.crc == DESCRIPTOR
  }

  lemma Join(b: seq<Byte>, i: nat, j: nat, k: nat)
    requires i <= j <= k <= |b|
    ensures b[i..j] + b[j..k] == b[i..k]
  {
  }

  /** The bytes of a central header, from its fields. */
  lemma CentralWritten(b: seq<Byte>, at: nat, c: Central)
    requires CentralFits(c) && at + 46 + |c.name| + |c.extra| + |c.comment| <= |b|
    requires U32LE(b, at) == CENTRAL_HEADER && U16LE(b, at + 4) == c.madeBy && U16LE(b, at + 6) == c.needed
             && U16LE(b, at + 8) == c.flags
    requires U16LE(b, at + 10) == c.compression && U16LE(b, at + 12) == c.time && U16LE(b, at + 14) == c.date
             && U32LE(b, at + 16) == c.crc
    requires U32LE(b, at + 20) == c.compressed && U32LE(b, at + 24) == c.expanded && U16LE(b, at + 28) == |c.name|
    requires U16LE(b, at + 30) == |c.extra| && U16LE(b, at + 32) == |c.comment| && U16LE(b, at + 34) == c.disk
    requires U16LE(b, at + 36) == c.internal && U32LE(b, at + 38) == c.external && U32LE(b, at + 42) == c.local
    requires b[at + 46..at + 46 + |c.name|] == c.name
             && b[at + 46 + |c.name|..at + 46 + |c.name| + |c.extra|] == c.extra
    requires b[at + 46 + |c.name| + |c.extra|..at + 46 + |c.name| + |c.extra| + |c.comment|] == c.comment
    ensures WriteCentral(c) == b[at..at + 46 + |c.name| + |c.extra| + |c.comment|]
  {
    hide U16LE;
    hide U32LE;
    hide WriteU16LE;
    hide WriteU32LE;
    WriteOfU32LE(b, at);
    WriteOfU16LE(b, at + 4);
    Join(b, at, at + 4, at + 6);
    WriteOfU16LE(b, at + 6);
    Join(b, at, at + 6, at + 8);
    WriteOfU16LE(b, at + 8);
    Join(b, at, at + 8, at + 10);
    WriteOfU16LE(b, at + 10);
    Join(b, at, at + 10, at + 12);
    WriteOfU16LE(b, at + 12);
    Join(b, at, at + 12, at + 14);
    WriteOfU16LE(b, at + 14);
    Join(b, at, at + 14, at + 16);
    WriteOfU32LE(b, at + 16);
    Join(b, at, at + 16, at + 20);
    WriteOfU32LE(b, at + 20);
    Join(b, at, at + 20, at + 24);
    WriteOfU32LE(b, at + 24);
    Join(b, at, at + 24, at + 28);
    WriteOfU16LE(b, at + 28);
    Join(b, at, at + 28, at + 30);
    WriteOfU16LE(b, at + 30);
    Join(b, at, at + 30, at + 32);
    WriteOfU16LE(b, at + 32);
    Join(b, at, at + 32, at + 34);
    WriteOfU16LE(b, at + 34);
    Join(b, at, at + 34, at + 36);
    WriteOfU16LE(b, at + 36);
    Join(b, at, at + 36, at + 38);
    WriteOfU32LE(b, at + 38);
    Join(b, at, at + 38, at + 42);
    WriteOfU32LE(b, at + 42);
    Join(b, at, at + 42, at + 46);
    Join(b, at, at + 46, at + 46 + |c.name|);
    Join(b, at, at + 46 + |c.name|, at + 46 + |c.name| + |c.extra|);
    Join(b, at, at + 46 + |c.name| + |c.extra|, at + 46 + |c.name| + |c.extra| + |c.comment|);
  }

  lemma LocalWritten(b: seq<Byte>, at: nat, l: Local)
    requires LocalFits(l) && at + 30 + |l.name| + |l.extra| <= |b|
    requires U32LE(b, at) == LOCAL_HEADER && U16LE(b, at + 4) == l.needed && U16LE(b, at + 6) == l.flags
             && U16LE(b, at + 8) == l.compression
    requires U16LE(b, at + 10) == l.time && U16LE(b, at + 12) == l.date && U32LE(b, at + 14) == l.crc
             && U32LE(b, at + 18) == l.compressed
    requires U32LE(b, at + 22) == l.expanded && U16LE(b, at + 26) == |l.name| && U16LE(b, at + 28) == |l.extra|
    requires b[at + 30..at + 30 + |l.name|] == l.name
             && b[at + 30 + |l.name|..at + 30 + |l.name| + |l.extra|] == l.extra
    ensures WriteLocal(l) == b[at..at + 30 + |l.name| + |l.extra|]
  {
    hide U16LE;
    hide U32LE;
    hide WriteU16LE;
    hide WriteU32LE;
    WriteOfU32LE(b, at);
    WriteOfU16LE(b, at + 4);
    Join(b, at, at + 4, at + 6);
    WriteOfU16LE(b, at + 6);
    Join(b, at, at + 6, at + 8);
    WriteOfU16LE(b, at + 8);
    Join(b, at, at + 8, at + 10);
    WriteOfU16LE(b, at + 10);
    Join(b, at, at + 10, at + 12);
    WriteOfU16LE(b, at + 12);
    Join(b, at, at + 12, at + 14);
    WriteOfU32LE(b, at + 14);
    Join(b, at, at + 14, at + 18);
    WriteOfU32LE(b, at + 18);
    Join(b, at, at + 18, at + 22);
    WriteOfU32LE(b, at + 22);
    Join(b, at, at + 22, at + 26);
    WriteOfU16LE(b, at + 26);
    Join(b, at, at + 26, at + 28);
    WriteOfU16LE(b, at + 28);
    Join(b, at, at + 28, at + 30);
    Join(b, at, at + 30, at + 30 + |l.name|);
    Join(b, at, at + 30 + |l.name|, at + 30 + |l.name| + |l.extra|);
  }

  /** Three numbers in a row, as in a data descriptor. */
  lemma ThreeWritten(b: seq<Byte>, at: nat)
    requires at + 12 <= |b|
    ensures WriteU32LE(U32LE(b, at)) + WriteU32LE(U32LE(b, at + 4)) + WriteU32LE(U32LE(b, at + 8)) == b[at..at + 12]
  {
    hide U32LE;
    hide WriteU32LE;
    WriteOfU32LE(b, at);
    WriteOfU32LE(b, at + 4);
    Join(b, at, at + 4, at + 8);
    WriteOfU32LE(b, at + 8);
    Join(b, at, at + 8, at + 12);
  }

  /** What the walk reads after the data when there is a descriptor. */
  lemma DescriptorRead(b: seq<Byte>, start: nat, h: Header, payload: nat) returns (signed: bool, at: nat)
    requires start <= |b| && h.local >= 0 && h.compressed >= 0 && h.local + 30 <= payload
             && payload + h.compressed <= start
    requires LocalEnd(b, start, h, payload).Some? && HasDescriptor(h.flags)
    ensures at == payload + h.compressed + (if signed then 4 else 0) && LocalEnd(b, start, h, payload) == Some(at + 12)
            && at + 12 <= |b|
    ensures signed <==> U32LE(b, payload + h.compressed) == DESCRIPTOR
    ensures U32LE(b, at) == h.crc && U32LE(b, at + 4) == h.compressed && U32LE(b, at + 8) == h.expanded
  {
    hide U32LE;
    signed := U32LE(b, payload + h.compressed) == DESCRIPTOR;
    at := if signed then payload + h.compressed + 4 else payload + h.compressed;
  }

  lemma TrailerWritten(b: seq<Byte>, start: nat, h: Header, payload: nat) returns (t: Trailer)
    requires start <= |b| && h.local >= 0 && h.compressed >= 0 && h.local + 30 <= payload
             && payload + h.compressed <= start
    requires LocalEnd(b, start, h, payload).Some?
    ensures WriteTrailer(t) == b[payload + h.compressed..LocalEnd(b, start, h, payload).value]
    ensures t.Descriptor? <==> HasDescriptor(h.flags)
    ensures t.Descriptor? ==> t.crc == h.crc && t.compressed == h.compressed && t.expanded == h.expanded
    ensures !Ambiguous(t)
  {
    hide U32LE;
    hide WriteU32LE;
    if !HasDescriptor(h.flags) {
      t := Nothing;
    } else {
      hide LocalEnd;
      hide WriteTrailer;
      var signed, at := DescriptorRead(b, start, h, payload);
      t := Descriptor(signed, h.crc, h.compressed, h.expanded);
      ThreeWritten(b, at);
      if signed {
        WriteOfU32LE(b, at - 4);
        Join(b, at - 4, at, at + 12);
        Signed(t);
      } else {
        Unsigned(t);
      }
    }
  }

  lemma Signed(t: Trailer)
    requires t.Descriptor? && t.signed
    ensures WriteTrailer(t) == WriteU32LE(DESCRIPTOR)
            + (WriteU32LE(t.crc) + WriteU32LE(t.compressed) + WriteU32LE(t.expanded))
  {
  }

  lemma Unsigned(t: Trailer)
    requires t.Descriptor? && !t.signed
    ensures WriteTrailer(t) == WriteU32LE(t.crc) + WriteU32LE(t.compressed) + WriteU32LE(t.expanded)
  {
    assert [] + WriteU32LE(t.crc) == WriteU32LE(t.crc);
  }

  function CentralOf(b: seq<Byte>, at: nat): Central
    requires at + 46 <= |b| && at + 46 + U16LE(b, at + 28) + U16LE(b, at + 30) + U16LE(b, at + 32) <= |b|
  {
    var n, x, k := U16LE(b, at + 28), U16LE(b, at + 30), U16LE(b, at + 32);
    Central(U16LE(b, at + 4), U16LE(b, at + 6), U16LE(b, at + 8), U16LE(b, at + 10), U16LE(b, at + 12),
            U16LE(b, at + 14), U32LE(b, at + 16),
            U32LE(b, at + 20), U32LE(b, at + 24), U16LE(b, at + 34), U16LE(b, at + 36), U32LE(b, at + 38), U32LE(b,
                at + 42),
            b[at + 46..at + 46 + n], b[at + 46 + n..at + 46 + n + x], b[at + 46 + n + x..at + 46 + n + x + k])
  }

  function LocalOf(b: seq<Byte>, at: nat): Local
    requires at + 30 <= |b| && at + 30 + U16LE(b, at + 26) + U16LE(b, at + 28) <= |b|
  {
    var n, x := U16LE(b, at + 26), U16LE(b, at + 28);
    Local(U16LE(b, at + 4), U16LE(b, at + 6), U16LE(b, at + 8), U16LE(b, at + 10), U16LE(b, at + 12),
          U32LE(b, at + 14), U32LE(b, at + 18),
          U32LE(b, at + 22), b[at + 30..at + 30 + n], b[at + 30 + n..at + 30 + n + x])
  }

  lemma CentralPart(bytes: seq<Byte>, maxBytes: int, end: nat, at: nat) returns (c: Central)
    requires end <= |bytes| && CentralHeader(bytes, maxBytes, end, at).Some?
    ensures var h := CentralHeader(bytes, maxBytes, end, at).value;
      && CentralFits(c) && WriteCentral(c) == bytes[at..at + 46 + h.nameLength + h.extraLength + h.commentLength]
      && c.name == bytes[at + 46..at + 46 + h.nameLength]
         && c.extra == bytes[at + 46 + h.nameLength..at + 46 + h.nameLength + h.extraLength]
      && c.flags == h.flags && c.compression == h.compression && (c.compression == 0 || c.compression == 8)
      && c.needed <= 20 && c.disk == 0 && FlagsOk(c.flags) && ModeOk(c.external / 0x1_0000)
      && c.crc == h.crc && c.compressed == h.compressed && c.expanded == h.expanded && c.local == h.local
  {
    hide U16LE;
    hide U32LE;
    hide WriteCentral;
    hide FlagsOk;
    hide ModeOk;
    c := CentralOf(bytes, at);
    CentralWritten(bytes, at, c);
    HighHalf(bytes, at + 38);
  }

  lemma HighHalf(b: seq<Byte>, i: nat)
    requires i + 4 <= |b|
    ensures U32LE(b, i) / 0x1_0000 == U16LE(b, i + 2)
  {
  }

  lemma LocalPart(bytes: seq<Byte>, start: nat, h: Header, nameBytes: seq<Byte>) returns (l: Local)
    requires start <= |bytes| && h.local >= 0 && h.compressed >= 0 && LocalPayload(bytes, start, h, nameBytes).Some?
    ensures var payload := LocalPayload(bytes, start, h, nameBytes).value;
      && LocalFits(l) && WriteLocal(l) == bytes[h.local..payload]
      && l.name == nameBytes && l.flags == h.flags && l.compression == h.compression && ExtraOk(l.extra)
         && l.needed <= 20
      && l.crc == U32LE(bytes, h.local + 14) && l.compressed == U32LE(bytes, h.local + 18)
         && l.expanded == U32LE(bytes, h.local + 22)
  {
    hide U16LE;
    hide U32LE;
    hide WriteLocal;
    hide ExtraOk;
    l := LocalOf(bytes, h.local);
    LocalWritten(bytes, h.local, l);
  }

  lemma PlainEnd(b: seq<Byte>, start: nat, h: Header, payload: nat)
    requires start <= |b| && h.local >= 0 && h.compressed >= 0 && h.local + 30 <= payload
             && payload + h.compressed <= start
    requires LocalEnd(b, start, h, payload).Some? && !HasDescriptor(h.flags)
    ensures U32LE(b, h.local + 14) == h.crc && U32LE(b, h.local + 18) == h.compressed
            && U32LE(b, h.local + 22) == h.expanded
  {
  }

  lemma DescriptorLocal(b: seq<Byte>, start: nat, h: Header, payload: nat)
    requires start <= |b| && h.local >= 0 && h.compressed >= 0 && h.local + 30 <= payload
             && payload + h.compressed <= start
    requires LocalEnd(b, start, h, payload).Some? && HasDescriptor(h.flags)
    ensures ZeroOr(U32LE(b, h.local + 14), h.crc) && ZeroOr(U32LE(b, h.local + 18), h.compressed)
            && ZeroOr(U32LE(b, h.local + 22), h.expanded)
  {
    hide U32LE;
  }

  /** The entry is written as a central record and a local record that agree, the local one followed by the packed data
      and, if its flag says so, a descriptor, which is preceded by its numbers or zeros in the local record; the content
      has the recorded size and CRC, and a directory none. */
  predicate Written<X(!new)>(bytes: seq<Byte>, maxBytes: int, at: nat, o: Outside<X>, e: Entry, c: Central, l: Local,
                       packed: seq<Byte>, t: Trailer)
    requires at <= e.next <= |bytes| && 0 <= e.local <= e.localEnd <= |bytes|
  {
    && CentralFits(c) && LocalFits(l) && e.at == at
    && bytes[at..e.next] == WriteCentral(c) && bytes[e.local..e.localEnd] == WriteLocal(l) + packed + WriteTrailer(t)
    && c.local == e.local && l.name == c.name && l.flags == c.flags && l.compression == c.compression
       && |packed| == c.compressed
    && o.decode(c.name) == Some(e.name) && SafeName(e.name, o.macro)
    && c.expanded == e.expanded == |e.body| <= maxBytes && o.crc(e.body) == c.crc
    && (if HasDescriptor(c.flags)
        then t.Descriptor? && t.crc == c.crc && t.compressed == c.compressed && t.expanded == c.expanded
             && ZeroOr(l.crc, c.crc) && ZeroOr(l.compressed, c.compressed) && ZeroOr(l.expanded, c.expanded)
        else t.Nothing? && l.crc == c.crc && l.compressed == c.compressed && l.expanded == c.expanded)
    && (if c.compression == 0 then e.body == packed
        else c.compression == 8 && o.inflate(packed, Max(1, c.expanded)) == Some((e.body, |packed|)))
    && (e.name[|e.name| - 1] == '/' ==> e.body == [])
    && ExtraOk(c.extra) && ExtraOk(l.extra)
    && c.needed <= 20 && l.needed <= 20 && c.disk == 0 && FlagsOk(c.flags) && ModeOk(c.external / 0x1_0000)
  }

  /** What the walk accepts as an entry is written so. */
  lemma EntryIsWritten<X(!new)>(bytes: seq<Byte>, maxBytes: int, start: nat, end: nat, at: nat, o: Outside<X>, e: Entry)
    returns (c: Central, l: Local, packed: seq<Byte>, t: Trailer)
    requires start <= end <= |bytes| && ReadEntry(bytes, maxBytes, start, end, at, o) == Some(e)
    ensures Written(bytes, maxBytes, at, o, e, c, l, packed, t) && !Ambiguous(t)
  {
    hide U32LE;
    hide CentralHeader;
    hide LocalPayload;
    hide LocalEnd;
    hide WriteCentral;
    hide WriteLocal;
    hide WriteTrailer;
    hide HasDescriptor;
    hide ExtraOk;
    var h := CentralHeader(bytes, maxBytes, end, at).value;
    c := CentralPart(bytes, maxBytes, end, at);
    var payload := LocalPayload(bytes, start, h, c.name).value;
    l := LocalPart(bytes, start, h, c.name);
    packed := bytes[payload..payload + h.compressed];
    t := TrailerWritten(bytes, start, h, payload);
    if HasDescriptor(h.flags) {
      DescriptorLocal(bytes, start, h, payload);
    } else {
      PlainEnd(bytes, start, h, payload);
    }
    Join(bytes, h.local, payload, payload + h.compressed);
    Join(bytes, h.local, payload + h.compressed, e.localEnd);
  }

  // ---- What is written so is read back ----

  lemma ReadOf16(b: seq<Byte>, at: nat, v: seq<Byte>, n: U16)
    requires at <= |b| && v + WriteU16LE(n) <= b[at..]
    ensures v <= b[at..] && at + |v| + 2 <= |b| && U16LE(b, at + |v|) == n
  {
    var w := v + WriteU16LE(n);
    assert b[at + |v|] == b[at..][|v|] == w[|v|] && b[at + |v| + 1] == b[at..][|v| + 1] == w[|v| + 1];
    assert v == w[..|v|] == b[at..][..|v|];
  }

  lemma ReadOf32(b: seq<Byte>, at: nat, v: seq<Byte>, n: U32)
    requires at <= |b| && v + WriteU32LE(n) <= b[at..]
    ensures v <= b[at..] && at + |v| + 4 <= |b| && U32LE(b, at + |v|) == n
  {
    var low, high := n % 0x1_0000, n / 0x1_0000;
    assert v + WriteU32LE(n) == v + WriteU16LE(low) + WriteU16LE(high);
    ReadOf16(b, at, v + WriteU16LE(low), high);
    ReadOf16(b, at, v, low);
  }

  lemma ReadOfBytes(b: seq<Byte>, at: nat, v: seq<Byte>, x: seq<Byte>)
    requires at <= |b| && v + x <= b[at..]
    ensures v <= b[at..] && at + |v| + |x| <= |b| && b[at + |v|..at + |v| + |x|] == x
  {
    assert v == (v + x)[..|v|] == b[at..][..|v|];
    assert x == (v + x)[|v|..] == b[at..][|v|..|v| + |x|];
  }

  lemma CentralRead(b: seq<Byte>, at: nat, c: Central)
    requires CentralFits(c) && at <= |b| && WriteCentral(c) <= b[at..]
    ensures |WriteCentral(c)| == 46 + |c.name| + |c.extra| + |c.comment| && at + |WriteCentral(c)| <= |b|
    ensures U32LE(b, at) == CENTRAL_HEADER && U16LE(b, at + 6) == c.needed && U16LE(b, at + 8) == c.flags
    ensures U16LE(b, at + 10) == c.compression && U32LE(b, at + 16) == c.crc
    ensures U32LE(b, at + 20) == c.compressed && U32LE(b, at + 24) == c.expanded && U16LE(b, at + 28) == |c.name|
    ensures U16LE(b, at + 30) == |c.extra| && U16LE(b, at + 32) == |c.comment| && U16LE(b, at + 34) == c.disk
    ensures U32LE(b, at + 38) == c.external && U32LE(b, at + 42) == c.local
    ensures b[at + 46..at + 46 + |c.name|] == c.name && b[at + 46 + |c.name|..at + 46 + |c.name| + |c.extra|] == c.extra
  {
    hide U16LE;
    hide U32LE;
    hide WriteU16LE;
    hide WriteU32LE;
    var v4 := WriteU32LE(CENTRAL_HEADER);
    var v6 := v4 + WriteU16LE(c.madeBy);
    var v8 := v6 + WriteU16LE(c.needed);
    var v10 := v8 + WriteU16LE(c.flags);
    var v12 := v10 + WriteU16LE(c.compression);
    var v14 := v12 + WriteU16LE(c.time);
    var v16 := v14 + WriteU16LE(c.date);
    var v20 := v16 + WriteU32LE(c.crc);
    var v24 := v20 + WriteU32LE(c.compressed);
    var v28 := v24 + WriteU32LE(c.expanded);
    var v30 := v28 + WriteU16LE(|c.name|);
    var v32 := v30 + WriteU16LE(|c.extra|);
    var v34 := v32 + WriteU16LE(|c.comment|);
    var v36 := v34 + WriteU16LE(c.disk);
    var v38 := v36 + WriteU16LE(c.internal);
    var v42 := v38 + WriteU32LE(c.external);
    var v46 := v42 + WriteU32LE(c.local);
    var named := v46 + c.name;
    assert WriteCentral(c) == named + c.extra + c.comment;
    ReadOfBytes(b, at, named + c.extra, c.comment);
    ReadOfBytes(b, at, named, c.extra);
    ReadOfBytes(b, at, v46, c.name);
    ReadOf32(b, at, v42, c.local);
    ReadOf32(b, at, v38, c.external);
    ReadOf16(b, at, v36, c.internal);
    ReadOf16(b, at, v34, c.disk);
    ReadOf16(b, at, v32, |c.comment|);
    ReadOf16(b, at, v30, |c.extra|);
    ReadOf16(b, at, v28, |c.name|);
    ReadOf32(b, at, v24, c.expanded);
    ReadOf32(b, at, v20, c.compressed);
    ReadOf32(b, at, v16, c.crc);
    ReadOf16(b, at, v14, c.date);
    ReadOf16(b, at, v12, c.time);
    ReadOf16(b, at, v10, c.compression);
    ReadOf16(b, at, v8, c.flags);
    ReadOf16(b, at, v6, c.needed);
    ReadOf16(b, at, v4, c.madeBy);
    assert [] + v4 == v4;
    ReadOf32(b, at, [], CENTRAL_HEADER);
  }

  lemma LocalRead(b: seq<Byte>, at: nat, l: Local)
    requires LocalFits(l) && at <= |b| && WriteLocal(l) <= b[at..]
    ensures |WriteLocal(l)| == 30 + |l.name| + |l.extra| && at + |WriteLocal(l)| <= |b|
    ensures U32LE(b, at) == LOCAL_HEADER && U16LE(b, at + 4) == l.needed && U16LE(b, at + 6) == l.flags
            && U16LE(b, at + 8) == l.compression
    ensures U32LE(b, at + 14) == l.crc && U32LE(b, at + 18) == l.compressed && U32LE(b, at + 22) == l.expanded
    ensures U16LE(b, at + 26) == |l.name| && U16LE(b, at + 28) == |l.extra|
    ensures b[at + 30..at + 30 + |l.name|] == l.name && b[at + 30 + |l.name|..at + 30 + |l.name| + |l.extra|] == l.extra
  {
    hide U16LE;
    hide U32LE;
    hide WriteU16LE;
    hide WriteU32LE;
    var v4 := WriteU32LE(LOCAL_HEADER);
    var v6 := v4 + WriteU16LE(l.needed);
    var v8 := v6 + WriteU16LE(l.flags);
    var v10 := v8 + WriteU16LE(l.compression);
    var v12 := v10 + WriteU16LE(l.time);
    var v14 := v12 + WriteU16LE(l.date);
    var v18 := v14 + WriteU32LE(l.crc);
    var v22 := v18 + WriteU32LE(l.compressed);
    var v26 := v22 + WriteU32LE(l.expanded);
    var v28 := v26 + WriteU16LE(|l.name|);
    var v30 := v28 + WriteU16LE(|l.extra|);
    assert WriteLocal(l) == v30 + l.name + l.extra;
    ReadOfBytes(b, at, v30 + l.name, l.extra);
    ReadOfBytes(b, at, v30, l.name);
    ReadOf16(b, at, v28, |l.extra|);
    ReadOf16(b, at, v26, |l.name|);
    ReadOf32(b, at, v22, l.expanded);
    ReadOf32(b, at, v18, l.compressed);
    ReadOf32(b, at, v14, l.crc);
    ReadOf16(b, at, v12, l.date);
    ReadOf16(b, at, v10, l.time);
    ReadOf16(b, at, v8, l.compression);
    ReadOf16(b, at, v6, l.flags);
    ReadOf16(b, at, v4, l.needed);
    assert [] + v4 == v4;
    ReadOf32(b, at, [], LOCAL_HEADER);
  }

  /** The descriptor is found behind the data exactly when it is not ambiguous. */
  lemma TrailerRead(b: seq<Byte>, start: nat, h: Header, payload: nat, t: Trailer)
    requires start <= |b| && h.local >= 0 && h.compressed >= 0 && h.local + 30 <= payload
             && payload + h.compressed <= start
    requires var dataEnd := payload + h.compressed;
             dataEnd + |WriteTrailer(t)| <= start && WriteTrailer(t) <= b[dataEnd..]
    requires HasDescriptor(h.flags) && t.Descriptor? && t.crc == h.crc && t.compressed == h.compressed
             && t.expanded == h.expanded
    requires ZeroOr(U32LE(b, h.local + 14), h.crc) && ZeroOr(U32LE(b, h.local + 18), h.compressed)
             && ZeroOr(U32LE(b, h.local + 22), h.expanded)
    ensures LocalEnd(b, start, h, payload) == Some(payload + h.compressed + |WriteTrailer(t)|) <==> !Ambiguous(t)
  {
    hide U32LE;
    hide WriteU32LE;
    hide HasDescriptor;
    var dataEnd := payload + h.compressed;
    var v := if t.signed then WriteU32LE(DESCRIPTOR) else [];
    assert WriteTrailer(t) == v + WriteU32LE(t.crc) + WriteU32LE(t.compressed) + WriteU32LE(t.expanded);
    ReadOf32(b, dataEnd, v + WriteU32LE(t.crc) + WriteU32LE(t.compressed), t.expanded);
    ReadOf32(b, dataEnd, v + WriteU32LE(t.crc), t.compressed);
    ReadOf32(b, dataEnd, v, t.crc);
    if t.signed {
      assert [] + v == v;
      ReadOf32(b, dataEnd, [], DESCRIPTOR);
    }
  }

  lemma HeaderRead(bytes: seq<Byte>, maxBytes: int, end: nat, at: nat, c: Central)
    requires end <= |bytes| && CentralFits(c) && at <= |bytes| && WriteCentral(c) <= bytes[at..]
             && at + |WriteCentral(c)| <= end
    requires c.needed <= 20 && c.disk == 0 && FlagsOk(c.flags) && ModeOk(c.external / 0x1_0000)
             && c.expanded <= maxBytes
    requires c.compression == 0 || c.compression == 8
    ensures |WriteCentral(c)| == 46 + |c.name| + |c.extra| + |c.comment|
    ensures CentralHeader(bytes, maxBytes, end, at)
            == Some(Header(at, c.flags, c.compression, c.crc, c.compressed, c.expanded, |c.name|, |c.extra|,
                           |c.comment|, c.local))
    ensures bytes[at + 46..at + 46 + |c.name|] == c.name && bytes[at + 46 + |c.name|..at + 46 + |c.name| + |c.extra|]
            == c.extra
  {
    CentralRead(bytes, at, c);
    hide WriteCentral;
    hide FlagsOk;
    hide ModeOk;
    HighHalf(bytes, at + 38);
    hide U32LE;
    hide U16LE;
  }

  lemma PayloadRead(bytes: seq<Byte>, start: nat, h: Header, l: Local)
    requires start <= |bytes| && h.local >= 0 && h.compressed >= 0 && LocalFits(l) && h.local <= |bytes|
             && WriteLocal(l) <= bytes[h.local..]
    requires h.local + |WriteLocal(l)| + h.compressed <= start
    requires l.needed <= 20 && l.flags == h.flags && l.compression == h.compression && |l.name| == h.nameLength
             && ExtraOk(l.extra)
    ensures LocalPayload(bytes, start, h, l.name) == Some(h.local + |WriteLocal(l)|)
  {
    hide WriteLocal;
    hide U32LE;
    hide U16LE;
    hide ExtraOk;
    hide LocalPayload;
    LocalRead(bytes, h.local, l);
    PayloadOf(bytes, start, h, l);
  }

  lemma PayloadOf(bytes: seq<Byte>, start: nat, h: Header, l: Local)
    requires start <= |bytes| && h.local >= 0 && h.compressed >= 0
             && h.local + 30 + |l.name| + |l.extra| + h.compressed <= start
    requires U32LE(bytes, h.local) == LOCAL_HEADER && U16LE(bytes, h.local + 4) <= 20
    requires U16LE(bytes, h.local + 6) == h.flags && U16LE(bytes, h.local + 8) == h.compression
    requires U16LE(bytes, h.local + 26) == |l.name| == h.nameLength && U16LE(bytes, h.local + 28) == |l.extra|
             && ExtraOk(l.extra)
    requires bytes[h.local + 30..h.local + 30 + |l.name|] == l.name
    requires bytes[h.local + 30 + |l.name|..h.local + 30 + |l.name| + |l.extra|] == l.extra
    ensures LocalPayload(bytes, start, h, l.name) == Some(h.local + 30 + |l.name| + |l.extra|)
  {
    hide U32LE;
    hide U16LE;
    hide ExtraOk;
  }

  /** The local part is read back as it was written, unless its descriptor is ambiguous. */
  lemma LocalPartRead(bytes: seq<Byte>, start: nat, h: Header, l: Local, packed: seq<Byte>, t: Trailer, end: nat)
    requires 0 <= h.local <= end <= start <= |bytes| && LocalFits(l) && |packed| == h.compressed
    requires bytes[h.local..end] == WriteLocal(l) + packed + WriteTrailer(t)
    requires l.needed <= 20 && l.flags == h.flags && l.compression == h.compression && |l.name| == h.nameLength
             && ExtraOk(l.extra)
    requires if HasDescriptor(h.flags)
             then t.Descriptor? && t.crc == h.crc && t.compressed == h.compressed && t.expanded == h.expanded
                  && ZeroOr(l.crc, h.crc) && ZeroOr(l.compressed, h.compressed) && ZeroOr(l.expanded, h.expanded)
             else t.Nothing? && l.crc == h.crc && l.compressed == h.compressed && l.expanded == h.expanded
    ensures LocalPayload(bytes, start, h, l.name).Some?
    ensures var payload := LocalPayload(bytes, start, h, l.name).value;
      && bytes[payload..payload + h.compressed] == packed
         && (LocalEnd(bytes, start, h, payload) == Some(end) <==> !Ambiguous(t))
  {
    hide ExtraOk;
    hide HasDescriptor;
    hide U32LE;
    hide U16LE;
    hide WriteLocal;
    hide WriteTrailer;
    hide LocalPayload;
    hide LocalEnd;
    var all := WriteLocal(l) + packed + WriteTrailer(t);
    assert all == bytes[h.local..][..end - h.local];
    ReadOfBytes(bytes, h.local, WriteLocal(l) + packed, WriteTrailer(t));
    ReadOfBytes(bytes, h.local, WriteLocal(l), packed);
    PayloadRead(bytes, start, h, l);
    LocalRead(bytes, h.local, l);
    var payload := h.local + |WriteLocal(l)|;
    if HasDescriptor(h.flags) {
      TrailerRead(bytes, start, h, payload, t);
    } else {
      NoTrailer(t);
      PlainRead(bytes, start, h, payload);
    }
  }

  lemma NoTrailer(t: Trailer)
    requires t.Nothing?
    ensures WriteTrailer(t) == []
  {
  }

  /** The whole entry is read back as it was written, unless its descriptor is ambiguous. */
  lemma WrittenIsRead<X(!new)>(bytes: seq<Byte>, maxBytes: int, start: nat, end: nat, at: nat, o: Outside<X>, e: Entry,
                         c: Central, l: Local, packed: seq<Byte>, t: Trailer)
    requires start <= end <= |bytes| && at <= e.next <= end && 0 <= e.local <= e.localEnd <= start
    requires Written(bytes, maxBytes, at, o, e, c, l, packed, t)
    ensures ReadEntry(bytes, maxBytes, start, end, at, o) == Some(e) <==> !Ambiguous(t)
  {
    hide ExtraOk;
    hide HasDescriptor;
    hide WriteCentral;
    hide WriteLocal;
    hide WriteTrailer;
    hide CentralHeader;
    hide LocalPayload;
    hide LocalEnd;
    hide Content;
    hide FlagsOk;
    hide ModeOk;
    assert WriteCentral(c) == bytes[at..][..e.next - at];
    HeaderRead(bytes, maxBytes, end, at, c);
    var h := CentralHeader(bytes, maxBytes, end, at).value;
    assert c.name == bytes[at + 46..at + 46 + h.nameLength];
    LocalPartRead(bytes, start, h, l, packed, t, e.localEnd);
    assert SafeName(e.name, o.macro);
    hide SafeName;
    ContentRead(packed, h, e.name, o, e.body);
  }

  lemma PlainRead(b: seq<Byte>, start: nat, h: Header, payload: nat)
    requires start <= |b| && h.local >= 0 && h.compressed >= 0 && h.local + 30 <= payload
             && payload + h.compressed <= start
    requires !HasDescriptor(h.flags)
    requires U32LE(b, h.local + 14) == h.crc && U32LE(b, h.local + 18) == h.compressed
             && U32LE(b, h.local + 22) == h.expanded
    ensures LocalEnd(b, start, h, payload) == Some(payload + h.compressed)
  {
  }

  lemma ContentRead<X(!new)>(packed: seq<Byte>, h: Header, name: string, o: Outside<X>, body: seq<Byte>)
    requires |packed| == h.compressed && |body| == h.expanded && o.crc(body) == h.crc && name != ""
    requires name[|name| - 1] == '/' ==> body == []
    requires if h.compression == 0 then body == packed
      else o.inflate(packed, Max(1, h.expanded)) == Some((body, |packed|))
    ensures Content(packed, h, name, o) == Some(body)
  {
  }

  /** An entry is read exactly when it is written so, unambiguously, within the directory and the part before it. */
  lemma ReadIffWritten<X(!new)>(bytes: seq<Byte>, maxBytes: int, start: nat, end: nat, at: nat, o: Outside<X>, e: Entry)
    requires start <= end <= |bytes| && at <= e.next <= end && 0 <= e.local <= e.localEnd <= start
    ensures ReadEntry(bytes, maxBytes, start, end, at, o) == Some(e)
            <==> exists c, l, packed, t :: Written(bytes, maxBytes, at, o, e, c, l, packed, t) && !Ambiguous(t)
  {
    hide Written;
    hide ReadEntry;
    if ReadEntry(bytes, maxBytes, start, end, at, o) == Some(e) {
      var c, l, packed, t := EntryIsWritten(bytes, maxBytes, start, end, at, o, e);
    }
    if c, l, packed, t :| Written(bytes, maxBytes, at, o, e, c, l, packed, t) && !Ambiguous(t) {
      WrittenIsRead(bytes, maxBytes, start, end, at, o, e, c, l, packed, t);
    }
  }
}
