/** The DOCX check of uploaded documents: a walk over the ZIP structure (sections 4.3.7, 4.3.9, 4.3.12 and 4.3.16 of
    PKWARE's APPNOTE.TXT). Text decoding, inflation, CRC and XML are functions the walk is given. */
module Docx {
  import opened Bytes
  import opened Prelude
  import opened Sorting

  const LOCAL_HEADER := 0x04034b50
  const CENTRAL_HEADER := 0x02014b50
  const END_RECORD := 0x06054b50
  const DESCRIPTOR := 0x08074b50
  const MAX_XML_PART := 4 * 1024 * 1024
  const MAX_XML := 8 * 1024 * 1024

  /** decode: strict UTF-8; macro: a name of an executable part; inflate: the output and the number of input bytes used,
      at most so much output; parse: an XML root and the number of elements seen so far; word: the parts a document
      needs. */
  datatype Outside<!X> = Outside(decode: seq<Byte> -> Option<string>, lower: string -> string, macro: string -> bool,
                                 xmlName: string -> bool, inflate: (seq<Byte>, int) -> Option<(seq<Byte>, int)>,
                                 crc: seq<Byte> -> int, parse: (seq<Byte>, int) -> Option<(X, int)>,
                                 word: map<string, X> -> bool)

  // ---- Extra fields ----

  /** A field of an extra block: its id and its data. */
  datatype Extra = Extra(id: int, data: seq<Byte>)

  predicate ExtraOk(extra: seq<Byte>)
    decreases |extra|
  {
    if extra == [] then true
    else if |extra| < 4 then false
    else
      var id, size := U16LE(extra, 0), U16LE(extra, 2);
      id != 1 && 4 + size <= |extra| && ExtraOk(extra[4 + size..])
  }

  predicate FieldOk(f: Extra) {
    0 <= f.id < 0x1_0000 && |f.data| < 0x1_0000 && f.id != 1
  }

  function EncodeField(f: Extra): (b: seq<Byte>)
    requires FieldOk(f)
    ensures |b| == 4 + |f.data|
  {
    WriteU16LE(f.id) + WriteU16LE(|f.data|) + f.data
  }

  function EncodeExtra(fields: seq<Extra>): seq<Byte>
    requires forall f :: f in fields ==> FieldOk(f)
  {
    if fields == [] then []
    else EncodeField(fields[0]) + EncodeExtra(fields[1..])
  }

  lemma {:induction false} FieldsAreAccepted(fields: seq<Extra>)
    requires forall f :: f in fields ==> FieldOk(f)
    ensures ExtraOk(EncodeExtra(fields))
  {
    if fields != [] {
      FieldsAreAccepted(fields[1..]);
      var f, rest := fields[0], EncodeExtra(fields[1..]);
      var b := EncodeField(f) + rest;
      assert b[0] == WriteU16LE(f.id)[0] && b[1] == WriteU16LE(f.id)[1];
      assert b[2] == WriteU16LE(|f.data|)[0] && b[3] == WriteU16LE(|f.data|)[1];
      assert U16LE(b, 0) == U16LE(WriteU16LE(f.id), 0) && U16LE(b, 2) == U16LE(WriteU16LE(|f.data|), 0);
      assert b[4 + |f.data|..] == rest;
    }
  }

  lemma FieldWritten(extra: seq<Byte>, f: Extra, size: int)
    requires |extra| >= 4 + size >= 4 && f == Extra(U16LE(extra, 0), extra[4..4 + size]) && U16LE(extra, 2) == size
             && FieldOk(f)
    ensures EncodeField(f) == extra[..4 + size]
  {
    assert WriteU16LE(f.id) == extra[..2] && WriteU16LE(size) == extra[2..4];
    assert extra[..4 + size] == extra[..2] + extra[2..4] + extra[4..4 + size];
  }

  /** An extra block is accepted exactly when it is a list of whole fields, none of them the ZIP64 field. */
  lemma {:induction false} AcceptedAreFields(extra: seq<Byte>) returns (fields: seq<Extra>)
    requires ExtraOk(extra)
    ensures (forall f :: f in fields ==> FieldOk(f)) && EncodeExtra(fields) == extra
    decreases |extra|
  {
    if extra == [] {
      fields := [];
    } else {
      var id, size := U16LE(extra, 0), U16LE(extra, 2);
      var rest := AcceptedAreFields(extra[4 + size..]);
      var f := Extra(id, extra[4..4 + size]);
      assert FieldOk(f);
      FieldWritten(extra, f, size);
      fields := [f] + rest;
      assert fields[1..] == rest;
      assert extra == extra[..4 + size] + extra[4 + size..];
    }
  }

  method ValidateExtraFields(extra: seq<Byte>) returns (ok: bool)
    ensures ok == ExtraOk(extra)
  {
    var offset := 0;
    while offset < |extra|
      invariant 0 <= offset <= |extra| && ExtraOk(extra) == ExtraOk(extra[offset..])
    {
      ghost var rest := extra[offset..];
      if offset + 4 > |extra| { return false; }
      var id, size := U16LE(extra, offset), U16LE(extra, offset + 2);
      assert U16LE(rest, 0) == id && U16LE(rest, 2) == size;
      if id == 1 || offset + 4 + size > |extra| { return false; }
      assert rest[4 + size..] == extra[offset + 4 + size..];
      offset := offset + 4 + size;
    }
    return true;
  }

  // ---- Names ----

  /** Some part of the name between slashes is the given one. */
  predicate HasPart(name: string, part: string) {
    exists i, j :: 0 <= i <= j <= |name| && name[i..j] == part && (i == 0 || name[i - 1] == '/')
        && (j == |name| || name[j] == '/')
  }

  /** The name split at its slashes. */
  function Split(name: string): (parts: seq<string>)
    ensures |parts| > 0
  {
    if name == "" then [""]
    else if name[0] == '/' then [""] + Split(name[1..])
    else
      var rest := Split(name[1..]);
      [[name[0]] + rest[0]] + rest[1..]
  }

  /** A slash or the end follows. */
  predicate Ends(name: string, j: nat) {
    j == |name| || (j < |name| && name[j] == '/')
  }

  /** The part a name begins with. */
  predicate Begins(name: string, part: string) {
    part <= name && Ends(name, |part|)
  }

  /** A part after some slash. */
  predicate HasLater(name: string, part: string) {
    exists i :: 0 < i <= |name| && name[i - 1] == '/' && Begins(name[i..], part)
  }

  lemma {:induction false} BeginsIsFirst(name: string, part: string)
    requires '/' !in part
    ensures Begins(name, part) <==> Split(name)[0] == part
  {
    if name != "" && name[0] != '/' {
      var rest := name[1..];
      if part != "" {
        BeginsIsFirst(rest, part[1..]);
        assert part == [part[0]] + part[1..] && name == [name[0]] + rest;
      }
    }
  }

  lemma LaterStep(name: string, part: string)
    requires name != ""
    ensures HasLater(name, part) <==> HasLater(name[1..], part) || (name[0] == '/' && Begins(name[1..], part))
  {
    hide Begins;
    var rest := name[1..];
    if HasLater(name, part) {
      var i :| 0 < i <= |name| && name[i - 1] == '/' && Begins(name[i..], part);
      assert rest[i - 1..] == name[i..];
      assert i > 1 ==> rest[i - 2] == '/';
    }
    if HasLater(rest, part) {
      var i :| 0 < i <= |rest| && rest[i - 1] == '/' && Begins(rest[i..], part);
      assert name[i + 1..] == rest[i..] && name[i] == '/';
    }
  }

  lemma {:induction false} LaterAreRest(name: string, part: string)
    requires '/' !in part
    ensures HasLater(name, part) <==> part in Split(name)[1..]
  {
    hide Begins;
    hide HasLater;
    if name == "" {
      NoLater(part);
    } else {
      var rest := name[1..];
      var parts := Split(rest);
      LaterStep(name, part);
      LaterAreRest(rest, part);
      BeginsIsFirst(rest, part);
      assert parts == [parts[0]] + parts[1..];
    }
  }

  lemma NoLater(part: string)
    ensures !HasLater("", part)
  {
  }

  /** A name has a part exactly when splitting it at its slashes gives that part. */
  lemma PartsAreSplit(name: string, part: string)
    requires '/' !in part
    ensures HasPart(name, part) <==> part in Split(name)
  {
    BeginsIsFirst(name, part);
    LaterAreRest(name, part);
    var parts := Split(name);
    assert parts == [parts[0]] + parts[1..];
    PartIs(name, part);
  }

  lemma PartIs(name: string, part: string)
    ensures HasPart(name, part) <==> Begins(name, part) || HasLater(name, part)
  {
    if HasPart(name, part) {
      var i, j :| 0 <= i <= j <= |name| && name[i..j] == part && (i == 0 || name[i - 1] == '/')
                  && (j == |name| || name[j] == '/');
      PartAt(name, i, j);
      assert name[0..] == name;
    }
    if Begins(name, part) {
      assert name[0..|part|] == part;
    }
    if HasLater(name, part) {
      var i :| 0 < i <= |name| && name[i - 1] == '/' && Begins(name[i..], part);
      assert name[i..i + |part|] == name[i..][..|part|] == part;
      assert i + |part| < |name| ==> name[i + |part|] == name[i..][|part|];
    }
  }

  lemma PartAt(name: string, i: nat, j: nat)
    requires i <= j <= |name| && (j == |name| || name[j] == '/')
    ensures Begins(name[i..], name[i..j])
  {
    assert name[i..][..j - i] == name[i..j];
    assert j < |name| ==> name[i..][j - i] == name[j];
  }

  predicate Control(c: char) {
    c as int < 32 || c as int == 127
  }

  predicate SafeName(name: string, macro: string -> bool) {
    && 0 < |name| <= 1024 && name[0] != '/' && '\\' !in name && ':' !in name
    && (forall c :: c in name ==> !Control(c))
    && !HasPart(name, ".") && !HasPart(name, "..") && !macro(name)
  }

  // ---- One entry ----

  datatype Header = Header(at: nat, flags: int, compression: int, crc: int, compressed: int, expanded: int,
                           nameLength: int, extraLength: int, commentLength: int, local: int)

  /** An entry as the walk reads it: its central record is [at, next), its local record [local, localEnd). */
  datatype Entry = Entry(at: int, next: int, local: int, localEnd: int, name: string, expanded: int, body: seq<Byte>)

  /** Only bits 1, 2, 3 and 11 may be set. */
  predicate FlagsOk(flags: int) {
    flags % 2 == 0 && (flags / 16) % 128 == 0 && flags / 4096 == 0
  }

  /** Of the sixteen bits of the flags only bits 1, 2, 3 and 11 may be set, to 14 and to 2048 together. */
  lemma FlagsExactly(flags: int)
    requires 0 <= flags < 0x1_0000
    ensures FlagsOk(flags) <==> flags % 2048 in {0, 2, 4, 6, 8, 10, 12, 14} && flags / 2048 in {0, 1}
  {
    var low, high := flags % 2048, flags / 2048;
    assert flags == 2048 * high + low;
    assert (flags / 16) % 128 == low / 16;
    assert flags / 4096 == high / 2;
    assert flags % 2 == low % 2;
  }

  predicate HasDescriptor(flags: int) {
    (flags / 8) % 2 == 1
  }

  /** The file type bits of a Unix mode: none, a regular file or a directory. */
  predicate ModeOk(high: int) {
    high / 4096 == 0 || high / 4096 == 8 || high / 4096 == 4
  }

  function CentralHeader(bytes: seq<Byte>, maxBytes: int, end: nat, at: nat): (r: Option<Header>)
    requires end <= |bytes|
    ensures r.Some? ==>
              r.value.at == at && at + 46 + r.value.nameLength + r.value.extraLength + r.value.commentLength <= end
                        && r.value.nameLength >= 0 && r.value.extraLength >= 0 && r.value.commentLength >= 0
                        && r.value.local >= 0 && r.value.compressed >= 0 && 0 <= r.value.expanded <= maxBytes
  {
    if at + 46 > end || U32LE(bytes, at) != CENTRAL_HEADER then None
    else
      var h := Header(at, U16LE(bytes, at + 8), U16LE(bytes, at + 10), U32LE(bytes, at + 16), U32LE(bytes, at + 20),
                      U32LE(bytes, at + 24),
                      U16LE(bytes, at + 28), U16LE(bytes, at + 30), U16LE(bytes, at + 32), U32LE(bytes, at + 42));
      if U16LE(bytes, at + 6) > 20 || !FlagsOk(h.flags) || (h.compression != 0 && h.compression != 8) then None
      else if U16LE(bytes, at + 34) != 0 || !ModeOk(U16LE(bytes, at + 40)) then None
      else if at + 46 + h.nameLength + h.extraLength + h.commentLength > end || h.expanded > maxBytes then None
      else Some(h)
  }

  /** Where the payload of the local record starts, if the record agrees with the central one. */
  function LocalPayload(bytes: seq<Byte>, start: nat, h: Header, nameBytes: seq<Byte>): (r: Option<nat>)
    requires start <= |bytes| && h.local >= 0 && h.compressed >= 0
    ensures r.Some? ==> h.local + 30 <= r.value && r.value + h.compressed <= start
  {
    var local := h.local;
    if local + 30 > start || U32LE(bytes, local) != LOCAL_HEADER then None
    else if U16LE(bytes, local + 4) > 20 || U16LE(bytes, local + 6) != h.flags
            || U16LE(bytes, local + 8) != h.compression then None
    else
      var localName, localExtra := U16LE(bytes, local + 26), U16LE(bytes, local + 28);
      var payload := local + 30 + localName + localExtra;
      if payload + h.compressed > start || localName != h.nameLength
         || bytes[local + 30..local + 30 + localName] != nameBytes then None
      else if !ExtraOk(bytes[local + 30 + localName..payload]) then None
      else Some(payload)
  }

  predicate ZeroOr(x: int, y: int) {
    x == 0 || x == y
  }

  /** The end of the local record: after the data, or after the data descriptor that follows it. */
  function LocalEnd(bytes: seq<Byte>, start: nat, h: Header, payload: nat): (r: Option<nat>)
    requires start <= |bytes| && h.local >= 0 && h.compressed >= 0 && h.local + 30 <= payload
             && payload + h.compressed <= start
    ensures r.Some? ==> payload + h.compressed <= r.value <= start
  {
    var dataEnd := payload + h.compressed;
    if HasDescriptor(h.flags) then
      if dataEnd + 12 > start then None
      else
        var at := if U32LE(bytes, dataEnd) == DESCRIPTOR then dataEnd + 4 else dataEnd;
        if at + 12 > start then None
        else if U32LE(bytes, at) != h.crc || U32LE(bytes, at + 4) != h.compressed || U32LE(bytes, at + 8) != h.expanded
          then None
        else if !(ZeroOr(U32LE(bytes, h.local + 14), h.crc) && ZeroOr(U32LE(bytes, h.local + 18), h.compressed)
                  && ZeroOr(U32LE(bytes, h.local + 22), h.expanded)) then None
        else Some(at + 12)
    else if U32LE(bytes, h.local + 14) != h.crc || U32LE(bytes, h.local + 18) != h.compressed
            || U32LE(bytes, h.local + 22) != h.expanded then None
    else Some(dataEnd)
  }

  function Max(a: int, b: int): int {
    if a < b then b else a
  }

  function Content<X(!new)>(packed: seq<Byte>, h: Header, name: string, o: Outside<X>): Option<seq<Byte>> {
    var body :=
      if h.compression == 0 then (if h.compressed != h.expanded then None else Some(packed))
      else
        var inflated := o.inflate(packed, Max(1, h.expanded));
        if inflated.None? || inflated.value.1 != h.compressed then None else Some(inflated.value.0);
    if body.None? then None
    else if |body.value| != h.expanded || o.crc(body.value) != h.crc then None
    else if name != "" && name[|name| - 1] == '/' && h.expanded != 0 then None
    else body
  }

  /** Everything the walk checks of one entry that does not depend on the others. */
  function ReadEntry<X(!new)>(bytes: seq<Byte>, maxBytes: int, start: nat, end: nat, at: nat,
                        o: Outside<X>): (r: Option<Entry>)
    requires start <= end <= |bytes|
    ensures r.Some? ==>
              r.value.at == at && at + 46 <= r.value.next <= end && 0 <= r.value.local
                  && r.value.local + 30 <= r.value.localEnd <= start
                        && 0 <= r.value.expanded == |r.value.body| <= maxBytes
  {
    var header := CentralHeader(bytes, maxBytes, end, at);
    if header.None? then None
    else
      var h := header.value;
      var nameBytes := bytes[at + 46..at + 46 + h.nameLength];
      var name := o.decode(nameBytes);
      if name.None? || !SafeName(name.value, o.macro) then None
      else if !ExtraOk(bytes[at + 46 + h.nameLength..at + 46 + h.nameLength + h.extraLength]) then None
      else
        var payload := LocalPayload(bytes, start, h, nameBytes);
        if payload.None? then None
        else
          var localEnd := LocalEnd(bytes, start, h, payload.value);
          if localEnd.None? then None
          else
            var body := Content(bytes[payload.value..payload.value + h.compressed], h, name.value, o);
            if body.None? then None
            else Some(Entry(at, at + 46 + h.nameLength + h.extraLength + h.commentLength, h.local, localEnd.value,
                            name.value, h.expanded, body.value))
  }

  // ---- The list of entries ----

  /** The entries of a central directory from an offset on. */
  function Entries<X(!new)>(bytes: seq<Byte>, maxBytes: int, start: nat, end: nat, at: nat, count: nat,
                      o: Outside<X>): (r: Option<seq<Entry>>)
    requires start <= end <= |bytes|
    ensures r.Some? ==> |r.value| == count
    decreases count
  {
    if count == 0 then (if at == end then Some([]) else None)
    else
      var e := ReadEntry(bytes, maxBytes, start, end, at, o);
      if e.None? then None
      else
        var rest := Entries(bytes, maxBytes, start, end, e.value.next, count - 1, o);
        if rest.None? then None else Some([e.value] + rest.value)
  }

  function SumExpanded(entries: seq<Entry>): int {
    if entries == [] then 0 else SumExpanded(entries[..|entries| - 1]) + entries[|entries| - 1].expanded
  }

  predicate DistinctNames(entries: seq<Entry>, lower: string -> string) {
    forall i, j :: 0 <= i < j < |entries| ==> lower(entries[i].name) != lower(entries[j].name)
  }

  type Range = (int, int)

  function RangeStart(r: Range): int {
    r.0
  }

  function RangeEnd(r: Range): int {
    r.1
  }

  function Ranges(entries: seq<Entry>): (r: seq<Range>)
    ensures |r| == |entries| && forall i :: 0 <= i < |entries| ==> r[i] == (entries[i].local, entries[i].localEnd)
  {
    seq(|entries|, i requires 0 <= i < |entries| => (entries[i].local, entries[i].localEnd))
  }

  /** In order of their starts the ranges run from 0 to start, each where the one before ends. */
  predicate Tiled(sorted: seq<Range>, start: int) {
    Chained(sorted, 0, start)
  }

  predicate Chained(s: seq<Range>, from: int, to: int) {
    && |s| > 0 && s[0].0 == from && s[|s| - 1].1 == to
    && forall i :: 0 <= i < |s| ==> i == 0 || s[i].0 == s[i - 1].1
  }

  datatype Parts<X> = Parts(parts: map<string, X>, bytes: int, elements: int)

  predicate MainPart(name: string) {
    name == "[Content_Types].xml" || name == "_rels/.rels" || name == "word/document.xml"
  }

  function ParsePart<X(!new)>(p: Parts<X>, e: Entry, o: Outside<X>): Option<Parts<X>> {
    if !o.xmlName(e.name) then Some(p)
    else if e.expanded > MAX_XML_PART || p.bytes + e.expanded > MAX_XML then None
    else
      var xml := o.parse(e.body, p.elements);
      if xml.None? then None
      else Some(Parts(if MainPart(e.name) then p.parts[e.name := xml.value.0] else p.parts, p.bytes + |e.body|,
                      xml.value.1))
  }

  function ParseAll<X(!new)>(entries: seq<Entry>, o: Outside<X>): Option<Parts<X>> {
    if entries == [] then Some(Parts(map[], 0, 0))
    else
      var before := ParseAll(entries[..|entries| - 1], o);
      if before.None? then None else ParsePart(before.value, entries[|entries| - 1], o)
  }

  // ---- The XML parts, said without the order in which the walk meets them ----

  const MAIN: set<string> := {"[Content_Types].xml", "_rels/.rels", "word/document.xml"}

  function XmlSize<X(!new)>(entries: seq<Entry>, o: Outside<X>): int {
    if entries == [] then 0
    else
      var n := |entries| - 1;
      XmlSize(entries[..n], o) + if o.xmlName(entries[n].name) then entries[n].expanded else 0
  }

  /** Every XML part is small enough and parses, given the number of elements in the parts before it: counts[i] of them
      before entry i, roots[i] being its root; the others do not count. */
  ghost predicate XmlParsed<X(!new)>(entries: seq<Entry>, o: Outside<X>, counts: seq<int>, roots: seq<Option<X>>) {
    && |counts| == |entries| + 1 && |roots| == |entries| && counts[0] == 0
    && forall i :: 0 <= i < |entries| ==> XmlStep(entries[i], o, counts[i], roots[i], counts[i + 1])
  }

  ghost predicate XmlStep<X(!new)>(e: Entry, o: Outside<X>, before: int, root: Option<X>, after: int) {
    if o.xmlName(e.name) then
      e.expanded <= MAX_XML_PART && root.Some? && o.parse(e.body, before) == Some((root.value, after))
    else root.None? && after == before
  }

  /** The parts a document needs are looked for among exactly the main parts that occur, each with its own root. */
  ghost predicate MainRoots<X(!new)>(entries: seq<Entry>, roots: seq<Option<X>>, parts: map<string, X>)
    requires |roots| == |entries|
  {
    && (forall n :: n in parts ==>
        exists i :: 0 <= i < |entries| && entries[i].name == n && n in MAIN && roots[i].Some?)
    && (forall i :: 0 <= i < |entries| && entries[i].name in MAIN && roots[i].Some? ==>
          entries[i].name in parts && parts[entries[i].name] == roots[i].value)
  }

  ghost predicate XmlAccepted<X(!new)>(entries: seq<Entry>, o: Outside<X>) {
    exists counts, roots, parts ::
      && XmlParsed(entries, o, counts, roots) && XmlSize(entries, o) <= MAX_XML
      && MainRoots(entries, roots, parts) && o.word(parts)
  }

  predicate Sized(e: Entry) {
    0 <= e.expanded == |e.body|
  }

  lemma {:induction false} XmlSizeGrows<X(!new)>(entries: seq<Entry>, o: Outside<X>)
    requires forall e :: e in entries ==> Sized(e)
    ensures XmlSize(entries, o) >= 0
  {
    if entries != [] {
      assert entries[|entries| - 1] in entries;
      XmlSizeGrows(entries[..|entries| - 1], o);
    }
  }

  lemma ParsedStep<X(!new)>(entries: seq<Entry>, o: Outside<X>, counts: seq<int>, roots: seq<Option<X>>)
    requires entries != [] && XmlParsed(entries, o, counts, roots)
    ensures var n := |entries| - 1;
      && XmlParsed(entries[..n], o, counts[..n + 1], roots[..n])
      && XmlStep(entries[n], o, counts[n], roots[n], counts[n + 1])
  {
  }

  lemma ParsedSnoc<X(!new)>(entries: seq<Entry>, o: Outside<X>, counts: seq<int>, roots: seq<Option<X>>,
                            root: Option<X>, after: int)
    requires entries != [] && XmlParsed(entries[..|entries| - 1], o, counts, roots)
    requires XmlStep(entries[|entries| - 1], o, counts[|entries| - 1], root, after)
    ensures XmlParsed(entries, o, counts + [after], roots + [root])
  {
    hide XmlStep;
    var n := |entries| - 1;
    forall i | 0 <= i < |entries|
      ensures XmlStep(entries[i], o, (counts + [after])[i], (roots + [root])[i], (counts + [after])[i + 1])
    {
      if i < n {
        assert XmlStep(entries[..n][i], o, counts[i], roots[i], counts[i + 1]);
      }
    }
  }

  lemma MainSnoc<X(!new)>(entries: seq<Entry>, roots: seq<Option<X>>, before: map<string, X>, lower: string -> string)
    requires entries != [] && |roots| == |entries| && DistinctNames(entries, lower)
    requires MainRoots(entries[..|entries| - 1], roots[..|entries| - 1], before)
    ensures var n := |entries| - 1; var e, root := entries[n], roots[n];
      MainRoots(entries, roots, if e.name in MAIN && root.Some? then before[e.name := root.value] else before)
  {
    var n := |entries| - 1;
    var e, root := entries[n], roots[n];
    var parts := if e.name in MAIN && root.Some? then before[e.name := root.value] else before;
    forall name | name in parts
      ensures exists i :: 0 <= i < |entries| && entries[i].name == name && name in MAIN && roots[i].Some?
    {
      if name in before {
        var i :| 0 <= i < n && entries[..n][i].name == name && name in MAIN && roots[..n][i].Some?;
        assert entries[i].name == name && roots[i].Some?;
      } else {
        assert entries[n].name == name;
      }
    }
    forall i | 0 <= i < |entries| && entries[i].name in MAIN && roots[i].Some?
      ensures entries[i].name in parts && parts[entries[i].name] == roots[i].value
    {
      if i < n {
        assert entries[..n][i].name in before && lower(entries[i].name) != lower(entries[n].name);
      }
    }
  }

  lemma MainUnique<X(!new)>(entries: seq<Entry>, roots: seq<Option<X>>, a: map<string, X>, b: map<string, X>)
    requires |roots| == |entries| && MainRoots(entries, roots, a) && MainRoots(entries, roots, b)
    ensures a == b
  {
    forall n | n in a ensures n in b && a[n] == b[n] {
      var i :| 0 <= i < |entries| && entries[i].name == n && n in MAIN && roots[i].Some?;
    }
    forall n | n in b ensures n in a {
      var i :| 0 <= i < |entries| && entries[i].name == n && n in MAIN && roots[i].Some?;
    }
  }

  /** What the walk has parsed, part by part. */
  lemma {:induction false} ParseSound<X(!new)>(entries: seq<Entry>, o: Outside<X>)
      returns (counts: seq<int>, roots: seq<Option<X>>)
    requires (forall e :: e in entries ==> Sized(e)) && DistinctNames(entries, o.lower) && ParseAll(entries, o).Some?
    ensures XmlParsed(entries, o, counts, roots)
    ensures var p := ParseAll(entries, o).value;
      && p.elements == counts[|entries|] && p.bytes == XmlSize(entries, o) <= MAX_XML
         && MainRoots(entries, roots, p.parts)
  {
    hide XmlParsed;
    hide MainRoots;
    if entries == [] {
      counts, roots := [0], [];
      NoParts(o);
    } else {
      var n := |entries| - 1;
      var e := entries[n];
      assert e in entries;
      var cs, rs := ParseSound(entries[..n], o);
      Lengths(entries[..n], o, cs, rs);
      var before, after := ParseAll(entries[..n], o).value, ParseAll(entries, o).value;
      var root := if o.xmlName(e.name) then Some(o.parse(e.body, before.elements).value.0) else None;
      ParsedSnoc(entries, o, cs, rs, root, after.elements);
      counts, roots := cs + [after.elements], rs + [root];
      assert roots[..n] == rs && roots[n] == root;
      MainSnoc(entries, roots, before.parts, o.lower);
    }
  }

  lemma NoParts<X(!new)>(o: Outside<X>)
    ensures XmlParsed([], o, [0], [])
    ensures var none: map<string, X> := map[]; MainRoots([], [], none)
  {
  }

  lemma Lengths<X(!new)>(entries: seq<Entry>, o: Outside<X>, counts: seq<int>, roots: seq<Option<X>>)
    requires XmlParsed(entries, o, counts, roots)
    ensures |counts| == |entries| + 1 && |roots| == |entries| && counts[0] == 0
  {
  }

  /** And whatever can be parsed so, the walk parses. */
  lemma {:induction false} ParseComplete<X(!new)>(entries: seq<Entry>, o: Outside<X>, counts: seq<int>,
                                                  roots: seq<Option<X>>)
    requires (forall e :: e in entries ==> Sized(e)) && DistinctNames(entries, o.lower)
    requires XmlParsed(entries, o, counts, roots) && XmlSize(entries, o) <= MAX_XML
    ensures ParseAll(entries, o).Some?
    ensures var p := ParseAll(entries, o).value;
      p.elements == counts[|entries|] && p.bytes == XmlSize(entries, o) && MainRoots(entries, roots, p.parts)
  {
    hide XmlParsed;
    hide MainRoots;
    Lengths(entries, o, counts, roots);
    if entries == [] {
      NoParts(o);
    } else {
      var n := |entries| - 1;
      var e := entries[n];
      assert e in entries;
      ParsedStep(entries, o, counts, roots);
      XmlSizeGrows(entries[..n], o);
      ParseComplete(entries[..n], o, counts[..n + 1], roots[..n]);
      MainSnoc(entries, roots, ParseAll(entries[..n], o).value.parts, o.lower);
    }
  }

  /** The walk's parsing and the final look at the main parts succeed exactly when the XML parts are acceptable. */
  lemma XmlExact<X(!new)>(entries: seq<Entry>, o: Outside<X>)
    requires (forall e :: e in entries ==> Sized(e)) && DistinctNames(entries, o.lower)
    ensures XmlAccepted(entries, o) <==> ParseAll(entries, o).Some? && o.word(ParseAll(entries, o).value.parts)
  {
    hide XmlStep;
    hide MainRoots;
    if ParseAll(entries, o).Some? && o.word(ParseAll(entries, o).value.parts) {
      var counts, roots := ParseSound(entries, o);
    }
    if XmlAccepted(entries, o) {
      var counts, roots, parts :|
        && XmlParsed(entries, o, counts, roots) && XmlSize(entries, o) <= MAX_XML
        && MainRoots(entries, roots, parts) && o.word(parts);
      ParseComplete(entries, o, counts, roots);
      MainUnique(entries, roots, parts, ParseAll(entries, o).value.parts);
    }
  }

  /** What the entries must satisfy together. */
  ghost predicate Together<X(!new)>(entries: seq<Entry>, maxBytes: int, start: int, o: Outside<X>) {
    && SumExpanded(entries) <= 2 * maxBytes
    && DistinctNames(entries, o.lower)
    && Tiled(SortBy(Ranges(entries), RangeStart), start)
    && XmlAccepted(entries, o)
  }

  // ---- The end record ----

  predicate EndAt(bytes: seq<Byte>, at: int) {
    0 <= at && at + 22 <= |bytes| && U32LE(bytes, at) == END_RECORD && at + 22 + U16LE(bytes, at + 20) == |bytes|
  }

  ghost predicate LastEnd(bytes: seq<Byte>, end: int) {
    EndAt(bytes, end) && end >= |bytes| - 65557 && forall i :: end < i ==> !EndAt(bytes, i)
  }

  predicate EndOk(bytes: seq<Byte>, end: int)
    requires EndAt(bytes, end)
  {
    && U16LE(bytes, end + 4) == 0 && U16LE(bytes, end + 6) == 0
    && 0 < U16LE(bytes, end + 10) <= 2048 && U16LE(bytes, end + 8) == U16LE(bytes, end + 10)
    && U32LE(bytes, end + 16) + U32LE(bytes, end + 12) == end
  }

  /** The package: the last end record, and the entries of the directory it points to. */
  ghost predicate Package<X(!new)>(bytes: seq<Byte>, maxBytes: int, o: Outside<X>, end: nat, entries: seq<Entry>) {
    && 22 <= |bytes| <= maxBytes && U32LE(bytes, 0) == LOCAL_HEADER
    && LastEnd(bytes, end) && EndOk(bytes, end)
    && (var start := U32LE(bytes, end + 16);
        && Entries(bytes, maxBytes, start, end, start, U16LE(bytes, end + 10), o) == Some(entries)
        && Together(entries, maxBytes, start, o))
  }

  // ---- The walk as it is written ----

  method FindEnd(bytes: seq<Byte>) returns (end: int)
    requires |bytes| >= 22
    ensures end >= 0 ==> LastEnd(bytes, end)
    ensures end < 0 ==> forall i :: !LastEnd(bytes, i)
  {
    var offset := |bytes| - 22;
    var least := Max(0, |bytes| - 65557);
    while offset >= least
      invariant least - 1 <= offset <= |bytes| - 22
      invariant forall i :: offset < i ==> !EndAt(bytes, i)
    {
      if U32LE(bytes, offset) == END_RECORD && offset + 22 + U16LE(bytes, offset + 20) == |bytes| {
        return offset;
      }
      offset := offset - 1;
    }
    return -1;
  }

  /** Reads one entry in the order the checks are made. */
  method ReadOne<X(!new)>(bytes: seq<Byte>, maxBytes: int, start: nat, end: nat, at: nat, o: Outside<X>)
      returns (e: Option<Entry>)
    requires start <= end <= |bytes|
    ensures e == ReadEntry(bytes, maxBytes, start, end, at, o)
  {
    hide ExtraOk;
    hide SafeName;
    hide LocalPayload;
    hide LocalEnd;
    hide Content;
    var header := CentralHeader(bytes, maxBytes, end, at);
    if header.None? { return None; }
    var h := header.value;
    var nameBytes := bytes[at + 46..at + 46 + h.nameLength];
    var name := o.decode(nameBytes);
    if name.None? || !SafeName(name.value, o.macro) { return None; }
    var extraOk := ValidateExtraFields(bytes[at + 46 + h.nameLength..at + 46 + h.nameLength + h.extraLength]);
    if !extraOk { return None; }
    var payload := LocalPayload(bytes, start, h, nameBytes);
    if payload.None? { return None; }
    var localEnd := LocalEnd(bytes, start, h, payload.value);
    if localEnd.None? { return None; }
    var body := Content(bytes[payload.value..payload.value + h.compressed], h, name.value, o);
    if body.None? { return None; }
    e := Some(Entry(at, at + 46 + h.nameLength + h.extraLength + h.commentLength, h.local, localEnd.value, name.value,
                    h.expanded, body.value));
  }

  /** What the loop has gathered from the entries it has read. */
  datatype Gathered<X> = Gathered(total: int, names: set<string>, ranges: seq<Range>, parts: Parts<X>)

  ghost predicate Gathers<X(!new)>(done: seq<Entry>, g: Gathered<X>, maxBytes: int, o: Outside<X>) {
    && g.total == SumExpanded(done) <= 2 * maxBytes
    && (forall n :: n in g.names <==> exists i :: 0 <= i < |done| && o.lower(done[i].name) == n)
    && DistinctNames(done, o.lower)
    && g.ranges == Ranges(done)
    && ParseAll(done, o) == Some(g.parts)
    && (forall e :: e in done ==> Sized(e))
  }

  /** One more entry: gathered if its name is new and its size and XML fit ... */
  lemma GathersOneMore<X(!new)>(done: seq<Entry>, g: Gathered<X>, e: Entry, maxBytes: int, o: Outside<X>)
    requires Gathers(done, g, maxBytes, o) && Sized(e)
    requires g.total + e.expanded <= 2 * maxBytes && o.lower(e.name) !in g.names && ParsePart(g.parts, e, o).Some?
    ensures Gathers(done + [e],
                    Gathered(g.total + e.expanded, g.names + {o.lower(e.name)}, g.ranges + [(e.local, e.localEnd)],
                                         ParsePart(g.parts, e, o).value), maxBytes, o)
  {
    hide ParsePart;
    hide DistinctNames;
    hide ParseAll;
    hide SumExpanded;
    hide Sized;
    var more := done + [e];
    FoldsOneMore(done, e, o);
    assert Ranges(more) == Ranges(done) + [(e.local, e.localEnd)];
    NamesOneMore(done, g.names, e, o.lower);
    assert forall x :: x in more ==> x in done || x == e;
  }

  lemma FoldsOneMore<X(!new)>(done: seq<Entry>, e: Entry, o: Outside<X>)
    ensures SumExpanded(done + [e]) == SumExpanded(done) + e.expanded
    ensures ParseAll(done, o).Some? ==> ParseAll(done + [e], o) == ParsePart(ParseAll(done, o).value, e, o)
  {
    hide ParsePart;
    assert (done + [e])[..|done|] == done;
  }

  lemma NamesOneMore(done: seq<Entry>, names: set<string>, e: Entry, lower: string -> string)
    requires forall n :: n in names <==> exists i :: 0 <= i < |done| && lower(done[i].name) == n
    requires DistinctNames(done, lower) && lower(e.name) !in names
    ensures forall n ::
              n in names + {lower(e.name)} <==> exists i :: 0 <= i < |done + [e]| && lower((done + [e])[i].name) == n
    ensures DistinctNames(done + [e], lower)
  {
    var more := done + [e];
    forall n ensures n in names + {lower(e.name)} <==> exists i :: 0 <= i < |more| && lower(more[i].name) == n {
      if n in names {
        var i :| 0 <= i < |done| && lower(done[i].name) == n;
        assert more[i] == done[i];
      }
      if n == lower(e.name) {
        assert more[|done|] == e;
      }
    }
    assert forall i :: 0 <= i < |done| ==> more[i] == done[i] && lower(done[i].name) in names;
  }

  lemma {:induction false} SumGrows(some: seq<Entry>, rest: seq<Entry>)
    requires forall e :: e in rest ==> Sized(e)
    ensures SumExpanded(some + rest) >= SumExpanded(some)
    decreases |rest|
  {
    if rest == [] {
      assert some + rest == some;
    } else {
      var n := |rest| - 1;
      assert rest[n] in rest;
      SumGrows(some, rest[..n]);
      assert (some + rest)[..|some| + n] == some + rest[..n];
    }
  }

  lemma {:induction false} ParseStays<X(!new)>(some: seq<Entry>, rest: seq<Entry>, o: Outside<X>)
    requires ParseAll(some, o).None?
    ensures ParseAll(some + rest, o).None?
    decreases |rest|
  {
    if rest == [] {
      assert some + rest == some;
    } else {
      var n := |rest| - 1;
      ParseStays(some, rest[..n], o);
      assert (some + rest)[..|some| + n] == some + rest[..n];
    }
  }

  /** ... and otherwise no list that goes on from here is one the check accepts. */
  lemma NoMore<X(!new)>(done: seq<Entry>, g: Gathered<X>, e: Entry, rest: seq<Entry>, maxBytes: int, start: int,
                  o: Outside<X>)
    requires Gathers(done, g, maxBytes, o) && Sized(e) && forall x :: x in rest ==> Sized(x)
    requires g.total + e.expanded > 2 * maxBytes || o.lower(e.name) in g.names || ParsePart(g.parts, e, o).None?
    ensures !Together(done + ([e] + rest), maxBytes, start, o)
  {
    hide ParsePart;
    hide Tiled;
    hide SortBy;
    hide XmlAccepted;
    var more, all := done + [e], done + ([e] + rest);
    assert all == more + rest && more[..|done|] == done;
    if g.total + e.expanded > 2 * maxBytes {
      SumGrows(more, rest);
    } else if o.lower(e.name) in g.names {
      var i :| 0 <= i < |done| && o.lower(done[i].name) == o.lower(e.name);
      assert all[i] == done[i] && all[|done|] == e;
    } else {
      ParseStays(more, rest, o);
      if DistinctNames(all, o.lower) {
        assert forall x :: x in all ==> x in done || x == e || x in rest;
        XmlExact(all, o);
      }
    }
  }

  lemma {:induction false} EntriesExpanded<X(!new)>(bytes: seq<Byte>, maxBytes: int, start: nat, end: nat, at: nat,
                                              count: nat, o: Outside<X>)
    requires start <= end <= |bytes| && Entries(bytes, maxBytes, start, end, at, count, o).Some?
    ensures forall e :: e in Entries(bytes, maxBytes, start, end, at, count, o).value ==> Sized(e)
    decreases count
  {
    hide ReadEntry;
    if count > 0 {
      var e := ReadEntry(bytes, maxBytes, start, end, at, o).value;
      EntriesExpanded(bytes, maxBytes, start, end, e.next, count - 1, o);
    }
  }

  /** From an offset on the walk completes the entries already read to the whole list. */
  ghost predicate Onward<X(!new)>(bytes: seq<Byte>, maxBytes: int, start: nat, end: nat, count: nat, done: seq<Entry>,
                            offset: nat, o: Outside<X>)
    requires start <= end <= |bytes| && |done| <= count
  {
    var all, rest := Entries(bytes, maxBytes, start, end, start, count, o), Entries(bytes, maxBytes, start, end,
        offset, count - |done|, o);
    all == if rest.None? then None else Some(done + rest.value)
  }

  lemma OnwardOneMore<X(!new)>(bytes: seq<Byte>, maxBytes: int, start: nat, end: nat, count: nat, done: seq<Entry>,
                         offset: nat, o: Outside<X>)
    requires start <= end <= |bytes| && |done| < count && Onward(bytes, maxBytes, start, end, count, done, offset, o)
    ensures var e := ReadEntry(bytes, maxBytes, start, end, offset, o);
      && (e.None? ==> Entries(bytes, maxBytes, start, end, start, count, o).None?)
      && (e.Some? ==> Onward(bytes, maxBytes, start, end, count, done + [e.value], e.value.next, o))
      && (e.Some? && Entries(bytes, maxBytes, start, end, start, count, o).Some? ==>
            exists rest :: Entries(bytes, maxBytes, start, end, start, count, o) == Some(done + ([e.value] + rest))
                && forall x :: x in rest ==> Sized(x))
  {
    hide ReadEntry;
    var e := ReadEntry(bytes, maxBytes, start, end, offset, o);
    if e.Some? {
      var rest := Entries(bytes, maxBytes, start, end, e.value.next, count - |done| - 1, o);
      if rest.Some? {
        EntriesExpanded(bytes, maxBytes, start, end, e.value.next, count - |done| - 1, o);
        assert done + ([e.value] + rest.value) == done + [e.value] + rest.value;
      }
    }
  }

  lemma Rejects<X(!new)>(bytes: seq<Byte>, maxBytes: int, start: nat, end: nat, count: nat, done: seq<Entry>,
                         offset: nat,
                   o: Outside<X>, g: Gathered<X>)
    requires start <= end <= |bytes| && |done| < count && Onward(bytes, maxBytes, start, end, count, done, offset, o)
    requires Gathers(done, g, maxBytes, o) && ReadEntry(bytes, maxBytes, start, end, offset, o).Some?
    requires var e := ReadEntry(bytes, maxBytes, start, end, offset, o).value;
      g.total + e.expanded > 2 * maxBytes || o.lower(e.name) in g.names || ParsePart(g.parts, e, o).None?
    ensures var all := Entries(bytes, maxBytes, start, end, start, count, o);
            all.None? || !Together(all.value, maxBytes, start, o)
  {
    hide ReadEntry;
    hide ParsePart;
    hide Gathers;
    hide Together;
    hide Onward;
    hide Entries;
    OnwardOneMore(bytes, maxBytes, start, end, count, done, offset, o);
    var all := Entries(bytes, maxBytes, start, end, start, count, o);
    if all.Some? {
      var e := ReadEntry(bytes, maxBytes, start, end, offset, o).value;
      var rest :| all == Some(done + ([e] + rest)) && forall x :: x in rest ==> Sized(x);
      NoMore(done, g, e, rest, maxBytes, start, o);
    }
  }

  lemma AllRead<X(!new)>(bytes: seq<Byte>, maxBytes: int, start: nat, end: nat, count: nat, done: seq<Entry>,
                         offset: nat,
                   o: Outside<X>)
    requires start <= end <= |bytes| && |done| == count && Onward(bytes, maxBytes, start, end, count, done, offset, o)
    ensures Entries(bytes, maxBytes, start, end, start, count, o) == if offset == end then Some(done) else None
  {
    assert done + [] == done;
  }

  lemma NothingGathered<X(!new)>(bytes: seq<Byte>, maxBytes: int, start: nat, end: nat, count: nat, o: Outside<X>)
    requires start <= end <= |bytes| && maxBytes >= 0
    ensures Gathers([], Gathered(0, {}, [], Parts(map[], 0, 0)), maxBytes, o)
            && Onward(bytes, maxBytes, start, end, count, [], start, o)
  {
    hide Entries;
    hide ReadEntry;
    var rest := Entries(bytes, maxBytes, start, end, start, count, o);
    if rest.Some? {
      assert [] + rest.value == rest.value;
    }
    assert Ranges([]) == [];
  }

  lemma FinalChecks<X(!new)>(done: seq<Entry>, g: Gathered<X>, maxBytes: int, start: int, o: Outside<X>)
    requires Gathers(done, g, maxBytes, o)
    ensures g.ranges == Ranges(done)
    ensures Together(done, maxBytes, start, o) <==> Tiled(SortBy(g.ranges, RangeStart), start) && o.word(g.parts.parts)
  {
    hide XmlAccepted;
    XmlExact(done, o);
  }

  /** The walk of the central directory and the checks on what it gathered. */
  method WalkEntries<X(!new)>(bytes: seq<Byte>, maxBytes: int, start: nat, end: nat, count: nat, o: Outside<X>)
      returns (ok: bool)
    requires start <= end <= |bytes| <= maxBytes && count > 0
    ensures ok <==> Entries(bytes, maxBytes, start, end, start, count, o).Some?
                    && Together(Entries(bytes, maxBytes, start, end, start, count, o).value, maxBytes, start, o)
  {
    hide ReadEntry;
    hide Entries;
    hide Gathers;
    hide ParsePart;
    hide Together;
    hide Onward;
    hide Tiled;
    hide SortBy;
    var offset, total: int, names: set<string>, ranges: seq<Range>, parts: Parts<X> :=
        start, 0, {}, [], Parts(map[], 0, 0);
    ghost var done: seq<Entry> := [];
    NothingGathered(bytes, maxBytes, start, end, count, o);
    for k := 0 to count
      invariant |done| == k && 0 <= offset && Onward(bytes, maxBytes, start, end, count, done, offset, o)
      invariant Gathers(done, Gathered(total, names, ranges, parts), maxBytes, o)
    {
      ghost var g := Gathered(total, names, ranges, parts);
      OnwardOneMore(bytes, maxBytes, start, end, count, done, offset, o);
      var entry := ReadOne(bytes, maxBytes, start, end, offset, o);
      if entry.None? { return false; }
      var e := entry.value;
      var parsed := ParsePart(parts, e, o);
      if total + e.expanded > 2 * maxBytes || o.lower(e.name) in names || parsed.None? {
        Rejects(bytes, maxBytes, start, end, count, done, offset, o, g);
        return false;
      }
      GathersOneMore(done, g, e, maxBytes, o);
      total := total + e.expanded;
      names := names + {o.lower(e.name)};
      ranges := ranges + [(e.local, e.localEnd)];
      parts := parsed.value;
      done := done + [e];
      offset := e.next;
    }
    AllRead(bytes, maxBytes, start, end, count, done, offset, o);
    if offset != end { return false; }
    FinalChecks(done, Gathered(total, names, ranges, parts), maxBytes, start, o);
    var sorted := SortBy(ranges, RangeStart);
    ok := Tiled(sorted, start) && o.word(parts.parts);
  }

  /** There is at most one last end record, so the package is determined by the bytes. */
  lemma PackageIsRead<X(!new)>(bytes: seq<Byte>, maxBytes: int, o: Outside<X>, end: nat)
    requires LastEnd(bytes, end)
    ensures (exists at, entries :: Package(bytes, maxBytes, o, at, entries)) <==> PackageAt(bytes, maxBytes, o, end)
  {
    hide U16LE;
    hide U32LE;
    hide Entries;
    hide Together;
    if exists at, entries :: Package(bytes, maxBytes, o, at, entries) {
      var at: nat, entries :| Package(bytes, maxBytes, o, at, entries);
      assert at == end;
    }
    if PackageAt(bytes, maxBytes, o, end) {
      assert Package(bytes, maxBytes, o, end,
                     Entries(bytes, maxBytes, U32LE(bytes, end + 16), end, U32LE(bytes, end + 16),
                             U16LE(bytes, end + 10), o).value);
    }
  }

  /** The package of the end record at an offset, without naming its entries. */
  ghost predicate PackageAt<X(!new)>(bytes: seq<Byte>, maxBytes: int, o: Outside<X>, end: nat)
    requires EndAt(bytes, end)
  {
    && |bytes| <= maxBytes && U32LE(bytes, 0) == LOCAL_HEADER && EndOk(bytes, end)
    && (var start := U32LE(bytes, end + 16);
        var entries := Entries(bytes, maxBytes, start, end, start, U16LE(bytes, end + 10), o);
        entries.Some? && Together(entries.value, maxBytes, start, o))
  }

  method IsValidStudentDocumentDocx<X(!new)>(bytes: seq<Byte>, maxBytes: int, o: Outside<X>) returns (ok: bool)
    ensures ok <==> exists end, entries :: Package(bytes, maxBytes, o, end, entries)
  {
    if |bytes| < 22 || |bytes| > maxBytes || U32LE(bytes, 0) != LOCAL_HEADER { return false; }
    hide U16LE;
    hide U32LE;
    hide Entries;
    hide Together;
    var end := FindEnd(bytes);
    if end < 0 { return false; }
    PackageIsRead(bytes, maxBytes, o, end);
    hide Package;
    if U16LE(bytes, end + 4) != 0 || U16LE(bytes, end + 6) != 0 { return false; }
    var count, size, start := U16LE(bytes, end + 10), U32LE(bytes, end + 12), U32LE(bytes, end + 16);
    if count <= 0 || count > 2048 || U16LE(bytes, end + 8) != count || start + size != end { return false; }
    ok := WalkEntries(bytes, maxBytes, start, end, count, o);
  }

  // ---- Every byte has one owner ----

  lemma {:induction false} ChainCovers(s: seq<Range>, from: int, to: int, p: int) returns (i: nat)
    requires Chained(s, from, to) && from <= p < to
    ensures i < |s| && s[i].0 <= p < s[i].1
    decreases |s|
  {
    if p < s[0].1 {
      i := 0;
    } else {
      assert |s| > 1;
      var rest := s[1..];
      assert forall k :: 0 <= k < |rest| ==> rest[k] == s[k + 1];
      var j := ChainCovers(rest, s[0].1, to, p);
      i := j + 1;
    }
  }

  lemma {:induction false} ChainOrder(s: seq<Range>, from: int, to: int, i: nat, j: nat)
    requires Chained(s, from, to) && i <= j < |s| && forall k :: 0 <= k < |s| ==> s[k].0 < s[k].1
    ensures s[i].0 <= s[j].0
    decreases j
  {
    if i < j {
      ChainOrder(s, from, to, i, j - 1);
      assert s[j].0 == s[j - 1].1;
    }
  }

  lemma ChainApart(s: seq<Range>, from: int, to: int)
    requires Chained(s, from, to) && forall k :: 0 <= k < |s| ==> s[k].0 < s[k].1
    ensures Apart(s, RangeStart, RangeEnd)
  {
    forall i, j | 0 <= i < j < |s| ensures RangeStart(s[i]) <= RangeStart(s[j]) {
      ChainOrder(s, from, to, i, j);
    }
    forall i | 1 <= i < |s| ensures RangeEnd(s[i - 1]) <= RangeStart(s[i]) {
      assert s[i].0 == s[i - 1].1;
    }
    NeighboursApart(s, RangeStart, RangeEnd);
  }

  function Centrals(entries: seq<Entry>): (r: seq<Range>)
    ensures |r| == |entries| && forall i :: 0 <= i < |entries| ==> r[i] == (entries[i].at, entries[i].next)
  {
    seq(|entries|, i requires 0 <= i < |entries| => (entries[i].at, entries[i].next))
  }

  /** Each listed entry is what the walk reads at its offset, and its records are not empty. */
  lemma {:induction false} EntriesAreRead<X(!new)>(bytes: seq<Byte>, maxBytes: int, start: nat, end: nat, at: nat,
                                             count: nat, o: Outside<X>,
                                             entries: seq<Entry>, i: nat)
    requires start <= end <= |bytes| && Entries(bytes, maxBytes, start, end, at, count, o) == Some(entries)
             && i < |entries|
    ensures entries[i].at >= 0 && ReadEntry(bytes, maxBytes, start, end, entries[i].at, o) == Some(entries[i])
    ensures entries[i].at < entries[i].next && 0 <= entries[i].local < entries[i].localEnd <= start
    decreases count
  {
    hide ReadEntry;
    if i > 0 {
      EntriesAreRead(bytes, maxBytes, start, end, entries[0].next, count - 1, o, entries[1..], i - 1);
    }
  }

  /** The central records follow each other from the start of the directory to its end. */
  lemma {:induction false} CentralsChained<X(!new)>(bytes: seq<Byte>, maxBytes: int, start: nat, end: nat, at: nat,
                                              count: nat, o: Outside<X>, entries: seq<Entry>)
    requires start <= end <= |bytes| && Entries(bytes, maxBytes, start, end, at, count, o) == Some(entries)
    ensures |entries| == count && (count == 0 ==> at == end) && (count > 0 ==> Chained(Centrals(entries), at, end))
    ensures forall i :: 0 <= i < |entries| ==>
              entries[i].at < entries[i].next && 0 <= entries[i].local < entries[i].localEnd <= start
    decreases count
  {
    hide ReadEntry;
    hide Chained;
    forall i | 0 <= i < |entries| ensures entries[i].at < entries[i].next
        && 0 <= entries[i].local < entries[i].localEnd <= start {
      EntriesAreRead(bytes, maxBytes, start, end, at, count, o, entries, i);
    }
    if count > 0 {
      CentralsChained(bytes, maxBytes, start, end, entries[0].next, count - 1, o, entries[1..]);
      ChainLonger(entries, at, end);
    }
  }

  lemma ChainLonger(entries: seq<Entry>, at: int, end: int)
    requires |entries| > 0 && entries[0].at == at
    requires if |entries| == 1 then entries[0].next == end else Chained(Centrals(entries[1..]), entries[0].next, end)
    ensures Chained(Centrals(entries), at, end)
  {
    var s, t := Centrals(entries), Centrals(entries[1..]);
    assert forall i :: 1 <= i < |s| ==> s[i] == t[i - 1];
  }

  /** Each entry of a package has a local record of its own: the records of two entries do not overlap ... */
  lemma LocalsApart<X(!new)>(bytes: seq<Byte>, maxBytes: int, o: Outside<X>, end: nat, entries: seq<Entry>)
    requires Package(bytes, maxBytes, o, end, entries)
    ensures Apart(Ranges(entries), RangeStart, RangeEnd)
  {
    hide ReadEntry;
    hide Entries;
    hide SortBy;
    hide XmlAccepted;
    hide DistinctNames;
    hide SumExpanded;
    hide Apart;
    hide Tiled;
    hide Chained;
    var start := U32LE(bytes, end + 16);
    CentralsChained(bytes, maxBytes, start, end, start, U16LE(bytes, end + 10), o, entries);
    TiledApart(Ranges(entries), start);
  }

  lemma TiledApart(s: seq<Range>, start: int)
    requires Tiled(SortBy(s, RangeStart), start) && forall i :: 0 <= i < |s| ==> s[i].0 < s[i].1
    ensures Apart(s, RangeStart, RangeEnd)
  {
    hide SortBy;
    hide Apart;
    var sorted := SortBy(s, RangeStart);
    SortMembers(s, RangeStart);
    forall k | 0 <= k < |sorted| ensures sorted[k].0 < sorted[k].1 {
      assert sorted[k] in s;
    }
    ChainApart(sorted, 0, start);
    SortApart(s, RangeStart, RangeStart, RangeEnd);
  }

  /** ... and together they leave no gap before the directory. */
  lemma LocalsCover<X(!new)>(bytes: seq<Byte>, maxBytes: int, o: Outside<X>, end: nat, entries: seq<Entry>, p: int)
      returns (i: nat)
    requires Package(bytes, maxBytes, o, end, entries) && 0 <= p < U32LE(bytes, end + 16)
    ensures i < |entries| && entries[i].local <= p < entries[i].localEnd
  {
    hide Entries;
    hide SortBy;
    hide XmlAccepted;
    hide DistinctNames;
    hide SumExpanded;
    var start := U32LE(bytes, end + 16);
    var sorted := SortBy(Ranges(entries), RangeStart);
    SortMembers(Ranges(entries), RangeStart);
    var k := ChainCovers(sorted, 0, start, p);
    assert sorted[k] in Ranges(entries);
    i :| 0 <= i < |entries| && Ranges(entries)[i] == sorted[k];
  }

  /** In an accepted package every byte belongs to exactly one record: the local record of one entry before the
      directory, the central record of one entry in it, and the end record, which reaches to the last byte, after it. */
  lemma EveryByteOnce<X(!new)>(bytes: seq<Byte>, maxBytes: int, o: Outside<X>, end: nat, entries: seq<Entry>, p: int)
      returns (i: nat)
    requires Package(bytes, maxBytes, o, end, entries) && 0 <= p < |bytes|
    ensures p < U32LE(bytes, end + 16) ==>
      i < |entries| && forall j :: 0 <= j < |entries| ==> (entries[j].local <= p < entries[j].localEnd <==> j == i)
    ensures U32LE(bytes, end + 16) <= p < end ==>
      i < |entries| && forall j :: 0 <= j < |entries| ==> (entries[j].at <= p < entries[j].next <==> j == i)
    ensures U32LE(bytes, end + 16) <= end && end + 22 + U16LE(bytes, end + 20) == |bytes|
  {
    hide ReadEntry;
    hide Together;
    hide SortBy;
    var start := U32LE(bytes, end + 16);
    if p < start {
      i := LocalsCover(bytes, maxBytes, o, end, entries, p);
      LocalsApart(bytes, maxBytes, o, end, entries);
      OnlyOne(Ranges(entries), i, p);
    } else if p < end {
      CentralsChained(bytes, maxBytes, start, end, start, U16LE(bytes, end + 10), o, entries);
      i := ChainCovers(Centrals(entries), start, end, p);
      ChainApart(Centrals(entries), start, end);
      OnlyOne(Centrals(entries), i, p);
    } else {
      i := 0;
    }
  }

  lemma OnlyOne(s: seq<Range>, i: nat, p: int)
    requires Apart(s, RangeStart, RangeEnd) && i < |s| && s[i].0 <= p < s[i].1
    ensures forall j :: 0 <= j < |s| ==> (s[j].0 <= p < s[j].1 <==> j == i)
  {
    forall j | 0 <= j < i ensures !(s[j].0 <= p < s[j].1) {
      assert Clear(s[j], s[i], RangeStart, RangeEnd);
    }
    forall j | i < j < |s| ensures !(s[j].0 <= p < s[j].1) {
      assert Clear(s[i], s[j], RangeStart, RangeEnd);
    }
  }

  // ---- Exactly which lists of records are accepted ----

  /** Each entry is what the walk reads at its offset, and they follow each other through the directory. */
  ghost predicate ReadInTurn<X(!new)>(bytes: seq<Byte>, maxBytes: int, start: nat, end: nat, at: nat, o: Outside<X>,
                                      entries: seq<Entry>)
    requires start <= end <= |bytes|
  {
    && (if entries == [] then at == end else Chained(Centrals(entries), at, end))
    && forall i :: 0 <= i < |entries| ==>
         entries[i].at >= 0 && ReadEntry(bytes, maxBytes, start, end, entries[i].at, o) == Some(entries[i])
  }

  lemma {:induction false} ReadInTurnIsAll<X(!new)>(bytes: seq<Byte>, maxBytes: int, start: nat, end: nat, at: nat,
                                                    o: Outside<X>, entries: seq<Entry>)
    requires start <= end <= |bytes| && ReadInTurn(bytes, maxBytes, start, end, at, o, entries)
    ensures Entries(bytes, maxBytes, start, end, at, |entries|, o) == Some(entries)
    decreases |entries|
  {
    hide ReadEntry;
    hide Chained;
    if entries != [] {
      ChainShorter(entries, at, end);
      assert ReadEntry(bytes, maxBytes, start, end, entries[0].at, o) == Some(entries[0]);
      ReadInTurnIsAll(bytes, maxBytes, start, end, entries[0].next, o, entries[1..]);
      assert entries == [entries[0]] + entries[1..];
    }
  }

  /** The entries of a directory are exactly those that are read in turn from its start to its end. */
  lemma EntriesExactly<X(!new)>(bytes: seq<Byte>, maxBytes: int, start: nat, end: nat, at: nat, o: Outside<X>,
                                entries: seq<Entry>)
    requires start <= end <= |bytes|
    ensures Entries(bytes, maxBytes, start, end, at, |entries|, o) == Some(entries)
            <==> ReadInTurn(bytes, maxBytes, start, end, at, o, entries)
  {
    hide ReadEntry;
    hide Chained;
    hide Entries;
    if Entries(bytes, maxBytes, start, end, at, |entries|, o) == Some(entries) {
      CentralsChained(bytes, maxBytes, start, end, at, |entries|, o, entries);
      forall i | 0 <= i < |entries|
        ensures entries[i].at >= 0 && ReadEntry(bytes, maxBytes, start, end, entries[i].at, o) == Some(entries[i])
      {
        EntriesAreRead(bytes, maxBytes, start, end, at, |entries|, o, entries, i);
      }
    }
    if ReadInTurn(bytes, maxBytes, start, end, at, o, entries) {
      ReadInTurnIsAll(bytes, maxBytes, start, end, at, o, entries);
    }
  }

  lemma ChainShorter(entries: seq<Entry>, at: int, end: int)
    requires |entries| > 0 && Chained(Centrals(entries), at, end)
    ensures entries[0].at == at
    ensures if |entries| == 1 then entries[0].next == end else Chained(Centrals(entries[1..]), entries[0].next, end)
  {
    var s, t := Centrals(entries), Centrals(entries[1..]);
    assert forall i :: 1 <= i < |s| ==> s[i] == t[i - 1];
    assert |s| > 1 ==> s[1].0 == s[0].1;
  }

  predicate Covers(s: seq<Range>, p: int) {
    exists i :: 0 <= i < |s| && s[i].0 <= p < s[i].1
  }

  /** The ranges divide the bytes before the directory among themselves: none reaches outside, no two overlap, no byte
      is left over. */
  ghost predicate Divides(s: seq<Range>, start: int) {
    && |s| > 0 && (forall i :: 0 <= i < |s| ==> 0 <= s[i].0 && s[i].1 <= start)
    && Apart(s, RangeStart, RangeEnd) && forall p :: 0 <= p < start ==> Covers(s, p)
  }

  /** Comparing each range with the one before it in the order of their starts finds exactly such divisions. */
  lemma TiledExactly(s: seq<Range>, start: int)
    requires forall i :: 0 <= i < |s| ==> s[i].0 < s[i].1
    ensures Tiled(SortBy(s, RangeStart), start) <==> Divides(s, start)
  {
    hide SortBy;
    hide Apart;
    hide Chained;
    hide Covers;
    var sorted := SortBy(s, RangeStart);
    SortAscending(s, RangeStart);
    SortMembers(s, RangeStart);
    SortApart(s, RangeStart, RangeStart, RangeEnd);
    SameReach(s, sorted, start);
    SameReach(sorted, s, start);
    if Tiled(sorted, start) {
      ChainDivides(sorted, start);
    }
    if Divides(sorted, start) {
      DividedChain(sorted, start);
    }
  }

  /** Reach and cover depend on the members alone. */
  lemma SameReach(s: seq<Range>, t: seq<Range>, start: int)
    requires forall r :: r in s <==> r in t
    ensures (forall i :: 0 <= i < |s| ==> s[i].0 < s[i].1) ==> forall i :: 0 <= i < |t| ==> t[i].0 < t[i].1
    ensures (forall i :: 0 <= i < |s| ==> 0 <= s[i].0 && s[i].1 <= start) ==>
              forall i :: 0 <= i < |t| ==> 0 <= t[i].0 && t[i].1 <= start
    ensures forall p :: Covers(s, p) ==> Covers(t, p)
    ensures |s| > 0 ==> |t| > 0
  {
    assert forall i :: 0 <= i < |t| ==> t[i] in s;
    forall p | Covers(s, p) ensures Covers(t, p) {
      var i :| 0 <= i < |s| && s[i].0 <= p < s[i].1;
      assert s[i] in t;
    }
    if |s| > 0 {
      assert s[0] in t;
    }
  }

  lemma ChainDivides(s: seq<Range>, start: int)
    requires Chained(s, 0, start) && forall i :: 0 <= i < |s| ==> s[i].0 < s[i].1
    ensures Divides(s, start)
  {
    ChainApart(s, 0, start);
    forall i | 0 <= i < |s| ensures 0 <= s[i].0 && s[i].1 <= start {
      ChainOrder(s, 0, start, 0, i);
      if i + 1 < |s| {
        ChainOrder(s, 0, start, i + 1, |s| - 1);
        assert s[i + 1].0 == s[i].1;
      }
    }
    forall p | 0 <= p < start ensures Covers(s, p) {
      var i := ChainCovers(s, 0, start, p);
    }
  }

  lemma DividedChain(s: seq<Range>, start: int)
    requires Divides(s, start) && Ascending(s, RangeStart) && forall i :: 0 <= i < |s| ==> s[i].0 < s[i].1
    ensures Chained(s, 0, start)
  {
    hide Apart;
    NeighboursApart(s, RangeStart, RangeEnd);
    assert forall i :: 0 <= i < |s| ==> RangeStart(s[i]) == s[i].0 && RangeEnd(s[i]) == s[i].1;
    assert forall i, j :: 0 <= i < j < |s| ==> s[i].0 <= s[j].0;
    assert Covers(s, 0);
    assert s[0].0 == 0;
    forall i | 1 <= i < |s| ensures s[i].0 == s[i - 1].1 {
      NoGap(s, start, i);
    }
    var last := s[|s| - 1].1;
    EndsInOrder(s, |s| - 1);
    assert 0 <= last < start ==> Covers(s, last);
  }

  /** Ranges in order end in order. */
  lemma EndsInOrder(s: seq<Range>, j: nat)
    requires j < |s| && forall i :: 0 <= i < |s| ==> s[i].0 < s[i].1
    requires forall i :: 1 <= i < |s| ==> s[i - 1].1 <= s[i].0
    ensures forall i :: 0 <= i <= j ==> s[i].1 <= s[j].1
    decreases j
  {
    if j > 0 {
      EndsInOrder(s, j - 1);
      assert s[j - 1].1 <= s[j].0;
    }
  }

  lemma NoGap(s: seq<Range>, start: int, i: nat)
    requires 1 <= i < |s| && (forall k :: 0 <= k < |s| ==> s[k].0 < s[k].1 && 0 <= s[k].0 && s[k].1 <= start)
    requires forall k :: 1 <= k < |s| ==> s[k - 1].1 <= s[k].0
    requires forall k, j :: 0 <= k < j < |s| ==> s[k].0 <= s[j].0
    requires forall p :: 0 <= p < start ==> Covers(s, p)
    ensures s[i].0 == s[i - 1].1
  {
    var p := s[i - 1].1;
    EndsInOrder(s, i - 1);
    assert p <= s[i].0;
    assert p < start ==> Covers(s, p);
  }

  /** A package, said without the walk: the last end record, a directory of entries read in turn, with different names,
      a bounded total size, local records that divide the bytes before it, and acceptable XML parts. */
  lemma PackageExactly<X(!new)>(bytes: seq<Byte>, maxBytes: int, o: Outside<X>, end: nat, entries: seq<Entry>)
    requires 22 <= |bytes| <= maxBytes && U32LE(bytes, 0) == LOCAL_HEADER && LastEnd(bytes, end) && EndOk(bytes, end)
    requires |entries| == U16LE(bytes, end + 10)
    ensures var start := U32LE(bytes, end + 16);
      Package(bytes, maxBytes, o, end, entries) <==>
        && ReadInTurn(bytes, maxBytes, start, end, start, o, entries)
        && SumExpanded(entries) <= 2 * maxBytes && DistinctNames(entries, o.lower)
        && Divides(Ranges(entries), start) && XmlAccepted(entries, o)
  {
    hide U16LE;
    hide U32LE;
    hide Entries;
    hide ReadInTurn;
    hide ReadEntry;
    hide Divides;
    hide Tiled;
    hide SortBy;
    hide XmlAccepted;
    hide DistinctNames;
    hide SumExpanded;
    var start := U32LE(bytes, end + 16);
    EntriesExactly(bytes, maxBytes, start, end, start, o, entries);
    if Entries(bytes, maxBytes, start, end, start, |entries|, o) == Some(entries) {
      CentralsChained(bytes, maxBytes, start, end, start, |entries|, o, entries);
      TiledExactly(Ranges(entries), start);
    }
  }
}
