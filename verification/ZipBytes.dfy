/**
  Little-endian fields, byte strings placed in a file, and the three ZIP records a store-only
  archive is made of (PKWARE APPNOTE, sections 4.3.7, 4.3.12 and 4.3.16).
*/
module ZipBytes {
  import opened Crc32

  type Octet = x: int | 0 <= x < 256

  type Bytes = seq<Octet>

  const U16: nat := 0x1_0000
  const U32: nat := 0x1_0000_0000

  const LOCAL_SIG: nat := 0x04034b50
  const CENTRAL_SIG: nat := 0x02014b50
  const END_SIG: nat := 0x06054b50

  // ---- fields ----

  function ByteOf(v: nat): Octet {
    v % 256
  }

  function Read16(b: Bytes, p: nat): (v: nat)
    requires p + 2 <= |b|
    ensures v < U16
  {
    var lo: int, hi: int := b[p], b[p + 1];
    lo + 256 * hi
  }

  function Read32(b: Bytes, p: nat): (v: nat)
    requires p + 4 <= |b|
    ensures v < U32
  {
    Read16(b, p) + U16 * Read16(b, p + 2)
  }

  lemma SplitMod16(v: nat)
    ensures v % 256 + 256 * (v / 256 % 256) == v % U16
  {
  }

  lemma SplitMod32(v: nat)
    ensures v % U16 + U16 * (v / U16 % U16) == v % U32
  {
  }

  /** A 16-bit field keeps its value modulo 2^16. */
  lemma Field16(b: Bytes, p: nat, v: nat)
    requires p + 2 <= |b| && b[p] == ByteOf(v) && b[p + 1] == ByteOf(v / 256)
    ensures Read16(b, p) == v % U16
  {
    SplitMod16(v);
  }

  /** A 32-bit field keeps its value modulo 2^32. */
  lemma Field32(b: Bytes, p: nat, v: nat)
    requires p + 4 <= |b| && b[p] == ByteOf(v) && b[p + 1] == ByteOf(v / 256)
    requires b[p + 2] == ByteOf(v / U16) && b[p + 3] == ByteOf(v / U16 / 256)
    ensures Read32(b, p) == v % U32
  {
    Field16(b, p, v);
    Field16(b, p + 2, v / U16);
    SplitMod32(v);
  }

  // ---- the stored checksum ----

  function Words(data: Bytes): seq<Byte> {
    seq(|data|, i requires 0 <= i < |data| => data[i] as Byte)
  }

  /** The CRC-32 of a byte string as the unsigned value stored in headers. */
  function Checksum(data: Bytes): (crc: nat)
    ensures crc < U32
  {
    Crc(Words(data)) as nat
  }

  // ---- placement ----

  ghost predicate At(file: Bytes, off: nat, part: Bytes) {
    off + |part| <= |file| && file[off..off + |part|] == part
  }

  lemma AtKept(file: Bytes, off: nat, part: Bytes, more: Bytes)
    requires At(file, off, part)
    ensures At(file + more, off, part)
  {
    assert (file + more)[off..off + |part|] == file[off..off + |part|];
  }

  lemma AtMiddle(a: Bytes, b: Bytes, c: Bytes)
    ensures At(a + b + c, |a|, b)
  {
    assert (a + b + c)[|a|..|a| + |b|] == b;
  }

  lemma AtParts(file: Bytes, off: nat, a: Bytes, b: Bytes)
    requires At(file, off, a + b)
    ensures At(file, off, a) && At(file, off + |a|, b)
  {
    var whole := file[off..off + |a + b|];
    assert file[off..off + |a|] == whole[..|a|] == a;
    assert file[off + |a|..off + |a| + |b|] == whole[|a|..] == b;
  }

  // ---- records ----

  /** Local file header of a stored member. */
  function LocalHeader(nameLen: nat, size: nat, crc: nat): (h: Bytes)
    ensures |h| == 30
  {
    [0x50, 0x4b, 0x03, 0x04, 20, 0, 0, 0, 0, 0, 0, 0, 0, 0,
     ByteOf(crc), ByteOf(crc / 256), ByteOf(crc / U16), ByteOf(crc / U16 / 256),
     ByteOf(size), ByteOf(size / 256), ByteOf(size / U16), ByteOf(size / U16 / 256),
     ByteOf(size), ByteOf(size / 256), ByteOf(size / U16), ByteOf(size / U16 / 256),
     ByteOf(nameLen), ByteOf(nameLen / 256), 0, 0]
  }

  datatype CdEntry = CdEntry(name: Bytes, crc: nat, size: nat, offset: nat)

  /** Signature, versions, flags, method, time, checksum and sizes of a central directory header. */
  function CentralFront(e: CdEntry): (h: Bytes)
    ensures |h| == 28
  {
    [0x50, 0x4b, 0x01, 0x02, 20, 0, 20, 0, 0, 0, 0, 0, 0, 0, 0, 0,
     ByteOf(e.crc), ByteOf(e.crc / 256), ByteOf(e.crc / U16), ByteOf(e.crc / U16 / 256),
     ByteOf(e.size), ByteOf(e.size / 256), ByteOf(e.size / U16), ByteOf(e.size / U16 / 256),
     ByteOf(e.size), ByteOf(e.size / 256), ByteOf(e.size / U16), ByteOf(e.size / U16 / 256)]
  }

  /** Lengths, attributes and the offset of the local header. */
  function CentralBack(e: CdEntry): (h: Bytes)
    ensures |h| == 18
  {
    [ByteOf(|e.name|), ByteOf(|e.name| / 256), 0, 0, 0, 0, 0, 0, 0, 0, 0, 0, 0, 0,
     ByteOf(e.offset), ByteOf(e.offset / 256), ByteOf(e.offset / U16), ByteOf(e.offset / U16 / 256)]
  }

  /** Central directory header of a stored member, without its name. */
  function CentralHeader(e: CdEntry): (h: Bytes)
    ensures |h| == 46
  {
    CentralFront(e) + CentralBack(e)
  }

  function Directory(entries: seq<CdEntry>): Bytes {
    if entries == [] then []
    else
      var last := entries[|entries| - 1];
      Directory(entries[..|entries| - 1]) + CentralHeader(last) + last.name
  }

  /** End of central directory record, without a comment. */
  function EndRecord(count: nat, cdSize: nat, cdOffset: nat): (h: Bytes)
    ensures |h| == 22
  {
    [0x50, 0x4b, 0x05, 0x06, 0, 0, 0, 0,
     ByteOf(count), ByteOf(count / 256), ByteOf(count), ByteOf(count / 256),
     ByteOf(cdSize), ByteOf(cdSize / 256), ByteOf(cdSize / U16), ByteOf(cdSize / U16 / 256),
     ByteOf(cdOffset), ByteOf(cdOffset / 256), ByteOf(cdOffset / U16), ByteOf(cdOffset / U16 / 256), 0, 0]
  }

  lemma LocalFields(nameLen: nat, size: nat, crc: nat)
    ensures var h := LocalHeader(nameLen, size, crc);
            && Read32(h, 0) == LOCAL_SIG && Read16(h, 8) == 0 && Read32(h, 14) == crc % U32
            && Read32(h, 18) == size % U32 && Read32(h, 22) == size % U32
            && Read16(h, 26) == nameLen % U16 && Read16(h, 28) == 0
  {
    var h := LocalHeader(nameLen, size, crc);
    Field32(h, 14, crc);
    Field32(h, 18, size);
    Field32(h, 22, size);
    Field16(h, 26, nameLen);
  }

  /** Every field of a local header: version 2.0, no flags, method 0, no time, checksum, both sizes, and lengths. */
  lemma LocalFieldsExactly(nameLen: nat, size: nat, crc: nat)
    ensures var h := LocalHeader(nameLen, size, crc);
            && Read32(h, 0) == LOCAL_SIG && Read16(h, 4) == 20 && Read16(h, 6) == 0 && Read16(h, 8) == 0
            && Read32(h, 10) == 0 && Read32(h, 14) == crc % U32
            && Read32(h, 18) == size % U32 && Read32(h, 22) == size % U32
            && Read16(h, 26) == nameLen % U16 && Read16(h, 28) == 0
  {
    LocalFields(nameLen, size, crc);
  }

  lemma CentralFrontFields(e: CdEntry)
    ensures var h := CentralFront(e);
            && Read32(h, 0) == CENTRAL_SIG && Read16(h, 4) == 20 && Read16(h, 6) == 20 && Read16(h, 8) == 0
            && Read16(h, 10) == 0 && Read32(h, 12) == 0 && Read32(h, 16) == e.crc % U32
            && Read32(h, 20) == e.size % U32 && Read32(h, 24) == e.size % U32
  {
    var h := CentralFront(e);
    Field32(h, 16, e.crc);
    Field32(h, 20, e.size);
    Field32(h, 24, e.size);
  }

  lemma CentralBackFields(e: CdEntry)
    ensures var h := CentralBack(e);
            && Read16(h, 0) == |e.name| % U16 && Read16(h, 2) == 0 && Read16(h, 4) == 0
            && Read32(h, 6) == 0 && Read32(h, 10) == 0 && Read32(h, 14) == e.offset % U32
  {
    var h := CentralBack(e);
    Field16(h, 0, |e.name|);
    Field32(h, 14, e.offset);
  }

  lemma ReadInParts(a: Bytes, b: Bytes, p: nat)
    requires p + 4 <= |a| + |b|
    ensures p + 4 <= |a| ==> Read32(a + b, p) == Read32(a, p) && Read16(a + b, p) == Read16(a, p)
    ensures |a| <= p ==> Read32(a + b, p) == Read32(b, p - |a|) && Read16(a + b, p) == Read16(b, p - |a|)
  {
  }

  /** Every field of a directory header; the two sizes agree, and nothing but the name follows. */
  lemma CentralFields(e: CdEntry)
    ensures var h := CentralHeader(e);
            && Read32(h, 0) == CENTRAL_SIG && Read16(h, 4) == 20 && Read16(h, 6) == 20 && Read16(h, 8) == 0
            && Read16(h, 10) == 0 && Read32(h, 12) == 0 && Read32(h, 16) == e.crc % U32
            && Read32(h, 20) == e.size % U32 && Read32(h, 24) == e.size % U32
            && Read16(h, 28) == |e.name| % U16 && Read16(h, 30) == 0 && Read16(h, 32) == 0
            && Read32(h, 34) == 0 && Read32(h, 38) == 0 && Read32(h, 42) == e.offset % U32
  {
    var a, b := CentralFront(e), CentralBack(e);
    CentralFrontFields(e);
    CentralBackFields(e);
    ReadInParts(a, b, 0);
    ReadInParts(a, b, 4);
    ReadInParts(a, b, 6);
    ReadInParts(a, b, 8);
    ReadInParts(a, b, 10);
    ReadInParts(a, b, 12);
    ReadInParts(a, b, 16);
    ReadInParts(a, b, 20);
    ReadInParts(a, b, 24);
    ReadInParts(a, b, 28);
    ReadInParts(a, b, 30);
    ReadInParts(a, b, 32);
    ReadInParts(a, b, 34);
    ReadInParts(a, b, 38);
    ReadInParts(a, b, 42);
  }

  /** Every field of the end record: one disk, both counts, the directory's length and place, no comment. */
  lemma EndFields(count: nat, cdSize: nat, cdOffset: nat)
    ensures var h := EndRecord(count, cdSize, cdOffset);
            && Read32(h, 0) == END_SIG && Read32(h, 4) == 0 && Read16(h, 8) == Read16(h, 10) == count % U16
            && Read32(h, 12) == cdSize % U32 && Read32(h, 16) == cdOffset % U32 && Read16(h, 20) == 0
  {
    var h := EndRecord(count, cdSize, cdOffset);
    Field16(h, 8, count);
    Field16(h, 10, count);
    Field32(h, 12, cdSize);
    Field32(h, 16, cdOffset);
  }
}
