/**
  The streaming store-only writer: positional writes at a running offset, and the seek back that
  patches a member's checksum into its local header.
*/
module StoreZip {
  import opened Folds
  import opened Crc32
  import opened ZipBytes

  const U32_MAX: nat := 0xffff_ffff

  // ---- what the writer's calls do to the file ----

  /** The file written so far and the entries remembered for the central directory. */
  datatype Archive = Archive(file: Bytes, entries: seq<CdEntry>)

  /** `chunks` are the pieces `produce` hands to its callback, in order. */
  datatype Call = Call(name: Bytes, totalSize: nat, chunks: seq<Bytes>)

  datatype Outcome = Added | FileTooBig | ArchiveTooBig | WrongSize

  const EMPTY := Archive([], [])

  function OutcomeOf(z: Archive, c: Call): Outcome {
    if c.totalSize > U32_MAX then FileTooBig
    else if |z.file| > U32_MAX then ArchiveTooBig
    else if |Flatten(c.chunks)| != c.totalSize then WrongSize
    else Added
  }

  /** The member as it stands in the file: header, name, data. */
  function Member(name: Bytes, size: nat, crc: nat, data: Bytes): Bytes {
    LocalHeader(|name|, size, crc) + name + data
  }

  /** A call that produces the wrong number of bytes leaves them behind, unpatched and unlisted. */
  function After(z: Archive, c: Call): Archive {
    var data := Flatten(c.chunks);
    match OutcomeOf(z, c)
    case FileTooBig => z
    case ArchiveTooBig => z
    case WrongSize => Archive(z.file + Member(c.name, c.totalSize, 0, data), z.entries)
    case Added =>
      Archive(z.file + Member(c.name, c.totalSize, Checksum(data), data),
              z.entries + [CdEntry(c.name, Checksum(data), c.totalSize, |z.file|)])
  }

  function Finished(z: Archive): Bytes {
    z.file + Directory(z.entries) + EndRecord(|z.entries|, |Directory(z.entries)|, |z.file|)
  }

  // ---- buffers and positional writes ----

  function Le16(v: nat): Bytes {
    [ByteOf(v), ByteOf(v / 256)]
  }

  function Le32(v: nat): Bytes {
    [ByteOf(v), ByteOf(v / 256), ByteOf(v / U16), ByteOf(v / U16 / 256)]
  }

  /** Bytes between the old end and `pos` would read as zero. */
  function WriteAt(file: Bytes, pos: nat, buf: Bytes): Bytes {
    (if pos <= |file| then file[..pos] else file + seq(pos - |file|, _ => 0))
    + buf
    + if pos + |buf| <= |file| then file[pos + |buf|..] else []
  }

  method SetU16(buf: array<Octet>, p: nat, v: nat)
    requires p + 2 <= buf.Length
    modifies buf
    ensures forall i :: 0 <= i < buf.Length ==>
              buf[i] == if p <= i < p + 2 then Le16(v)[i - p] else old(buf[i])
  {
    buf[p], buf[p + 1] := ByteOf(v), ByteOf(v / 256);
  }

  method SetU32(buf: array<Octet>, p: nat, v: nat)
    requires p + 4 <= buf.Length
    modifies buf
    ensures forall i :: 0 <= i < buf.Length ==> buf[i] == if p <= i < p + 4 then Le32(v)[i - p] else old(buf[i])
  {
    buf[p], buf[p + 1] := ByteOf(v), ByteOf(v / 256);
    buf[p + 2], buf[p + 3] := ByteOf(v / U16), ByteOf(v / U16 / 256);
  }

  lemma LocalSignatureBytes()
    ensures Le32(LOCAL_SIG) == [0x50, 0x4b, 0x03, 0x04]
  {
  }

  lemma CentralSignatureBytes()
    ensures Le32(CENTRAL_SIG) == [0x50, 0x4b, 0x01, 0x02]
  {
  }

  lemma EndSignatureBytes()
    ensures Le32(END_SIG) == [0x50, 0x4b, 0x05, 0x06]
  {
  }

  method FillLocalFront(lfh: array<Octet>)
    requires lfh.Length == 30 && forall i :: 0 <= i < 30 ==> lfh[i] == 0
    modifies lfh
    ensures lfh[..14] == [0x50, 0x4b, 0x03, 0x04, 20, 0, 0, 0, 0, 0, 0, 0, 0, 0]
    ensures forall i :: 14 <= i < 30 ==> lfh[i] == 0
  {
    LocalSignatureBytes();
    SetU32(lfh, 0, LOCAL_SIG);
    SetU16(lfh, 4, 20);
    SetU16(lfh, 8, 0);
  }

  method BuildLocalHeader(nameLen: nat, size: nat) returns (h: Bytes)
    ensures h == LocalHeader(nameLen, size, 0)
  {
    var lfh := new Octet[30](_ => 0);
    FillLocalFront(lfh);
    ghost var front := lfh[..14];
    SetU32(lfh, 18, size);
    SetU32(lfh, 22, size);
    SetU16(lfh, 26, nameLen);
    assert lfh[..14] == front;
    h := lfh[..];
    assert forall i :: 0 <= i < 14 ==> h[i] == front[i];
  }

  method FillCentralFront(cdh: array<Octet>, e: CdEntry)
    requires cdh.Length == 46 && forall i :: 0 <= i < 46 ==> cdh[i] == 0
    modifies cdh
    ensures cdh[..28] == CentralFront(e) && forall i :: 28 <= i < 46 ==> cdh[i] == 0
  {
    CentralSignatureBytes();
    SetU32(cdh, 0, CENTRAL_SIG);
    SetU16(cdh, 4, 20);
    SetU16(cdh, 6, 20);
    SetU32(cdh, 16, e.crc);
    SetU32(cdh, 20, e.size);
    SetU32(cdh, 24, e.size);
  }

  method BuildCentralHeader(e: CdEntry) returns (h: Bytes)
    ensures h == CentralHeader(e)
  {
    var cdh := new Octet[46](_ => 0);
    FillCentralFront(cdh, e);
    ghost var front := cdh[..28];
    SetU16(cdh, 28, |e.name|);
    SetU32(cdh, 42, e.offset);
    assert cdh[..28] == front;
    assert cdh[28..] == CentralBack(e);
    h := cdh[..];
    assert h == cdh[..28] + cdh[28..];
  }

  method BuildEndRecord(count: nat, cdSize: nat, cdOffset: nat) returns (h: Bytes)
    ensures h == EndRecord(count, cdSize, cdOffset)
  {
    var eocd := new Octet[22](_ => 0);
    EndSignatureBytes();
    SetU32(eocd, 0, END_SIG);
    SetU16(eocd, 8, count);
    SetU16(eocd, 10, count);
    SetU32(eocd, 12, cdSize);
    SetU32(eocd, 16, cdOffset);
    h := eocd[..];
  }

  lemma WriteAtEnd(file: Bytes, buf: Bytes)
    ensures WriteAt(file, |file|, buf) == file + buf
  {
  }

  lemma WriteInside(a: Bytes, b: Bytes, b': Bytes, c: Bytes)
    requires |b| == |b'|
    ensures WriteAt(a + b + c, |a|, b') == a + b' + c
  {
    var file := a + b + c;
    assert file[..|a|] == a;
    assert file[|a| + |b|..] == c;
  }

  function BeforeChecksum(nameLen: nat, size: nat): Bytes {
    LocalHeader(nameLen, size, 0)[..14]
  }

  function AfterChecksum(nameLen: nat, size: nat): Bytes {
    LocalHeader(nameLen, size, 0)[18..]
  }

  lemma HeaderAroundChecksum(nameLen: nat, size: nat, crc: nat)
    ensures LocalHeader(nameLen, size, crc) == BeforeChecksum(nameLen, size) + Le32(crc) + AfterChecksum(nameLen, size)
  {
  }

  /** The seek-back write replaces the four checksum bytes of the header and nothing else. */
  lemma PatchOnlyChecksum(before: Bytes, nameLen: nat, size: nat, crc: nat, rest: Bytes)
    ensures WriteAt(before + LocalHeader(nameLen, size, 0) + rest, |before| + 14, Le32(crc)) ==
            before + LocalHeader(nameLen, size, crc) + rest
  {
    HeaderAroundChecksum(nameLen, size, 0);
    HeaderAroundChecksum(nameLen, size, crc);
    PatchBetween(before, BeforeChecksum(nameLen, size), Le32(0), Le32(crc), AfterChecksum(nameLen, size), rest);
  }

  lemma PatchBetween(before: Bytes, f: Bytes, was: Bytes, now: Bytes, b: Bytes, rest: Bytes)
    requires |was| == |now|
    ensures WriteAt(before + (f + was + b) + rest, |before| + |f|, now) == before + (f + now + b) + rest
  {
    assert before + (f + was + b) + rest == (before + f) + was + (b + rest);
    assert before + (f + now + b) + rest == (before + f) + now + (b + rest);
    WriteInside(before + f, was, now, b + rest);
  }

  lemma PatchMember(before: Bytes, name: Bytes, size: nat, crc: nat, data: Bytes)
    ensures WriteAt(before + Member(name, size, 0, data), |before| + 14, Le32(crc)) ==
            before + Member(name, size, crc, data)
  {
    var h, h' := LocalHeader(|name|, size, 0), LocalHeader(|name|, size, crc);
    PatchOnlyChecksum(before, |name|, size, crc, name + data);
    assert before + (h + name + data) == before + h + (name + data);
    assert before + (h' + name + data) == before + h' + (name + data);
  }

  /** Checksumming one more chunk. */
  lemma ChecksumStep(done: Bytes, chunk: Bytes)
    ensures Remainder(Remainder(ONES, Words(done)), Words(chunk)) == Remainder(ONES, Words(done + chunk))
  {
    assert Words(done + chunk) == Words(done) + Words(chunk);
    FoldOfParts(ByteIn, ONES, Words(done), Words(chunk));
  }

  lemma DirectoryOfMore(start: Bytes, entries: seq<CdEntry>, i: nat)
    requires i < |entries|
    ensures start + Directory(entries[..i + 1]) ==
            start + Directory(entries[..i]) + (CentralHeader(entries[i]) + entries[i].name)
  {
    assert entries[..i + 1][..i] == entries[..i];
  }

  function Stored(crc: bv32): (v: nat)
    ensures v < U32
  {
    (crc ^ ONES) as nat
  }

  lemma StoredIsChecksum(data: Bytes)
    ensures Stored(Remainder(ONES, Words(data))) == Checksum(data)
  {
  }

  // ---- the writer ----

  class StreamingStoreZip {
    const crcTable: seq<bv32>
    var file: Bytes
    var offset: nat
    var entries: seq<CdEntry>

    ghost predicate Valid()
      reads this
    {
      IsTable(crcTable) && offset == |file|
    }

    ghost function View(): Archive
      reads this
    {
      Archive(file, entries)
    }

    constructor ()
      ensures Valid() && View() == EMPTY
    {
      var t := BuildTable();
      crcTable := t;
      file, offset, entries := [], 0, [];
    }

    method Write(buf: Bytes)
      requires Valid()
      modifies this`file, this`offset
      ensures Valid() && file == old(file) + buf
    {
      WriteAtEnd(file, buf);
      file := WriteAt(file, offset, buf);
      offset := offset + |buf|;
    }

    /** One call of the callback handed to `produce`. */
    method WriteChunk(chunk: Bytes, ghost done: Bytes, before: bv32) returns (crc: bv32)
      requires Valid() && before == Remainder(ONES, Words(done))
      modifies this`file, this`offset
      ensures Valid() && file == old(file) + chunk
      ensures crc == Remainder(ONES, Words(done + chunk))
    {
      ChecksumStep(done, chunk);
      crc := CrcUpdate(crcTable, before, Words(chunk));
      Write(chunk);
    }

    /** The chunks are written and checksummed as they come. */
    method WriteChunks(chunks: seq<Bytes>) returns (crc: bv32, written: nat)
      requires Valid()
      modifies this`file, this`offset
      ensures Valid() && file == old(file) + Flatten(chunks)
      ensures crc == Remainder(ONES, Words(Flatten(chunks))) && written == |Flatten(chunks)|
    {
      crc, written := ONES, 0;
      var i := 0;
      assert Words([]) == [];
      ghost var start := file;
      while i < |chunks|
        invariant i <= |chunks| && Valid()
        invariant file == start + Flatten(chunks[..i])
        invariant crc == Remainder(ONES, Words(Flatten(chunks[..i])))
        invariant written == |Flatten(chunks[..i])|
      {
        FlattenOfMore(chunks, i);
        crc := WriteChunk(chunks[i], Flatten(chunks[..i]), crc);
        written := written + |chunks[i]|;
        i := i + 1;
      }
      assert chunks[..i] == chunks;
    }

    /** Header, name and data, with the checksum still zero. */
    method WriteMember(name: Bytes, totalSize: nat, chunks: seq<Bytes>) returns (crc: bv32, written: nat)
      requires Valid()
      modifies this`file, this`offset
      ensures Valid() && file == old(file) + Member(name, totalSize, 0, Flatten(chunks))
      ensures crc == Remainder(ONES, Words(Flatten(chunks))) && written == |Flatten(chunks)|
    {
      var lfh := BuildLocalHeader(|name|, totalSize);
      Write(lfh);
      Write(name);
      crc, written := WriteChunks(chunks);
    }

    method AddStreaming(name: Bytes, totalSize: nat, chunks: seq<Bytes>) returns (r: Outcome)
      requires Valid()
      modifies this
      ensures Valid() && r == OutcomeOf(old(View()), Call(name, totalSize, chunks))
      ensures View() == After(old(View()), Call(name, totalSize, chunks))
    {
      if totalSize > U32_MAX { return FileTooBig; }
      var lfhOffset := offset;
      if lfhOffset > U32_MAX { return ArchiveTooBig; }
      var crc, written := WriteMember(name, totalSize, chunks);
      if written != totalSize { return WrongSize; }
      StoredIsChecksum(Flatten(chunks));
      PatchMember(old(file), name, totalSize, Stored(crc), Flatten(chunks));
      file := WriteAt(file, lfhOffset + 14, Le32(Stored(crc)));
      entries := entries + [CdEntry(name, Stored(crc), totalSize, lfhOffset)];
      r := Added;
    }

    method AddBuffer(name: Bytes, data: Bytes) returns (r: Outcome)
      requires Valid()
      modifies this
      ensures Valid() && r == OutcomeOf(old(View()), Call(name, |data|, [data]))
      ensures View() == After(old(View()), Call(name, |data|, [data]))
    {
      r := AddStreaming(name, |data|, [data]);
    }

    method WriteEntry(e: CdEntry)
      requires Valid()
      modifies this`file, this`offset
      ensures Valid() && file == old(file) + (CentralHeader(e) + e.name)
    {
      var cdh := BuildCentralHeader(e);
      Write(cdh);
      Write(e.name);
    }

    method WriteDirectory()
      requires Valid()
      modifies this`file, this`offset
      ensures Valid() && file == old(file) + Directory(entries)
    {
      var i := 0;
      ghost var start := file;
      while i < |entries|
        invariant i <= |entries| && Valid()
        invariant file == start + Directory(entries[..i])
      {
        DirectoryOfMore(start, entries, i);
        WriteEntry(entries[i]);
        i := i + 1;
      }
      assert entries[..i] == entries;
    }

    method Finish()
      requires Valid()
      modifies this`file, this`offset
      ensures file == Finished(old(View()))
    {
      var cdOffset := offset;
      WriteDirectory();
      var cdSize := offset - cdOffset;
      var eocd := BuildEndRecord(|entries|, cdSize, cdOffset);
      Write(eocd);
    }
  }
}
