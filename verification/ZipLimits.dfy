/**
  Exactly when a finished archive reads back.  The end record holds the directory's place and length
  modulo 2^32 and the member count modulo 2^16, each header its name's length modulo 2^16; the writer
  checks only that each member starts below 2^32 and is shorter than 2^32.
*/
module ZipLimits {
  import opened Options
  import opened Folds
  import opened ZipBytes
  import opened StoreZip
  import opened ZipReader
  import opened ZipRoundTrip

  /** Names, count, and the directory's length and place fit their fields; without members the place does not matter. */
  ghost predicate Fits(z: Archive, kept: seq<Item>) {
    && |kept| < U16 && ShortNames(kept) && |Directory(z.entries)| < U32
    && (|z.file| < U32 || kept == [])
  }

  /** The directory starts at or past 2^32, and where its offset wraps to some bytes pass for a directory header. */
  ghost predicate Masquerades(z: Archive) {
    |z.file| >= U32 && Read32(Finished(z), |z.file| % U32) == CENTRAL_SIG
  }

  // ---- what the reader makes of a finished archive ----

  /** The bytes the end record points the reader at. */
  function FoundDirectory(z: Archive, stale: Stale): Bytes {
    ReadInto(Finished(z), |z.file| % U32, |Directory(z.entries)| % U32, stale)
  }

  lemma ListingFollowsEnd(z: Archive, stale: Stale)
    ensures ListingOf(Finished(z), stale) ==
            MembersFrom(Finished(z), FoundDirectory(z, stale), 0, |z.entries| % U16, stale)
  {
    var dir := Directory(z.entries);
    EndIsFound(z.file + dir, |z.entries|, |dir|, |z.file|);
    var tail := Tail(Finished(z));
    ListingAtEnd(Finished(z), tail, |tail| - 22, FoundDirectory(z, stale), stale);
  }

  lemma ListingAtEnd(file: Bytes, tail: Bytes, eocd: nat, cd: Bytes, stale: Stale)
    requires tail == Tail(file) && eocd + 22 == |tail| && FindEnd(tail, eocd) == Some(eocd)
    requires cd == ReadInto(file, Read32(tail, eocd + 16), Read32(tail, eocd + 12), stale)
    ensures ListingOf(file, stale) == MembersFrom(file, cd, 0, Read16(tail, eocd + 10), stale)
  {
    assert ListingOf(file, stale) == ListingFrom(file, tail, eocd, stale);
  }

  lemma NothingStored(z: Archive, stale: Stale)
    requires Holds(z, [])
    ensures ReadsBack(Finished(z), [], stale)
  {
    SmallMod(|z.entries|, U16);
    ListingFollowsEnd(z, stale);
    MembersNone(Finished(z), FoundDirectory(z, stale), 0, stale);
    EmptyListing(Finished(z), stale);
  }

  lemma EmptyListing(file: Bytes, stale: Stale)
    requires ListingOf(file, stale) == Listed([])
    ensures ReadsBack(file, [], stale)
  {
  }

  // ---- the directory's offset wraps ----

  lemma ForeignBytesEndListing(file: Bytes, cd: Bytes, n: nat, stale: Stale)
    requires n > 0 && (|cd| < 4 || Read32(cd, 0) != CENTRAL_SIG)
    ensures var l := MembersFrom(file, cd, 0, n, stale); !l.Listed? || l.members == []
  {
  }

  lemma WordReadInto(file: Bytes, pos: nat, len: nat, stale: Stale)
    requires pos + 4 <= |file| && 4 <= len
    ensures Read32(ReadInto(file, pos, len, stale), 0) == Read32(file, pos)
  {
  }

  lemma WrappedOffsetFails(z: Archive, kept: seq<Item>, stale: Stale)
    requires Holds(z, kept) && 0 < |kept| < U16 && |z.file| >= U32 && !Masquerades(z)
    ensures !ReadsBack(Finished(z), kept, stale)
  {
    var file, cd := Finished(z), FoundDirectory(z, stale);
    assert |z.file| % U32 + 4 <= |file|;
    if |cd| >= 4 { WordReadInto(file, |z.file| % U32, |cd|, stale); }
    SmallMod(|kept|, U16);
    ListingFollowsEnd(z, stale);
    ForeignBytesEndListing(file, cd, |z.entries| % U16, stale);
  }

  // ---- the directory's length wraps ----

  /** Too short a piece of the directory's beginning makes some read run past its end. */
  lemma {:induction false} CutDirectoryFails(
    file: Bytes, dir: Bytes, cd: Bytes, entries: seq<CdEntry>, k: nat, p: nat, stale: Stale)
    requires dir == Directory(entries) && k < |entries| && p == DirectoryOffset(entries, k)
    requires cd <= dir && |cd| + U16 <= |dir|
    requires forall i :: 0 <= i < |entries| ==> |entries[i].name| < U16
    ensures MembersFrom(file, cd, p, |entries| - k, stale) == OutOfRange
    decreases |entries| - k
  {
    HeaderInPrefix(dir, cd, entries, k, p);
    NextOffset(entries, k);
    assert entries[..|entries|] == entries;
    if p + 46 <= |cd| {
      assert k + 1 < |entries|;
      CutDirectoryFails(file, dir, cd, entries, k + 1, NextHeader(cd, p), stale);
    }
  }

  lemma HeaderInPrefix(dir: Bytes, cd: Bytes, entries: seq<CdEntry>, k: nat, p: nat)
    requires dir == Directory(entries) && k < |entries| && p == DirectoryOffset(entries, k) && cd <= dir
    requires |entries[k].name| < U16
    ensures p + 4 <= |cd| ==> Read32(cd, p) == CENTRAL_SIG
    ensures p + 46 <= |cd| ==> NextHeader(cd, p) == p + 46 + |entries[k].name|
  {
    assert entries[..|entries|] == entries;
    EntryInDirectory(entries, |entries|, k);
    SmallMod(|entries[k].name|, U16);
    var rest := dir[|cd|..];
    assert dir == cd + rest;
    FieldsKept(cd, rest, p);
    FieldsKept(cd, rest, p + 28);
    FieldsKept(cd, rest, p + 30);
    FieldsKept(cd, rest, p + 32);
  }

  lemma WrappedLengthFails(z: Archive, kept: seq<Item>, stale: Stale)
    requires Holds(z, kept) && |kept| < U16 && ShortNames(kept) && |z.file| < U32 <= |Directory(z.entries)|
    ensures !ReadsBack(Finished(z), kept, stale)
  {
    var dir, cd := Directory(z.entries), FoundDirectory(z, stale);
    forall i | 0 <= i < |z.entries| ensures |z.entries[i].name| < U16 {
      assert Describes(z.file, z.entries[i], kept[i]);
    }
    SmallMod(|z.file|, U32);
    SmallMod(|kept|, U16);
    PieceOfDirectory(z, dir, cd, stale);
    ListingFollowsEnd(z, stale);
    assert z.entries[..0] == [];
    CutDirectoryFails(Finished(z), dir, cd, z.entries, 0, 0, stale);
  }

  lemma PieceOfDirectory(z: Archive, dir: Bytes, cd: Bytes, stale: Stale)
    requires dir == Directory(z.entries) && |z.file| < U32 <= |dir|
    requires cd == ReadInto(Finished(z), |z.file|, |dir| % U32, stale)
    ensures cd <= dir && |cd| + U16 <= |dir|
  {
    AtMiddle(z.file, dir, EndRecord(|z.entries|, |dir|, |z.file|));
    ReadIntoPrefix(Finished(z), |z.file|, dir, |cd|, stale);
  }

  lemma ReadIntoPrefix(file: Bytes, off: nat, part: Bytes, len: nat, stale: Stale)
    requires At(file, off, part) && len <= |part|
    ensures ReadInto(file, off, len, stale) <= part
  {
    assert At(file, off, part[..len]) by { assert file[off..off + len] == file[off..off + |part|][..len]; }
    ReadIntoPart(file, off, part[..len], stale);
  }

  // ---- the theorem ----

  /**
    For every sequence of calls, failed ones included: the finished archive reads back as the calls
    that succeeded exactly when names, count and directory fit their fields.  The one way round it is
    stored data that passes for a directory where the wrapped offset points.
  */
  lemma RoundTrip(calls: seq<Call>, stale: Stale)
    ensures var z, kept := Session(calls), Kept(calls);
            && (Fits(z, kept) ==> ReadsBack(Finished(z), kept, stale))
            && (ReadsBack(Finished(z), kept, stale) ==> Fits(z, kept) || Masquerades(z))
  {
    var z, kept := Session(calls), Kept(calls);
    SessionHolds(calls);
    if Fits(z, kept) {
      if kept == [] { NothingStored(z, stale); } else { ShortArchiveReadsBack(z, kept, stale); }
    }
    if ReadsBack(Finished(z), kept, stale) && !Masquerades(z) {
      ReadsBackIsShort(Finished(z), kept, stale);
      if |z.file| >= U32 && kept != [] {
        WrappedOffsetFails(z, kept, stale);
      } else if |Directory(z.entries)| >= U32 {
        assert kept != [];
        WrappedLengthFails(z, kept, stale);
      }
    }
  }

  // ---- calls the writer accepts and the reader does not give back ----

  lemma OneCall(c: Call)
    ensures Session([c]) == After(EMPTY, c)
    ensures Kept([c]) == if OutcomeOf(EMPTY, c).Added? then [Item(c.name, Flatten(c.chunks))] else []
  {
    assert [c][..0] == [];
    assert Session([c][..0]) == EMPTY && Kept([c][..0]) == [];
  }

  lemma OneChunk(data: Bytes)
    ensures Flatten([data]) == data
  {
    assert [data][..0] == [];
    assert Flatten([data][..0]) == [];
  }

  /** One member with a name of 2^16 bytes or more is accepted and lost. */
  lemma LongNameIsLost(name: Bytes, data: Bytes, stale: Stale)
    requires |name| >= U16 && |data| < U32
    ensures var calls := [Call(name, |data|, [data])];
            Kept(calls) == [Item(name, data)] && !ReadsBack(Finished(Session(calls)), Kept(calls), stale)
  {
    var calls := [Call(name, |data|, [data])];
    OneCall(calls[0]);
    OneChunk(data);
    LongNameFails(Finished(Session(calls)), Item(name, data), stale);
  }

  lemma LongNameFails(file: Bytes, k: Item, stale: Stale)
    requires |k.name| >= U16
    ensures !ReadsBack(file, [k], stale)
  {
    assert [k][0] == k;
    if ReadsBack(file, [k], stale) { ReadsBackIsShort(file, [k], stale); }
  }

  /** One member of the largest size the writer accepts, all zeros and without a name, is accepted and lost. */
  lemma LargestMemberIsLost(data: Bytes, stale: Stale)
    requires |data| == U32_MAX && forall i :: 0 <= i < |data| ==> data[i] == 0
    ensures var calls := [Call([], |data|, [data])];
            Kept(calls) == [Item([], data)] && !ReadsBack(Finished(Session(calls)), Kept(calls), stale)
  {
    var calls := [Call([], |data|, [data])];
    OneCall(calls[0]);
    OneChunk(data);
    SessionHolds(calls);
    var z := Session(calls);
    ZerosAfterHeader(z, LocalHeader(0, |data|, Checksum(data)), data);
    WrappedOffsetFails(z, Kept(calls), stale);
  }

  lemma ZerosAfterHeader(z: Archive, h: Bytes, data: Bytes)
    requires z.file == [] + (h + [] + data) && |h| == 30 && h[29] == 0
    requires |data| == U32_MAX && forall i :: 0 <= i < |data| ==> data[i] == 0
    ensures |z.file| >= U32 && !Masquerades(z)
  {
    var file := Finished(z);
    assert z.file == h + data && file == h + (data + file[|z.file|..]);
    assert file[29] == 0 && file[30] == 0 && file[31] == 0 && file[32] == 0;
    assert |z.file| % U32 == 29;
  }
}
