/**
  Reading back what the store-only writer wrote, for every sequence of calls to the writer.
*/
module ZipRoundTrip {
  import opened Options
  import opened Folds
  import opened ZipBytes
  import opened StoreZip
  import opened ZipReader

  /** The archive after a sequence of calls, whatever their outcomes. */
  function Session(calls: seq<Call>): Archive {
    Fold(After, EMPTY, calls)
  }

  datatype Item = Item(name: Bytes, data: Bytes)

  /** What the calls that succeeded asked to store, in order. */
  function Kept(calls: seq<Call>): seq<Item> {
    if calls == [] then []
    else
      var before, last := calls[..|calls| - 1], calls[|calls| - 1];
      Kept(before) + if OutcomeOf(Session(before), last).Added? then [Item(last.name, Flatten(last.chunks))] else []
  }

  /** The local header at the entry's offset has its lengths and checksum, and the data follows the name. */
  ghost predicate Located(file: Bytes, e: CdEntry, data: Bytes) {
    && e.offset + 30 + |e.name| + |data| <= |file|
    && Read16(file, e.offset + 26) == |e.name| % U16 && Read16(file, e.offset + 28) == 0
    && Read32(file, e.offset + 14) == e.crc
    && At(file, e.offset + 30 + |e.name|, data)
  }

  ghost predicate Describes(file: Bytes, e: CdEntry, k: Item) {
    && e.name == k.name && e.size == |k.data| && e.crc == Checksum(k.data)
    && e.size < U32 && e.offset < U32 && Located(file, e, k.data)
  }

  ghost predicate Holds(z: Archive, kept: seq<Item>) {
    |z.entries| == |kept| && forall i :: 0 <= i < |kept| ==> Describes(z.file, z.entries[i], kept[i])
  }

  lemma FieldsKept(file: Bytes, more: Bytes, p: nat)
    ensures p + 4 <= |file| ==> Read32(file + more, p) == Read32(file, p)
    ensures p + 2 <= |file| ==> Read16(file + more, p) == Read16(file, p)
  {
  }

  lemma LocatedKept(file: Bytes, more: Bytes, e: CdEntry, data: Bytes)
    requires Located(file, e, data)
    ensures Located(file + more, e, data)
  {
    FieldsKept(file, more, e.offset + 26);
    FieldsKept(file, more, e.offset + 28);
    FieldsKept(file, more, e.offset + 14);
    AtKept(file, e.offset + 30 + |e.name|, data, more);
  }

  lemma HoldsKept(file: Bytes, more: Bytes, entries: seq<CdEntry>, kept: seq<Item>)
    requires Holds(Archive(file, entries), kept)
    ensures Holds(Archive(file + more, entries), kept)
  {
    forall i | 0 <= i < |kept| ensures Describes(file + more, entries[i], kept[i]) {
      assert Describes(file, entries[i], kept[i]);
      LocatedKept(file, more, entries[i], kept[i].data);
    }
  }

  lemma MemberInParts(a: Bytes, b: Bytes, c: Bytes, d: Bytes)
    ensures a + (b + c + d) == a + b + c + d
  {
  }

  /** A member just written is where its entry says. */
  lemma MemberIsLocated(before: Bytes, name: Bytes, size: nat, crc: nat, data: Bytes)
    requires crc < U32
    ensures Located(before + Member(name, size, crc, data), CdEntry(name, crc, size, |before|), data)
  {
    var h := LocalHeader(|name|, size, crc);
    LocalFields(|name|, size, crc);
    SmallMod(crc, U32);
    PlacedIsLocated(before, h, CdEntry(name, crc, size, |before|), data);
    MemberInParts(before, h, name, data);
  }

  lemma PlacedIsLocated(before: Bytes, h: Bytes, e: CdEntry, data: Bytes)
    requires |h| == 30 && Read16(h, 26) == |e.name| % U16 && Read16(h, 28) == 0 && Read32(h, 14) == e.crc
    requires e.offset == |before|
    ensures Located(before + h + e.name + data, e, data)
  {
    var file := before + h + e.name + data;
    AtMiddle(before, h, e.name + data);
    assert before + h + (e.name + data) == file;
    FieldsInPart(file, |before|, h, 26);
    FieldsInPart(file, |before|, h, 28);
    FieldsInPart(file, |before|, h, 14);
    AtMiddle(before + h + e.name, data, []);
    assert before + h + e.name + data + [] == file;
  }

  lemma AfterHolds(z: Archive, c: Call, kept: seq<Item>)
    requires Holds(z, kept)
    ensures Holds(After(z, c), kept + if OutcomeOf(z, c).Added? then [Item(c.name, Flatten(c.chunks))] else [])
  {
    var data := Flatten(c.chunks);
    match OutcomeOf(z, c)
    case FileTooBig =>
    case ArchiveTooBig =>
    case WrongSize =>
      HoldsKept(z.file, Member(c.name, c.totalSize, 0, data), z.entries, kept);
    case Added =>
      HoldsKept(z.file, Member(c.name, c.totalSize, Checksum(data), data), z.entries, kept);
      MemberIsLocated(z.file, c.name, c.totalSize, Checksum(data), data);
  }

  /** Every call keeps all the members stored before it in place. */
  lemma {:induction false} SessionHolds(calls: seq<Call>)
    ensures Holds(Session(calls), Kept(calls))
  {
    if calls != [] {
      var before, last := calls[..|calls| - 1], calls[|calls| - 1];
      SessionHolds(before);
      AfterHolds(Session(before), last, Kept(before));
    }
  }

  // ---- the directory as the reader meets it ----

  function DirectoryOffset(entries: seq<CdEntry>, k: nat): nat
    requires k <= |entries|
  {
    |Directory(entries[..k])|
  }

  /** A directory header for `e`, and its name, stand at `p`. */
  ghost predicate HeaderAt(cd: Bytes, p: nat, e: CdEntry) {
    && p + 46 + |e.name| <= |cd| && cd[p + 46..p + 46 + |e.name|] == e.name
    && Read32(cd, p) == CENTRAL_SIG && Read16(cd, p + 10) == 0
    && Read32(cd, p + 20) == e.size % U32 && Read32(cd, p + 24) == e.size % U32 && Read32(cd, p + 42) == e.offset % U32
    && Read16(cd, p + 28) == |e.name| % U16 && Read16(cd, p + 30) == 0 && Read16(cd, p + 32) == 0
  }

  lemma PlacedHeader(cd: Bytes, p: nat, h: Bytes, e: CdEntry)
    requires |h| == 46 && At(cd, p, h + e.name)
    requires Read32(h, 0) == CENTRAL_SIG && Read16(h, 10) == 0
    requires Read32(h, 20) == e.size % U32 && Read32(h, 24) == e.size % U32 && Read32(h, 42) == e.offset % U32
    requires Read16(h, 28) == |e.name| % U16 && Read16(h, 30) == 0 && Read16(h, 32) == 0
    ensures HeaderAt(cd, p, e)
  {
    AtParts(cd, p, h, e.name);
    FieldsInPart(cd, p, h, 0);
    FieldsInPart(cd, p, h, 10);
    FieldsInPart(cd, p, h, 20);
    FieldsInPart(cd, p, h, 24);
    FieldsInPart(cd, p, h, 28);
    FieldsInPart(cd, p, h, 30);
    FieldsInPart(cd, p, h, 32);
    FieldsInPart(cd, p, h, 42);
  }

  lemma HeaderKept(cd: Bytes, p: nat, e: CdEntry, more: Bytes)
    requires HeaderAt(cd, p, e)
    ensures HeaderAt(cd + more, p, e)
  {
    FieldsKept(cd, more, p);
    FieldsKept(cd, more, p + 10);
    FieldsKept(cd, more, p + 20);
    FieldsKept(cd, more, p + 24);
    FieldsKept(cd, more, p + 28);
    FieldsKept(cd, more, p + 30);
    FieldsKept(cd, more, p + 32);
    FieldsKept(cd, more, p + 42);
    assert (cd + more)[p + 46..p + 46 + |e.name|] == cd[p + 46..p + 46 + |e.name|];
  }

  lemma LastHeader(before: Bytes, e: CdEntry)
    ensures HeaderAt(before + CentralHeader(e) + e.name, |before|, e)
  {
    var h := CentralHeader(e);
    CentralFields(e);
    AtMiddle(before, h + e.name, []);
    assert before + (h + e.name) + [] == before + h + e.name;
    PlacedHeader(before + h + e.name, |before|, h, e);
  }

  lemma DirectoryUnfold(entries: seq<CdEntry>, n: nat)
    requires 0 < n <= |entries|
    ensures Directory(entries[..n]) == Directory(entries[..n - 1]) + CentralHeader(entries[n - 1]) + entries[n - 1].name
  {
    assert entries[..n][..n - 1] == entries[..n - 1];
  }

  lemma DirectoryGrows(before: Bytes, last: CdEntry, p: nat, e: CdEntry)
    requires HeaderAt(before, p, e)
    ensures HeaderAt(before + CentralHeader(last) + last.name, p, e)
  {
    HeaderKept(before, p, e, CentralHeader(last));
    HeaderKept(before + CentralHeader(last), p, e, last.name);
  }

  /** Entry `k` stands at its offset in the directory. */
  lemma {:induction false} EntryInDirectory(entries: seq<CdEntry>, n: nat, k: nat)
    requires k < n <= |entries|
    ensures HeaderAt(Directory(entries[..n]), DirectoryOffset(entries, k), entries[k])
  {
    DirectoryUnfold(entries, n);
    if k + 1 == n {
      LastHeader(Directory(entries[..k]), entries[k]);
    } else {
      EntryInDirectory(entries, n - 1, k);
      DirectoryGrows(Directory(entries[..n - 1]), entries[n - 1], DirectoryOffset(entries, k), entries[k]);
    }
  }

  lemma NextOffset(entries: seq<CdEntry>, k: nat)
    requires k < |entries|
    ensures DirectoryOffset(entries, k + 1) == DirectoryOffset(entries, k) + 46 + |entries[k].name|
  {
    assert entries[..k + 1][..k] == entries[..k];
  }

  /** What the reader should return for an entry. */
  function Expected(e: CdEntry): ZipMember {
    ZipMember(e.name, 0, e.size, e.size, e.offset + 30 + |e.name|)
  }

  lemma SmallMod(v: nat, m: nat)
    requires v < m
    ensures v % m == v
  {
  }

  /** The lengths in the local header lead past the name to the data. */
  lemma DataOffsetRead(file: Bytes, e: CdEntry, data: Bytes, stale: Stale)
    requires Located(file, e, data) && |e.name| < U16
    ensures var lfh := ReadInto(file, e.offset, 30, stale);
            Read16(lfh, 26) == |e.name| && Read16(lfh, 28) == 0
  {
    SmallMod(|e.name|, U16);
    FieldsReadInto(file, e.offset, 30, stale, 26);
    FieldsReadInto(file, e.offset, 30, stale, 28);
  }

  lemma MemberAtIsExpected(file: Bytes, cd: Bytes, p: nat, e: CdEntry, k: Item, stale: Stale)
    requires HeaderAt(cd, p, e) && Describes(file, e, k) && |k.name| < U16
    ensures MemberAt(file, cd, p, stale) == Expected(e) && NextHeader(cd, p) == p + 46 + |e.name|
  {
    SmallMod(|e.name|, U16);
    SmallMod(e.size, U32);
    SmallMod(e.offset, U32);
    DataOffsetRead(file, e, k.data, stale);
  }

  function ExpectedFrom(entries: seq<CdEntry>, k: nat): seq<ZipMember>
    requires k <= |entries|
  {
    seq(|entries| - k, i requires 0 <= i < |entries| - k => Expected(entries[k + i]))
  }

  lemma ExpectedStep(entries: seq<CdEntry>, k: nat)
    requires k < |entries|
    ensures ExpectedFrom(entries, k) == [Expected(entries[k])] + ExpectedFrom(entries, k + 1)
  {
  }

  ghost predicate ShortNames(kept: seq<Item>) {
    forall i :: 0 <= i < |kept| ==> |kept[i].name| < U16
  }

  lemma EntryIsRead(
    file: Bytes, cd: Bytes, entries: seq<CdEntry>, kept: seq<Item>, k: nat, stale: Stale) returns (p: nat)
    requires Holds(Archive(file, entries), kept) && k < |kept| && ShortNames(kept) && cd == Directory(entries)
    ensures p == DirectoryOffset(entries, k) && p + 46 <= |cd| && Read32(cd, p) == CENTRAL_SIG
    ensures MemberAt(file, cd, p, stale) == Expected(entries[k]) && NextHeader(cd, p) == DirectoryOffset(entries, k + 1)
  {
    p := DirectoryOffset(entries, k);
    EntryInDirectory(entries, |entries|, k);
    NextOffset(entries, k);
    assert entries[..|entries|] == entries;
    assert Describes(file, entries[k], kept[k]);
    MemberAtIsExpected(file, cd, p, entries[k], kept[k], stale);
  }

  /** Reading the directory from entry `k` on. */
  ghost predicate ReadsFrom(file: Bytes, cd: Bytes, entries: seq<CdEntry>, k: nat, p: nat, stale: Stale)
    requires k <= |entries|
  {
    MembersFrom(file, cd, p, |entries| - k, stale) == Listed(ExpectedFrom(entries, k))
  }

  lemma ReadsFromStep(file: Bytes, cd: Bytes, entries: seq<CdEntry>, k: nat, p: nat, stale: Stale)
    requires k < |entries| && p + 46 <= |cd| && Read32(cd, p) == CENTRAL_SIG
    requires MemberAt(file, cd, p, stale) == Expected(entries[k])
    requires ReadsFrom(file, cd, entries, k + 1, NextHeader(cd, p), stale)
    ensures ReadsFrom(file, cd, entries, k, p, stale)
  {
    ExpectedStep(entries, k);
    MembersStep(file, cd, p, |entries| - k, stale, ExpectedFrom(entries, k + 1));
  }

  lemma NothingMore(file: Bytes, cd: Bytes, entries: seq<CdEntry>, p: nat, stale: Stale)
    ensures ReadsFrom(file, cd, entries, |entries|, p, stale)
  {
    MembersNone(file, cd, p, stale);
  }

  lemma {:induction false} MembersAreExpected(
    file: Bytes, cd: Bytes, entries: seq<CdEntry>, kept: seq<Item>, k: nat, p: nat, stale: Stale)
    requires Holds(Archive(file, entries), kept) && k <= |kept| && ShortNames(kept)
    requires cd == Directory(entries) && p == DirectoryOffset(entries, k)
    ensures ReadsFrom(file, cd, entries, k, p, stale)
    decreases |kept| - k
  {
    if k == |kept| {
      NothingMore(file, cd, entries, p, stale);
    } else {
      var q := EntryIsRead(file, cd, entries, kept, k, stale);
      MembersAreExpected(file, cd, entries, kept, k + 1, NextHeader(cd, p), stale);
      ReadsFromStep(file, cd, entries, k, p, stale);
    }
  }

  // ---- the end record ----

  /** The end record is the first thing the backward scan meets. */
  lemma EndIsFound(body: Bytes, count: nat, cdSize: nat, cdOffset: nat)
    ensures var tail := Tail(body + EndRecord(count, cdSize, cdOffset));
            && FindEnd(tail, |tail| - 22) == Some(|tail| - 22)
            && Read16(tail, |tail| - 12) == count % U16
            && Read32(tail, |tail| - 10) == cdSize % U32
            && Read32(tail, |tail| - 6) == cdOffset % U32
  {
    var end := EndRecord(count, cdSize, cdOffset);
    var tail := Tail(body + end);
    assert tail[|tail| - 22..] == end;
    assert At(tail, |tail| - 22, end);
    EndFields(count, cdSize, cdOffset);
    FieldsInPart(tail, |tail| - 22, end, 0);
    FieldsInPart(tail, |tail| - 22, end, 10);
    FieldsInPart(tail, |tail| - 22, end, 12);
    FieldsInPart(tail, |tail| - 22, end, 16);
  }

  /** The 32-bit fields of the end record can hold where the directory is and how long it is. */
  predicate DirectoryInRange(z: Archive) {
    |z.file| < U32 && |Directory(z.entries)| < U32
  }

  lemma ListingReadsDirectory(z: Archive, stale: Stale)
    requires DirectoryInRange(z)
    ensures ListingOf(Finished(z), stale) ==
            MembersFrom(Finished(z), Directory(z.entries), 0, |z.entries| % U16, stale)
  {
    var dir := Directory(z.entries);
    var end := EndRecord(|z.entries|, |dir|, |z.file|);
    EndIsFound(z.file + dir, |z.entries|, |dir|, |z.file|);
    AtMiddle(z.file, dir, end);
    SmallMod(|dir|, U32);
    SmallMod(|z.file|, U32);
    var file := z.file + dir + end;
    assert |Tail(file)| >= 22;
    ListingOfPlaced(file, Tail(file), stale, |Tail(file)| - 22, dir);
  }

  lemma FinishedHolds(z: Archive, kept: seq<Item>)
    requires Holds(z, kept)
    ensures Holds(z.(file := Finished(z)), kept)
  {
    var dir, end := Directory(z.entries), EndRecord(|z.entries|, |Directory(z.entries)|, |z.file|);
    HoldsKept(z.file, dir, z.entries, kept);
    HoldsKept(z.file + dir, end, z.entries, kept);
  }

  // ---- the theorem ----

  /** The listing names exactly the kept items, in order, stored, with their sizes, and finds their bytes. */
  ghost predicate ReadsBack(file: Bytes, kept: seq<Item>, stale: Stale) {
    var l := ListingOf(file, stale);
    && l.Listed? && |l.members| == |kept|
    && forall i :: 0 <= i < |kept| ==>
         && l.members[i].name == kept[i].name
         && l.members[i].compression == 0
         && l.members[i].compSize == l.members[i].size == |kept[i].data|
         && ContentOf(file, l.members[i], stale) == Plain(kept[i].data)
  }

  lemma ContentIsKept(file: Bytes, e: CdEntry, k: Item, stale: Stale)
    requires Describes(file, e, k)
    ensures ContentOf(file, Expected(e), stale) == Plain(k.data)
  {
    ReadIntoPart(file, e.offset + 30 + |e.name|, k.data, stale);
  }

  lemma ShortArchiveReadsBack(z: Archive, kept: seq<Item>, stale: Stale)
    requires Holds(z, kept) && DirectoryInRange(z) && |kept| < U16 && ShortNames(kept)
    ensures ReadsBack(Finished(z), kept, stale)
  {
    FinishedHolds(z, kept);
    ListingReadsDirectory(z, stale);
    SmallMod(|z.entries|, U16);
    PlacedReadsBack(Finished(z), z.entries, kept, stale);
  }

  lemma PlacedReadsBack(file: Bytes, entries: seq<CdEntry>, kept: seq<Item>, stale: Stale)
    requires Holds(Archive(file, entries), kept) && ShortNames(kept)
    requires ListingOf(file, stale) == MembersFrom(file, Directory(entries), 0, |entries|, stale)
    ensures ReadsBack(file, kept, stale)
  {
    assert entries[..0] == [];
    MembersAreExpected(file, Directory(entries), entries, kept, 0, 0, stale);
    assert ReadsFrom(file, Directory(entries), entries, 0, 0, stale);
    ExpectedReadsBack(file, entries, kept, stale);
  }

  lemma ExpectedReadsBack(file: Bytes, entries: seq<CdEntry>, kept: seq<Item>, stale: Stale)
    requires Holds(Archive(file, entries), kept)
    requires ListingOf(file, stale) == Listed(ExpectedFrom(entries, 0))
    ensures ReadsBack(file, kept, stale)
  {
    forall i | 0 <= i < |kept|
      ensures ExpectedFrom(entries, 0)[i] == Expected(entries[i]) && Describes(file, entries[i], kept[i])
      ensures ContentOf(file, Expected(entries[i]), stale) == Plain(kept[i].data)
    {
      ContentIsKept(file, entries[i], kept[i], stale);
    }
  }

  lemma ReadsBackIsShort(file: Bytes, kept: seq<Item>, stale: Stale)
    requires ReadsBack(file, kept, stale)
    ensures |kept| < U16 && ShortNames(kept)
  {
    ListingIsBounded(file, stale);
    var l := ListingOf(file, stale);
    forall i | 0 <= i < |kept| ensures |kept[i].name| < U16 {
      assert l.members[i] in l.members;
    }
  }

  /** Both copies of a stored member's checksum, in its local header and in its entry, are that of its data. */
  lemma ChecksumsAgree(calls: seq<Call>, i: nat)
    requires i < |Kept(calls)|
    ensures var z := Session(calls);
            && i < |z.entries| && z.entries[i].offset + 18 <= |z.file|
            && z.entries[i].crc == Checksum(Kept(calls)[i].data) == Read32(z.file, z.entries[i].offset + 14)
  {
    SessionHolds(calls);
    assert Describes(Session(calls).file, Session(calls).entries[i], Kept(calls)[i]);
  }

  // ---- which calls are kept, from the calls alone ----

  /** The bytes written by some calls: one that is let through writes its header, its name and what it produces. */
  function Written(calls: seq<Call>): nat {
    if calls == [] then 0
    else
      var before, last := Written(calls[..|calls| - 1]), calls[|calls| - 1];
      before + if last.totalSize < U32 && before < U32 then 30 + |last.name| + |Flatten(last.chunks)| else 0
  }

  lemma {:induction false} SessionSize(calls: seq<Call>)
    ensures |Session(calls).file| == Written(calls)
  {
    if calls != [] {
      var before, last := calls[..|calls| - 1], calls[|calls| - 1];
      SessionSize(before);
      AfterSize(Session(before), last);
    }
  }

  lemma AfterSize(z: Archive, c: Call)
    ensures |After(z, c).file| ==
            |z.file| + if c.totalSize < U32 && |z.file| < U32 then 30 + |c.name| + |Flatten(c.chunks)| else 0
  {
  }

  /**
    The item of call `i` is kept exactly if the call announces less than 2^32 bytes, the bytes written
    before it are fewer than 2^32, and it produces as many bytes as it announces; it is kept as they are.
  */
  lemma KeptExactly(calls: seq<Call>, i: nat)
    requires i < |calls|
    ensures var c := calls[i];
            Kept(calls[..i + 1]) ==
            Kept(calls[..i]) + if c.totalSize < U32 && Written(calls[..i]) < U32 && |Flatten(c.chunks)| == c.totalSize
                               then [Item(c.name, Flatten(c.chunks))] else []
  {
    assert calls[..i + 1][..i] == calls[..i];
    SessionSize(calls[..i]);
  }
}
