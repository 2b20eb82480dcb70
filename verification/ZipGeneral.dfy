/**
  Reading archives of any origin: the records as a ZIP tool lays them out (PKWARE APPNOTE, sections
  4.3.7, 4.3.12 and 4.3.16), with any method, extra fields, comments and unread header fields, and the
  proof that the reader lists every member of such an archive and finds its bytes.
*/
module ZipGeneral {
  import opened Options
  import opened ZipBytes
  import opened StoreZip
  import opened ZipReader
  import opened ZipRoundTrip

  // ---- archives ----

  /**
    What a local record holds; `head` is all of its header up to the two lengths, `after` a data
    descriptor or other bytes up to the next record.
  */
  datatype Local = Local(head: Bytes, name: Bytes, extra: Bytes, data: Bytes, after: Bytes)

  /** What a directory header says beside its lengths; the reader skips `versions`, `times` and `attrs`. */
  datatype Entry = Entry(
    versions: Bytes, compression: nat, times: Bytes, compSize: nat, size: nat, attrs: Bytes, offset: nat,
    name: Bytes, extra: Bytes, comment: Bytes)

  datatype Packed = Packed(local: Local, entry: Entry)

  /** `body` is everything before the directory, `between` what stands between it and the end record. */
  datatype Pack = Pack(body: Bytes, members: seq<Packed>, between: Bytes, disks: Bytes, comment: Bytes)

  function LocalRecord(l: Local): Bytes {
    l.head + Le16(|l.name|) + Le16(|l.extra|) + l.name + l.extra + l.data
  }

  function HeaderFront(e: Entry): Bytes {
    Le32(CENTRAL_SIG) + e.versions + Le16(e.compression) + e.times
  }

  function HeaderBack(e: Entry): Bytes {
    Le32(e.compSize) + Le32(e.size) + Le16(|e.name|) + Le16(|e.extra|) + Le16(|e.comment|) + e.attrs + Le32(e.offset)
  }

  function DirectoryRecord(e: Entry): Bytes {
    HeaderFront(e) + HeaderBack(e) + e.name + e.extra + e.comment
  }

  function DirectoryFrom(members: seq<Packed>, k: nat): Bytes
    requires k <= |members|
    decreases |members| - k
  {
    if k == |members| then [] else DirectoryRecord(members[k].entry) + DirectoryFrom(members, k + 1)
  }

  function EndOf(a: Pack): Bytes {
    Le32(END_SIG) + a.disks + Le16(|a.members|) + Le32(|DirectoryFrom(a.members, 0)|) + Le32(|a.body|)
    + Le16(|a.comment|) + a.comment
  }

  function Printed(a: Pack): Bytes {
    a.body + DirectoryFrom(a.members, 0) + a.between + EndOf(a)
  }

  // ---- well-formed archives ----

  /** Every field holds what it should, and the local record stands where the entry says. */
  ghost predicate MemberFits(body: Bytes, m: Packed) {
    var l, e := m.local, m.entry;
    && |l.head| == 26 && |l.name| < U16 && |l.extra| < U16
    && |e.versions| == 6 && |e.times| == 8 && |e.attrs| == 8
    && e.compression < U16 && e.size < U32 && e.compSize == |l.data| < U32 && e.offset < U32
    && |e.name| < U16 && |e.extra| < U16 && |e.comment| < U16
    && At(body, e.offset, LocalRecord(l))
  }

  ghost predicate AllFit(body: Bytes, members: seq<Packed>) {
    forall i :: 0 <= i < |members| ==> MemberFits(body, members[i])
  }

  /** After the first byte of the end record nothing, up to the last place that is looked at, looks like another one. */
  ghost predicate NoLaterEnd(end: Bytes) {
    forall i :: 0 < i && i + 22 <= |end| ==> Read32(end, i) != END_SIG
  }

  ghost predicate PackFits(a: Pack) {
    && AllFit(a.body, a.members) && |a.members| < U16 && |a.body| < U32 && |DirectoryFrom(a.members, 0)| < U32
    && |a.disks| == 6 && |a.comment| < U16 && NoLaterEnd(EndOf(a))
  }

  // ---- laying records out ----

  /** Bytes that come before the archive, and then the local records one after the other. */
  function Laid(lead: Bytes, locals: seq<Local>): Bytes {
    if locals == [] then lead
    else
      var last := |locals| - 1;
      Laid(lead, locals[..last]) + LocalRecord(locals[last]) + locals[last].after
  }

  /** Laid out in this way, every record stands where the ones before it end. */
  lemma {:induction false} RecordIsLaid(lead: Bytes, locals: seq<Local>, i: nat)
    requires i < |locals|
    ensures At(Laid(lead, locals), |Laid(lead, locals[..i])|, LocalRecord(locals[i]))
  {
    var last := |locals| - 1;
    var before, rec, after := Laid(lead, locals[..last]), LocalRecord(locals[last]), locals[last].after;
    if i == last {
      AtMiddle(before, rec, after);
    } else {
      RecordIsLaid(lead, locals[..last], i);
      assert locals[..last][..i] == locals[..i];
      AtKept(before, |Laid(lead, locals[..i])|, LocalRecord(locals[i]), rec);
      AtKept(before + rec, |Laid(lead, locals[..i])|, LocalRecord(locals[i]), after);
    }
  }

  // ---- what the reader should give ----

  function Wanted(m: Packed): ZipMember {
    ZipMember(m.entry.name, m.entry.compression, |m.local.data|, m.entry.size,
              m.entry.offset + 30 + |m.local.name| + |m.local.extra|)
  }

  function WantedFrom(members: seq<Packed>, k: nat): seq<ZipMember>
    requires k <= |members|
  {
    seq(|members| - k, i requires 0 <= i < |members| - k => Wanted(members[k + i]))
  }

  function ContentOfMember(m: Packed): Content {
    match m.entry.compression
    case 0 => Plain(m.local.data)
    case 8 => Deflated(m.local.data)
    case other => Unsupported(other)
  }

  // ---- fields ----

  lemma LeFields(v: nat)
    ensures v < U16 ==> Read16(Le16(v), 0) == v
    ensures v < U32 ==> Read32(Le32(v), 0) == v
  {
    Field16(Le16(v), 0, v);
    Field32(Le32(v), 0, v);
    if v < U16 { SmallMod(v, U16); }
    if v < U32 { SmallMod(v, U32); }
  }

  lemma Placed16(file: Bytes, p: nat, v: nat)
    requires At(file, p, Le16(v)) && v < U16
    ensures Read16(file, p) == v
  {
    LeFields(v);
    FieldsInPart(file, p, Le16(v), 0);
  }

  lemma Placed32(file: Bytes, p: nat, v: nat)
    requires At(file, p, Le32(v)) && v < U32
    ensures Read32(file, p) == v
  {
    LeFields(v);
    FieldsInPart(file, p, Le32(v), 0);
  }

  lemma LocalIsRead(file: Bytes, p: nat, l: Local)
    requires At(file, p, LocalRecord(l)) && |l.head| == 26 && |l.name| < U16 && |l.extra| < U16
    ensures Read16(file, p + 26) == |l.name| && Read16(file, p + 28) == |l.extra|
    ensures At(file, p + 30 + |l.name| + |l.extra|, l.data)
  {
    var n, x := Le16(|l.name|), Le16(|l.extra|);
    AtParts(file, p, l.head + n + x + l.name + l.extra, l.data);
    AtParts(file, p, l.head + n + x + l.name, l.extra);
    AtParts(file, p, l.head + n + x, l.name);
    AtParts(file, p, l.head + n, x);
    AtParts(file, p, l.head, n);
    Placed16(file, p + 26, |l.name|);
    Placed16(file, p + 28, |l.extra|);
  }

  lemma FrontIsRead(cd: Bytes, p: nat, e: Entry)
    requires At(cd, p, HeaderFront(e)) && |e.versions| == 6 && |e.times| == 8 && e.compression < U16
    ensures |HeaderFront(e)| == 20 && Read32(cd, p) == CENTRAL_SIG && Read16(cd, p + 10) == e.compression
  {
    var s, c := Le32(CENTRAL_SIG), Le16(e.compression);
    AtParts(cd, p, s + e.versions + c, e.times);
    AtParts(cd, p, s + e.versions, c);
    AtParts(cd, p, s, e.versions);
    Placed32(cd, p, CENTRAL_SIG);
    Placed16(cd, p + 10, e.compression);
  }

  lemma BackIsRead(cd: Bytes, p: nat, e: Entry)
    requires At(cd, p, HeaderBack(e)) && |e.attrs| == 8 && e.compSize < U32 && e.size < U32 && e.offset < U32
    requires |e.name| < U16 && |e.extra| < U16 && |e.comment| < U16
    ensures |HeaderBack(e)| == 26
    ensures Read32(cd, p) == e.compSize && Read32(cd, p + 4) == e.size && Read16(cd, p + 8) == |e.name|
    ensures Read16(cd, p + 10) == |e.extra| && Read16(cd, p + 12) == |e.comment| && Read32(cd, p + 22) == e.offset
  {
    var c, s, n, x, t, o := Le32(e.compSize), Le32(e.size), Le16(|e.name|), Le16(|e.extra|), Le16(|e.comment|),
        Le32(e.offset);
    AtParts(cd, p, c + s + n + x + t + e.attrs, o);
    AtParts(cd, p, c + s + n + x + t, e.attrs);
    AtParts(cd, p, c + s + n + x, t);
    AtParts(cd, p, c + s + n, x);
    AtParts(cd, p, c + s, n);
    AtParts(cd, p, c, s);
    Placed32(cd, p, e.compSize);
    Placed32(cd, p + 4, e.size);
    Placed16(cd, p + 8, |e.name|);
    Placed16(cd, p + 10, |e.extra|);
    Placed16(cd, p + 12, |e.comment|);
    Placed32(cd, p + 22, e.offset);
  }

  // ---- one member ----

  /** Where the next header starts, and what the member at this one is. */
  lemma RecordIsRead(file: Bytes, body: Bytes, cd: Bytes, p: nat, m: Packed, stale: Stale)
    requires body <= file && MemberFits(body, m) && At(cd, p, DirectoryRecord(m.entry))
    ensures p + 46 <= |cd| && Read32(cd, p) == CENTRAL_SIG
    ensures NextHeader(cd, p) == p + |DirectoryRecord(m.entry)|
    ensures MemberAt(file, cd, p, stale) == Wanted(m)
  {
    var e := m.entry;
    var f, b := HeaderFront(e), HeaderBack(e);
    AtParts(cd, p, f + b + e.name + e.extra, e.comment);
    AtParts(cd, p, f + b + e.name, e.extra);
    AtParts(cd, p, f + b, e.name);
    AtParts(cd, p, f, b);
    FrontIsRead(cd, p, e);
    BackIsRead(cd, p + 20, e);
    BodyKept(file, body, m);
    LocalIsRead(file, e.offset, m.local);
    FieldsReadInto(file, e.offset, 30, stale, 26);
    FieldsReadInto(file, e.offset, 30, stale, 28);
  }

  lemma BodyKept(file: Bytes, body: Bytes, m: Packed)
    requires body <= file && At(body, m.entry.offset, LocalRecord(m.local))
    ensures At(file, m.entry.offset, LocalRecord(m.local))
  {
    AtKept(body, m.entry.offset, LocalRecord(m.local), file[|body|..]);
    assert file == body + file[|body|..];
  }

  lemma ContentIsRead(file: Bytes, body: Bytes, m: Packed, stale: Stale)
    requires body <= file && MemberFits(body, m)
    ensures ContentOf(file, Wanted(m), stale) == ContentOfMember(m)
  {
    BodyKept(file, body, m);
    LocalIsRead(file, m.entry.offset, m.local);
    ReadIntoPart(file, m.entry.offset + 30 + |m.local.name| + |m.local.extra|, m.local.data, stale);
  }

  // ---- the directory ----

  lemma WantedStep(members: seq<Packed>, k: nat)
    requires k < |members|
    ensures WantedFrom(members, k) == [Wanted(members[k])] + WantedFrom(members, k + 1)
  {
  }

  /** Reading on from `p` gives the members from `k` on. */
  ghost predicate Reads(file: Bytes, cd: Bytes, p: nat, members: seq<Packed>, k: nat, stale: Stale)
    requires k <= |members|
  {
    MembersFrom(file, cd, p, |members| - k, stale) == Listed(WantedFrom(members, k))
  }

  lemma ReadsOneMore(file: Bytes, cd: Bytes, p: nat, members: seq<Packed>, k: nat, stale: Stale)
    requires k < |members| && p + 46 <= |cd| && Read32(cd, p) == CENTRAL_SIG
    requires MemberAt(file, cd, p, stale) == Wanted(members[k])
    requires Reads(file, cd, NextHeader(cd, p), members, k + 1, stale)
    ensures Reads(file, cd, p, members, k, stale)
  {
    WantedStep(members, k);
    MembersStep(file, cd, p, |members| - k, stale, WantedFrom(members, k + 1));
  }

  lemma ReadsNone(file: Bytes, cd: Bytes, p: nat, members: seq<Packed>, stale: Stale)
    ensures Reads(file, cd, p, members, |members|, stale)
  {
    MembersNone(file, cd, p, stale);
  }

  lemma DirectoryInParts(cd: Bytes, p: nat, members: seq<Packed>, k: nat)
    requires k < |members| && At(cd, p, DirectoryFrom(members, k))
    ensures At(cd, p, DirectoryRecord(members[k].entry))
    ensures At(cd, p + |DirectoryRecord(members[k].entry)|, DirectoryFrom(members, k + 1))
  {
    AtParts(cd, p, DirectoryRecord(members[k].entry), DirectoryFrom(members, k + 1));
  }

  lemma {:induction false} DirectoryIsRead(
    file: Bytes, body: Bytes, cd: Bytes, p: nat, members: seq<Packed>, k: nat, stale: Stale)
    requires body <= file && AllFit(body, members) && k <= |members| && At(cd, p, DirectoryFrom(members, k))
    ensures Reads(file, cd, p, members, k, stale)
    decreases |members| - k
  {
    if k == |members| {
      ReadsNone(file, cd, p, members, stale);
    } else {
      DirectoryInParts(cd, p, members, k);
      RecordIsRead(file, body, cd, p, members[k], stale);
      DirectoryIsRead(file, body, cd, NextHeader(cd, p), members, k + 1, stale);
      ReadsOneMore(file, cd, p, members, k, stale);
    }
  }

  // ---- the end record ----

  /** The backward search finds the last signature. */
  lemma {:induction false} FindsLast(tail: Bytes, i: int, q: nat)
    requires i + 22 <= |tail|
    ensures FindEnd(tail, i) == Some(q) <==>
            q <= i && Read32(tail, q) == END_SIG && forall j: nat :: q < j <= i ==> Read32(tail, j) != END_SIG
    decreases i
  {
    if i >= 0 && Read32(tail, i) != END_SIG { FindsLast(tail, i - 1, q); }
  }

  /** A file is refused exactly if no end signature stands where a record could still follow it. */
  lemma RefusedIffNoEnd(file: Bytes, stale: Stale)
    ensures ListingOf(file, stale) == NotAZip <==>
            forall j: nat :: j + 22 <= |Tail(file)| ==> Read32(Tail(file), j) != END_SIG
  {
    var tail := Tail(file);
    var found := FindEnd(tail, |tail| - 22);
    if found.Some? {
      FindsLast(tail, |tail| - 22, found.value);
      ListingIsNoRefusal(file, tail, found.value, stale);
    } else {
      forall j: nat | j + 22 <= |tail| ensures Read32(tail, j) != END_SIG {
        NoneMeansNowhere(tail, |tail| - 22, j);
      }
    }
  }

  lemma {:induction false} NoneMeansNowhere(tail: Bytes, i: int, j: nat)
    requires i + 22 <= |tail| && j <= i && FindEnd(tail, i) == None
    ensures Read32(tail, j) != END_SIG
    decreases i
  {
    if j < i { NoneMeansNowhere(tail, i - 1, j); }
  }

  lemma ListingIsNoRefusal(file: Bytes, tail: Bytes, eocd: nat, stale: Stale)
    requires eocd + 22 <= |tail|
    ensures ListingFrom(file, tail, eocd, stale) != NotAZip
  {
    var cd := ReadInto(file, Read32(tail, eocd + 16), Read32(tail, eocd + 12), stale);
    MembersAreListed(file, cd, 0, Read16(tail, eocd + 10), stale);
  }

  lemma {:induction false} MembersAreListed(file: Bytes, cd: Bytes, p: nat, n: nat, stale: Stale)
    ensures MembersFrom(file, cd, p, n, stale) != NotAZip
    decreases n
  {
    if n > 0 && p + 46 <= |cd| { MembersAreListed(file, cd, NextHeader(cd, p), n - 1, stale); }
  }

  lemma EndIsRead(tail: Bytes, q: nat, a: Pack)
    requires PackFits(a) && At(tail, q, EndOf(a))
    ensures |EndOf(a)| == 22 + |a.comment| && Read32(tail, q) == END_SIG && Read16(tail, q + 10) == |a.members|
    ensures Read32(tail, q + 12) == |DirectoryFrom(a.members, 0)| && Read32(tail, q + 16) == |a.body|
  {
    var s, n, z, o, c := Le32(END_SIG), Le16(|a.members|), Le32(|DirectoryFrom(a.members, 0)|), Le32(|a.body|),
        Le16(|a.comment|);
    AtParts(tail, q, s + a.disks + n + z + o + c, a.comment);
    AtParts(tail, q, s + a.disks + n + z + o, c);
    AtParts(tail, q, s + a.disks + n + z, o);
    AtParts(tail, q, s + a.disks + n, z);
    AtParts(tail, q, s + a.disks, n);
    AtParts(tail, q, s, a.disks);
    Placed32(tail, q, END_SIG);
    Placed16(tail, q + 10, |a.members|);
    Placed32(tail, q + 12, |DirectoryFrom(a.members, 0)|);
    Placed32(tail, q + 16, |a.body|);
  }

  lemma TailEnds(before: Bytes, end: Bytes)
    requires 22 <= |end| <= TAIL_MAX
    ensures var tail := Tail(before + end);
            |end| <= |tail| && At(tail, |tail| - |end|, end) && tail[|tail| - |end|..] == end
  {
  }

  lemma EndIsFirstMet(tail: Bytes, q: nat, end: Bytes)
    requires At(tail, q, end) && q + |end| == |tail| && |end| >= 22 && Read32(end, 0) == END_SIG && NoLaterEnd(end)
    ensures FindEnd(tail, |tail| - 22) == Some(q)
  {
    FieldsInPart(tail, q, end, 0);
    forall j: nat | q < j <= |tail| - 22 ensures Read32(tail, j) != END_SIG {
      FieldsInPart(tail, q, end, j - q);
    }
    FindsLast(tail, |tail| - 22, q);
  }

  // ---- the theorem ----

  /**
    Every archive whose fields fit is read back whole: all its members are listed in order, each with
    its own name, method and both sizes, and the content of each is the bytes stored for it, passed on
    by their method.
  */
  lemma AnyArchiveReadsBack(a: Pack, stale: Stale)
    requires PackFits(a)
    ensures ListingOf(Printed(a), stale) == Listed(WantedFrom(a.members, 0))
    ensures forall i :: 0 <= i < |a.members| ==>
              ContentOf(Printed(a), Wanted(a.members[i]), stale) == ContentOfMember(a.members[i])
  {
    var file, dir, end := Printed(a), DirectoryFrom(a.members, 0), EndOf(a);
    PrintedListing(a, file, dir, end, stale);
    WholePart(dir);
    DirectoryIsRead(file, a.body, dir, 0, a.members, 0, stale);
    forall i | 0 <= i < |a.members|
      ensures ContentOf(Printed(a), Wanted(a.members[i]), stale) == ContentOfMember(a.members[i])
    {
      ContentIsRead(file, a.body, a.members[i], stale);
    }
  }

  lemma WholePart(part: Bytes)
    ensures At(part, 0, part)
  {
  }

  lemma FourParts(a: Bytes, b: Bytes, c: Bytes, d: Bytes)
    ensures a <= a + b + c + d && At(a + b + c + d, |a|, b)
  {
    AtMiddle(a, b, c + d);
    assert a + b + c + d == a + b + (c + d);
  }

  lemma PrintedListing(a: Pack, file: Bytes, dir: Bytes, end: Bytes, stale: Stale)
    requires PackFits(a) && file == Printed(a) && dir == DirectoryFrom(a.members, 0) && end == EndOf(a)
    ensures ListingOf(file, stale) == MembersFrom(file, dir, 0, |a.members|, stale) && a.body <= file
  {
    WholePart(end);
    EndIsRead(end, 0, a);
    TailEnds(a.body + dir + a.between, end);
    FourParts(a.body, dir, a.between, end);
    EndLeadsToListing(a, file, Tail(file), dir, end, stale);
  }

  lemma EndLeadsToListing(a: Pack, file: Bytes, tail: Bytes, dir: Bytes, end: Bytes, stale: Stale)
    requires PackFits(a) && dir == DirectoryFrom(a.members, 0) && end == EndOf(a) && tail == Tail(file)
    requires 22 <= |end| <= |tail| && At(tail, |tail| - |end|, end) && Read32(end, 0) == END_SIG
    requires At(file, |a.body|, dir)
    ensures ListingOf(file, stale) == MembersFrom(file, dir, 0, |a.members|, stale)
  {
    var q := |tail| - |end|;
    EndIsRead(tail, q, a);
    EndIsFirstMet(tail, q, end);
    ListingOfPlaced(file, tail, stale, q, dir);
  }
}
