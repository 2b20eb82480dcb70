/**
  The archive reader: find the end record, read the central directory, and follow each entry to its
  local header for the offset of its data.
*/
module ZipReader {
  import opened Numbers
  import opened Options
  import opened ZipBytes

  /** End record plus the longest comment it may carry. */
  const TAIL_MAX: nat := 65557

  datatype ZipMember = ZipMember(name: Bytes, compression: nat, compSize: nat, size: nat, dataOffset: nat)

  datatype Listing = Listed(members: seq<ZipMember>) | NotAZip | OutOfRange

  datatype Content = Plain(bytes: Bytes) | Deflated(bytes: Bytes) | Unsupported(compression: nat)

  /** What an uninitialised buffer for a read at `pos` happens to hold. */
  type Stale = (nat, nat) -> Octet

  /** A read past the end of the file leaves the rest of the buffer as it was. */
  function ReadInto(file: Bytes, pos: nat, len: nat, stale: Stale): (buf: Bytes)
    ensures |buf| == len
  {
    seq(len, i requires 0 <= i < len => if pos + i < |file| then file[pos + i] else stale(pos, i))
  }

  /** The last position not after `i` that holds the end record's signature. */
  function FindEnd(tail: Bytes, i: int): (r: Option<nat>)
    requires i + 22 <= |tail|
    ensures r.Some? ==> r.value + 22 <= |tail|
    decreases i
  {
    if i < 0 then None else if Read32(tail, i) == END_SIG then Some(i) else FindEnd(tail, i - 1)
  }

  /** The member a complete directory header at `p` describes. */
  function MemberAt(file: Bytes, cd: Bytes, p: nat, stale: Stale): ZipMember
    requires p + 46 <= |cd|
  {
    var lfhOffset := Read32(cd, p + 42);
    var lfh := ReadInto(file, lfhOffset, 30, stale);
    ZipMember(cd[p + 46..Min(p + 46 + Read16(cd, p + 28), |cd|)],
              Read16(cd, p + 10), Read32(cd, p + 20), Read32(cd, p + 24),
              lfhOffset + 30 + Read16(lfh, 26) + Read16(lfh, 28))
  }

  function NextHeader(cd: Bytes, p: nat): nat
    requires p + 46 <= |cd|
  {
    p + 46 + Read16(cd, p + 28) + Read16(cd, p + 30) + Read16(cd, p + 32)
  }

  function Prepend(ms: seq<ZipMember>, l: Listing): Listing {
    if l.Listed? then Listed(ms + l.members) else l
  }

  /** The members from position `p` on, at most `n`; a read beyond the buffer throws. */
  function MembersFrom(file: Bytes, cd: Bytes, p: nat, n: nat, stale: Stale): Listing
    decreases n
  {
    if n == 0 then Listed([])
    else if p + 4 > |cd| then OutOfRange
    else if Read32(cd, p) != CENTRAL_SIG then Listed([])
    else if p + 46 > |cd| then OutOfRange
    else Prepend([MemberAt(file, cd, p, stale)], MembersFrom(file, cd, NextHeader(cd, p), n - 1, stale))
  }

  function Tail(file: Bytes): Bytes {
    file[|file| - Min(|file|, TAIL_MAX)..]
  }

  /** The listing an end record at `eocd` leads to. */
  function ListingFrom(file: Bytes, tail: Bytes, eocd: nat, stale: Stale): Listing
    requires eocd + 22 <= |tail|
  {
    var cd := ReadInto(file, Read32(tail, eocd + 16), Read32(tail, eocd + 12), stale);
    MembersFrom(file, cd, 0, Read16(tail, eocd + 10), stale)
  }

  function ListingOf(file: Bytes, stale: Stale): Listing {
    var tail := Tail(file);
    match FindEnd(tail, |tail| - 22)
    case None => NotAZip
    case Some(eocd) => ListingFrom(file, tail, eocd, stale)
  }

  /** The bytes of one member; inflating is not modelled. */
  function ContentOf(file: Bytes, m: ZipMember, stale: Stale): Content {
    var comp := ReadInto(file, m.dataOffset, m.compSize, stale);
    if m.compression == 0 then Plain(comp)
    else if m.compression == 8 then Deflated(comp)
    else Unsupported(m.compression)
  }

  // ---- the loops ----

  method SearchEnd(tail: Bytes) returns (eocd: int)
    ensures FindEnd(tail, |tail| - 22) == if eocd < 0 then None else Some(eocd)
  {
    var i := |tail| - 22;
    while i >= 0
      invariant i + 22 <= |tail|
      invariant FindEnd(tail, |tail| - 22) == FindEnd(tail, i)
      decreases i
    {
      if Read32(tail, i) == END_SIG { return i; }
      i := i - 1;
    }
    return -1;
  }

  lemma PrependOne(ms: seq<ZipMember>, m: ZipMember, l: Listing)
    ensures Prepend(ms, Prepend([m], l)) == Prepend(ms + [m], l)
  {
    if l.Listed? { assert ms + ([m] + l.members) == ms + [m] + l.members; }
  }

  method ReadDirectory(file: Bytes, cd: Bytes, count: nat, stale: Stale) returns (r: Listing)
    ensures r == MembersFrom(file, cd, 0, count, stale)
  {
    var members: seq<ZipMember> := [];
    var p: nat, i: nat := 0, 0;
    while i < count
      invariant i <= count
      invariant MembersFrom(file, cd, 0, count, stale) == Prepend(members, MembersFrom(file, cd, p, count - i, stale))
    {
      if p + 4 > |cd| { return OutOfRange; }
      if Read32(cd, p) != CENTRAL_SIG { break; }
      if p + 46 > |cd| { return OutOfRange; }
      var m := MemberAt(file, cd, p, stale);
      PrependOne(members, m, MembersFrom(file, cd, NextHeader(cd, p), count - i - 1, stale));
      members := members + [m];
      p := NextHeader(cd, p);
      i := i + 1;
    }
    r := Listed(members);
  }

  method ReadFromEnd(file: Bytes, tail: Bytes, eocd: nat, stale: Stale) returns (r: Listing)
    requires eocd + 22 <= |tail|
    ensures r == ListingFrom(file, tail, eocd, stale)
  {
    var count, cdSize, cdOffset := Read16(tail, eocd + 10), Read32(tail, eocd + 12), Read32(tail, eocd + 16);
    var cd := ReadInto(file, cdOffset, cdSize, stale);
    r := ReadDirectory(file, cd, count, stale);
  }

  method ReadZipMembers(file: Bytes, stale: Stale) returns (r: Listing)
    ensures r == ListingOf(file, stale)
  {
    var tail := Tail(file);
    var eocd := SearchEnd(tail);
    if eocd < 0 { return NotAZip; }
    r := ReadFromEnd(file, tail, eocd, stale);
  }

  // ---- what any listing satisfies ----

  lemma {:induction false} MembersAreBounded(file: Bytes, cd: Bytes, p: nat, n: nat, stale: Stale)
    ensures var l := MembersFrom(file, cd, p, n, stale);
            l.Listed? ==> |l.members| <= n && forall m :: m in l.members ==> |m.name| < U16
    decreases n
  {
    if n > 0 && p + 46 <= |cd| {
      MembersAreBounded(file, cd, NextHeader(cd, p), n - 1, stale);
    }
  }

  lemma ListingFromIsBounded(file: Bytes, tail: Bytes, eocd: nat, stale: Stale)
    requires eocd + 22 <= |tail|
    ensures var l := ListingFrom(file, tail, eocd, stale);
            l.Listed? ==> |l.members| < U16 && forall m :: m in l.members ==> |m.name| < U16
  {
    var cd := ReadInto(file, Read32(tail, eocd + 16), Read32(tail, eocd + 12), stale);
    MembersAreBounded(file, cd, 0, Read16(tail, eocd + 10), stale);
  }

  /** No archive lists more members, or longer names, than its 16-bit fields can say. */
  lemma ListingIsBounded(file: Bytes, stale: Stale)
    ensures var l := ListingOf(file, stale);
            l.Listed? ==> |l.members| < U16 && forall m :: m in l.members ==> |m.name| < U16
  {
    var tail := Tail(file);
    var end := FindEnd(tail, |tail| - 22);
    if end.Some? { ListingFromIsBounded(file, tail, end.value, stale); }
  }

  // ---- reading what is known to be in the file ----

  /** Fields read inside a placed part are the part's fields. */
  lemma FieldsInPart(file: Bytes, off: nat, part: Bytes, p: nat)
    requires At(file, off, part)
    ensures p + 4 <= |part| ==> Read32(file, off + p) == Read32(part, p)
    ensures p + 2 <= |part| ==> Read16(file, off + p) == Read16(part, p)
  {
    assert forall i :: 0 <= i < |part| ==> file[off + i] == part[i];
  }

  lemma ReadIntoPart(file: Bytes, off: nat, part: Bytes, stale: Stale)
    requires At(file, off, part)
    ensures ReadInto(file, off, |part|, stale) == part
  {
    assert forall i :: 0 <= i < |part| ==> file[off + i] == part[i];
  }

  lemma FieldsReadInto(file: Bytes, pos: nat, len: nat, stale: Stale, p: nat)
    requires pos + len <= |file| && p + 2 <= len
    ensures Read16(ReadInto(file, pos, len, stale), p) == Read16(file, pos + p)
  {
  }

  /** One directory entry read, given the rest. */
  lemma MembersStep(file: Bytes, cd: Bytes, p: nat, n: nat, stale: Stale, rest: seq<ZipMember>)
    requires n > 0 && p + 46 <= |cd| && Read32(cd, p) == CENTRAL_SIG
    requires MembersFrom(file, cd, NextHeader(cd, p), n - 1, stale) == Listed(rest)
    ensures MembersFrom(file, cd, p, n, stale) == Listed([MemberAt(file, cd, p, stale)] + rest)
  {
  }

  lemma MembersNone(file: Bytes, cd: Bytes, p: nat, stale: Stale)
    ensures MembersFrom(file, cd, p, 0, stale) == Listed([])
  {
  }

  lemma ListingFromPlaced(file: Bytes, tail: Bytes, eocd: nat, stale: Stale, dir: Bytes)
    requires eocd + 22 <= |tail| && Read32(tail, eocd + 12) == |dir|
    requires At(file, Read32(tail, eocd + 16), dir)
    ensures ListingFrom(file, tail, eocd, stale) == MembersFrom(file, dir, 0, Read16(tail, eocd + 10), stale)
  {
    ReadIntoPart(file, Read32(tail, eocd + 16), dir, stale);
  }

  /** A listing whose end record is found and points at the directory placed in the file. */
  lemma ListingOfPlaced(file: Bytes, tail: Bytes, stale: Stale, eocd: nat, dir: Bytes)
    requires tail == Tail(file) && eocd + 22 <= |tail| && FindEnd(tail, |tail| - 22) == Some(eocd)
    requires Read32(tail, eocd + 12) == |dir| && At(file, Read32(tail, eocd + 16), dir)
    ensures ListingOf(file, stale) == MembersFrom(file, dir, 0, Read16(tail, eocd + 10), stale)
  {
    ListingFromPlaced(file, tail, eocd, stale, dir);
  }
}
