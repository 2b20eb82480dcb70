/**
  Reducing raw 2352-byte compact-disc sectors to their 2048 bytes of user data.  The input arrives in
  chunks of any size; what does not fill a sector is carried over, and sectors are written in batches.
*/
module Deframer {
  import opened Folds

  type Byte = bv8

  const SECTOR: nat := 2352
  const DATA: nat := 2048
  const OFF: nat := 16
  const BATCH: nat := 1000

  /** The user data of every whole sector of the input, one after the other. */
  function UserData(input: seq<Byte>): seq<Byte> {
    if |input| < SECTOR then [] else input[OFF..OFF + DATA] + UserData(input[SECTOR..])
  }

  /** What is left after the last whole sector. */
  function Rest(input: seq<Byte>): (r: seq<Byte>)
    ensures |r| < SECTOR
  {
    if |input| < SECTOR then input else Rest(input[SECTOR..])
  }

  /** Byte `j` of sector `k` of the output is byte `j` after the header of sector `k` of the input. */
  lemma {:induction false} UserDataAt(input: seq<Byte>, k: nat, j: nat)
    requires k < |input| / SECTOR && j < DATA
    ensures |UserData(input)| == |input| / SECTOR * DATA
    ensures UserData(input)[k * DATA + j] == input[k * SECTOR + OFF + j]
  {
    var t := input[SECTOR..];
    assert |t| / SECTOR == |input| / SECTOR - 1;
    if k > 0 {
      UserDataAt(t, k - 1, j);
      assert UserData(input)[k * DATA + j] == UserData(t)[(k - 1) * DATA + j];
    } else {
      UserDataSize(t);
    }
  }

  lemma {:induction false} UserDataSize(input: seq<Byte>)
    ensures |UserData(input)| == |input| / SECTOR * DATA
  {
    if |input| >= SECTOR {
      UserDataSize(input[SECTOR..]);
      assert |input[SECTOR..]| / SECTOR == |input| / SECTOR - 1;
    }
  }

  /** A prefix can be reduced first and its rest put in front of what follows. */
  lemma {:induction false} CarryOver(x: seq<Byte>, y: seq<Byte>)
    ensures UserData(x + y) == UserData(x) + UserData(Rest(x) + y)
    ensures Rest(x + y) == Rest(Rest(x) + y)
  {
    if |x| >= SECTOR {
      CarryOver(x[SECTOR..], y);
      assert (x + y)[SECTOR..] == x[SECTOR..] + y && (x + y)[OFF..OFF + DATA] == x[OFF..OFF + DATA];
      assert x[OFF..OFF + DATA] + (UserData(x[SECTOR..]) + UserData(Rest(x[SECTOR..]) + y)) ==
             x[OFF..OFF + DATA] + UserData(x[SECTOR..]) + UserData(Rest(x[SECTOR..]) + y);
    }
  }

  class Writer {
    var out: seq<Byte>
    var written: nat
    var sectors: nat
    var carry: seq<Byte>
    const outBuf: array<Byte>
    var outFill: nat

    /** The batch never fills up between sectors, and the carry is less than a sector. */
    ghost predicate Valid() reads this {
      && outBuf.Length == BATCH * DATA && outFill < outBuf.Length && outFill % DATA == 0
      && |carry| < SECTOR && written == |out| && written + outFill == sectors * DATA
    }

    /** What has been produced, written or still in the batch. */
    ghost function Produced(): seq<Byte>
      requires outFill <= outBuf.Length
      reads this, outBuf
    {
      out + outBuf[..outFill]
    }

    ghost predicate Holds(input: seq<Byte>) reads this, outBuf {
      && Valid() && Produced() == UserData(input) && carry == Rest(input)
    }

    constructor ()
      ensures Holds([]) && out == [] && outFill == 0 && fresh(outBuf)
    {
      out, written, sectors, carry, outFill := [], 0, 0, [], 0;
      outBuf := new Byte[BATCH * DATA];
    }

    method Flush()
      requires outFill <= outBuf.Length && written == |out|
      modifies this`out, this`written, this`outFill
      ensures out == old(Produced()) && written == |out| && outFill == 0
    {
      if outFill != 0 {
        out := out + outBuf[..outFill];
        written := written + outFill;
        outFill := 0;
      }
    }

    /** One sector's user data into the batch, which is written out as soon as it is full. */
    method Put(data: seq<Byte>)
      requires Valid() && |data| == DATA
      modifies this`out, this`written, this`outFill, this`sectors, outBuf
      ensures Valid() && Produced() == old(Produced()) + data
    {
      ghost var before := outBuf[..outFill];
      forall i | 0 <= i < DATA { outBuf[outFill + i] := data[i]; }
      assert outBuf[..outFill] == before;
      assert outBuf[outFill..outFill + DATA] == data;
      outFill := outFill + DATA;
      assert outBuf[..outFill] == before + data;
      sectors := sectors + 1;
      if outFill == outBuf.Length { Flush(); }
    }

    /** Every whole sector of `buf` goes into the batch; `pos` is where the rest starts. */
    method Drain(buf: seq<Byte>) returns (pos: nat)
      requires Valid()
      modifies this`out, this`written, this`outFill, this`sectors, outBuf
      ensures Valid() && Produced() == old(Produced()) + UserData(buf)
      ensures pos <= |buf| && buf[pos..] == Rest(buf)
    {
      ghost var goal := Produced() + UserData(buf);
      pos := 0;
      assert buf[0..] == buf;
      while pos + SECTOR <= |buf|
        invariant Valid() && 0 <= pos <= |buf|
        invariant Produced() + UserData(buf[pos..]) == goal && Rest(buf[pos..]) == Rest(buf)
      {
        SectorTaken(Produced(), buf, pos);
        Put(buf[pos + OFF..pos + OFF + DATA]);
        pos := pos + SECTOR;
      }
    }

    method Take(value: seq<Byte>, ghost input: seq<Byte>)
      requires Holds(input)
      modifies this, outBuf
      ensures Holds(input + value)
    {
      var buf := if |carry| != 0 then carry + value else value;
      assert buf == Rest(input) + value;
      var pos := Drain(buf);
      carry := buf[pos..];
      CarryOver(input, value);
    }
  }

  lemma SectorTaken(p: seq<Byte>, buf: seq<Byte>, pos: nat)
    requires pos + SECTOR <= |buf|
    ensures p + UserData(buf[pos..]) == p + buf[pos + OFF..pos + OFF + DATA] + UserData(buf[pos + SECTOR..])
    ensures Rest(buf[pos..]) == Rest(buf[pos + SECTOR..])
  {
    var rest := buf[pos..];
    assert rest[OFF..OFF + DATA] == buf[pos + OFF..pos + OFF + DATA] && rest[SECTOR..] == buf[pos + SECTOR..];
  }

  /** However the input is split, the output is the user data of its whole sectors. */
  method Convert(chunks: seq<seq<Byte>>) returns (out: seq<Byte>, written: nat, sectors: nat)
    ensures out == UserData(Flatten(chunks))
    ensures sectors == |Flatten(chunks)| / SECTOR && written == sectors * DATA
  {
    var w := new Writer();
    for i := 0 to |chunks|
      invariant w.Holds(Flatten(chunks[..i])) && fresh(w) && fresh(w.outBuf)
    {
      assert chunks[..i + 1][..i] == chunks[..i];
      w.Take(chunks[i], Flatten(chunks[..i]));
    }
    assert chunks[..|chunks|] == chunks;
    UserDataSize(Flatten(chunks));
    w.Flush();
    out, written, sectors := w.out, w.written, w.sectors;
  }

  /** A trailing part of a sector changes nothing. */
  lemma PartialSectorIsDropped(x: seq<Byte>, tail: seq<Byte>)
    requires |Rest(x)| + |tail| < SECTOR
    ensures UserData(x + tail) == UserData(x)
  {
    CarryOver(x, tail);
  }
}
