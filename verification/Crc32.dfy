/**
  CRC-32 as in section 8 of RFC 1952: the definition one message bit at a time, and the
  table-driven byte loop that must compute the same value.
*/
module Crc32 {
  import opened Folds
  import opened ShiftRegister

  type Byte = bv8

  const POLY: bv32 := 0xedb88320
  const ONES: bv32 := 0xffffffff

  // ---- the definition, bit by bit ----

  /** Shift one message bit, least significant first, into the reflected remainder. */
  function ShiftIn(crc: bv32, bit: bool): bv32 {
    if (crc & 1 == 1) != bit then (crc >> 1) ^ POLY else crc >> 1
  }

  function BitsOf(b: Byte): seq<bool> {
    [b & 1 == 1, b & 2 == 2, b & 4 == 4, b & 8 == 8, b & 16 == 16, b & 32 == 32, b & 64 == 64, b & 128 == 128]
  }

  function ByteIn(crc: bv32, b: Byte): bv32 {
    Fold(ShiftIn, crc, BitsOf(b))
  }

  /** The remainder after the bytes of `data`. */
  function Remainder(crc: bv32, data: seq<Byte>): bv32 {
    Fold(ByteIn, crc, data)
  }

  function Crc(data: seq<Byte>): bv32 {
    Remainder(ONES, data) ^ ONES
  }

  // ---- a byte at a time ----

  function Step(c: bv32): bv32 {
    if c & 1 == 1 then POLY ^ (c >> 1) else c >> 1
  }

  function Xor(x: bv32, y: bv32): bv32 { x ^ y }
  function Half(x: bv32): bv32 { x >> 1 }
  function Low(x: bv32): bool { x & 1 == 1 }

  lemma XorCommutes(a: bv32, b: bv32)
    ensures Xor(a, b) == Xor(b, a)
  {
  }

  lemma XorAssociates(a: bv32, b: bv32, c: bv32)
    ensures Xor(Xor(a, b), c) == Xor(a, Xor(b, c))
  {
  }

  lemma XorUndoes(a: bv32, b: bv32)
    ensures Xor(a, Xor(a, b)) == b
  {
  }

  lemma HalfOfXor(a: bv32, b: bv32)
    ensures Half(Xor(a, b)) == Xor(Half(a), Half(b))
  {
  }

  lemma LowOfXor(a: bv32, b: bv32)
    ensures Low(Xor(a, b)) == (Low(a) != Low(b))
  {
  }

  lemma HalfDistributes()
    ensures Distributes(Half, Xor)
  {
    forall a, b ensures Half(Xor(a, b)) == Xor(Half(a), Half(b)) { HalfOfXor(a, b); }
  }

  lemma LowReadsBit()
    ensures ReadsBit(Xor, Low)
  {
    forall a, b ensures Low(Xor(a, b)) == (Low(a) != Low(b)) { LowOfXor(a, b); }
  }

  lemma StepFact(c: bv32, bit: bool)
    ensures Step(c) == if Low(c) then Xor(POLY, Half(c)) else Half(c)
    ensures ShiftIn(c, bit) == if Low(c) != bit then Xor(POLY, Half(c)) else Half(c)
  {
  }

  lemma StepIsStep()
    ensures IsStep(Xor, Half, Low, POLY, Step) && IsShiftIn(Xor, Half, Low, POLY, ShiftIn)
  {
    forall c ensures Step(c) == if Low(c) then Xor(POLY, Half(c)) else Half(c) { StepFact(c, true); }
    forall c, bit ensures ShiftIn(c, bit) == if Low(c) != bit then Xor(POLY, Half(c)) else Half(c) { StepFact(c, bit); }
  }

  /** A value and its eight halvings. */
  function HalvingsOf(d: bv32): (xs: seq<bv32>)
    ensures |xs| == 9 && xs[0] == d && forall k :: 0 <= k < 8 ==> xs[k + 1] == Half(xs[k])
  {
    var d2 := Half(Half(d));
    var d4 := Half(Half(d2));
    var d6 := Half(Half(d4));
    [d, Half(d), d2, Half(d2), d4, Half(d4), d6, Half(d6), Half(Half(d6))]
  }

  lemma LowByteZero(y: bv32)
    requires y & 0xff == 0
    ensures forall k :: 0 <= k < 8 ==> HalvingsOf(y)[k] & 1 == 0
  {
  }

  lemma EvenStep(z: bv32)
    requires z & 1 == 0
    ensures Step(z) == Half(z)
  {
  }

  /** Eight steps only shift a value while no bit set is lost. */
  lemma StepsOnlyShift(xs: seq<bv32>)
    requires |xs| == 9 && forall k :: 0 <= k < 8 ==> xs[k] & 1 == 0 && xs[k + 1] == Half(xs[k])
    ensures Iter(Step, xs[0], 8) == xs[8]
  {
    forall k | 0 <= k < 8 ensures Step(xs[k]) == xs[k + 1] {
      EvenStep(xs[k]);
    }
    IterEight(Step, xs);
  }

  lemma SplitLowByte(c: bv32)
    ensures c == Xor(c & 0xff, c & 0xffffff00)
    ensures (c & 0xffffff00) & 0xff == 0 && HalvingsOf(c & 0xffffff00)[8] == c >> 8
  {
  }

  lemma CrcIsShiftRegister()
    ensures IsXor(Xor) && Distributes(Half, Xor) && ReadsBit(Xor, Low)
    ensures IsStep(Xor, Half, Low, POLY, Step) && IsShiftIn(Xor, Half, Low, POLY, ShiftIn)
  {
    forall a, b ensures Xor(a, b) == Xor(b, a) { XorCommutes(a, b); }
    forall a, b, c ensures Xor(Xor(a, b), c) == Xor(a, Xor(b, c)) { XorAssociates(a, b, c); }
    forall a, b ensures Xor(a, Xor(a, b)) == b { XorUndoes(a, b); }
    HalfDistributes();
    LowReadsBit();
    StepIsStep();
  }

  lemma CrcStepDistributes()
    ensures Distributes(Step, Xor)
  {
    CrcIsShiftRegister();
    StepDistributes(Xor, Half, Low, POLY, Step);
  }

  lemma CrcStepsShiftIn()
    ensures StepsShiftIn(Step, Xor, ShiftIn, Low, Half)
  {
    CrcIsShiftRegister();
    StepShiftsIn(Xor, Half, Low, POLY, Step, ShiftIn);
  }

  lemma EightStepsOfParts(c: bv32, low: bv32, high: bv32)
    requires c == Xor(low, high)
    ensures Iter(Step, c, 8) == Xor(Iter(Step, low, 8), Iter(Step, high, 8))
  {
    CrcStepDistributes();
    IterDistributes(Step, Xor, low, high, 8);
  }

  /** One table lookup and a shift do the work of eight steps. */
  lemma LookupIsEightSteps(c: bv32)
    ensures Iter(Step, c, 8) == Xor(Iter(Step, c & 0xff, 8), c >> 8)
  {
    var low, high := c & 0xff, c & 0xffffff00;
    SplitLowByte(c);
    EightStepsOfParts(c, low, high);
    LowByteZero(high);
    StepsOnlyShift(HalvingsOf(high));
  }

  lemma WidenedBits(b: Byte, d: bv32)
    requires d == b as bv32
    ensures forall k :: 0 <= k < 8 ==> Low(HalvingsOf(d)[k]) == BitsOf(b)[k]
    ensures HalvingsOf(d)[8] == 0
  {
  }

  lemma LowBitsOfByte(b: Byte)
    ensures LowBits(Low, Half, b as bv32, 8) == BitsOf(b) && Iter(Half, b as bv32, 8) == 0
  {
    var d := b as bv32;
    WidenedBits(b, d);
    EightLowBits(Low, Half, HalvingsOf(d), BitsOf(b));
    IterEight(Half, HalvingsOf(d));
  }

  lemma XorZero(x: bv32)
    ensures Xor(x, 0) == x
  {
  }

  /** Mixing in a byte and stepping eight times shifts in its eight bits. */
  lemma MixedByteIsByteIn(crc: bv32, b: Byte)
    ensures Iter(Step, Xor(crc, b as bv32), 8) == ByteIn(crc, b)
  {
    CrcStepsShiftIn();
    IterShiftsIn(Step, Xor, ShiftIn, Low, Half, crc, b as bv32, 8);
    LowBitsOfByte(b);
    XorZero(ByteIn(crc, b));
  }

  // ---- the loops ----

  /** What the eight steps of a table entry start from. */
  function EntryStart(i: int): bv32 {
    if 0 <= i < 256 then (i as Byte) as bv32 else 0
  }

  ghost predicate IsTable(t: seq<bv32>) {
    |t| == 256 && forall i :: 0 <= i < 256 ==> t[i] == Iter(Step, EntryStart(i), 8)
  }

  method BuildTable() returns (t: seq<bv32>)
    ensures IsTable(t)
  {
    t := Tabulate(256, EntryStart, Step, 8);
  }

  lemma LowByteOf(crc: bv32, b: Byte, mixed: bv32, index: Byte)
    requires mixed == Xor(crc, b as bv32) && index == (mixed & 0xff) as Byte
    ensures mixed >> 8 == crc >> 8 && index as bv32 == mixed & 0xff
  {
  }

  lemma IndexRoundTrip(index: Byte)
    ensures 0 <= index as int < 256 && (index as int) as Byte == index
  {
  }

  /** One byte through the table. */
  method UpdateByte(t: seq<bv32>, crc: bv32, b: Byte) returns (r: bv32)
    requires IsTable(t)
    ensures r == ByteIn(crc, b)
  {
    var mixed := Xor(crc, b as bv32);
    var index := (mixed & 0xff) as Byte;
    LowByteOf(crc, b, mixed, index);
    IndexRoundTrip(index);
    r := Xor(t[index as int], crc >> 8);
    LookupIsEightSteps(mixed);
    MixedByteIsByteIn(crc, b);
  }

  /** The table-driven loop computes the bit-at-a-time remainder of every byte string. */
  method CrcUpdate(t: seq<bv32>, start: bv32, data: seq<Byte>) returns (crc: bv32)
    requires IsTable(t)
    ensures crc == Remainder(start, data)
  {
    crc := start;
    for i := 0 to |data|
      invariant crc == Remainder(start, data[..i])
    {
      FoldSnoc(ByteIn, start, data[..i], data[i]);
      assert data[..i + 1] == data[..i] + [data[i]];
      crc := UpdateByte(t, crc, data[i]);
    }
    assert data[..|data|] == data;
  }

  /** The remainder over a sequence of chunks is the remainder over their concatenation. */
  lemma {:induction false} RemainderOfChunks(start: bv32, chunks: seq<seq<Byte>>)
    ensures Fold(Remainder, start, chunks) == Remainder(start, Flatten(chunks))
  {
    if chunks != [] {
      var last := |chunks| - 1;
      RemainderOfChunks(start, chunks[..last]);
      FoldOfParts(ByteIn, start, Flatten(chunks[..last]), chunks[last]);
    }
  }
}
