/**
 * The bit layout of a Snowflake identifier, most significant bit first:
 * one clear sign bit, 41 bits of milliseconds since the epoch, 5 bits of
 * data-center ID, 5 bits of machine ID and 12 bits of sequence number.
 * The maxima are the source's masks `-1 ^ (-1 << bits)` and the shifts are
 * sums of widths; `DerivedConstants` proves that the values written here are
 * what those expressions compute.
 */
module Layout {
  import opened Bits

  /** Milliseconds since the Unix epoch at which timestamp 0 starts. */
  const Epoch: int := 1629980400000
  const MachineBits: nat := 5
  const DataCenterBits: nat := 5
  const SequenceBits: nat := 12

  const MaxMachineID: int := 31
  const MaxDataCenterID: int := 31
  const MaxSequence: int := 4095

  const MachineShift: nat := SequenceBits
  const DataCenterShift: nat := SequenceBits + MachineBits
  const TimestampShift: nat := SequenceBits + MachineBits + DataCenterBits

  /** Timestamps below 2^41 fill the bits between the shift and the sign bit. */
  const TimestampBound: int := 0x200_0000_0000

  /** The smallest value that does not fit in a Go int64. */
  const Int64Bound: int := 0x8000_0000_0000_0000

  /**
   * Each maximum is the mask `-1 ^ (-1 << bits)` of its width, the shifts
   * are 12, 17 and 22, and the timestamp field has the 41 bits between the
   * timestamp shift and the sign bit.
   */
  lemma DerivedConstants()
    ensures MaxMachineID == Xor(-1, Shl(-1, MachineBits))
    ensures MaxDataCenterID == Xor(-1, Shl(-1, DataCenterBits))
    ensures MaxSequence == Xor(-1, Shl(-1, SequenceBits))
    ensures MachineShift == 12 && DataCenterShift == 17 && TimestampShift == 22
    ensures TimestampBound == Pow2(63 - TimestampShift)
  {
    LowMask(MachineBits);
    LowMask(DataCenterBits);
    LowMask(SequenceBits);
    ShiftPowers();
    Pow2Sum(12, 7);
    Pow2Sum(22, 19);
  }

  /** The powers of two the layout uses. */
  lemma ShiftPowers()
    ensures Pow2(5) == 32 && Pow2(7) == 128
    ensures Pow2(MachineShift) == 4096 && Pow2(DataCenterShift) == 131072
    ensures Pow2(TimestampShift) == 4194304
  {
    assert Pow2(12) == 4096 && Pow2(7) == 128 && Pow2(5) == 32;
    Pow2Sum(12, 5);
    Pow2Sum(17, 5);
  }

  /** Each field lies in the range its width allows. */
  predicate FieldsInRange(timestamp: int, dataCenterID: int, machineID: int, sequence: int) {
    && 0 <= timestamp < TimestampBound
    && 0 <= dataCenterID <= MaxDataCenterID
    && 0 <= machineID <= MaxMachineID
    && 0 <= sequence <= MaxSequence
  }

  /**
   * The identifier: the four fields shifted into place and or-ed together.
   * Because no two fields share a bit, the result is the fields written
   * side by side in base 2, and it fits in an int64 with the sign bit clear.
   */
  function PackID(timestamp: int, dataCenterID: int, machineID: int, sequence: int): (id: int)
    requires FieldsInRange(timestamp, dataCenterID, machineID, sequence)
    ensures id == ((timestamp * 32 + dataCenterID) * 32 + machineID) * 4096 + sequence
    ensures 0 <= id < Int64Bound
  {
    ShiftPowers();
    var high := Shl(timestamp, TimestampShift);
    var withDataCenter := Or(high, Shl(dataCenterID, DataCenterShift));
    OrDisjoint(timestamp, dataCenterID * 131072, 22);
    assert withDataCenter == (timestamp * 32 + dataCenterID) * 131072;
    var withMachine := Or(withDataCenter, Shl(machineID, MachineShift));
    OrDisjoint(timestamp * 32 + dataCenterID, machineID * 4096, 17);
    assert withMachine == ((timestamp * 32 + dataCenterID) * 32 + machineID) * 4096;
    OrDisjoint((timestamp * 32 + dataCenterID) * 32 + machineID, sequence, 12);
    Or(withMachine, sequence)
  }

  /** `id >> 22`: the timestamp field. */
  function TimestampOf(id: int): int {
    Shr(id, TimestampShift)
  }

  /** `(id >> 17) & 31`: the data-center field. */
  function DataCenterOf(id: int): int {
    And(Shr(id, DataCenterShift), MaxDataCenterID)
  }

  /** `(id >> 12) & 31`: the machine field. */
  function MachineOf(id: int): int {
    And(Shr(id, MachineShift), MaxMachineID)
  }

  /** `id & 4095`: the sequence field. */
  function SequenceOf(id: int): int {
    And(id, MaxSequence)
  }

  /** Unpacking an identifier gives back the four fields it was packed from. */
  lemma UnpackPack(timestamp: int, dataCenterID: int, machineID: int, sequence: int)
    requires FieldsInRange(timestamp, dataCenterID, machineID, sequence)
    ensures var id := PackID(timestamp, dataCenterID, machineID, sequence);
      && TimestampOf(id) == timestamp
      && DataCenterOf(id) == dataCenterID
      && MachineOf(id) == machineID
      && SequenceOf(id) == sequence
  {
    ShiftPowers();
    var id := PackID(timestamp, dataCenterID, machineID, sequence);
    var upper := timestamp * 32 + dataCenterID;
    var middle := upper * 32 + machineID;
    DivModUnique(id, 4194304, timestamp, dataCenterID * 131072 + machineID * 4096 + sequence);
    DivModUnique(id, 131072, upper, machineID * 4096 + sequence);
    DivModUnique(id, 4096, middle, sequence);
    DivModUnique(upper, 32, timestamp, dataCenterID);
    DivModUnique(middle, 32, upper, machineID);
    AndLowMask(upper, 5);
    AndLowMask(middle, 5);
    AndLowMask(id, 12);
  }

  /** Every non-negative int64 is the identifier of the fields it unpacks to. */
  lemma PackUnpack(id: int)
    requires 0 <= id < Int64Bound
    ensures FieldsInRange(TimestampOf(id), DataCenterOf(id), MachineOf(id), SequenceOf(id))
    ensures PackID(TimestampOf(id), DataCenterOf(id), MachineOf(id), SequenceOf(id)) == id
  {
    ShiftPowers();
    var middle := id / 4096;
    var upper := middle / 32;
    DivModUnique(id, 131072, upper, (middle % 32) * 4096 + id % 4096);
    DivModUnique(id, 4194304, upper / 32, (upper % 32) * 131072 + id % 131072);
    AndLowMask(upper, 5);
    AndLowMask(middle, 5);
    AndLowMask(id, 12);
  }

  /** Two identifiers are equal exactly when all four fields are. */
  lemma PackInjective(t1: int, d1: int, m1: int, s1: int, t2: int, d2: int, m2: int, s2: int)
    requires FieldsInRange(t1, d1, m1, s1) && FieldsInRange(t2, d2, m2, s2)
    ensures PackID(t1, d1, m1, s1) == PackID(t2, d2, m2, s2) <==> t1 == t2 && d1 == d2 && m1 == m2 && s1 == s2
  {
    UnpackPack(t1, d1, m1, s1);
    UnpackPack(t2, d2, m2, s2);
  }

  /**
   * For one data center and machine, identifiers are ordered by timestamp
   * first and sequence second.
   */
  lemma PackOrder(t1: int, s1: int, t2: int, s2: int, dataCenterID: int, machineID: int)
    requires FieldsInRange(t1, dataCenterID, machineID, s1)
    requires FieldsInRange(t2, dataCenterID, machineID, s2)
    ensures PackID(t1, dataCenterID, machineID, s1) < PackID(t2, dataCenterID, machineID, s2)
      <==> t1 < t2 || (t1 == t2 && s1 < s2)
  {
    ShiftPowers();
  }
}
