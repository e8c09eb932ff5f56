/**
 The snowflake identifier layout: the class constants of `SnowflakeGenerator`,
 the packing expression of `generate_id` and the decoder `parse_snowflake_id`.

 An identifier is `(timestamp - epoch) << 22 | machine_id << 12 | sequence`:
 the millisecond offset from the epoch in the high bits, a 10-bit machine id
 and a 12-bit sequence number below it.
 */
module Snowflake {
  import opened Bits

  const MachineIdBits: nat := 10
  const SequenceBits: nat := 12

  /** The largest machine id, and the mask of its field; the source computes
      it as `-1 ^ (-1 << MACHINE_ID_BITS)` (see `ConstantValues`). */
  const MaxMachineId: int := 1023
  /** The largest sequence, and the mask of its field; the source computes it
      as `-1 ^ (-1 << SEQUENCE_BITS)` (see `ConstantValues`). */
  const MaxSequence: int := 4095

  const MachineIdShift: nat := SequenceBits
  const TimestampLeftShift: nat := SequenceBits + MachineIdBits

  /** The class constants as the source computes them, and the field layout
      they describe: each mask is 2^bits - 1, the machine id sits directly
      above the sequence, and the timestamp directly above the machine id. */
  lemma ConstantValues()
    ensures MaxMachineId == Xor(-1, ShiftLeft(-1, MachineIdBits)) == Pow2(MachineIdBits) - 1
    ensures MaxSequence == Xor(-1, ShiftLeft(-1, SequenceBits)) == Pow2(SequenceBits) - 1
    ensures MachineIdShift == 12 && MachineIdShift == SequenceBits
    ensures TimestampLeftShift == 22 && TimestampLeftShift == MachineIdShift + MachineIdBits
    ensures Pow2(MachineIdShift) == 4096 && Pow2(TimestampLeftShift) == 4194304
  {
    LowMaskOfWidth(MachineIdBits);
    LowMaskOfWidth(SequenceBits);
    assert Pow2(10) == 1024;
    assert Pow2(12) == 4096;
    assert Pow2(22) == 4194304;
  }

  predicate MachineIdInRange(machineId: int)
  {
    !(machineId < 0 || machineId > MaxMachineId)
  }

  predicate SequenceInRange(sequence: int)
  {
    0 <= sequence <= MaxSequence
  }

  /** The identifier `generate_id` builds from a clock reading. */
  function MakeId(timestamp: int, epoch: int, machineId: int, sequence: int): int
  {
    Or(Or(ShiftLeft(timestamp - epoch, TimestampLeftShift),
          ShiftLeft(machineId, MachineIdShift)),
       sequence)
  }

  /** What `parse_snowflake_id` returns. */
  datatype Parsed = Parsed(timestamp: int, machineId: int, sequence: int)

  /** `parse_snowflake_id`: accepts any integer, and always yields a machine id
      and a sequence that fit their fields. */
  function ParseId(id: int, epoch: int): (p: Parsed)
    ensures MachineIdInRange(p.machineId) && SequenceInRange(p.sequence)
    // the same bounds with the constants written out, for callers' convenience
    ensures 0 <= p.machineId <= 1023 && 0 <= p.sequence <= 4095
  {
    ConstantValues();
    AndLowMask(ShiftRight(id, MachineIdShift), MachineIdBits);
    AndLowMask(id, SequenceBits);
    Parsed(ShiftRight(id, TimestampLeftShift) + epoch,
           And(ShiftRight(id, MachineIdShift), MaxMachineId),
           And(id, MaxSequence))
  }

  /** With both low fields in range the three fields do not overlap, so the
      `|` in the packing is addition. */
  lemma MakeIdIsSum(timestamp: int, epoch: int, machineId: int, sequence: int)
    requires MachineIdInRange(machineId) && SequenceInRange(sequence)
    ensures MakeId(timestamp, epoch, machineId, sequence)
         == (timestamp - epoch) * 4194304 + machineId * 4096 + sequence
  {
    ConstantValues();
    var delta := timestamp - epoch;
    assert ShiftLeft(delta, TimestampLeftShift) == ShiftLeft(delta * 1024, 12);
    OrOfShifted(delta * 1024, machineId, 12);
    assert delta * 1024 == ShiftLeft(delta, MachineIdBits);
    OrIntoZeroBits(delta, MachineIdBits, machineId);
    OrIntoZeroBits(delta * 1024 + machineId, 12, sequence);
  }

  /** Division and remainder recover the three fields of the sum form. */
  lemma FieldsOfSum(delta: int, machineId: int, sequence: int)
    requires 0 <= machineId < 1024 && 0 <= sequence < 4096
    ensures var id := delta * 4194304 + machineId * 4096 + sequence;
            id / 4194304 == delta && (id / 4096) % 1024 == machineId && id % 4096 == sequence
  {
    var id := delta * 4194304 + machineId * 4096 + sequence;
    DivModUnique(id, 4194304, delta, machineId * 4096 + sequence);
    DivModUnique(id, 4096, delta * 1024 + machineId, sequence);
    DivModUnique(delta * 1024 + machineId, 1024, delta, machineId);
  }

  /** The three expressions of `parse_snowflake_id` as division and remainder. */
  lemma ParseIdFields(id: int, epoch: int)
    ensures ParseId(id, epoch).timestamp == id / 4194304 + epoch
    ensures ParseId(id, epoch).machineId == (id / 4096) % 1024
    ensures ParseId(id, epoch).sequence == id % 4096
  {
    ConstantValues();
    AndLowMask(ShiftRight(id, MachineIdShift), MachineIdBits);
    AndLowMask(id, SequenceBits);
  }

  /** Round trip: parsing an identifier built from in-range fields gives back
      the clock reading, the machine id and the sequence exactly. */
  lemma ParseMakeId(timestamp: int, epoch: int, machineId: int, sequence: int)
    requires MachineIdInRange(machineId) && SequenceInRange(sequence)
    ensures ParseId(MakeId(timestamp, epoch, machineId, sequence), epoch)
         == Parsed(timestamp, machineId, sequence)
  {
    ConstantValues();
    MakeIdIsSum(timestamp, epoch, machineId, sequence);
    FieldsOfSum(timestamp - epoch, machineId, sequence);
    ParseIdFields(MakeId(timestamp, epoch, machineId, sequence), epoch);
  }

  /** The other direction: every integer is the identifier built from the
      fields it parses to, so parsing loses nothing. */
  lemma MakeIdOfParse(id: int, epoch: int)
    ensures var p := ParseId(id, epoch);
            MakeId(p.timestamp, epoch, p.machineId, p.sequence) == id
  {
    ConstantValues();
    var p := ParseId(id, epoch);
    ParseIdFields(id, epoch);
    MakeIdIsSum(p.timestamp, epoch, p.machineId, p.sequence);
    var hi := (id / 4096) / 1024;
    assert id / 4096 == 1024 * hi + p.machineId;
    assert id == 4096 * (id / 4096) + p.sequence;
    assert id == 4194304 * hi + (p.machineId * 4096 + p.sequence);
    DivModUnique(id, 4194304, hi, p.machineId * 4096 + p.sequence);
  }

  /** Distinct field triples give distinct identifiers, whichever machine
      built them. */
  lemma MakeIdInjective(epoch: int, t1: int, m1: int, s1: int, t2: int, m2: int, s2: int)
    requires MachineIdInRange(m1) && SequenceInRange(s1)
    requires MachineIdInRange(m2) && SequenceInRange(s2)
    requires MakeId(t1, epoch, m1, s1) == MakeId(t2, epoch, m2, s2)
    ensures t1 == t2 && m1 == m2 && s1 == s2
  {
    ParseMakeId(t1, epoch, m1, s1);
    ParseMakeId(t2, epoch, m2, s2);
  }

  /** An identifier from an earlier millisecond is numerically smaller than
      any identifier from a later one, whatever their machine ids and
      sequences; so is the timestamp decoded from it. */
  lemma IdOrderFollowsClock(epoch: int, t1: int, m1: int, s1: int, t2: int, m2: int, s2: int)
    requires MachineIdInRange(m1) && SequenceInRange(s1)
    requires MachineIdInRange(m2) && SequenceInRange(s2)
    requires t1 < t2
    ensures MakeId(t1, epoch, m1, s1) < MakeId(t2, epoch, m2, s2)
    ensures ParseId(MakeId(t1, epoch, m1, s1), epoch).timestamp
          < ParseId(MakeId(t2, epoch, m2, s2), epoch).timestamp
  {
    ConstantValues();
    MakeIdIsSum(t1, epoch, m1, s1);
    MakeIdIsSum(t2, epoch, m2, s2);
    ParseMakeId(t1, epoch, m1, s1);
    ParseMakeId(t2, epoch, m2, s2);
  }
}
