# Snowflake identifiers, modelled in Dafny

This project models `packages/core/src/utils/snowflake.py`: a "snowflake"
identifier scheme. An identifier packs three fields into one integer:
`(timestamp - epoch) << 22 | machine_id << 12 | sequence`. That is the
millisecond offset from a configured epoch, then a 10-bit machine id, then a
12-bit sequence number.

- `Bits.dfy` (module `Bits`) gives Python's integer operators `<<`, `>>`, `|`,
  `&` and `^` on unbounded integers, in infinite two's complement. `|`, `&`
  and `^` are defined bit by bit. Lemmas prove that in the situations the
  source uses them, they are addition, remainder and `-1 - y`.
- `Snowflake.dfy` (module `Snowflake`) holds the class constants and the
  packing expression of `generate_id` (`MakeId`). It also holds
  `parse_snowflake_id` (`ParseId`) and the round trips between the two, in
  both directions.
- `Generator.dfy` (module `Generator`) holds the class `SnowflakeGenerator`.
  It has the fields `epoch`, `machineId`, `lastTimestamp` and
  `generatedSequences`. `Create` models the constructor and its `ValueError`.
  `GenerateId` models `generate_id`. It is proved against `Step`, a pure
  function that takes the fields as a value (`GenState`) and returns the new
  fields and the outcome. Lemmas about `Step` and about `Run` (a succession
  of calls) state the guarantees: the remembered millisecond never goes
  down, and no identifier is issued twice.

Inputs the source takes from its environment are parameters here:

- The clock reading that `current_time()` returns is the `timestamp`
  argument of `GenerateId`.
- The values that `random.randint(0, MAX_SEQUENCE)` returns, one per pass of
  the retry loop, are the `draws` argument. Each draw must lie in
  [0, 4095], which is what `randint` promises. The loop takes the first draw
  not yet used in the current millisecond.
- When every supplied draw is already used, the call ends with the
  model-only outcome `DrawsExhausted`. The source would keep drawing
  instead. `UnusedSequenceExistsIff` and `FullMillisecondAcceptsNoDraw` show
  when that matters. Once all 4096 sequences of a millisecond are used, no
  draw is ever accepted, so the source's `while True` loop never ends. While
  fewer are used, some draw succeeds (`SomeDrawSucceeds`).

Where the code departs from the usual 64-bit snowflake layout, the model
follows the code:

- Identifiers are unbounded Python integers, not 64-bit values. The
  timestamp field has no width limit, and a reading before the epoch gives a
  negative identifier.
- The machine id and the sequence are not masked before packing. The range
  checks make masking unnecessary: `MakeIdIsSum` proves the `|` is plain
  addition.
- There is no wait for the next millisecond when the sequence space is full.
- The "never minted" sentinel is the number -1. A first reading below -1 is
  therefore refused as a backwards clock.

## Model

| member | source | states |
|---|---|---|
| `Bits.XorMinusOne` | packages/core/src/utils/snowflake.py:7-8 | `-1 ^ y` is `-1 - y` for every integer `y` (Python's `~y`) |
| `Bits.LowMaskOfWidth` | packages/core/src/utils/snowflake.py:7-8 | `-1 ^ (-1 << k)` equals `2^k - 1`, the mask of the k lowest bits |
| `Bits.OrIntoZeroBits` | packages/core/src/utils/snowflake.py:42-44 | `(x << k) OR y` equals `x * 2^k + y` whenever `0 <= y < 2^k`, for any sign of `x` |
| `Bits.OrOfShifted` | packages/core/src/utils/snowflake.py:42-43 | shifting both operands of bitwise OR left by k shifts the result left by k |
| `Bits.AndLowMask` | packages/core/src/utils/snowflake.py:50-51 | `x & (2^k - 1)` is `x mod 2^k`, also for negative `x` |
| `Snowflake.ConstantValues` | packages/core/src/utils/snowflake.py:4-11 | MAX_MACHINE_ID = 2^10 - 1 = 1023, MAX_SEQUENCE = 2^12 - 1 = 4095, MACHINE_ID_SHIFT = 12 = SEQUENCE_BITS, TIMESTAMP_LEFT_SHIFT = 22 = MACHINE_ID_SHIFT + MACHINE_ID_BITS |
| `Snowflake.ParseId` | packages/core/src/utils/snowflake.py:48-52 | for any integer id, the decoded machine id lies in [0, 1023] and the decoded sequence in [0, 4095] |
| `Snowflake.ParseIdFields` | packages/core/src/utils/snowflake.py:49-51 | the decoded fields are `id div 2^22 + epoch`, `(id div 2^12) mod 2^10` and `id mod 2^12` |
| `Snowflake.MakeIdIsSum` | packages/core/src/utils/snowflake.py:42-44 | with the machine id and sequence in range, the packed id is `(timestamp - epoch) * 2^22 + machine_id * 2^12 + sequence` |
| `Snowflake.ParseMakeId` | packages/core/src/utils/snowflake.py:42-52 | round trip: parsing the packed id with the same epoch gives back exactly (timestamp, machine_id, sequence) |
| `Snowflake.MakeIdOfParse` | packages/core/src/utils/snowflake.py:48-52 | reverse round trip: every integer is the id packed from the fields it parses to |
| `Snowflake.MakeIdInjective` | packages/core/src/utils/snowflake.py:42-44 | two ids packed from in-range fields are equal only if their reading, machine id and sequence are all equal |
| `Snowflake.IdOrderFollowsClock` | packages/core/src/utils/snowflake.py:42-44 | an id from an earlier reading is smaller than any id from a later reading, whatever the machine ids and sequences, and its decoded timestamp is smaller too |
| `Generator.FirstUnusedIndex` | packages/core/src/utils/snowflake.py:36-40 | the retry loop stops at the first draw not in the used set; every earlier draw is used; it reaches the end only if all draws are used |
| `Generator.DrawUnusedSequence` | packages/core/src/utils/snowflake.py:36-40 | the loop finds a sequence exactly when some draw is unused; the sequence it returns is that first unused draw, in [0, 4095] and not in the used set |
| `Generator.Step` | packages/core/src/utils/snowflake.py:26-46 | a reading older than `last_timestamp` fails and changes nothing. Otherwise `last_timestamp` becomes the reading, and the used set is emptied first if the reading changed. On success the chosen sequence is in range, was unused, and is added, so the set grows by exactly one. The id decodes to (reading, machine_id, sequence). The only other failure is running out of draws, with every draw already used |
| `Generator.SnowflakeGenerator.Init` | packages/core/src/utils/snowflake.py:13-17 | stores epoch and machine id, `last_timestamp = -1`, empty sequence set |
| `Generator.SnowflakeGenerator.Create` | packages/core/src/utils/snowflake.py:13-20 | construction fails with InvalidMachineId exactly when `machine_id < 0` or `machine_id > 1023`; otherwise a fresh generator with `last_timestamp = -1` and an empty set |
| `Generator.SnowflakeGenerator.GenerateId` | packages/core/src/utils/snowflake.py:26-46 | the new fields and the result are those of `Step`. `last_timestamp` never decreases. A backwards clock leaves both fields unchanged. The class invariant (machine id and every used sequence in range) is kept |
| `Generator.UnusedSequenceExistsIff` | packages/core/src/utils/snowflake.py:36-40 | an in-range sequence outside the used set exists exactly when fewer than 4096 are used |
| `Generator.FullMillisecondAcceptsNoDraw` | packages/core/src/utils/snowflake.py:32-40 | with 4096 sequences used at the remembered millisecond, a call at that millisecond accepts no draw at all: the source loops forever |
| `Generator.SomeDrawSucceeds` | packages/core/src/utils/snowflake.py:32-40 | with fewer than 4096 used after the reset, some value `randint` may return makes the call succeed |
| `Generator.SameReadingDistinctIds` | packages/core/src/utils/snowflake.py:32-44 | two successful calls at the same reading, the second on the state left by the first, return different ids |
| `Generator.StepKeepsIssuedDistinct` | packages/core/src/utils/snowflake.py:29-44 | one call keeps the issued ids pairwise distinct and in clock order. The fields keep accounting for all of them: each has a millisecond no later than `last_timestamp`, and each issued in that millisecond has its sequence in the used set |
| `Generator.RunKeepsIssuedDistinct` | packages/core/src/utils/snowflake.py:26-46 | over any succession of calls, the ids issued stay pairwise distinct and in clock order, and `last_timestamp` never decreases |
| `Generator.RunIssuesDistinctIds` | packages/core/src/utils/snowflake.py:26-46 | a generator never returns the same id twice, from any starting fields, and its ids come out in order of their decoded timestamps |
| `Generator.FirstCallSucceeds` | packages/core/src/utils/snowflake.py:26-46 | the first call of a fresh generator, at any reading of at least -1, succeeds with the first draw. Its id decodes to (reading, machine_id, that draw). For example: epoch 1577836800000, machine 1, reading epoch + 5000 |

## Left out

- `current_time` (packages/core/src/utils/snowflake.py:22-24) reads the wall clock and converts a float to an int. It is replaced by the `timestamp` parameter of `GenerateId`.
- `random.randint` (packages/core/src/utils/snowflake.py:37): its randomness is not modelled. Only its range is kept, through the `draws` parameter.
- `Generator.SnowflakeGenerator.GenerateId`: with a finite list of draws, a call whose draws are all used ends in `DrawsExhausted`. The source would keep drawing. With a full millisecond the source loops forever (see `FullMillisecondAcceptsNoDraw`).
- The demonstration block at packages/core/src/utils/snowflake.py:54-72. It prints sample ids, and its epoch is computed with floating-point arithmetic.
- Concurrency: the source has no locking. The model assumes one caller at a time.
- Fixed-width overflow: Python integers are unbounded, and so are the model's.
- The exception messages of the source. The model keeps only the kind of error: `InvalidMachineId` or `ClockMovedBackwards`.
