/**
 `SnowflakeGenerator`: the stateful side of the snowflake scheme.

 A generator is bound to an epoch and a machine id and remembers the last
 clock reading it minted at and the set of sequences already handed out in
 that millisecond. Each call of `GenerateId` takes a clock reading, refuses a
 reading older than the remembered one, starts a fresh sequence set when the
 millisecond changed, picks a sequence not yet used in this millisecond and
 packs it into an identifier.

 The clock reading is a parameter. The source draws candidate sequences with
 `random.randint(0, MAX_SEQUENCE)` until one is unused; here the successive
 values that `randint` returns are a parameter `draws`, each in range, and the
 call takes the first unused one. When every value in `draws` is already used
 the call ends with `DrawsExhausted`, where the source would keep drawing.
 */
module Generator {
  import opened Snowflake

  datatype Error =
    | InvalidMachineId      // ValueError raised by the constructor
    | ClockMovedBackwards   // Exception raised by generate_id
    | DrawsExhausted        // the supplied draws ran out; the source keeps drawing

  datatype Result<T> = Success(value: T) | Failure(error: Error)

  /** What `randint(0, MAX_SEQUENCE)` promises of every value it returns. */
  predicate DrawsInRange(draws: seq<int>)
  {
    forall i :: 0 <= i < |draws| ==> SequenceInRange(draws[i])
  }

  /** The position at which the retry loop stops: the first draw not in
      `used`, or `|draws|` when every draw is already used. */
  function FirstUnusedIndex(draws: seq<int>, used: set<int>): (k: nat)
    ensures k <= |draws|
    ensures forall j :: 0 <= j < k ==> draws[j] in used
    ensures k < |draws| ==> draws[k] !in used
    decreases |draws|
  {
    if |draws| == 0 || draws[0] !in used then 0
    else 1 + FirstUnusedIndex(draws[1..], used)
  }

  /** The generator's mutable fields, as a value. */
  datatype GenState = GenState(lastTimestamp: int, used: set<int>)

  /** The sequences still taken once a call has read `timestamp`: all of them
      if it is the remembered millisecond, none if the millisecond changed. */
  function UsedAfterReading(st: GenState, timestamp: int): set<int>
  {
    if timestamp != st.lastTimestamp then {} else st.used
  }

  /** One call of `generate_id` on the fields `st`, as a pure function: the
      new fields and the outcome. */
  function Step(epoch: int, machineId: int, st: GenState, timestamp: int, draws: seq<int>)
    : (out: (GenState, Result<int>))
    requires MachineIdInRange(machineId) && DrawsInRange(draws)
    // a reading older than the remembered one is refused and changes nothing
    ensures timestamp < st.lastTimestamp ==> out == (st, Failure(ClockMovedBackwards))
    // otherwise the remembered reading becomes this one, so it never decreases
    ensures timestamp >= st.lastTimestamp ==> out.0.lastTimestamp == timestamp
    // which error goes with which case
    ensures out.1.Failure? ==>
              out.1.error == (if timestamp < st.lastTimestamp then ClockMovedBackwards else DrawsExhausted)
    // past the clock check, the call only fails for lack of an unused draw after the reset
    ensures timestamp >= st.lastTimestamp && out.1.Failure? ==>
              && out.0.used == UsedAfterReading(st, timestamp)
              && forall i :: 0 <= i < |draws| ==> draws[i] in UsedAfterReading(st, timestamp)
    // on success: an unused in-range sequence is taken and recorded, and the
    // identifier decodes to this reading, this machine and that sequence
    ensures out.1.Success? ==>
              var p := ParseId(out.1.value, epoch);
              && timestamp >= st.lastTimestamp
              && p == Parsed(timestamp, machineId, p.sequence)
              && p.sequence in draws
              && p.sequence !in UsedAfterReading(st, timestamp)
              && out.0.used == UsedAfterReading(st, timestamp) + {p.sequence}
              && |out.0.used| == |UsedAfterReading(st, timestamp)| + 1
              && out.1.value == MakeId(timestamp, epoch, machineId, p.sequence)
  {
    if timestamp < st.lastTimestamp then
      (st, Failure(ClockMovedBackwards))
    else
      var used := UsedAfterReading(st, timestamp);
      var k := FirstUnusedIndex(draws, used);
      if k == |draws| then
        (GenState(timestamp, used), Failure(DrawsExhausted))
      else
        var sequence := draws[k];
        ParseMakeId(timestamp, epoch, machineId, sequence);
        (GenState(timestamp, used + {sequence}),
         Success(MakeId(timestamp, epoch, machineId, sequence)))
  }

  /** The retry loop of `generate_id`: walks through the draws and stops at
      the first one not in `used`. `found` is false when every draw is
      already used. */
  method DrawUnusedSequence(draws: seq<int>, used: set<int>) returns (found: bool, sequence: int)
    requires DrawsInRange(draws)
    ensures found ==> SequenceInRange(sequence) && sequence !in used && sequence in draws
    ensures !found <==> forall i :: 0 <= i < |draws| ==> draws[i] in used
    ensures found <==> FirstUnusedIndex(draws, used) < |draws|
    ensures found ==> sequence == draws[FirstUnusedIndex(draws, used)]
  {
    var i := 0;
    found, sequence := false, 0;
    while i < |draws|
      invariant i <= |draws|
      invariant forall j :: 0 <= j < i ==> draws[j] in used
    {
      sequence := draws[i];
      if sequence !in used {
        found := true;
        break;
      }
      i := i + 1;
    }
    if found {
      assert FirstUnusedIndex(draws, used) == i;
    } else {
      assert FirstUnusedIndex(draws, used) == |draws|;
    }
  }

  class SnowflakeGenerator {
    const epoch: int
    const machineId: int
    var lastTimestamp: int
    var generatedSequences: set<int>

    ghost predicate Valid()
      reads this
    {
      && MachineIdInRange(machineId)
      && forall s :: s in generatedSequences ==> SequenceInRange(s)
    }

    function State(): GenState
      reads this
    {
      GenState(lastTimestamp, generatedSequences)
    }

    /** The field assignments of `__init__`, for a machine id already known
        to be in range. */
    constructor Init(epoch: int, machineId: int)
      requires MachineIdInRange(machineId)
      ensures Valid()
      ensures this.epoch == epoch && this.machineId == machineId
      ensures lastTimestamp == -1 && generatedSequences == {}
    {
      this.epoch := epoch;
      this.machineId := machineId;
      lastTimestamp := -1;
      generatedSequences := {};
    }

    /** `SnowflakeGenerator(epoch, machine_id)`: fails exactly when the machine
        id is outside [0, 1023]; otherwise a fresh generator that has never
        minted. */
    static method Create(epoch: int, machineId: int) returns (r: Result<SnowflakeGenerator>)
      ensures r.Failure? <==> machineId < 0 || machineId > 1023
      ensures r.Failure? ==> r.error == InvalidMachineId
      ensures r.Success? ==>
                && fresh(r.value) && r.value.Valid()
                && r.value.epoch == epoch && r.value.machineId == machineId
                && r.value.lastTimestamp == -1 && r.value.generatedSequences == {}
    {
      ConstantValues();
      if machineId < 0 || machineId > MaxMachineId {
        return Failure(InvalidMachineId);
      }
      var g := new SnowflakeGenerator.Init(epoch, machineId);
      r := Success(g);
    }

    /** `generate_id`, with the clock reading `timestamp` and the values
        `randint` would return, `draws`, as parameters. */
    method GenerateId(timestamp: int, draws: seq<int>) returns (r: Result<int>)
      requires Valid() && DrawsInRange(draws)
      modifies this
      ensures Valid()
      ensures (State(), r) == Step(epoch, machineId, old(State()), timestamp, draws)
      ensures lastTimestamp >= old(lastTimestamp)
      ensures r.Failure? && r.error == ClockMovedBackwards ==>
                lastTimestamp == old(lastTimestamp) && generatedSequences == old(generatedSequences)
    {
      if timestamp < lastTimestamp {
        return Failure(ClockMovedBackwards);
      }
      if timestamp != lastTimestamp {
        generatedSequences := {};
        lastTimestamp := timestamp;
      }
      var found, sequence := DrawUnusedSequence(draws, generatedSequences);
      if !found {
        return Failure(DrawsExhausted);
      }
      generatedSequences := generatedSequences + {sequence};
      r := Success(MakeId(timestamp, epoch, machineId, sequence));
    }
  }

  // ---------------------------------------------------------------------
  // The sequence space of one millisecond, and when the retry loop can end.

  /** The integers 0 .. n-1. */
  function Below(n: nat): (r: set<int>)
    ensures |r| == n
    ensures forall i :: i in r <==> 0 <= i < n
  {
    if n == 0 then {} else Below(n - 1) + {n - 1}
  }

  /** A subset has no more elements than the set containing it. */
  lemma {:induction false} SubsetCardinality(a: set<int>, b: set<int>)
    requires a <= b
    ensures |a| <= |b|
  {
    assert b == a + (b - a);
  }

  /** Among the integers 0 .. n-1, one is missing from `used` exactly when
      `used` has fewer than n elements. */
  lemma {:induction false} MissingValueIff(used: set<int>, n: nat)
    requires forall s :: s in used ==> 0 <= s < n
    ensures (exists s :: 0 <= s < n && s !in used) <==> |used| < n
  {
    var all := Below(n);
    assert used <= all;
    if s :| 0 <= s < n && s !in used {
      assert used <= all - {s};
      SubsetCardinality(used, all - {s});
    } else {
      assert all <= used;
      SubsetCardinality(all, used);
    }
  }

  /** Within one millisecond an unused sequence exists exactly when fewer than
      4096 sequences are used. With all 4096 used, no value `randint` can
      return is accepted, so the source's retry loop never ends. */
  lemma UnusedSequenceExistsIff(used: set<int>)
    requires forall s :: s in used ==> SequenceInRange(s)
    ensures (exists s :: SequenceInRange(s) && s !in used) <==> |used| < 4096
  {
    ConstantValues();
    MissingValueIff(used, MaxSequence + 1);
  }

  /** Once 4096 sequences are used at the remembered millisecond, a call at that
      same millisecond fails whatever `randint` returns. */
  lemma FullMillisecondAcceptsNoDraw(epoch: int, machineId: int, st: GenState, draws: seq<int>)
    requires MachineIdInRange(machineId) && DrawsInRange(draws)
    requires forall s :: s in st.used ==> SequenceInRange(s)
    requires |st.used| == 4096
    ensures Step(epoch, machineId, st, st.lastTimestamp, draws)
         == (st, Failure(DrawsExhausted))
  {
    UnusedSequenceExistsIff(st.used);
  }

  /** Conversely, while fewer than 4096 sequences are used after the reset, a
      call that is not refused for the clock can succeed: some value
      `randint` may return is accepted. */
  lemma SomeDrawSucceeds(epoch: int, machineId: int, st: GenState, timestamp: int)
    requires MachineIdInRange(machineId)
    requires forall s :: s in st.used ==> SequenceInRange(s)
    requires timestamp >= st.lastTimestamp
    requires |UsedAfterReading(st, timestamp)| < 4096
    ensures exists s :: SequenceInRange(s) && Step(epoch, machineId, st, timestamp, [s]).1.Success?
  {
    UnusedSequenceExistsIff(UsedAfterReading(st, timestamp));
    var s :| SequenceInRange(s) && s !in UsedAfterReading(st, timestamp);
    assert Step(epoch, machineId, st, timestamp, [s]).1.Success?;
  }

  // ---------------------------------------------------------------------
  // No identifier is issued twice.

  /** Two successful calls at the same clock reading, the second on the state
      the first left behind, give different identifiers. */
  lemma SameReadingDistinctIds(epoch: int, machineId: int, st: GenState, timestamp: int,
                               draws1: seq<int>, draws2: seq<int>)
    requires MachineIdInRange(machineId) && DrawsInRange(draws1) && DrawsInRange(draws2)
    ensures var (st1, r1) := Step(epoch, machineId, st, timestamp, draws1);
            var (st2, r2) := Step(epoch, machineId, st1, timestamp, draws2);
            r1.Success? && r2.Success? ==> r1.value != r2.value
  {
    var (st1, r1) := Step(epoch, machineId, st, timestamp, draws1);
    var (st2, r2) := Step(epoch, machineId, st1, timestamp, draws2);
    if r1.Success? && r2.Success? {
      var p1, p2 := ParseId(r1.value, epoch), ParseId(r2.value, epoch);
      assert p1.sequence in st1.used;
      assert UsedAfterReading(st1, timestamp) == st1.used;
      assert p1.sequence != p2.sequence;
    }
  }

  /** One call of the source: the clock reading it takes and the values
      `randint` returns during it. */
  datatype Call = Call(timestamp: int, draws: seq<int>)

  predicate CallsInRange(calls: seq<Call>)
  {
    forall i :: 0 <= i < |calls| ==> DrawsInRange(calls[i].draws)
  }

  /** A generator's successive calls: the final fields and the identifiers
      returned, in order (failed calls return none). */
  function Run(epoch: int, machineId: int, st: GenState, calls: seq<Call>)
    : (out: (GenState, seq<int>))
    requires MachineIdInRange(machineId) && CallsInRange(calls)
    decreases |calls|
  {
    if calls == [] then (st, [])
    else
      var (st1, r) := Step(epoch, machineId, st, calls[0].timestamp, calls[0].draws);
      var (st2, ids) := Run(epoch, machineId, st1, calls[1..]);
      (st2, (if r.Success? then [r.value] else []) + ids)
  }

  ghost predicate Distinct(ids: seq<int>)
  {
    forall i, j :: 0 <= i < j < |ids| ==> ids[i] != ids[j]
  }

  /** Decoded timestamps never go down along `ids`. */
  ghost predicate InClockOrder(epoch: int, ids: seq<int>)
  {
    forall i, j :: 0 <= i < j < |ids| ==> ParseId(ids[i], epoch).timestamp <= ParseId(ids[j], epoch).timestamp
  }

  /** What the fields `st` remember about the identifiers `ids` already
      issued: each carries this machine id and a millisecond no later than the
      remembered one, and those of the remembered millisecond used sequences
      that are still in the used set. */
  ghost predicate Accounted(epoch: int, machineId: int, st: GenState, ids: seq<int>)
  {
    forall i :: 0 <= i < |ids| ==>
      var p := ParseId(ids[i], epoch);
      && p.machineId == machineId
      && p.timestamp <= st.lastTimestamp
      && (p.timestamp == st.lastTimestamp ==> p.sequence in st.used)
  }

  lemma AppendAssociative(a: seq<int>, b: seq<int>, c: seq<int>)
    ensures (a + b) + c == a + (b + c)
  {
  }

  /** One call keeps the issued identifiers distinct, in clock order and
      accounted for. */
  lemma StepKeepsIssuedDistinct(epoch: int, machineId: int, st: GenState, c: Call, issued: seq<int>)
    requires MachineIdInRange(machineId) && DrawsInRange(c.draws)
    requires Accounted(epoch, machineId, st, issued)
    requires Distinct(issued) && InClockOrder(epoch, issued)
    ensures var (st1, r) := Step(epoch, machineId, st, c.timestamp, c.draws);
            var issued1 := issued + (if r.Success? then [r.value] else []);
            && Accounted(epoch, machineId, st1, issued1)
            && Distinct(issued1) && InClockOrder(epoch, issued1)
  {
    var (st1, r) := Step(epoch, machineId, st, c.timestamp, c.draws);
    if c.timestamp >= st.lastTimestamp {
      var base := UsedAfterReading(st, c.timestamp);
      forall i | 0 <= i < |issued| && ParseId(issued[i], epoch).timestamp == c.timestamp
        ensures ParseId(issued[i], epoch).sequence in base
      {
        assert c.timestamp == st.lastTimestamp;
      }
      if r.Success? {
        var p := ParseId(r.value, epoch);
        forall i | 0 <= i < |issued|
          ensures issued[i] != r.value
        {
          var q := ParseId(issued[i], epoch);
          if q.timestamp == c.timestamp {
            assert q.sequence != p.sequence;
          }
        }
      }
    }
  }

  /** Every identifier a generator issues over any succession of calls is
      distinct from every earlier one, and their decoded timestamps never go
      down; the fields keep accounting for all of them. */
  lemma {:induction false} RunKeepsIssuedDistinct(epoch: int, machineId: int, st: GenState,
                                                 calls: seq<Call>, issued: seq<int>)
    requires MachineIdInRange(machineId) && CallsInRange(calls)
    requires Accounted(epoch, machineId, st, issued)
    requires Distinct(issued) && InClockOrder(epoch, issued)
    ensures var (st', ids) := Run(epoch, machineId, st, calls);
            && Accounted(epoch, machineId, st', issued + ids)
            && Distinct(issued + ids) && InClockOrder(epoch, issued + ids)
            && st'.lastTimestamp >= st.lastTimestamp
    decreases |calls|
  {
    if calls != [] {
      var (st1, r) := Step(epoch, machineId, st, calls[0].timestamp, calls[0].draws);
      var issued1 := issued + (if r.Success? then [r.value] else []);
      StepKeepsIssuedDistinct(epoch, machineId, st, calls[0], issued);
      RunKeepsIssuedDistinct(epoch, machineId, st1, calls[1..], issued1);
      var (st2, ids) := Run(epoch, machineId, st1, calls[1..]);
      AppendAssociative(issued, if r.Success? then [r.value] else [], ids);
    }
  }

  /** A generator never returns the same identifier twice, from any starting
      fields (in particular from the freshly constructed ones), and the
      identifiers it returns are in the order of their decoded timestamps. */
  lemma RunIssuesDistinctIds(epoch: int, machineId: int, st: GenState, calls: seq<Call>)
    requires MachineIdInRange(machineId) && CallsInRange(calls)
    ensures Distinct(Run(epoch, machineId, st, calls).1)
    ensures InClockOrder(epoch, Run(epoch, machineId, st, calls).1)
  {
    var ids := Run(epoch, machineId, st, calls).1;
    RunKeepsIssuedDistinct(epoch, machineId, st, calls, []);
    assert [] + ids == ids;
  }

  /** The first call of a freshly constructed generator, at any reading not
      before the initial -1, succeeds with the first value `randint` returns,
      and its identifier decodes to exactly that reading, the machine id and
      that sequence. */
  lemma FirstCallSucceeds(epoch: int, machineId: int, timestamp: int, draws: seq<int>)
    requires MachineIdInRange(machineId) && DrawsInRange(draws) && |draws| > 0
    requires timestamp >= -1
    ensures var (st, r) := Step(epoch, machineId, GenState(-1, {}), timestamp, draws);
            && r.Success?
            && ParseId(r.value, epoch) == Parsed(timestamp, machineId, draws[0])
            && st == GenState(timestamp, {draws[0]})
  {
    assert FirstUnusedIndex(draws, {}) == 0;
  }
}
