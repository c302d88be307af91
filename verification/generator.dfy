/**
 * The Snowflake generator: a validating constructor and a `Generate`
 * method that advances a (last timestamp, sequence) state machine and
 * packs the result into an identifier.
 *
 * The wall clock is not called: every call of `Generate` receives the
 * readings of `time.Now().UnixMilli()` it will observe, in order, and
 * reports how many of them it consumed. A call reads one value, and reads
 * more only while it waits out an exhausted millisecond. The mutex is not
 * modelled: each call runs on its own, one after another.
 */
module Generator {
  import opened Bits
  import opened Layout

  datatype Option<T> = None | Some(value: T)

  datatype Result<T, E> = Ok(value: T) | Err(error: E)

  /** Why construction was refused; each carries the largest ID allowed. */
  datatype ConfigError =
    | MachineIDOutOfRange(max: int)
    | DataCenterIDOutOfRange(max: int)

  /**
   * The checks `NewSnowflake` makes before allocating: the machine ID first,
   * then the data-center ID, each against its maximum of 31.
   */
  function ConfigCheck(machineID: int, dataCenterID: int): (r: Option<ConfigError>)
    ensures r == None <==> 0 <= machineID <= 31 && 0 <= dataCenterID <= 31
    ensures !(0 <= machineID <= 31) ==> r == Some(MachineIDOutOfRange(31))
    ensures 0 <= machineID <= 31 && !(0 <= dataCenterID <= 31) ==> r == Some(DataCenterIDOutOfRange(31))
  {
    if machineID < 0 || machineID > MaxMachineID then
      Some(MachineIDOutOfRange(MaxMachineID))
    else if dataCenterID < 0 || dataCenterID > MaxDataCenterID then
      Some(DataCenterIDOutOfRange(MaxDataCenterID))
    else
      None
  }

  /** The boundary cases: -1 and 32 are refused in either position, 0 and 31 accepted. */
  lemma ConfigBoundaries()
    ensures ConfigCheck(-1, 0) == Some(MachineIDOutOfRange(31))
    ensures ConfigCheck(32, 0) == Some(MachineIDOutOfRange(31))
    ensures ConfigCheck(0, -1) == Some(DataCenterIDOutOfRange(31))
    ensures ConfigCheck(0, 32) == Some(DataCenterIDOutOfRange(31))
    ensures ConfigCheck(32, 32) == Some(MachineIDOutOfRange(31))
    ensures ConfigCheck(0, 0) == None && ConfigCheck(31, 31) == None
  {
  }

  /** The mutable part of a generator. */
  datatype State = State(lastTimestamp: int, sequence: int)

  predicate ValidState(s: State) {
    0 <= s.lastTimestamp < TimestampBound && 0 <= s.sequence <= MaxSequence
  }

  /** Strictly earlier in (timestamp, sequence) order. */
  predicate Precedes(a: State, b: State) {
    a.lastTimestamp < b.lastTimestamp || (a.lastTimestamp == b.lastTimestamp && a.sequence < b.sequence)
  }

  /** A clock reading as milliseconds since the epoch. */
  function Stamp(reading: int): int {
    reading - Epoch
  }

  /** Every reading lies between the epoch and the last millisecond the 41-bit field holds. */
  predicate ReadingsInRange(clock: seq<int>) {
    forall i :: 0 <= i < |clock| ==> 0 <= Stamp(clock[i]) < TimestampBound
  }

  /** No reading is earlier than the one before it. */
  predicate NonDecreasing(clock: seq<int>) {
    forall i, j :: 0 <= i < j < |clock| ==> clock[i] <= clock[j]
  }

  /** The millisecond is exhausted: the first reading repeats it and the sequence is at its maximum. */
  predicate Exhausted(s: State, clock: seq<int>)
    requires |clock| > 0
  {
    Stamp(clock[0]) == s.lastTimestamp && s.sequence == MaxSequence
  }

  /**
   * A call can complete on these readings: there is a first one, and when
   * the millisecond is exhausted a later one shows a different millisecond
   * (the real clock eventually moves on; here the readings must say so).
   */
  predicate CanStep(s: State, clock: seq<int>) {
    && |clock| > 0
    && (Exhausted(s, clock) ==> exists j :: 1 <= j < |clock| && Stamp(clock[j]) != s.lastTimestamp)
  }

  /** The index of the first reading, from `from` on, whose millisecond differs from `last`. */
  function FirstDifferent(clock: seq<int>, last: int, from: nat): (k: nat)
    requires from <= |clock|
    requires exists j :: from <= j < |clock| && Stamp(clock[j]) != last
    ensures from <= k < |clock| && Stamp(clock[k]) != last
    ensures forall j :: from <= j < k ==> Stamp(clock[j]) == last
    decreases |clock| - from
  {
    if Stamp(clock[from]) != last then from else FirstDifferent(clock, last, from + 1)
  }

  /** The outcome of one call: the new state and how many readings it took. */
  datatype Step = Step(next: State, used: nat)

  /**
   * What one call of `Generate` does to the state, stated without bit
   * operations: a new millisecond restarts the sequence at 0; a repeated
   * one counts up; an exhausted one waits for the first reading of another
   * millisecond and restarts there.
   */
  function Next(s: State, clock: seq<int>): (r: Step)
    requires ValidState(s) && CanStep(s, clock) && ReadingsInRange(clock)
    ensures 1 <= r.used <= |clock|
    ensures ValidState(r.next)
    ensures r.next.lastTimestamp == Stamp(clock[r.used - 1])
  {
    var t := Stamp(clock[0]);
    if t != s.lastTimestamp then
      Step(State(t, 0), 1)
    else if s.sequence < MaxSequence then
      Step(State(t, s.sequence + 1), 1)
    else
      var k := FirstDifferent(clock, s.lastTimestamp, 1);
      Step(State(Stamp(clock[k]), 0), k + 1)
  }

  /**
   * `(sequence + 1) & maxSequence` counts up and wraps to 0 after the
   * maximum.
   */
  lemma IncrementWraps(sequence: int)
    requires 0 <= sequence <= MaxSequence
    ensures And(sequence + 1, MaxSequence) == if sequence == 4095 then 0 else sequence + 1
  {
    ShiftPowers();
    AndLowMask(sequence + 1, SequenceBits);
  }

  /** A call never leaves the (timestamp, sequence) pair as it found it. */
  lemma NextChanges(s: State, clock: seq<int>)
    requires ValidState(s) && CanStep(s, clock) && ReadingsInRange(clock)
    ensures Next(s, clock).next != s
  {
  }

  /**
   * Once the sequence is exhausted, a call waits through every reading of
   * the same millisecond, restarts the sequence, and moves to the first
   * reading of another millisecond.
   */
  lemma NextWaitsWhenExhausted(s: State, clock: seq<int>)
    requires ValidState(s) && CanStep(s, clock) && ReadingsInRange(clock)
    requires Exhausted(s, clock)
    ensures var r := Next(s, clock);
      && r.used >= 2
      && r.next.sequence == 0
      && r.next.lastTimestamp != s.lastTimestamp
      && forall j :: 0 <= j < r.used - 1 ==> Stamp(clock[j]) == s.lastTimestamp
  {
  }

  /** If no reading is older than the last timestamp, a call moves strictly forward. */
  lemma NextAdvances(s: State, clock: seq<int>)
    requires ValidState(s) && CanStep(s, clock) && ReadingsInRange(clock)
    requires forall i :: 0 <= i < |clock| ==> Stamp(clock[i]) >= s.lastTimestamp
    ensures Precedes(s, Next(s, clock).next)
  {
  }

  /** `n` calls in a row can complete, each starting at the reading where the previous one stopped. */
  predicate Feasible(s: State, clock: seq<int>, n: nat)
    requires ReadingsInRange(clock)
    decreases n
  {
    n == 0 ||
    (&& ValidState(s)
     && CanStep(s, clock)
     && var r := Next(s, clock);
        Feasible(r.next, clock[r.used..], n - 1))
  }

  /** The identifiers returned by `n` calls in a row on one generator. */
  function Run(s: State, machineID: int, dataCenterID: int, clock: seq<int>, n: nat): (ids: seq<int>)
    requires ConfigCheck(machineID, dataCenterID) == None
    requires ReadingsInRange(clock) && Feasible(s, clock, n)
    ensures |ids| == n
    decreases n
  {
    if n == 0 then []
    else
      var r := Next(s, clock);
      [PackID(r.next.lastTimestamp, dataCenterID, machineID, r.next.sequence)]
        + Run(r.next, machineID, dataCenterID, clock[r.used..], n - 1)
  }

  /** The identifier a call returns when it leaves the generator in state `s`. */
  function IDOf(s: State, machineID: int, dataCenterID: int): int
    requires ValidState(s) && ConfigCheck(machineID, dataCenterID) == None
  {
    PackID(s.lastTimestamp, dataCenterID, machineID, s.sequence)
  }

  predicate StrictlyIncreasing(ids: seq<int>) {
    forall i, j :: 0 <= i < j < |ids| ==> ids[i] < ids[j]
  }

  predicate AllAbove(ids: seq<int>, bound: int) {
    forall i :: 0 <= i < |ids| ==> bound < ids[i]
  }

  lemma Prepend(bound: int, first: int, tail: seq<int>)
    requires bound < first && AllAbove(tail, first) && StrictlyIncreasing(tail)
    ensures AllAbove([first] + tail, bound) && StrictlyIncreasing([first] + tail)
  {
    var ids := [first] + tail;
    forall i, j | 0 <= i < j < |ids| ensures ids[i] < ids[j] {
      assert ids[j] == tail[j - 1];
      if i > 0 {
        assert ids[i] == tail[i - 1];
      }
    }
    forall i | 0 <= i < |ids| ensures bound < ids[i] {
      if i > 0 {
        assert ids[i] == tail[i - 1];
      }
    }
  }

  /**
   * With a clock that never goes backwards and never reads earlier than the
   * last timestamp, successive identifiers strictly increase, and all exceed
   * the identifier of the starting state.
   */
  lemma {:induction false} RunIncreasing(s: State, machineID: int, dataCenterID: int, clock: seq<int>, n: nat)
    requires ConfigCheck(machineID, dataCenterID) == None
    requires ReadingsInRange(clock) && Feasible(s, clock, n) && ValidState(s)
    requires NonDecreasing(clock)
    requires |clock| > 0 ==> Stamp(clock[0]) >= s.lastTimestamp
    ensures var ids := Run(s, machineID, dataCenterID, clock, n);
      StrictlyIncreasing(ids) && AllAbove(ids, IDOf(s, machineID, dataCenterID))
    decreases n
  {
    if n > 0 {
      var r := Next(s, clock);
      var rest := clock[r.used..];
      NextAdvances(s, clock);
      PackOrder(s.lastTimestamp, s.sequence, r.next.lastTimestamp, r.next.sequence, dataCenterID, machineID);
      assert |rest| > 0 ==> Stamp(rest[0]) >= r.next.lastTimestamp by {
        if |rest| > 0 {
          assert rest[0] == clock[r.used] && clock[r.used - 1] <= clock[r.used];
        }
      }
      RunIncreasing(r.next, machineID, dataCenterID, rest, n - 1);
      Prepend(IDOf(s, machineID, dataCenterID), IDOf(r.next, machineID, dataCenterID),
              Run(r.next, machineID, dataCenterID, rest, n - 1));
    }
  }

  /** Under the same clock, no two calls return the same identifier. */
  lemma RunUnique(s: State, machineID: int, dataCenterID: int, clock: seq<int>, n: nat)
    requires ConfigCheck(machineID, dataCenterID) == None
    requires ReadingsInRange(clock) && Feasible(s, clock, n) && ValidState(s)
    requires NonDecreasing(clock)
    requires |clock| > 0 ==> Stamp(clock[0]) >= s.lastTimestamp
    ensures var ids := Run(s, machineID, dataCenterID, clock, n);
      forall i, j :: 0 <= i < n && 0 <= j < n && i != j ==> ids[i] != ids[j]
  {
    RunIncreasing(s, machineID, dataCenterID, clock, n);
  }

  /**
   * A fresh generator (data center 1, machine 1) called three times within
   * one millisecond returns one timestamp with sequences 0, 1 and 2.
   */
  lemma ThreeCallsInOneMillisecond()
    ensures var clock := [Epoch + 7, Epoch + 7, Epoch + 7];
      && ReadingsInRange(clock)
      && Feasible(State(0, 0), clock, 3)
      && Run(State(0, 0), 1, 1, clock, 3) == [PackID(7, 1, 1, 0), PackID(7, 1, 1, 1), PackID(7, 1, 1, 2)]
  {
    var clock := [Epoch + 7, Epoch + 7, Epoch + 7];
    assert clock[1..] == [Epoch + 7, Epoch + 7];
    assert clock[1..][1..] == [Epoch + 7];
  }

  /**
   * A clock that steps back is taken for a new millisecond: from state
   * (10, 0), readings 9 and then 10 produce the identifiers for (9, 0)
   * and (10, 0) — a smaller identifier, then the one the state (10, 0)
   * had already returned.
   */
  lemma BackwardClockRepeatsID()
    ensures var clock := [Epoch + 9, Epoch + 10];
      && ReadingsInRange(clock)
      && Feasible(State(10, 0), clock, 2)
      && Run(State(10, 0), 1, 1, clock, 2) == [PackID(9, 1, 1, 0), PackID(10, 1, 1, 0)]
      && PackID(9, 1, 1, 0) < IDOf(State(10, 0), 1, 1)
      && PackID(10, 1, 1, 0) == IDOf(State(10, 0), 1, 1)
  {
    var clock := [Epoch + 9, Epoch + 10];
    assert clock[1..] == [Epoch + 10];
  }

  /** A generator instance: two IDs fixed at construction and the state `Generate` updates. */
  class Snowflake {
    var machineID: int
    var dataCenterID: int
    var sequence: int
    var lastTimestamp: int

    ghost predicate Valid()
      reads this
    {
      ConfigCheck(machineID, dataCenterID) == None && ValidState(Current())
    }

    function Current(): State
      reads this
    {
      State(lastTimestamp, sequence)
    }

    /** The struct literal of `NewSnowflake`: the two IDs, and zero for the rest. */
    constructor (machineID: int, dataCenterID: int)
      requires ConfigCheck(machineID, dataCenterID) == None
      ensures Valid()
      ensures this.machineID == machineID && this.dataCenterID == dataCenterID
      ensures Current() == State(0, 0)
    {
      this.machineID := machineID;
      this.dataCenterID := dataCenterID;
      this.sequence := 0;
      this.lastTimestamp := 0;
    }

    /**
     * One call, on the readings `clock` (`used` of them consumed). The IDs
     * are left alone; the new state is `Next` of the old one, differs from
     * it, and the identifier unpacks to the IDs and the new state.
     */
    method Generate(clock: seq<int>) returns (id: int, used: nat)
      requires Valid() && ReadingsInRange(clock) && CanStep(Current(), clock)
      modifies this`sequence, this`lastTimestamp
      ensures Valid()
      ensures machineID == old(machineID) && dataCenterID == old(dataCenterID)
      ensures Step(Current(), used) == Next(old(Current()), clock)
      ensures Current() != old(Current())
      ensures id == IDOf(Current(), machineID, dataCenterID)
      ensures && TimestampOf(id) == lastTimestamp && DataCenterOf(id) == dataCenterID
              && MachineOf(id) == machineID && SequenceOf(id) == sequence
    {
      ghost var before := Current();
      var k := 0;
      var timestamp := Stamp(clock[k]);
      if timestamp == lastTimestamp {
        IncrementWraps(sequence);
        sequence := And(sequence + 1, MaxSequence);
        if sequence == 0 {
          // the reading at which the real clock has moved on
          ghost var moved :| 1 <= moved < |clock| && Stamp(clock[moved]) != lastTimestamp;
          while timestamp == lastTimestamp
            invariant 0 <= k <= moved && timestamp == Stamp(clock[k])
            invariant forall j :: 0 <= j < k ==> Stamp(clock[j]) == lastTimestamp
            decreases moved - k
          {
            k := k + 1;
            timestamp := Stamp(clock[k]);
          }
          ghost var first := FirstDifferent(clock, before.lastTimestamp, 1);
          assert k == first;
          assert Next(before, clock) == Step(State(timestamp, 0), k + 1);
        } else {
          assert Next(before, clock) == Step(State(timestamp, sequence), 1);
        }
      } else {
        sequence := 0;
        assert Next(before, clock) == Step(State(timestamp, 0), 1);
      }
      lastTimestamp := timestamp;
      id := PackID(timestamp, dataCenterID, machineID, sequence);
      used := k + 1;
      UnpackPack(lastTimestamp, dataCenterID, machineID, sequence);
    }
  }

  /**
   * `NewSnowflake`: refuses out-of-range IDs with the first failing check's
   * error, and otherwise returns a new generator holding the IDs unchanged,
   * with sequence and last timestamp zero.
   */
  method NewSnowflake(machineID: int, dataCenterID: int) returns (r: Result<Snowflake, ConfigError>)
    ensures r.Err? <==> ConfigCheck(machineID, dataCenterID).Some?
    ensures r.Err? ==> Some(r.error) == ConfigCheck(machineID, dataCenterID)
    ensures r.Ok? ==> && fresh(r.value) && r.value.Valid()
                      && r.value.machineID == machineID && r.value.dataCenterID == dataCenterID
                      && r.value.Current() == State(0, 0)
  {
    var check := ConfigCheck(machineID, dataCenterID);
    if check.Some? {
      return Err(check.value);
    }
    var s := new Snowflake(machineID, dataCenterID);
    return Ok(s);
  }
}
