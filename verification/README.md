# Snowflake ID generator, modelled in Dafny

This project models the Snowflake identifier generator of `main.go`. A
generator is built from a machine ID and a data-center ID, each 0..31.
Each call of `Generate` returns a 64-bit identifier. From the most
significant bit down, the identifier holds a clear sign bit, 41 bits of
milliseconds since a fixed epoch (2021-08-26), 5 bits of data-center ID,
5 bits of machine ID and a 12-bit sequence number. The sequence counts the
identifiers issued within one millisecond.

The project has three modules:

- `Bits` (`bits.dfy`): Go's `<<`, `>>`, `&`, `|` and `^` on signed
  integers. The bitwise operators use two's complement over unbounded
  integers. They are defined by recursion on the lowest bit, so the
  constant masks `-1 ^ (-1 << n)` come out exactly as Go computes them.
- `Layout` (`layout.dfy`): the width, mask and shift constants, and the
  packing of line 77 (`PackID`). It also has the inverse shift-and-mask
  functions and the round trip, injectivity and ordering lemmas.
- `Generator` (`generator.dfy`): the constructor checks (`ConfigCheck`,
  `NewSnowflake`) and the class `Snowflake`. The class has the four fields
  of the Go struct and the method `Generate`, which updates `sequence` and
  `lastTimestamp` in place, busy-wait loop included. `Generate` is proved
  against `Next`, a definition of one call in plain arithmetic. The
  function `Run` gives the identifiers of several calls in a row, and the
  monotonicity and uniqueness lemmas are stated over `Run`.

The clock is a parameter. A call of `Generate` receives the
`time.Now().UnixMilli()` readings it will observe, in order, and reports
how many it consumed.

As written, `Generate` does not check whether the clock moved backwards.
Any reading other than the last timestamp resets the sequence to 0, and
the error result is always nil. So increasing and unique identifiers are
proved only for clocks that never go backwards (`RunIncreasing`,
`RunUnique`). `BackwardClockRepeatsID` shows a backward step that returns a
smaller identifier, followed by a repeat of an earlier one.

## Model

| member | source | states |
|---|---|---|
| `Layout.DerivedConstants` | main.go:12-26 | each maximum equals the mask `-1 ^ (-1 << bits)` of its width (31, 31, 4095); the shifts are 12, 17 and 22; the timestamp field is the 41 bits below the sign bit |
| `Bits.LowMask` | main.go:18-20 | for every width n, `-1 ^ (-1 << n)` is 2^n - 1, the value with exactly the low n bits set |
| `Generator.ConfigCheck` | main.go:38-44 | no error exactly when both IDs are in [0, 31]; an out-of-range machine ID is reported first, whatever the data-center ID; each error carries the maximum 31 |
| `Generator.ConfigBoundaries` | main.go:39-44 | -1 and 32 are refused in either position (machine first when both are bad); 0 and 31 are accepted |
| `Generator.NewSnowflake` | main.go:38-49 | returns the check's error exactly when there is one; otherwise a fresh valid generator holding the given IDs unchanged, with sequence 0 and last timestamp 0 |
| `Generator.Snowflake.constructor` | main.go:45-48 | the struct literal: the given IDs, zero sequence and last timestamp, and a valid state |
| `Generator.IncrementWraps` | main.go:61 | `(sequence + 1) & maxSequence` is the next sequence number, and it wraps to 0 only after 4095 |
| `Generator.FirstDifferent` | main.go:64-66 | the wait loop's exit: the first reading after the first whose millisecond differs from the last timestamp; every reading before it repeats that millisecond |
| `Generator.Next` | main.go:60-74 | one call consumes between 1 and all of the readings; it leaves a state in range; the new last timestamp is the last reading it consumed |
| `Generator.Snowflake.Generate` | main.go:52-80 | the IDs are unchanged; the new (last timestamp, sequence) is `Next` of the old one and differs from it; sequence stays in [0, 4095]; the identifier is the packing of the IDs and the new state and unpacks back to them |
| `Generator.NextChanges` | main.go:60-74 | a call never leaves the (last timestamp, sequence) pair as it found it |
| `Generator.NextWaitsWhenExhausted` | main.go:62-66 | when the millisecond repeats with sequence 4095, the call reads past every reading of that millisecond, restarts at sequence 0 and stores a different millisecond |
| `Generator.NextAdvances` | main.go:60-74 | if no reading is earlier than the last timestamp, the new state is strictly later in (timestamp, sequence) order |
| `Layout.PackID` | main.go:77 | the or-ed shifted fields equal the four fields written side by side in base 2; the result is a non-negative int64 |
| `Bits.OrDisjoint` | main.go:77 | or-ing a value below 2^k into a multiple of 2^k is addition |
| `Bits.AndLowMask` | main.go:61 | masking a non-negative value with the low n bits gives its remainder modulo 2^n |
| `Layout.UnpackPack` | main.go:77 | `id >> 22`, `(id >> 17) & 31`, `(id >> 12) & 31` and `id & 4095` give back the timestamp, data-center ID, machine ID and sequence |
| `Layout.PackUnpack` | main.go:77 | every non-negative int64 is the packing of the four fields it unpacks to, and those fields are in range |
| `Layout.PackInjective` | main.go:77 | two identifiers are equal exactly when all four fields are equal |
| `Layout.PackOrder` | main.go:77 | with the same IDs, one identifier is smaller than another exactly when its (timestamp, sequence) pair comes first |
| `Generator.RunIncreasing` | main.go:51-77 | over consecutive calls on a clock that never goes backwards and starts at or after the last timestamp, the identifiers strictly increase, and all of them exceed the identifier of the starting state |
| `Generator.RunUnique` | main.go:51 | under the same clock condition, no two calls return the same identifier |
| `Generator.ThreeCallsInOneMillisecond` | main.go:57-77 | a new generator (IDs 1, 1) called three times in one millisecond returns that millisecond with sequences 0, 1 and 2 |
| `Generator.BackwardClockRepeatsID` | main.go:68-71 | from state (10, 0), readings of millisecond 9 and then 10 return a smaller identifier, and then the identifier of state (10, 0) again |

## Left out

- The mutex (main.go:31, 53-54): each `Generate` call runs alone and to completion. Concurrent callers are not modelled.
- The wall clock (main.go:57, 65): its readings are the `clock` parameter of `Generate`. The busy wait ends only because the real clock moves on. `CanStep` therefore requires that, when the millisecond is exhausted, a later reading shows a different millisecond.
- The text of the two `fmt.Errorf` messages (main.go:40, 43): they become the `ConfigError` variants, each carrying the maximum the message prints.
- `main()` (main.go:82-99): it only prints demonstration output.
- Generator.Snowflake.Generate: requires every supplied reading to lie in [epoch, epoch + 2^41). Earlier readings would give a negative timestamp. Later ones would overflow the int64 shift at line 77, and Go's wrap-around is not modelled.
- Generator.Snowflake.Generate: returns only the identifier. The Go method's error result is always nil.
- A check for the clock moving backwards is not modelled, because the code has none.
- Go's 64-bit integer width for the machine and data-center arguments: the model takes unbounded integers. The range checks behave the same on every int64.
