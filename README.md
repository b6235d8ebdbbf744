# JMH core state machines in Dafny

This project models three sequential cores of the Java Microbenchmark Harness (JMH) and proves
properties about them.

- **The sampling histogram** (`SampleBuffer`, module `SampleBuffers`). It is a 64 x 1024 grid of
  counters, kept as a Dafny `array2<int>` and updated in place.
  - `add` records a `long` sample. The row is the exponent bucket `max(0, msb - 10)`. The column
    is the 10-bit mantissa `sample >> bucket`.
  - `half` decays every counter, but never to zero.
  - `addAll` adds another buffer into this one, cell by cell.
  - `getStatistics` produces one `(value, weight)` observation per cell, with value
    `(long) j << i`.

  Java's `long` arithmetic is written out explicitly in module `Bits`:
  - the 64-bit range;
  - `numberOfLeadingZeros` as a bit length;
  - arithmetic shift as floor division by a power of two;
  - the 64-bit wrap-around of `<<` on a `long`.
- **The per-iteration result accumulator** (`IterationResult`, module `IterationResults`).
  - The first primary result fixes the score unit.
  - A later primary result with another unit is rejected with an `IllegalStateException`. The
    model returns `ok == false` or a failure index for this.
  - Secondary results are grouped by label in a multimap.
  - `addResults` adds in order and stops at the first failure.

  The accumulator's state is a class with the source's three fields. Its behaviour is specified
  by the pure functions `Added` and `AddedAll` over an `Accumulated` value.
- **The host side of the binary link** (`BinaryLinkServer`, module `BinaryLink`). It is modelled
  sequentially, without sockets or threads.
  - The constructor builds the method table and the forbidden table, and fails on a duplicate
    method name.
  - The server's four atomic slots become plain fields:
    - the handler slot (at most one registration);
    - the results slot and the exception slot (both consume-once);
    - the plan slot (the last write wins).
  - The acceptor's registration step is `Accept`.
  - The handler's read-dispatch loop is `Run`. It works over a sequence of incoming objects, and
    is specified by the pure functions `Steps` and `Served`.
  - The forwarding decision for formatted-output calls is `ForwardEvents`. An unknown name is
    warned about, a forbidden name is dropped, and any other name is forwarded once.

`wrappers.dfy` holds the `Option` type.

### Behaviour of the code that the model keeps

These details of the code are kept as they are:

- **Relative error of a stored sample.** The value stored for a sample, `subBucket << bucket`,
  is below the sample by less than `2^bucket`. Once `bucket > 0`, the column is at least 512, so
  the proved relative bound is `512 * (s - v) < v`. That is a relative error of less than 1/512,
  not 1/1024.
- **When the stored value is exact.** It equals the sample whenever the sample is below 1024.
  The converse does not hold: 1024, 2048 and every multiple of `2^bucket` are also stored
  exactly. `SampleBuffers.StoredValueApproximates` proves both statements: "below 1024 implies
  exact", and "exact iff `s % 2^bucket == 0`".
- **Negative samples.** `add` does not guard against a negative sample. For such a sample, `msb`
  is 64, the bucket is 54 and the column is negative, so the array access throws. The model
  returns `false` and leaves the grid unchanged.
- **`(long) j << i` in `getStatistics`.** This can wrap around in rows 54 to 63, once
  `j * 2^i` reaches `2^63`; rows up to 53 never do. The model
  computes it with an explicit 64-bit wrap. It also proves that no sample ever reaches those
  rows, so every observation that carries weight has the exact value `j * 2^i`.
- **End of input.** When the worker's input runs out before a finishing frame, `readObject`
  throws at the end of the stream. The model treats this as a failed read and reports it like
  any other failure.
- **The null branch of `getResults`.** It is unreachable: the slot is initialised to an empty
  multimap and only ever replaced by another one. The slot therefore has type `Results`, not an
  option.

## Model

| member | source | states |
|---|---|---|
| SampleBuffers.SampleCoordinates | jmh-core/src/main/java/org/openjdk/jmh/util/SampleBuffer.java:58-60 | for a nonnegative sample: msb is its bit length and at most 63; the bucket lies in [0, 53]; the column lies in [0, 1024), and in [512, 1024) whenever the bucket is positive |
| SampleBuffers.LargeSampleColumn | jmh-core/src/main/java/org/openjdk/jmh/util/SampleBuffer.java:58-60 | a sample of more than 10 bits goes to row msb - 10, and its column has the top of its 10 bits set: it lies in [512, 1024) |
| SampleBuffers.SmallSampleColumn | jmh-core/src/main/java/org/openjdk/jmh/util/SampleBuffer.java:58-60 | a sample of at most 10 bits goes to row 0, in the column equal to itself |
| SampleBuffers.NegativeSampleOutOfBounds | jmh-core/src/main/java/org/openjdk/jmh/util/SampleBuffer.java:58-61 | for a negative sample, msb is 64, the bucket is 54 and the column lies in [-512, 0), so the array access is out of bounds |
| SampleBuffers.SplitAtBucket | jmh-core/src/main/java/org/openjdk/jmh/util/SampleBuffer.java:59-60 | a nonnegative sample splits as column * 2^bucket plus a remainder below 2^bucket, and that product fits a `long` |
| SampleBuffers.StoredValueApproximates | jmh-core/src/main/java/org/openjdk/jmh/util/SampleBuffer.java:58-68 | the stored value `(long) subBucket << bucket` is at most the sample and less than 2^bucket below it; it is exact iff the sample is a multiple of 2^bucket, exact for every sample below 1024, and within 1/512 once the bucket is positive |
| SampleBuffers.CellValueExact | jmh-core/src/main/java/org/openjdk/jmh/util/SampleBuffer.java:68 | in rows up to 53, `(long) j << i` does not wrap and equals j * 2^i |
| SampleBuffers.HalfCount | jmh-core/src/main/java/org/openjdk/jmh/util/SampleBuffer.java:49-52 | one counter's decay: zero stays zero, 1 stays 1, no nonzero counter becomes zero, a counter never grows, and counters of 2 or more are halved (truncating) |
| SampleBuffers.IncrementTotal | jmh-core/src/main/java/org/openjdk/jmh/util/SampleBuffer.java:61 | recording a sample adds exactly one to the total count |
| SampleBuffers.MergeTotal | jmh-core/src/main/java/org/openjdk/jmh/util/SampleBuffer.java:75-81 | merging two grids adds their total counts |
| SampleBuffers.MergeCommutes | jmh-core/src/main/java/org/openjdk/jmh/util/SampleBuffer.java:75-81 | merging grids does not depend on their order |
| SampleBuffers.MergeAssociates | jmh-core/src/main/java/org/openjdk/jmh/util/SampleBuffer.java:75-81 | merging grids does not depend on the grouping |
| SampleBuffers.HalvedDecays | jmh-core/src/main/java/org/openjdk/jmh/util/SampleBuffer.java:46-55 | decay keeps counters nonnegative, maps each cell through the one-counter decay, and never increases the total count |
| SampleBuffers.UpperRowsStayUnused | jmh-core/src/main/java/org/openjdk/jmh/util/SampleBuffer.java:39-81 | rows 54 to 63 are zero in a new grid and stay zero under decay, merge and every nonnegative sample |
| SampleBuffers.RowObservationsAt | jmh-core/src/main/java/org/openjdk/jmh/util/SampleBuffer.java:67-70 | the observations of a row's first m cells are, in order, value `j << i` with weight `hdr[i][j]` |
| SampleBuffers.ObservationsAt | jmh-core/src/main/java/org/openjdk/jmh/util/SampleBuffer.java:66-71 | the observations come row by row; cell (i, j) is observation i * 1024 + j, with value `(long) j << i` and weight `hdr[i][j]` |
| SampleBuffers.ObservationsWeight | jmh-core/src/main/java/org/openjdk/jmh/util/SampleBuffer.java:64-73 | the total weight of the observations equals the total count of the grid |
| SampleBuffers.WeightedObservationsExact | jmh-core/src/main/java/org/openjdk/jmh/util/SampleBuffer.java:68-69 | while rows 54 to 63 are unused, every observation with nonzero weight has the exact value j * 2^i |
| SampleBuffers.SampleBuffer.constructor | jmh-core/src/main/java/org/openjdk/jmh/util/SampleBuffer.java:39-44 | a new buffer has 64 rows of 1024 columns, all zero |
| SampleBuffers.SampleBuffer.Half | jmh-core/src/main/java/org/openjdk/jmh/util/SampleBuffer.java:46-55 | every cell becomes its decayed value |
| SampleBuffers.SampleBuffer.Add | jmh-core/src/main/java/org/openjdk/jmh/util/SampleBuffer.java:57-62 | succeeds exactly for a nonnegative sample, and then increments exactly cell (bucket, subBucket) by one; a negative sample fails and changes nothing |
| SampleBuffers.SampleBuffer.GetStatistics | jmh-core/src/main/java/org/openjdk/jmh/util/SampleBuffer.java:64-73 | returns exactly the observations of all cells in row-major order, and changes nothing |
| SampleBuffers.SampleBuffer.AddAll | jmh-core/src/main/java/org/openjdk/jmh/util/SampleBuffer.java:75-81 | every cell becomes its old value plus the other buffer's cell, and the other buffer is unchanged unless it is this one |
| IterationResults.AddedConsistent | jmh-core/src/main/java/org/openjdk/jmh/results/IterationResult.java:64-79 | a successful add keeps the invariant: every primary has the score unit; the unit is unset iff there are no primaries; each secondary label holds only results of that label |
| IterationResults.AddedAllConsistent | jmh-core/src/main/java/org/openjdk/jmh/results/IterationResult.java:58-62 | adding a sequence keeps the invariant, whether or not it fails part-way |
| IterationResults.ScoreUnitStable | jmh-core/src/main/java/org/openjdk/jmh/results/IterationResult.java:66-72 | once set, the score unit never changes |
| IterationResults.AddedAllPrimaries | jmh-core/src/main/java/org/openjdk/jmh/results/IterationResult.java:58-79 | when every element is added, the primary results are appended in their order, and an unset unit becomes that of the first primary result |
| IterationResults.AddedAllFailure | jmh-core/src/main/java/org/openjdk/jmh/results/IterationResult.java:58-71 | a failure at index k leaves exactly the first k elements added, and element k clashes with the unit |
| IterationResults.AddedAllSucceeds | jmh-core/src/main/java/org/openjdk/jmh/results/IterationResult.java:58-79 | adding a sequence succeeds iff its primary results agree on one unit and with the unit already fixed |
| IterationResults.MismatchedUnitsRejected | jmh-core/src/main/java/org/openjdk/jmh/results/IterationResult.java:69-71 | a primary in "ops/s" followed by one in "ms": the second is rejected at index 1, and only the first is kept |
| IterationResults.AddedAllSnoc | jmh-core/src/main/java/org/openjdk/jmh/results/IterationResult.java:58-62 | adding rs + [r] is adding rs and then r |
| IterationResults.AddedAllStopsAt | jmh-core/src/main/java/org/openjdk/jmh/results/IterationResult.java:58-62 | if the first i elements are added and element i clashes, the whole addition stops there and reports index i |
| IterationResults.IterationResult.constructor | jmh-core/src/main/java/org/openjdk/jmh/results/IterationResult.java:51-56 | a new accumulator has no primaries, no secondaries and no unit |
| IterationResults.IterationResult.AddResult | jmh-core/src/main/java/org/openjdk/jmh/results/IterationResult.java:64-79 | fails exactly on a unit clash and then changes nothing; otherwise it appends a primary, fixes an unset unit and puts a secondary under its label, as two independent checks; it keeps the invariant |
| IterationResults.IterationResult.AddResults | jmh-core/src/main/java/org/openjdk/jmh/results/IterationResult.java:58-62 | adds the elements one by one, in order, and stops at the first clash, which it reports by index |
| IterationResults.IterationResult.GetScoreUnit | jmh-core/src/main/java/org/openjdk/jmh/results/IterationResult.java:120-122 | the unit is unset iff there are no primary results, and otherwise is the unit of every primary result |
| IterationResults.IterationResult.GetPrimaryResult | jmh-core/src/main/java/org/openjdk/jmh/results/IterationResult.java:104-110 | none iff there are no primary results; otherwise the score unit is set, every aggregated result is a primary result carrying that one unit, and the result is the aggregate of all of them under the first one's policy |
| IterationResults.IterationResult.GetSecondaryResults | jmh-core/src/main/java/org/openjdk/jmh/results/IterationResult.java:89-102 | keyed by exactly the labels present; each is the aggregate of that label's results under the first one's policy |
| BinaryLink.EnumeratedSucceeds | jmh-core/src/main/java/org/openjdk/jmh/runner/link/BinaryLinkServer.java:80-92 | building the tables fails iff two methods share a name; on success the method table's keys are exactly the names |
| BinaryLink.EnumeratedMethods | jmh-core/src/main/java/org/openjdk/jmh/runner/link/BinaryLinkServer.java:87 | on success every name maps to the method of that name |
| BinaryLink.EnumeratedForbidden | jmh-core/src/main/java/org/openjdk/jmh/runner/link/BinaryLinkServer.java:83-85 | on success the forbidden set is exactly the names of the startRun and endRun methods |
| BinaryLink.EnumeratedTables | jmh-core/src/main/java/org/openjdk/jmh/runner/link/BinaryLinkServer.java:80-92 | all of the above, and the forbidden names are keys of the method table |
| BinaryLink.EarlierNamesake | jmh-core/src/main/java/org/openjdk/jmh/runner/link/BinaryLinkServer.java:87-88 | a method's name is already in the table iff an earlier method has it, and the table then holds that earlier method |
| BinaryLink.FailurePersists | jmh-core/src/main/java/org/openjdk/jmh/runner/link/BinaryLinkServer.java:88-91 | once a prefix holds a duplicate, building the tables from the whole list fails |
| BinaryLink.MergeResultsAssociative | jmh-core/src/main/java/org/openjdk/jmh/runner/link/BinaryLinkServer.java:322-324 | merging pushed batches one after the other is the same as merging their merge |
| BinaryLink.ForwardEvents | jmh-core/src/main/java/org/openjdk/jmh/runner/link/BinaryLinkServer.java:341-355 | a call produces at most one event: it is forwarded iff its name is known and not forbidden, and warned about iff its name is unknown |
| BinaryLink.StepsAppend | jmh-core/src/main/java/org/openjdk/jmh/runner/link/BinaryLinkServer.java:271-292 | objects are processed in arrival order: running a + b is running a, then b only if a did not end the loop |
| BinaryLink.StopIgnoresRest | jmh-core/src/main/java/org/openjdk/jmh/runner/link/BinaryLinkServer.java:272-291 | objects after a finishing frame, a null or a failure have no effect on the run |
| BinaryLink.StepsResults | jmh-core/src/main/java/org/openjdk/jmh/runner/link/BinaryLinkServer.java:279-281 | the results slot ends as the old results merged with every batch pushed before the loop ends |
| BinaryLink.StepsException | jmh-core/src/main/java/org/openjdk/jmh/runner/link/BinaryLinkServer.java:282-284 | the exception slot ends holding the last exception pushed before the loop ends, or its old value if none was pushed |
| BinaryLink.StepsReplies | jmh-core/src/main/java/org/openjdk/jmh/runner/link/BinaryLinkServer.java:276-278 | the replies sent are one per options or plan request, in order, carrying the options or the current plan |
| BinaryLink.StepsLog | jmh-core/src/main/java/org/openjdk/jmh/runner/link/BinaryLinkServer.java:273-275 | the events printed by the loop are the forwarding events of each formatted-output call, in order |
| BinaryLink.StepsEnding | jmh-core/src/main/java/org/openjdk/jmh/runner/link/BinaryLinkServer.java:272-297 | the loop ends at the first finishing frame, null, failed read or unknown request; if the input runs out first, the ending is a failure at the end of the stream |
| BinaryLink.ServedCharacterized | jmh-core/src/main/java/org/openjdk/jmh/runner/link/BinaryLinkServer.java:265-301 | a whole run: results, exception, replies and forwarding as above; on failure, one diagnostic line, plus the error at EXTRA verbosity |
| BinaryLink.FinishedSession | jmh-core/src/main/java/org/openjdk/jmh/runner/link/BinaryLinkServer.java:271-292 | options request, plan request, a batch, a finishing frame, then a late batch: both requests are answered in order, only the first batch is merged, and nothing is reported |
| BinaryLink.ForwardLogAllowed | jmh-core/src/main/java/org/openjdk/jmh/runner/link/BinaryLinkServer.java:341-355 | no run ever forwards an unknown or a forbidden call |
| BinaryLink.LifecycleNeverForwarded | jmh-core/src/main/java/org/openjdk/jmh/runner/link/BinaryLinkServer.java:83-85 | with tables built by the constructor, startRun and endRun are never forwarded |
| BinaryLink.LinkServer.EnumerateMethods | jmh-core/src/main/java/org/openjdk/jmh/runner/link/BinaryLinkServer.java:80-92 | builds the tables from the methods in order; on the first repeated name it prints one warning naming that method and the earlier one, and fails |
| BinaryLink.LinkServer.Open | jmh-core/src/main/java/org/openjdk/jmh/runner/link/BinaryLinkServer.java:74-101 | fails iff the tables cannot be built, and then prints exactly one warning naming the first repeated method and its earlier namesake; otherwise prints nothing and returns a fresh server with those tables, an open acceptor, an empty handler slot, no results, no exception and no plan |
| BinaryLink.LinkServer.constructor | jmh-core/src/main/java/org/openjdk/jmh/runner/link/BinaryLinkServer.java:94-100 | slots initialised: acceptor open, no handler, empty results, no exception, no plan |
| BinaryLink.LinkServer.Accept | jmh-core/src/main/java/org/openjdk/jmh/runner/link/BinaryLinkServer.java:206-223 | a connection registers only into an empty slot; with the slot occupied it fails (already registered) and the acceptor closes; a closed acceptor takes no connection |
| BinaryLink.LinkServer.WaitFinish | jmh-core/src/main/java/org/openjdk/jmh/runner/link/BinaryLinkServer.java:121-130 | clears the handler slot and leaves the other slots alone |
| BinaryLink.LinkServer.Terminate | jmh-core/src/main/java/org/openjdk/jmh/runner/link/BinaryLinkServer.java:103-119 | closes the acceptor, closes the registered handler's connection, and clears the slot |
| BinaryLink.LinkServer.GetException | jmh-core/src/main/java/org/openjdk/jmh/runner/link/BinaryLinkServer.java:132-134 | returns the stored exception and empties the slot, so a second call returns none |
| BinaryLink.LinkServer.GetResults | jmh-core/src/main/java/org/openjdk/jmh/runner/link/BinaryLinkServer.java:136-143 | returns everything accumulated and installs an empty collection, so each batch is returned once |
| BinaryLink.LinkServer.SetPlan | jmh-core/src/main/java/org/openjdk/jmh/runner/link/BinaryLinkServer.java:145-147 | the plan slot holds the last plan set |
| BinaryLink.LinkServer.HandleOutputFormat | jmh-core/src/main/java/org/openjdk/jmh/runner/link/BinaryLinkServer.java:341-355 | prints the forwarding events of the call, and reports "dropped" iff the call is not forwarded |
| BinaryLink.LinkServer.HandleInfra | jmh-core/src/main/java/org/openjdk/jmh/runner/link/BinaryLinkServer.java:326-339 | answers an options request with the options and a plan request with the current plan; any other request fails the loop |
| BinaryLink.LinkServer.HandleResults | jmh-core/src/main/java/org/openjdk/jmh/runner/link/BinaryLinkServer.java:322-324 | merges the batch into the pending results |
| BinaryLink.LinkServer.HandleException | jmh-core/src/main/java/org/openjdk/jmh/runner/link/BinaryLinkServer.java:318-320 | overwrites the exception slot |
| BinaryLink.LinkServer.Run | jmh-core/src/main/java/org/openjdk/jmh/runner/link/BinaryLinkServer.java:265-301 | the handler's run leaves the server and the connection exactly as `Served` describes, always closes the connection, and leaves the handler, acceptor and plan slots alone |
| BinaryLink.Handler.constructor | jmh-core/src/main/java/org/openjdk/jmh/runner/link/BinaryLinkServer.java:258-262 | a new handler has an open connection and has sent nothing |

## Left out

- Sockets, threads and blocking: the acceptor and the handler are sequential steps.
  - `accept`, `start`, `join` and interrupts are not modelled.
  - A connection is a handler object with an open flag.
  - The object stream is a sequence of incoming objects.
- Concurrency between the acceptor, the handler and the host thread is not modelled. This
  includes the constructor starting the acceptor before the slots are initialised
  (BinaryLinkServer.java:94-100).
- Java object serialization: frames arrive as datatype values, and a corrupted stream is a
  failed read.
- Reflection: `Method.invoke` becomes a `Forwarded(name, args)` event. Any exception from
  `invoke` is not modelled: one thrown by the invoked method, an `IllegalAccessException`, or an
  `IllegalArgumentException` on mismatched arguments. Each would fail the loop.
- `ClassConventions.getMethodName` and `OutputFormat`'s method list are not part of this model.
  The methods are given as (simple name, lookup name) pairs.
- Writes to `System.out` and `System.err` for output frames: the model does nothing for them.
- Address and port resolution (`getListenAddress`, `getListenPort`, `getHost`, `getPort`):
  these are foreign library calls.
- `Defaults.VERBOSITY` is not part of this model. The model assumes it is `NORMAL`, so detail is
  printed only when the options ask for `EXTRA`.
- The ordinal order `SILENT < NORMAL < EXTRA` of `VerboseMode` is assumed.
- Multimap merge (`HashMultimap.merge`) is not part of this model. It is modelled as appending,
  for each key, the pushed values after the existing ones.
- The `double` multiplier of `getStatistics` and everything in `MultisetStatistics` (the
  floating-point statistics): the model returns the integer (value, weight) observations.
- Aggregator behaviour (sum, max, average) is not modelled. The aggregate is a function parameter.
- `ResultRole` is not part of this model. A role is a pair of flags (primary, secondary).
- The raw getters and `getParams` / `getBenchmarkParams`: they return fields unchanged.
- ForkedMain, ForkedRunner, the profilers and the report-format tests: process plumbing and
  foreign calls outside the three cores.
- SampleBuffers.SampleBuffer.Add: counters are unbounded integers. The 32-bit wrap-around of an
  `int` counter after 2^31 - 1 increments is not modelled.
- SampleBuffers.SampleBuffer.AddAll: the sum of two counters is not wrapped to 32 bits, for the
  same reason.
- IterationResults.IterationResult.GetSecondaryResults: the result is a map. It does not state
  that the labels come out in sorted order, as the `TreeMap` would give them.
- IterationResults.Result: a result's score unit is never null. The source would append a primary
  result with a null unit and leave `scoreUnit` null, so a later primary would fix the unit anyway.
  The invariant that every primary result carries the fixed unit holds only without null units.
- IterationResults.IterationResult.GetPrimaryResult: returns none for an iteration without
  primary results, where the source's `iterator().next()` throws.
- BinaryLink.LinkServer.Accept: the rejected handler's connection is left as it is. Neither the
  model nor the source closes it.
