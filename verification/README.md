# SemaGrow recommender: occurrence tally and batch orchestration

A Dafny model of two pieces of the SemaGrow recommender's sequential logic.

- **The XML response parser** (`XMLParser.parseURI`, both overloads). The
  `<uri>` bindings of a SPARQL Query Results XML document (W3C SPARQL Query
  Results XML Format, section 2.3.1) are collected either into a set or into
  a caller-owned occurrence tally. In count mode each URI's entry is
  incremented, or created with value 1. Counts accumulate over repeated
  calls on the same tally. Module `XmlParser`, file `xml_parser.dfy`.
- **The batch orchestrator** (`Recommender.startProcess`, in the older
  application build and in the later maven build). Identifiers are visited
  one at a time. Each querier call either returns or throws an exception;
  an exception is logged and the loop goes on. After each identifier that
  did not throw, the buffer is handed to `writeFile` and cleared, but only
  when its size is a positive exact multiple of 1000. A non-empty remainder
  is written after the loop. The maven build also returns the number of recommendations handed to
  the writer. The loop state and its two steps are in module `Batch`
  (`batch.dfy`). The entry points and querier selection are in module
  `Recommender` (`recommender.dfy`). `Options` (`options.dfy`) holds the
  optional type that stands for Java `null`.

Abstractions:

- A document is given by the `<uri>` texts the SAX pass meets, in document
  order, plus whether the parse reached the end (`XmlParser.Document`).
- A querier is an oracle `oracle(q, id)`. It returns `Success(appended)`, or
  `Failure(partial)` when the querier threw an exception. A failure keeps
  whatever it had already appended to the shared list, because the `catch`
  does no rollback.
- The writer is the log of `writeFile` calls (`Batch.WriteCall`). Each call
  records the batch and whether the RDF writer persisted it. The writer's
  answer for the k-th call is the parameter `writerOk(k)`.
- The output-path check and the input-file read are parameters
  (`outputPathOk`, `input`; `None` is a read failure).
- The identifier set is a sequence in its iteration order.

Behaviour of the code that the model reproduces:

- `writeFile` catches and logs the writer's exception, so the buffer is
  cleared even after a failed write, in both builds (maven
  `Recommender.java:91-95,115-123`; application `Recommender.java:79-82,99-108`).
  The "will be stopped" message of the application build notwithstanding,
  the loop goes on (`Batch.VisitIgnoresWriter`).
- The flush test is `recoms.size()%1000==0 && recoms.size()>0` (maven
  `Recommender.java:91`). A buffer that skips past a multiple is not written
  and keeps growing until it lands on one or the loop ends: 999 plus 4 is 1003
  (`Batch.SkippedMultiple`), and 1500 from one identifier are written only by
  the final flush (`Batch.OverThresholdAtOnce`).
- The `catch` at maven `Recommender.java:97-100` does no rollback, so a querier
  that throws leaves whatever it appended before the throw in the buffer.
- A null container or null XML string makes `parseURI` log a warning and
  return normally (`XMLParser.java:38,45-47` and `60,80-82`).
- The maven build returns the number of recommendations handed to
  `writeFile` (maven `Recommender.java:93,106,109`), counting writes that failed
  inside the writer.
- In the application build the flag value "federated" selects the
  single-endpoint querier (application `Recommender.java:67-69`); in the maven
  build it selects the federated querier (maven `Recommender.java:79-81`).
- With an empty identifier set, the first progress line computes
  `current/total*100` with `total == 0` outside any `try` (maven
  `Recommender.java:69-71`, application `Recommender.java:57-59`), so the
  exception leaves `startProcess`. The model returns `Run.DivisionByZero`.

## Model

| member | source | states |
|---|---|---|
| XmlParser.AddAll | application/eu/semagrow/recommender/io/XMLParser.java:70-78 | after counting list `xs` into `m`, each URI's count is its old count (0 if absent) plus its number of occurrences in `xs`; the key set is the old keys plus the distinct URIs of `xs` |
| XmlParser.ParseUriCount | application/eu/semagrow/recommender/io/XMLParser.java:59-83 | a null tally or null document only warns and leaves the tally as it was; a parse error leaves the tally untouched; a parsed document adds each URI's occurrences to its count |
| XmlParser.ParseUriSet | application/eu/semagrow/recommender/io/XMLParser.java:37-48 | a null set or null document skips parsing, warns and leaves the set as it was; otherwise the set grows by exactly the URIs the parse met |
| XmlParser.SetModeIsCountModeKeys | application/eu/semagrow/recommender/io/XMLParser.java:37-83 | the set overload on a tally's key set yields the key set the count overload yields, and both warn on exactly the same null inputs |
| XmlParser.AddAllFrame | application/eu/semagrow/recommender/io/XMLParser.java:70-78 | keys not in the extracted list keep their value, and no key is removed |
| XmlParser.AddAllPositive | application/eu/semagrow/recommender/io/XMLParser.java:71-77 | if every old count is at least 1, every new count is; a fresh key holds exactly its number of occurrences, at least 1 |
| XmlParser.AddAllMultiset | application/eu/semagrow/recommender/io/XMLParser.java:70-78 | the resulting tally depends only on the multiset of extracted URIs, not their order |
| XmlParser.AddAllCumulative | application/eu/semagrow/recommender/io/XMLParser.java:70-78 | counting A and then B into the same tally equals counting A ++ B |
| XmlParser.AddAllOrderIndependent | application/eu/semagrow/recommender/io/XMLParser.java:70-78 | counting A then B equals counting B then A |
| XmlParser.ParseUriCountCumulative | application/eu/semagrow/recommender/io/XMLParser.java:59-78 | two count-mode calls on the same tally accumulate both documents |
| XmlParser.CumulativeExample | application/eu/semagrow/recommender/io/XMLParser.java:71-77 | {A, A, B} then {A, C} into an empty tally gives A:3, B:1, C:1 |
| XmlParser.TotalAddAll | application/eu/semagrow/recommender/io/XMLParser.java:72-77 | the sum of all counts grows by exactly the length of the extracted list |
| Batch.VisitAccounts | maven-source/src/main/java/eu/semagrow/recommender/Recommender.java:74-100 | one loop pass, successful or throwing, keeps the invariant: written batches ++ buffer equals everything appended, in order; `result` equals the written size; `current` counts successes; every write is non-empty and in-loop writes are positive multiples of 1000 |
| Batch.VisitSuccessAccounts | maven-source/src/main/java/eu/semagrow/recommender/Recommender.java:76-95 | a successful identifier, flushed or not, keeps written ++ buffer == appended, counts one more success, and any in-loop write is a positive multiple of 1000 |
| Batch.VisitFailureAccounts | maven-source/src/main/java/eu/semagrow/recommender/Recommender.java:97-100 | a throwing identifier leaves the state exactly as it was except that its partial output is appended to the buffer: no write, no flush test even at a multiple of 1000, no success counted; the invariant is kept |
| Batch.WriteAndClearAccounts | maven-source/src/main/java/eu/semagrow/recommender/Recommender.java:91-95 | a flush appends exactly one `writeFile` call carrying the whole buffer after the unchanged earlier calls, adds the buffer's size to `result`, leaves `current` alone and empties the buffer, keeping the invariant |
| Batch.FinishAccounts | maven-source/src/main/java/eu/semagrow/recommender/Recommender.java:104-108 | the final flush writes a non-empty remainder in exactly one call after the unchanged earlier calls and adds its size to `result`; an empty buffer writes nothing and changes nothing; the buffer ends empty, the invariant holds, and all writes but the last are positive multiples of 1000 |
| Batch.LoopAccounts | maven-source/src/main/java/eu/semagrow/recommender/Recommender.java:75-101 | after the loop over any outcomes, written batches ++ buffer equals everything appended, in order, and every in-loop write is a non-empty positive multiple of 1000 |
| Batch.ReplayAccounts | maven-source/src/main/java/eu/semagrow/recommender/Recommender.java:74-108 | a whole run writes everything appended exactly once and in order, leaves the buffer empty, and all writes but the last are positive multiples of 1000 |
| Batch.ExactThreshold | maven-source/src/main/java/eu/semagrow/recommender/Recommender.java:89-108 | exactly 1000 recommendations from one identifier give one write of exactly those 1000 and no final write |
| Batch.ThresholdThenRemainder | maven-source/src/main/java/eu/semagrow/recommender/Recommender.java:89-108 | 1000 then 500 recommendations give a write of 1000 in the loop and a final write of 500 |
| Batch.OverThresholdAtOnce | maven-source/src/main/java/eu/semagrow/recommender/Recommender.java:91-106 | 1500 recommendations from one identifier are never flushed in the loop; the final flush writes all 1500 at once |
| Batch.OneSuccessOneFailure | maven-source/src/main/java/eu/semagrow/recommender/Recommender.java:75-108 | one identifier yielding one recommendation and one throwing give exactly one write of that recommendation and one processed identifier |
| Batch.VisitFlushRule | maven-source/src/main/java/eu/semagrow/recommender/Recommender.java:89-95 | a step writes iff the querier succeeded and the grown buffer's size is a positive multiple of 1000; the batch written is that whole buffer and the buffer ends empty; otherwise nothing is written and the buffer keeps the appended items |
| Batch.VisitFailure | maven-source/src/main/java/eu/semagrow/recommender/Recommender.java:97-100 | a throwing querier only leaves its partial output in the buffer: `current` is not incremented and no flush test runs, even at a multiple of 1000 |
| Batch.VisitIgnoresWriter | application/eu/semagrow/recommender/Recommender.java:99-108 | whether a write persisted changes nothing in the run except the recorded flag: the buffer is still cleared and the loop goes on |
| Batch.SkippedMultiple | maven-source/src/main/java/eu/semagrow/recommender/Recommender.java:91 | a buffer of 999 that grows by 4 is not written and holds 1003 recommendations |
| Batch.SuccessesAll | maven-source/src/main/java/eu/semagrow/recommender/Recommender.java:89 | the success count never exceeds the number of identifiers and equals it iff no querier call failed |
| Batch.SuccessesOneFailure | maven-source/src/main/java/eu/semagrow/recommender/Recommender.java:75-101 | with exactly one failing identifier among N, N - 1 are processed |
| Batch.SumSizesFlattened | maven-source/src/main/java/eu/semagrow/recommender/Recommender.java:93-106 | the summed sizes of the batches equal the length of everything handed to the writer |
| Recommender.EqualsIgnoreCaseLowered | application/eu/semagrow/recommender/Recommender.java:67 | comparing ignoring case is comparing the lower-cased strings |
| Recommender.SelectQuerierFlag | application/eu/semagrow/recommender/Recommender.java:66-74 | "federated" in any case selects the single-endpoint querier in the application build and the federated one in the maven build; any other flag selects the individual querier |
| Recommender.Progress | maven-source/src/main/java/eu/semagrow/recommender/Recommender.java:69-71 | the progress expression fails exactly when the identifier set is empty, and is 0 at the start of a non-empty run |
| Recommender.ProcessAll | maven-source/src/main/java/eu/semagrow/recommender/Recommender.java:74-108 | the loop with the final flush ends in the state of the step-by-step replay of its outcomes; it writes everything appended exactly once and in order, in non-empty batches of which all but the last are positive multiples of 1000; the buffer ends empty; `result` is the number handed to the writer; `current` counts the successful identifiers |
| Recommender.StartProcessMaven | maven-source/src/main/java/eu/semagrow/recommender/Recommender.java:48-110 | an unusable output path or unreadable input returns 0 with nothing written; an empty set throws; otherwise the writes are those of the replay, the written batches concatenate to everything appended, and the returned value is their total size, persisted or not |
| Recommender.StartProcessApplication | application/eu/semagrow/recommender/Recommender.java:45-97 | an unreadable input stops with nothing written; an empty set throws; otherwise the writes are those of the replay and concatenate to everything appended, in non-empty batches, all but the last positive multiples of 1000 |
| Recommender.AllProcessedWithoutFailures | application/eu/semagrow/recommender/Recommender.java:63-88 | when no identifier's querier call fails, every identifier is counted as processed |

## Left out

- The SAX tokenisation and the `URISaxParser` handler are not part of this model. A document is the sequence of `<uri>` texts it yields.
- XmlParser.ParseUriSet: assumes the handler adds each `<uri>` text it meets to the set, including texts met before a parse error, because the handler is not part of this model.
- The HTTP queriers (single-endpoint, federated, individual) are not part of this model. They do network I/O and are replaced by the outcome oracle. This includes the individual querier's per-endpoint merging.
- The RDF/XML serialisation of `RDFWriter` and the timestamped file names are left out. A write is recorded as its batch and a success flag.
- Reading the input file, including its deduplication into a set, is left out. So are creating the output directory, the configuration lookup, timing in `main` and the log message texts. Their results are parameters.
- Recommender.EqualsIgnoreCaseLowered: folds ASCII letters only, because Java's full Unicode case mapping is not modelled.
- Only `Exception`s are modelled. A `java.lang.Error` from a querier or from the writer (for example an `OutOfMemoryError` while a batch is serialised) is not caught by the `catch (Exception e)` clauses (maven `Recommender.java:97,120`, application `Recommender.java:84,104`). It ends the run without the final flush, and `Batch.Outcome` cannot represent it.
- Java `int` overflow of counts and of `result` is not modelled. Both are unbounded naturals.
- Set iteration order is left out. The identifier set is a duplicate-free sequence in whatever order the set yields.
