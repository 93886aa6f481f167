/**
 The entry point `Recommender.startProcess` in its two historical builds.

 - The application build (void) reads the identifier set and runs the batch;
   the flag value "federated" selects the single-endpoint querier.
 - The maven build first checks the output path, returns the number of
   recommendations handed to the writer, and lets "federated" select the
   federated querier.

 The queriers talk to remote endpoints and are not modelled: `oracle(q, id)`
 is the outcome the querier of kind `q` has for identifier `id`. The writer's
 success is `writerOk(k)` for its k-th call. The identifier set is given as a
 sequence in its iteration order, without duplicates.
 */
module Recommender {

  import opened Options
  import opened Batch

  datatype Build = Maven | Application

  /** The querier implementations a run can pick. */
  datatype Querier = SingleEndpoint | Federated | Individual

  /** How a run of `startProcess` ends. */
  datatype Run =
    | Stopped           // output path or input file unusable: logged, nothing processed
    | DivisionByZero    // empty identifier set: the progress line divides by zero
    | Finished(calls: seq<WriteCall>, processed: nat)

  /** ASCII lower-casing of one character. */
  function LowerAscii(c: char): char
  {
    if 'A' <= c <= 'Z' then (c as int - 'A' as int + 'a' as int) as char else c
  }

  /** ASCII lower-casing of a string. */
  function Lowered(s: string): (r: string)
    ensures |r| == |s|
    ensures forall i :: 0 <= i < |s| ==> r[i] == LowerAscii(s[i])
  {
    if |s| == 0 then [] else [LowerAscii(s[0])] + Lowered(s[1..])
  }

  /** `String.equalsIgnoreCase`, on ASCII letters: same length and equal
      position by position once case is folded. */
  function EqualsIgnoreCase(a: string, b: string): bool
  {
    |a| == |b| && forall i :: 0 <= i < |a| ==> LowerAscii(a[i]) == LowerAscii(b[i])
  }

  /** Comparing ignoring case is comparing the lower-cased strings. */
  lemma EqualsIgnoreCaseLowered(a: string, b: string)
    ensures EqualsIgnoreCase(a, b) <==> Lowered(a) == Lowered(b)
  {
    if Lowered(a) == Lowered(b) {
      assert forall i :: 0 <= i < |a| ==> Lowered(a)[i] == Lowered(b)[i];
    }
  }

  /** The querier a build picks for the `type_recommendation` flag. */
  function SelectQuerier(build: Build, flag: string): Querier
  {
    if EqualsIgnoreCase(flag, "federated") then
      (if build == Maven then Federated else SingleEndpoint)
    else
      Individual
  }

  /** "federated" in any case picks the build's one-endpoint querier (the
      federated one in the maven build, the single-endpoint one in the
      application build); any other flag picks the individual querier. */
  lemma SelectQuerierFlag(build: Build, flag: string)
    ensures SelectQuerier(build, flag) != Individual <==> Lowered(flag) == "federated"
    ensures SelectQuerier(build, flag) == SingleEndpoint <==> build == Application && Lowered(flag) == "federated"
    ensures SelectQuerier(build, flag) == Federated <==> build == Maven && Lowered(flag) == "federated"
  {
    EqualsIgnoreCaseLowered(flag, "federated");
    assert Lowered("federated") == "federated";
    assert SelectQuerier(build, flag) != Individual <==> EqualsIgnoreCase(flag, "federated");
  }

  /** The outcome of the loop body's querier call for one identifier. */
  function QueryOutcome(build: Build, flag: string, oracle: (Querier, string) -> Outcome, id: string): Outcome
  {
    oracle(SelectQuerier(build, flag), id)
  }

  /** The outcomes of all querier calls of a run, in iteration order. */
  function Outcomes(build: Build, flag: string, ids: seq<string>, oracle: (Querier, string) -> Outcome): (os: seq<Outcome>)
    ensures |os| == |ids|
    ensures forall i :: 0 <= i < |ids| ==> os[i] == QueryOutcome(build, flag, oracle, ids[i])
  {
    seq(|ids|, i requires 0 <= i < |ids| => QueryOutcome(build, flag, oracle, ids[i]))
  }

  /** The loop over the identifier set and the final flush, common to both
      builds. Everything the queriers appended is handed to the writer exactly
      once and in order, in non-empty batches of which all but the last are
      positive multiples of the threshold; the buffer ends empty; `result` is
      the number handed over; `current` counts the successful identifiers. */
  method ProcessAll(build: Build, flag: string, ids: seq<string>,
                    oracle: (Querier, string) -> Outcome, writerOk: nat -> bool)
    returns (s: BatchState)
    ensures s == Replay(Outcomes(build, flag, ids, oracle), writerOk)
    ensures Flattened(s.calls) == Appended(Outcomes(build, flag, ids, oracle))
    ensures s.buffer == []
    ensures s.result == SumSizes(s.calls) == |Appended(Outcomes(build, flag, ids, oracle))|
    ensures s.current == Successes(Outcomes(build, flag, ids, oracle))
    ensures forall i :: 0 <= i < |s.calls| ==> |s.calls[i].batch| > 0 && s.calls[i].persisted == writerOk(i)
    ensures forall i :: 0 <= i < |s.calls| - 1 ==> FlushDue(|s.calls[i].batch|)
  {
    ghost var os := Outcomes(build, flag, ids, oracle);
    s := Start;
    var i := 0;
    while i < |ids|
      invariant 0 <= i <= |ids|
      invariant s == Loop(Start, os[..i], writerOk)
    {
      var o := QueryOutcome(build, flag, oracle, ids[i]);
      assert os[..i + 1][..i] == os[..i];
      s := Visit(s, o, writerOk);
      i := i + 1;
    }
    assert os[..i] == os;
    s := Finish(s, writerOk);
    ReplayAccounts(os, writerOk);
    SumSizesFlattened(s.calls);
  }

  /** The progress expression `current/total*100` of the first log line, with
      Java's integer division; `None` when `total` is zero (the division
      throws). */
  function Progress(current: nat, total: nat): (r: Option<nat>)
    ensures r.None? <==> total == 0
    ensures r.Some? && current < total ==> r.value == 0
  {
    if total == 0 then None else Some(current / total * 100)
  }

  /** `startProcess` of the maven build: the returned count is `Some(n)`, or
      `None` when an exception leaves the method. */
  method StartProcessMaven(outputPathOk: bool, input: Option<seq<string>>, flag: string,
                           oracle: (Querier, string) -> Outcome, writerOk: nat -> bool)
    returns (run: Run, returned: Option<nat>)
    ensures !outputPathOk || input.None? ==> run == Stopped && returned == Some(0)
    ensures outputPathOk && input.Some? && |input.value| == 0 ==> run == DivisionByZero && returned == None
    ensures outputPathOk && input.Some? && |input.value| > 0 ==>
              var os := Outcomes(Maven, flag, input.value, oracle);
              && run.Finished?
              && run.calls == Replay(os, writerOk).calls
              && Flattened(run.calls) == Appended(os)
              && run.processed == Successes(os)
              && returned == Some(SumSizes(run.calls))
              && returned == Some(|Appended(os)|)
              && (forall i :: 0 <= i < |run.calls| ==> |run.calls[i].batch| > 0)
  {
    if !outputPathOk {
      return Stopped, Some(0);
    }
    if input.None? {
      return Stopped, Some(0);
    }
    var ids := input.value;
    var total := |ids|;
    if Progress(0, total).None? {
      return DivisionByZero, None;
    }
    var s := ProcessAll(Maven, flag, ids, oracle, writerOk);
    return Finished(s.calls, s.current), Some(s.result);
  }

  /** `startProcess` of the application build (no return value). */
  method StartProcessApplication(input: Option<seq<string>>, flag: string,
                                 oracle: (Querier, string) -> Outcome, writerOk: nat -> bool)
    returns (run: Run)
    ensures input.None? ==> run == Stopped
    ensures input.Some? && |input.value| == 0 ==> run == DivisionByZero
    ensures input.Some? && |input.value| > 0 ==>
              var os := Outcomes(Application, flag, input.value, oracle);
              && run.Finished?
              && run.calls == Replay(os, writerOk).calls
              && Flattened(run.calls) == Appended(os)
              && run.processed == Successes(os)
              && (forall i :: 0 <= i < |run.calls| ==> |run.calls[i].batch| > 0)
              && (forall i :: 0 <= i < |run.calls| - 1 ==> FlushDue(|run.calls[i].batch|))
  {
    if input.None? {
      return Stopped;
    }
    var ids := input.value;
    var total := |ids|;
    if Progress(0, total).None? {
      return DivisionByZero;
    }
    var s := ProcessAll(Application, flag, ids, oracle, writerOk);
    return Finished(s.calls, s.current);
  }

  /** When no identifier fails, every identifier is processed. */
  lemma AllProcessedWithoutFailures(build: Build, flag: string, ids: seq<string>,
                                    oracle: (Querier, string) -> Outcome)
    requires forall id :: id in ids ==> QueryOutcome(build, flag, oracle, id).Success?
    ensures Successes(Outcomes(build, flag, ids, oracle)) == |ids|
  {
    SuccessesAll(Outcomes(build, flag, ids, oracle));
  }
}
